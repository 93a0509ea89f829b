# Wrestling coach backend — a Dafny model

This project models the Python analysis backend of the wrestling coach in Dafny 4.11.
The backend takes an uploaded practice video. It tracks one athlete through the frames,
measures knee bend, stance width and hand height, and answers with coaching pointers and a
link to an annotated video. The model covers the parts of that backend that decide things:

- **Box geometry and matching** (`boxes.dfy`, `detection.dfy`). Boxes are `{x, y, w, h}` in
  pixels. The model covers intersection over union and the post-processing of the person
  detector's raw output (confidence filter, consecutive ids, corner-to-size conversion). It
  also covers the IoU matcher and the automatic target choice, which share one loop shape: a
  thresholded arg-max where the earliest element wins ties.
- **The target tracker** (`tracking.dfy`). The lost-frame state machine of `TargetTracker` is a
  class with the source's fields (`lastBox`, `lostFrames`, whether a tracker exists). It is
  proved against a pure `Step` function, and lemmas about runs of frames are proved about that
  function. `expand_box` is modelled too.
- **The coaching rules** (`pose.dfy`). This covers landmark visibility gating, the per-frame
  metrics, the three strict-threshold rules with their fallback, and the aggregation step of
  `analyze_video`: the 600-frame cap, means per metric, rounding, and the no-pose error.
- **The HTTP handlers** (`api.dfy`). This covers filename defaulting, `Path.suffix` and the
  case-insensitive allow-list, and the naming of input file, output file and URL. It also
  covers the order in which `analyze` and `get_output` decide between 400, 404, 500 and
  success, with the file-system effects each path has.
- `numeric.dfy` spells out Python's `int(float)` (truncation toward zero) and `round(v, n)`
  (nearest, ties to even) on exact reals. `wrappers.dfy` holds `Option` and `Result`.

External components are parameters of the model:

- The YOLO detector is the raw result list it returns.
- The CSRT tracker is what its `update` and `init` calls return.
- MediaPipe and OpenCV are reduced to the per-frame pose result and the capture/writer checks.
- `calculate_angle` and the area/centre score of `auto_select_target` are function parameters.
- UUID parsing and file existence are predicates given to `GetOutput`.

## Model

| member | source | states |
|---|---|---|
| Numeric.Trunc | wrestling-coach/backend/analysis/detection.py:66-69 | `int(v)` on a float: for v ≥ 0 the result is the largest integer ≤ v and is non-negative; for v < 0 it is the smallest integer ≥ v and is ≤ 0 |
| Numeric.RoundTo | wrestling-coach/backend/analysis/pose_analyze.py:253-255 | `round(v, d)` with scale 10^d: the result times the scale is the integer nearest to v times the scale, ties to the even one |
| Numeric.RoundToClose | wrestling-coach/backend/analysis/pose_analyze.py:253-255 | rounding moves a value by at most half a unit of the last kept decimal |
| Boxes.Overlap | wrestling-coach/backend/analysis/detection.py:152-158 | the clamped overlap of two intervals is ≥ 0, positive exactly when the intervals properly overlap, and no longer than the first interval |
| Boxes.Iou | wrestling-coach/backend/analysis/detection.py:161-169 | a zero union gives 0.0, and so does a zero intersection |
| Boxes.IouSymmetric | wrestling-coach/backend/analysis/detection.py:144-169 | IoU(a, b) = IoU(b, a) |
| Boxes.IouZeroWhenSeparated | wrestling-coach/backend/analysis/detection.py:152-159 | boxes that are apart or only share an edge have IoU 0 |
| Boxes.IntersectionWithin | wrestling-coach/backend/analysis/detection.py:157-163 | for boxes of non-negative size the intersection area is between 0 and each box's area |
| Boxes.IouInUnitInterval | wrestling-coach/backend/analysis/detection.py:141-169 | for boxes of non-negative size the IoU lies in [0, 1], as the doc comment promises |
| Boxes.IouSelf | wrestling-coach/backend/analysis/detection.py:144-169 | a box of positive area has IoU 1 with itself |
| Boxes.FirstArgMaxAbove | wrestling-coach/backend/analysis/detection.py:191-198 | the index the compare-and-replace loop keeps is a valid index of the scores |
| Boxes.FirstArgMaxAboveSpec | wrestling-coach/backend/analysis/detection.py:191-198 | no index exactly when every score is ≤ the threshold; otherwise the chosen score is above the threshold, no score beats it, and every earlier score is strictly smaller, so the earliest maximum wins |
| Boxes.FirstArgMaxAboveUnique | wrestling-coach/backend/analysis/detection.py:191-198 | any index with those three properties is the one the loop chooses |
| Detection.NumberedSnoc | wrestling-coach/backend/analysis/detection.py:64-65 | an accepted box gets the id equal to the number of detections accepted before it |
| Detection.KeptAppend | wrestling-coach/backend/analysis/detection.py:56-59 | the confidence filter distributes over concatenation, so accepted boxes keep their order |
| Detection.KeptMembers | wrestling-coach/backend/analysis/detection.py:56-59 | a raw box is kept exactly when its confidence is at least the threshold |
| Detection.DetectPersons | wrestling-coach/backend/analysis/detection.py:50-73 | the loop over results and boxes returns the filtered boxes of all results in order, numbered 0..n-1 and converted to x, y, w, h |
| Detection.DetectionsFromKeptBoxes | wrestling-coach/backend/analysis/detection.py:56-71 | detection i has id i and comes from a raw box with confidence ≥ threshold, with x = int(x1), y = int(y1), w = int(x2 − x1), h = int(y2 − y1) |
| Detection.BestMatchSpec | wrestling-coach/backend/analysis/detection.py:188-200 | no match exactly when no IoU is strictly above `min_iou` (so also for an empty list); a match is a listed detection above `min_iou` with the largest IoU and no earlier detection as good |
| Detection.FindBestMatchByIou | wrestling-coach/backend/analysis/detection.py:188-200 | the loop with running best starting at `min_iou` and strict `>` returns exactly that match |
| Detection.BestMatch | wrestling-coach/backend/analysis/detection.py:188-200 | a reported match is one of the listed detections and overlaps the reference by more than `min_iou` |
| Detection.AutoSelectTarget | wrestling-coach/backend/analysis/detection.py:95-130 | None for no detections; the only detection for one; for several, the first with the highest score above −1; any result is one of the detections |
| Tracking.ExpandBox | wrestling-coach/backend/analysis/tracking.py:147-159 | the padded box starts at x ≥ 0, y ≥ 0, ends inside the frame, and is no wider than w + 2·trunc(w·ratio) and no taller than h + 2·trunc(h·ratio) |
| Tracking.ExpandBoxContains | wrestling-coach/backend/analysis/tracking.py:135-159 | a box inside the frame, padded with a non-negative ratio, lies inside its expansion, and the expansion has non-negative size |
| Tracking.ExpandBoxZeroPadding | wrestling-coach/backend/analysis/tracking.py:150-159 | with ratio 0 a box inside the frame comes back unchanged |
| Tracking.Reacquire | wrestling-coach/backend/analysis/tracking.py:98-105 | a re-acquired target is a detection of the 0.4-confidence run that overlaps the last box by more than 0.2; with no detection there is none |
| Tracking.Step | wrestling-coach/backend/analysis/tracking.py:58-86 | one `update`: the reported box is the one now held, the tracker flag is kept, and a failed call keeps the box |
| Tracking.StepReportsHeldBox | wrestling-coach/backend/analysis/tracking.py:58-86 | `update` returns the box it now holds and never drops its tracker; with no tracker it returns (False, last box) and changes nothing |
| Tracking.StepCounter | wrestling-coach/backend/analysis/tracking.py:64-86 | a tracked frame with both sides > 10 succeeds, holds exactly the tracker's truncated box and resets the counter; any other frame adds exactly 1, unless a re-acquisition succeeds with a successful init, which resets it; without tracking, success happens only once the counter reaches 15, exactly when re-acquisition finds a match, and then the held box is that match's box; a failed call keeps the box |
| Tracking.FailuresBelowLimitOnlyCount | wrestling-coach/backend/analysis/tracking.py:30-86 | fewer than 15 failed frames in a row only raise the counter by their number and leave the last box, whatever the detector sees |
| Tracking.FailuresWithoutDetectionsCount | wrestling-coach/backend/analysis/tracking.py:74-105 | while the tracker fails and the detector keeps no box at confidence 0.4, the counter counts every frame, also past 15, and the box stays |
| Tracking.TargetTracker.constructor | wrestling-coach/backend/analysis/tracking.py:27-33 | a new tracker holds the initial box, has a tracker and a zero counter |
| Tracking.TargetTracker.InitTracker | wrestling-coach/backend/analysis/tracking.py:37-46 | a tracker now exists; the counter resets only when init succeeds; the box is untouched |
| Tracking.TargetTracker.TryReacquire | wrestling-coach/backend/analysis/tracking.py:98-105 | detection at confidence 0.4, then the best IoU match (> 0.2) against the last box; None when nothing is detected |
| Tracking.TargetTracker.Update | wrestling-coach/backend/analysis/tracking.py:58-86 | the new fields and the returned flag and box are exactly those of `Step` on the old fields |
| Tracking.TargetTracker.ForceReacquire | wrestling-coach/backend/analysis/tracking.py:117-122 | succeeds exactly when re-acquisition finds a match; then the box is the match's box and init runs; otherwise nothing changes |
| Tracking.TargetTracker.GetCurrentBox | wrestling-coach/backend/analysis/tracking.py:124-126 | the current box is the last box held |
| PoseAnalysis.GetLandmarkCoords | wrestling-coach/backend/analysis/pose_analyze.py:54-59 | None exactly when visibility is below 0.5, otherwise the landmark's x and y |
| PoseAnalysis.AnalyzeFrame | wrestling-coach/backend/analysis/pose_analyze.py:67-110 | knee angle present exactly when one leg has hip, knee and ankle visible, and equal to that leg's angle or the mean of both; stance width present exactly when both hips and ankles are visible, equal to the ankles' horizontal distance and ≥ 0; hands drop present exactly when both shoulders and wrists are visible, equal to mean wrist y minus mean shoulder y |
| PoseAnalysis.GeneratePointers | wrestling-coach/backend/analysis/pose_analyze.py:118-152 | never empty; "Get Lower", "Widen Your Base" and "Hands Up" each appear exactly when knee > 145, stance < 0.18 and hands drop > 0.10 (a missing metric never fires); they appear at most once each in that order; "Solid Rep" appears exactly when no rule fires, and then alone |
| PoseAnalysis.RankedListsWithSameMembersAgree | wrestling-coach/backend/analysis/pose_analyze.py:118-152 | two pointer lists in rule order with the same members are equal |
| PoseAnalysis.PointersForUnique | wrestling-coach/backend/analysis/pose_analyze.py:118-152 | the promise of the rules engine allows exactly one list for given metrics |
| PoseAnalysis.ThresholdsAreStrict | wrestling-coach/backend/analysis/pose_analyze.py:31-33 | metrics exactly at 145, 0.18 and 0.10 trigger no rule, so the answer is "Solid Rep" only |
| PoseAnalysis.SamplesEmptyIff | wrestling-coach/backend/analysis/pose_analyze.py:229-238 | a metric has no samples exactly when no frame with a pose has that metric |
| PoseAnalysis.SamplesAtMostAnalysed | wrestling-coach/backend/analysis/pose_analyze.py:229-238 | samples of a metric ≤ analysed frames ≤ frames read |
| PoseAnalysis.MeanWithin | wrestling-coach/backend/analysis/pose_analyze.py:253-255 | the mean of samples lies between any lower and upper bound of the samples |
| PoseAnalysis.AverageAbsentIff | wrestling-coach/backend/analysis/pose_analyze.py:252-256 | each average in the metrics is None exactly when no processed frame contributed that metric |
| PoseAnalysis.RoundOption | wrestling-coach/backend/analysis/pose_analyze.py:253-255 | rounding keeps an absent average absent, and moves a present one by at most half a unit of the last kept decimal |
| PoseAnalysis.Aggregate | wrestling-coach/backend/analysis/pose_analyze.py:252-257 | the metrics dictionary: `frames_analyzed` is the number of frames with a pose; each average is present exactly when its metric has samples, and is within half a unit of the last kept decimal (2, 3, 3) of their mean |
| PoseAnalysis.AnalyzeVideo | wrestling-coach/backend/analysis/pose_analyze.py:169-265 | the capture checks fail in order (cannot open, zero size, no writer); otherwise at most the first 600 frames are read; zero frames with a pose is an error; otherwise the metrics are the rounded means over those frames and the pointers satisfy the rules engine's promise for them |
| Api.EffectiveFilename | wrestling-coach/backend/main.py:53 | a missing or empty name becomes "video.mp4", any other name is kept; the result is never empty |
| Api.Suffix | wrestling-coach/backend/main.py:54 | the suffix is empty or a dot followed by at least one character, with no further dot and no '/' |
| Api.FinalComponent | wrestling-coach/backend/main.py:54 | `Path.name`: the last component of the path once trailing '/' are stripped; it holds no '/' and is preceded by '/' or is the whole path |
| Api.NoDotNoSuffix | wrestling-coach/backend/main.py:54 | a path without any dot has the empty suffix |
| Api.TrailingDotNoSuffix | wrestling-coach/backend/main.py:54 | a name ending in its dot ("video.") has the empty suffix |
| Api.SuffixOfFinalComponent | wrestling-coach/backend/main.py:54 | only the final component counts: the suffix of dir/name is the suffix of name, so "a.mp4/b" has none |
| Api.Lower | wrestling-coach/backend/main.py:54 | same length, each character lower-cased |
| Api.SuffixOfStemAndExtension | wrestling-coach/backend/main.py:54 | for a non-empty stem without '/', the suffix of stem + ".ext" is ".ext", whatever dots the stem has |
| Api.AcceptedInAnyCase | wrestling-coach/backend/main.py:36-56 | an extension that lower-cases into {.mp4, .mov, .avi, .mkv, .webm} is accepted in any letter case, so ".MP4" passes |
| Api.LeadingDotOnlyRejected | wrestling-coach/backend/main.py:54-60 | a name whose only dot is the leading one (".mp4") has an empty suffix and is rejected |
| Api.InputPath | wrestling-coach/backend/main.py:66 | the saved upload in the upload directory is named by the job id, '_' and the upload's own name |
| Api.OutputPath | wrestling-coach/backend/main.py:67 | the annotated video in the output directory is named by the job id followed by "_annotated.mp4" |
| Api.OutputUrl | wrestling-coach/backend/main.py:96 | the download URL is "/api/output/" followed by the job id |
| Api.JobFilesDistinct | wrestling-coach/backend/main.py:66-67 | different job ids never share an output file or a URL, and, at equal id length, never an upload file, whatever the uploads are called; an upload never collides with an output |
| Api.Analyze | wrestling-coach/backend/main.py:52-97 | every error is a 400 or a 500; a success carries the request's job id and comes only from a completed analysis |
| Api.UnsupportedRejectedBeforeWrite | wrestling-coach/backend/main.py:56-60 | an unsupported extension gives 400 with that extension and no file-system effect, whatever the rest of the request |
| Api.SaveFailureAnswers500 | wrestling-coach/backend/main.py:65-75 | with an accepted extension, an upload that cannot be saved gives 500 and no other effect, whatever the analysis would have done |
| Api.FailedAnalysisCleansUp | wrestling-coach/backend/main.py:78-89 | a `ValueError` from analysis gives 400 and any other failure 500; both write then remove "{job_id}_{filename}" |
| Api.SuccessNaming | wrestling-coach/backend/main.py:66-96 | a success writes "{job_id}_{filename}" in the upload directory and "{job_id}_annotated.mp4" in the output directory, and answers with the URL "/api/output/{job_id}" |
| Api.GetOutput | wrestling-coach/backend/main.py:105-121 | a malformed id gives 400; a valid id whose "{job_id}_annotated.mp4" is missing gives 404; otherwise that file as "video/mp4" named "wrestling_analysis_{job_id}.mp4" |
| Api.InvalidIdRejectedBeforeLookup | wrestling-coach/backend/main.py:106-109 | a malformed id gives 400 whatever the file system holds |
| Api.GetOutputLooksUpOneFile | wrestling-coach/backend/main.py:112-115 | the answer depends on the file system only through the job's own output file |
| Api.AnnotatedUrlIsServed | wrestling-coach/backend/main.py:67-121 | once the files a successful analysis wrote exist, `get_output` on the job id of the URL it returned serves a file that analysis wrote, under the job's download name |

## Left out

- YOLO inference and the lazily loaded model (`get_yolo_model`) are not modelled. The detector's raw results are a parameter, because the network cannot be modelled.
- The CSRT tracker's internals are not modelled. What `update` and `init` return on a frame are parameters of `Update`, `InitTracker` and the constructor.
- OpenCV capture, writer, colour conversion and drawing, and MediaPipe pose processing are left out. They are video I/O. `AnalyzeVideo` receives whether the capture and writer opened, the frame size, and one pose result per frame the capture would deliver. `None` stands for a frame without a pose. For the other frames the input is the metrics `analyze_frame` computes; the two are not connected inside the model.
- `calculate_angle` (numpy arccos and norms) is the parameter `angle` of `AnalyzeFrame`.
- The area/centre-distance score of `auto_select_target` (square roots, weights 0.6/0.4) is the parameter `score`.
- Floats are exact reals, so binary floating-point representation and its rounding errors are not modelled. The thresholds 0.18 and 0.10 are the exact decimals. `round` is round-half-even on those exact values.
- The "why"/"fix" texts of pointers and the error messages are left out. Only the titles (`Title`) and the reason of each error are modelled.
- FastAPI routing, CORS, directory creation, `FileResponse` streaming and `uvicorn` are left out: they are web-server plumbing. `uuid.uuid4` is the parameter `jobId`, and `uuid.UUID` parsing is the predicate `isUuid`.
- Api.Analyze: a failed save is answered with 500 and no effect. The model does not say whether a partial file was left on disk, nor that the annotated video written during a failed analysis stays in the output directory.
- Api.Analyze: the outcome of `analyze_video` is a parameter, because the upload's content is not modelled. It is not computed by `PoseAnalysis.AnalyzeVideo`; the two share only the error and report types.
- Tracking.TargetTracker.Update: after a re-acquisition the source stores the whole detection dictionary as `last_box`, including its `id` and `score` keys. The model keeps only the box, which is all any later step reads.
- `fps` and `total_frames` of `analyze_video` are left out: one only configures the writer and the other is never used.
- Api.Analyze: a `ValueError` raised inside the analysis other than the four that `analyze_video` raises itself (from a codec or MediaPipe, say) also gives 400, with its own message. The model can only express it as `Rejected` with one of the four reasons: the status is right, but the reason is not that exception's message.
- Api.Suffix: follows `Path.suffix` as in Python before 3.14, where a name ending in a dot ("video.") has the empty suffix rather than ".".
- Api.Lower: lower-cases ASCII letters only, because Python's `str.lower` is Unicode-wide.
- Api.Suffix: follows POSIX paths and strips trailing '/' only. Path normalisation of "." components and Windows separators is not modelled.
- `model_utils.py` is not part of this model: it only downloads model files over the network and prints.
- `__init__.py` is not part of this model: it only re-exports names.
- The browser client is not modelled.
