/** Pose analysis (`analysis/pose_analyze.py`): landmark visibility gating,
    the per-frame metrics, the coaching rules, and the aggregation step of
    `analyze_video`. MediaPipe, OpenCV and `calculate_angle` are outside the
    model: the angle is a function parameter and the per-frame pose results
    are a sequence given to the aggregation. */
module PoseAnalysis {
  import opened Wrappers
  import opened Numeric

  // MediaPipe pose landmark indices.
  const LeftShoulder: nat := 11
  const RightShoulder: nat := 12
  const LeftWrist: nat := 15
  const RightWrist: nat := 16
  const LeftHip: nat := 23
  const RightHip: nat := 24
  const LeftKnee: nat := 25
  const RightKnee: nat := 26
  const LeftAnkle: nat := 27
  const RightAnkle: nat := 28

  /** A landmark counts only with at least this visibility. */
  const MinVisibility: real := 0.5

  // Rule thresholds.
  const KneeAngleThreshold: real := 145.0
  const StanceWidthThreshold: real := 0.18
  const HandsDropThreshold: real := 0.10

  /** At most this many frames are read from a video. */
  const MaxFrames: nat := 600

  /** A pose landmark in normalised image coordinates (y grows downward). */
  datatype Landmark = Landmark(x: real, y: real, visibility: real)

  datatype Point = Point(x: real, y: real)

  /** Metrics of one frame; None where the landmarks needed were not visible. */
  datatype FrameMetrics = FrameMetrics(kneeAngle: Option<real>, stanceWidth: Option<real>, handsDrop: Option<real>)

  function Abs(v: real): real { if v < 0.0 then -v else v }

  predicate Visible(lms: seq<Landmark>, i: nat)
    requires i < |lms|
  {
    lms[i].visibility >= MinVisibility
  }

  function At(lms: seq<Landmark>, i: nat): Point
    requires i < |lms|
  {
    Point(lms[i].x, lms[i].y)
  }

  /** `get_landmark_coords`: the point, or None when visibility is below 0.5. */
  function GetLandmarkCoords(lms: seq<Landmark>, idx: nat): (r: Option<Point>)
    requires idx < |lms|
    ensures r.None? <==> lms[idx].visibility < MinVisibility
    ensures r.Some? ==> r.value.x == lms[idx].x && r.value.y == lms[idx].y
  {
    var lm := lms[idx];
    if lm.visibility < MinVisibility then None else Some(Point(lm.x, lm.y))
  }

  predicate LeftLegVisible(lms: seq<Landmark>)
    requires |lms| > RightAnkle
  {
    Visible(lms, LeftHip) && Visible(lms, LeftKnee) && Visible(lms, LeftAnkle)
  }

  predicate RightLegVisible(lms: seq<Landmark>)
    requires |lms| > RightAnkle
  {
    Visible(lms, RightHip) && Visible(lms, RightKnee) && Visible(lms, RightAnkle)
  }

  function Sum(s: seq<real>): real
  {
    if s == [] then 0.0 else Sum(s[..|s| - 1]) + s[|s| - 1]
  }

  lemma SumSingle(a: real)
    ensures Sum([a]) == a
  {
    assert [a][..0] == [];
  }

  lemma SumPair(a: real, b: real)
    ensures Sum([a, b]) == a + b
  {
    assert [a, b][..1] == [a];
    SumSingle(a);
  }

  /** The mean over the legs whose joints are visible: one leg's angle, or the
      average of both. */
  lemma KneeMean(angles: seq<real>, leftSeen: bool, rightSeen: bool, left: real, right: real)
    requires angles == (if leftSeen then [left] else []) + (if rightSeen then [right] else [])
    ensures |angles| > 0 <==> leftSeen || rightSeen
    ensures leftSeen && rightSeen ==> Sum(angles) / |angles| as real == (left + right) / 2.0
    ensures leftSeen && !rightSeen ==> Sum(angles) / |angles| as real == left
    ensures !leftSeen && rightSeen ==> Sum(angles) / |angles| as real == right
  {
    if leftSeen && rightSeen {
      assert angles == [left, right];
      SumPair(left, right);
    } else if leftSeen {
      assert angles == [left];
      SumSingle(left);
    } else if rightSeen {
      assert angles == [right];
      SumSingle(right);
    }
  }

  /** `analyze_frame`. `angle(a, b, c)` is the angle at `b` that
      `calculate_angle` computes. */
  method AnalyzeFrame(lms: seq<Landmark>, angle: (Point, Point, Point) -> real) returns (m: FrameMetrics)
    requires |lms| > RightAnkle
    ensures m.kneeAngle.Some? <==> LeftLegVisible(lms) || RightLegVisible(lms)
    ensures LeftLegVisible(lms) && RightLegVisible(lms) ==>
      m.kneeAngle == Some((angle(At(lms, LeftHip), At(lms, LeftKnee), At(lms, LeftAnkle)) +
                           angle(At(lms, RightHip), At(lms, RightKnee), At(lms, RightAnkle))) / 2.0)
    ensures LeftLegVisible(lms) && !RightLegVisible(lms) ==>
      m.kneeAngle == Some(angle(At(lms, LeftHip), At(lms, LeftKnee), At(lms, LeftAnkle)))
    ensures !LeftLegVisible(lms) && RightLegVisible(lms) ==>
      m.kneeAngle == Some(angle(At(lms, RightHip), At(lms, RightKnee), At(lms, RightAnkle)))
    ensures m.stanceWidth.Some? <==>
      Visible(lms, LeftAnkle) && Visible(lms, RightAnkle) && Visible(lms, LeftHip) && Visible(lms, RightHip)
    ensures m.stanceWidth.Some? ==>
      m.stanceWidth.value >= 0.0 && m.stanceWidth.value == Abs(lms[LeftAnkle].x - lms[RightAnkle].x)
    ensures m.handsDrop.Some? <==>
      Visible(lms, LeftShoulder) && Visible(lms, RightShoulder) && Visible(lms, LeftWrist) && Visible(lms, RightWrist)
    ensures m.handsDrop.Some? ==>
      m.handsDrop.value == (lms[LeftWrist].y + lms[RightWrist].y) / 2.0 - (lms[LeftShoulder].y + lms[RightShoulder].y) / 2.0
  {
    m := FrameMetrics(None, None, None);

    var leftHip := GetLandmarkCoords(lms, LeftHip);
    var rightHip := GetLandmarkCoords(lms, RightHip);
    var leftKnee := GetLandmarkCoords(lms, LeftKnee);
    var rightKnee := GetLandmarkCoords(lms, RightKnee);
    var leftAnkle := GetLandmarkCoords(lms, LeftAnkle);
    var rightAnkle := GetLandmarkCoords(lms, RightAnkle);
    var leftShoulder := GetLandmarkCoords(lms, LeftShoulder);
    var rightShoulder := GetLandmarkCoords(lms, RightShoulder);
    var leftWrist := GetLandmarkCoords(lms, LeftWrist);
    var rightWrist := GetLandmarkCoords(lms, RightWrist);

    // Knee angle: the mean over the legs whose three joints are visible.
    assert leftHip.Some? ==> leftHip.value == At(lms, LeftHip);
    assert leftKnee.Some? ==> leftKnee.value == At(lms, LeftKnee);
    assert leftAnkle.Some? ==> leftAnkle.value == At(lms, LeftAnkle);
    assert rightHip.Some? ==> rightHip.value == At(lms, RightHip);
    assert rightKnee.Some? ==> rightKnee.value == At(lms, RightKnee);
    assert rightAnkle.Some? ==> rightAnkle.value == At(lms, RightAnkle);
    ghost var left := angle(At(lms, LeftHip), At(lms, LeftKnee), At(lms, LeftAnkle));
    ghost var right := angle(At(lms, RightHip), At(lms, RightKnee), At(lms, RightAnkle));
    var kneeAngles: seq<real> := [];
    if leftHip.Some? && leftKnee.Some? && leftAnkle.Some? {
      kneeAngles := kneeAngles + [angle(leftHip.value, leftKnee.value, leftAnkle.value)];
    }
    if rightHip.Some? && rightKnee.Some? && rightAnkle.Some? {
      kneeAngles := kneeAngles + [angle(rightHip.value, rightKnee.value, rightAnkle.value)];
    }
    KneeMean(kneeAngles, LeftLegVisible(lms), RightLegVisible(lms), left, right);
    if |kneeAngles| > 0 {
      m := m.(kneeAngle := Some(Sum(kneeAngles) / |kneeAngles| as real));
    }

    // Stance width: horizontal ankle distance (the hip distance the source
    // also computes is never used).
    if leftAnkle.Some? && rightAnkle.Some? && leftHip.Some? && rightHip.Some? {
      var ankleDist := Abs(leftAnkle.value.x - rightAnkle.value.x);
      m := m.(stanceWidth := Some(ankleDist));
    }

    // Hands drop: mean wrist height minus mean shoulder height.
    if leftShoulder.Some? && rightShoulder.Some? && leftWrist.Some? && rightWrist.Some? {
      var shoulderY := (leftShoulder.value.y + rightShoulder.value.y) / 2.0;
      var wristY := (leftWrist.value.y + rightWrist.value.y) / 2.0;
      m := m.(handsDrop := Some(wristY - shoulderY));
    }
  }

  // ---------------------------------------------------------------------
  // Coaching rules

  /** Coaching pointers, by title. */
  datatype Pointer = GetLower | WidenYourBase | HandsUp | SolidRep

  function Title(p: Pointer): string
  {
    match p
    case GetLower => "Get Lower"
    case WidenYourBase => "Widen Your Base"
    case HandsUp => "Hands Up"
    case SolidRep => "Solid Rep"
  }

  /** Position of each pointer in the rules engine's output order. */
  function Rank(p: Pointer): nat
  {
    match p
    case GetLower => 0
    case WidenYourBase => 1
    case HandsUp => 2
    case SolidRep => 3
  }

  /** Aggregated metrics of a video, as passed to the rules engine. */
  datatype VideoMetrics = VideoMetrics(kneeAngleAvg: Option<real>, stanceWidthAvg: Option<real>,
                                       handsDropAvg: Option<real>, framesAnalyzed: nat)

  predicate TooUpright(m: VideoMetrics)
  {
    m.kneeAngleAvg.Some? && m.kneeAngleAvg.value > KneeAngleThreshold
  }

  predicate TooNarrow(m: VideoMetrics)
  {
    m.stanceWidthAvg.Some? && m.stanceWidthAvg.value < StanceWidthThreshold
  }

  predicate HandsTooLow(m: VideoMetrics)
  {
    m.handsDropAvg.Some? && m.handsDropAvg.value > HandsDropThreshold
  }

  predicate StrictlyRanked(ps: seq<Pointer>)
  {
    forall i, j :: 0 <= i < j < |ps| ==> Rank(ps[i]) < Rank(ps[j])
  }

  /** What the rules engine promises about its answer for `m`. */
  predicate PointersFor(m: VideoMetrics, ps: seq<Pointer>)
  {
    && |ps| >= 1
    && (GetLower in ps <==> TooUpright(m))
    && (WidenYourBase in ps <==> TooNarrow(m))
    && (HandsUp in ps <==> HandsTooLow(m))
    && (SolidRep in ps <==> !TooUpright(m) && !TooNarrow(m) && !HandsTooLow(m))
    && (SolidRep in ps ==> ps == [SolidRep])
    && StrictlyRanked(ps)
  }

  /** `generate_pointers`: three strict-threshold rules, then the fallback. */
  method GeneratePointers(m: VideoMetrics) returns (ps: seq<Pointer>)
    ensures PointersFor(m, ps)
  {
    ps := [];
    if m.kneeAngleAvg.Some? && m.kneeAngleAvg.value > KneeAngleThreshold {
      ps := ps + [GetLower];
    }
    if m.stanceWidthAvg.Some? && m.stanceWidthAvg.value < StanceWidthThreshold {
      ps := ps + [WidenYourBase];
    }
    if m.handsDropAvg.Some? && m.handsDropAvg.value > HandsDropThreshold {
      ps := ps + [HandsUp];
    }
    if ps == [] {
      ps := ps + [SolidRep];
    }
  }

  /** In a list in rule order the head has the smallest rank, and the tail
      holds every other member. */
  lemma RankedHeadAndTail(a: seq<Pointer>, p: Pointer)
    requires StrictlyRanked(a) && a != []
    ensures p in a ==> Rank(a[0]) <= Rank(p)
    ensures p in a[1..] <==> p in a && p != a[0]
    ensures StrictlyRanked(a[1..])
  {
    if p in a {
      var i :| 0 <= i < |a| && a[i] == p;
      if i > 0 {
        assert Rank(a[0]) < Rank(a[i]);
        assert a[1..][i - 1] == p;
      }
    }
    if p in a[1..] {
      var i :| 0 <= i < |a[1..]| && a[1..][i] == p;
      assert a[i + 1] == p;
      assert Rank(a[0]) < Rank(a[i + 1]);
    }
    forall i, j | 0 <= i < j < |a[1..]|
      ensures Rank(a[1..][i]) < Rank(a[1..][j])
    {
      assert a[1..][i] == a[i + 1] && a[1..][j] == a[j + 1];
    }
  }

  /** Two pointer lists in rule order with the same members are the same list. */
  lemma {:induction false} RankedListsWithSameMembersAgree(a: seq<Pointer>, b: seq<Pointer>)
    requires StrictlyRanked(a) && StrictlyRanked(b)
    requires forall p :: p in a <==> p in b
    ensures a == b
    decreases |a|
  {
    if b != [] {
      assert b[0] in b;
    }
    if a != [] {
      assert a[0] in a && a[0] in b;
      assert b != [];
      assert b[0] in b && b[0] in a;
      RankedHeadAndTail(a, b[0]);
      RankedHeadAndTail(b, a[0]);
      assert a[0] == b[0];
      forall p
        ensures p in a[1..] <==> p in b[1..]
      {
        RankedHeadAndTail(a, p);
        RankedHeadAndTail(b, p);
      }
      RankedListsWithSameMembersAgree(a[1..], b[1..]);
      assert a == [a[0]] + a[1..];
      assert b == [b[0]] + b[1..];
    }
  }

  /** The rules engine's promise leaves exactly one possible answer. */
  lemma PointersForUnique(m: VideoMetrics, a: seq<Pointer>, b: seq<Pointer>)
    requires PointersFor(m, a) && PointersFor(m, b)
    ensures a == b
  {
    RankedListsWithSameMembersAgree(a, b);
  }

  /** Values exactly at the thresholds do not trigger any rule. */
  lemma ThresholdsAreStrict(ps: seq<Pointer>, frames: nat)
    requires PointersFor(VideoMetrics(Some(KneeAngleThreshold), Some(StanceWidthThreshold),
                                      Some(HandsDropThreshold), frames), ps)
    ensures ps == [SolidRep]
  {
  }

  // ---------------------------------------------------------------------
  // Aggregation over the frames of a video

  datatype MetricKind = KneeAngle | StanceWidth | HandsDrop

  function Pick(f: FrameMetrics, k: MetricKind): Option<real>
  {
    match k
    case KneeAngle => f.kneeAngle
    case StanceWidth => f.stanceWidth
    case HandsDrop => f.handsDrop
  }

  /** One entry per frame read: None when MediaPipe found no pose in it,
      otherwise the metrics `analyze_frame` computed for it. */
  type PoseFrame = Option<FrameMetrics>

  /** The values of metric `k` collected over the frames, in frame order. */
  function Samples(frames: seq<PoseFrame>, k: MetricKind): seq<real>
  {
    if frames == [] then []
    else
      var last := frames[|frames| - 1];
      Samples(frames[..|frames| - 1], k) +
        (if last.Some? && Pick(last.value, k).Some? then [Pick(last.value, k).value] else [])
  }

  /** Number of frames with a pose. */
  function CountAnalysed(frames: seq<PoseFrame>): nat
  {
    if frames == [] then 0
    else CountAnalysed(frames[..|frames| - 1]) + (if frames[|frames| - 1].Some? then 1 else 0)
  }

  function Mean(s: seq<real>): Option<real>
  {
    if s == [] then None else Some(Sum(s) / |s| as real)
  }

  /** `round` applied to an average that may be absent. */
  function RoundOption(v: Option<real>, scale: nat): (r: Option<real>)
    requires scale > 0
    ensures r.Some? <==> v.Some?
    ensures r.Some? ==> -0.5 <= (r.value - v.value) * scale as real <= 0.5
  {
    if v.None? then None
    else
      RoundToClose(v.value, scale);
      Some(RoundTo(v.value, scale))
  }

  /** The frames the capture loop reads: at most `MaxFrames`. */
  function Processed(frames: seq<PoseFrame>): seq<PoseFrame>
  {
    if |frames| <= MaxFrames then frames else frames[..MaxFrames]
  }

  /** The metrics dictionary: means rounded to 2, 3 and 3 decimals. An average
      is present exactly when its metric has samples, and lies within half a
      unit of the last kept decimal of their mean. */
  function Aggregate(frames: seq<PoseFrame>): (m: VideoMetrics)
    ensures m.framesAnalyzed == CountAnalysed(frames)
    ensures m.kneeAngleAvg.Some? <==> Samples(frames, KneeAngle) != []
    ensures m.stanceWidthAvg.Some? <==> Samples(frames, StanceWidth) != []
    ensures m.handsDropAvg.Some? <==> Samples(frames, HandsDrop) != []
    ensures m.kneeAngleAvg.Some? ==>
      -0.5 <= (m.kneeAngleAvg.value - Mean(Samples(frames, KneeAngle)).value) * 100.0 <= 0.5
    ensures m.stanceWidthAvg.Some? ==>
      -0.5 <= (m.stanceWidthAvg.value - Mean(Samples(frames, StanceWidth)).value) * 1000.0 <= 0.5
    ensures m.handsDropAvg.Some? ==>
      -0.5 <= (m.handsDropAvg.value - Mean(Samples(frames, HandsDrop)).value) * 1000.0 <= 0.5
  {
    VideoMetrics(RoundOption(Mean(Samples(frames, KneeAngle)), 100),
                 RoundOption(Mean(Samples(frames, StanceWidth)), 1000),
                 RoundOption(Mean(Samples(frames, HandsDrop)), 1000),
                 CountAnalysed(frames))
  }

  /** No samples of a metric exactly when no frame contributed that metric. */
  lemma {:induction false} SamplesEmptyIff(frames: seq<PoseFrame>, k: MetricKind)
    ensures Samples(frames, k) == [] <==>
      forall i :: 0 <= i < |frames| ==> frames[i].None? || Pick(frames[i].value, k).None?
  {
    if frames != [] {
      var init := frames[..|frames| - 1];
      SamplesEmptyIff(init, k);
      assert forall i :: 0 <= i < |init| ==> init[i] == frames[i];
    }
  }

  /** Every sample comes from a frame with a pose, so there are no more
      samples than analysed frames, and no more of those than frames. */
  lemma {:induction false} SamplesAtMostAnalysed(frames: seq<PoseFrame>, k: MetricKind)
    ensures |Samples(frames, k)| <= CountAnalysed(frames) <= |frames|
  {
    if frames != [] {
      SamplesAtMostAnalysed(frames[..|frames| - 1], k);
    }
  }

  lemma {:induction false} SumWithin(s: seq<real>, lo: real, hi: real)
    requires forall i :: 0 <= i < |s| ==> lo <= s[i] <= hi
    ensures |s| as real * lo <= Sum(s) <= |s| as real * hi
  {
    if s != [] {
      var init := s[..|s| - 1];
      assert forall i :: 0 <= i < |init| ==> init[i] == s[i];
      SumWithin(init, lo, hi);
      assert |s| as real * lo == |init| as real * lo + lo;
      assert |s| as real * hi == |init| as real * hi + hi;
    }
  }

  /** A mean lies between the smallest and the largest sample. */
  lemma MeanWithin(s: seq<real>, lo: real, hi: real)
    requires s != []
    requires forall i :: 0 <= i < |s| ==> lo <= s[i] <= hi
    ensures Mean(s).Some? && lo <= Mean(s).value <= hi
  {
    SumWithin(s, lo, hi);
    var n := |s| as real;
    assert n > 0.0;
    assert Sum(s) / n >= lo by {
      assert Sum(s) >= n * lo;
    }
    assert Sum(s) / n <= hi by {
      assert Sum(s) <= n * hi;
    }
  }

  /** An average of the metrics dictionary is None exactly when no processed
      frame contributed that metric. */
  lemma AverageAbsentIff(frames: seq<PoseFrame>)
    ensures var m := Aggregate(Processed(frames));
            var p := Processed(frames);
            && (m.kneeAngleAvg.None? <==>
                 forall i :: 0 <= i < |p| ==> p[i].None? || p[i].value.kneeAngle.None?)
            && (m.stanceWidthAvg.None? <==>
                 forall i :: 0 <= i < |p| ==> p[i].None? || p[i].value.stanceWidth.None?)
            && (m.handsDropAvg.None? <==>
                 forall i :: 0 <= i < |p| ==> p[i].None? || p[i].value.handsDrop.None?)
  {
    var p := Processed(frames);
    SamplesEmptyIff(p, KneeAngle);
    SamplesEmptyIff(p, StanceWidth);
    SamplesEmptyIff(p, HandsDrop);
  }

  /** The inline means and roundings of `analyze_video` over the collected
      samples are the metrics dictionary of those frames. */
  lemma AggregateOfCollected(p: seq<PoseFrame>, knee: seq<real>, stance: seq<real>, hands: seq<real>, n: nat)
    requires knee == Samples(p, KneeAngle) && stance == Samples(p, StanceWidth)
    requires hands == Samples(p, HandsDrop) && n == CountAnalysed(p)
    ensures Aggregate(p) == VideoMetrics(
      if |knee| > 0 then Some(RoundTo(Sum(knee) / |knee| as real, 100)) else None,
      if |stance| > 0 then Some(RoundTo(Sum(stance) / |stance| as real, 1000)) else None,
      if |hands| > 0 then Some(RoundTo(Sum(hands) / |hands| as real, 1000)) else None,
      n)
  {
  }

  /** What the capture returns before frames are read. */
  datatype VideoSource = VideoSource(isOpened: bool, width: int, height: int, writerOpened: bool)

  /** The `ValueError`s `analyze_video` raises. */
  datatype AnalysisError = CannotOpen | InvalidDimensions | WriterFailed | NoPoseDetected

  datatype Report = Report(pointers: seq<Pointer>, metrics: VideoMetrics)

  /** `analyze_video` without the video I/O: the capture checks in order, the
      capped frame loop that collects samples, the no-pose error, and the
      rules engine on the aggregated metrics. */
  method AnalyzeVideo(video: VideoSource, frames: seq<PoseFrame>) returns (r: Result<Report, AnalysisError>)
    ensures !video.isOpened ==> r == Failure(CannotOpen)
    ensures video.isOpened && (video.width == 0 || video.height == 0) ==> r == Failure(InvalidDimensions)
    ensures video.isOpened && video.width != 0 && video.height != 0 && !video.writerOpened ==>
      r == Failure(WriterFailed)
    ensures video.isOpened && video.width != 0 && video.height != 0 && video.writerOpened ==>
      var p := Processed(frames);
      && (CountAnalysed(p) == 0 <==> r == Failure(NoPoseDetected))
      && (CountAnalysed(p) > 0 ==>
            r.Success? && r.value.metrics == Aggregate(p) && PointersFor(r.value.metrics, r.value.pointers))
  {
    if !video.isOpened {
      return Failure(CannotOpen);
    }
    if video.width == 0 || video.height == 0 {
      return Failure(InvalidDimensions);
    }
    if !video.writerOpened {
      return Failure(WriterFailed);
    }

    var kneeAngles: seq<real> := [];
    var stanceWidths: seq<real> := [];
    var handsDrops: seq<real> := [];
    var framesAnalyzed: nat := 0;
    var frameCount: nat := 0;
    while frameCount < MaxFrames
      invariant frameCount <= MaxFrames && frameCount <= |frames|
      invariant kneeAngles == Samples(frames[..frameCount], KneeAngle)
      invariant stanceWidths == Samples(frames[..frameCount], StanceWidth)
      invariant handsDrops == Samples(frames[..frameCount], HandsDrop)
      invariant framesAnalyzed == CountAnalysed(frames[..frameCount])
    {
      if frameCount == |frames| {
        break;  // the capture has no more frames
      }
      var f := frames[frameCount];
      assert frames[..frameCount + 1][..frameCount] == frames[..frameCount];
      frameCount := frameCount + 1;
      if f.Some? {
        framesAnalyzed := framesAnalyzed + 1;
        if f.value.kneeAngle.Some? {
          kneeAngles := kneeAngles + [f.value.kneeAngle.value];
        }
        if f.value.stanceWidth.Some? {
          stanceWidths := stanceWidths + [f.value.stanceWidth.value];
        }
        if f.value.handsDrop.Some? {
          handsDrops := handsDrops + [f.value.handsDrop.value];
        }
      }
    }
    assert frames[..frameCount] == Processed(frames);

    if framesAnalyzed == 0 {
      return Failure(NoPoseDetected);
    }
    var metrics := VideoMetrics(
      if |kneeAngles| > 0 then Some(RoundTo(Sum(kneeAngles) / |kneeAngles| as real, 100)) else None,
      if |stanceWidths| > 0 then Some(RoundTo(Sum(stanceWidths) / |stanceWidths| as real, 1000)) else None,
      if |handsDrops| > 0 then Some(RoundTo(Sum(handsDrops) / |handsDrops| as real, 1000)) else None,
      framesAnalyzed);
    AggregateOfCollected(Processed(frames), kneeAngles, stanceWidths, handsDrops, framesAnalyzed);
    var pointers := GeneratePointers(metrics);
    return Success(Report(pointers, metrics));
  }
}
