/** The HTTP handlers of the backend (`main.py`): upload validation and
    naming in `analyze`, the order of its error decisions, and `get_output`.
    File contents, the web framework and UUID generation are outside the
    model: the new job id, whether saving worked, how the analysis ended,
    UUID parsing and file existence are parameters. */
module Api {
  import opened Wrappers
  import PoseAnalysis

  /** Name used when the upload carries no file name. */
  const DefaultFilename: string := "video.mp4"

  /** Accepted video extensions, lower case, with the dot. */
  const SupportedExtensions: set<string> := {".mp4", ".mov", ".avi", ".mkv", ".webm"}

  /** `file.filename or "video.mp4"`: a missing or empty name falls back to the default. */
  function EffectiveFilename(uploaded: Option<string>): (f: string)
    ensures f != ""
    ensures uploaded.Some? && uploaded.value != "" ==> f == uploaded.value
    ensures uploaded.None? || uploaded.value == "" ==> f == DefaultFilename
  {
    if uploaded.Some? && uploaded.value != "" then uploaded.value else DefaultFilename
  }

  // ---------------------------------------------------------------------
  // Path.suffix

  /** `str.rfind`: the last index of `c` in `s`, or -1. */
  function LastIndexOf(s: string, c: char): (r: int)
    ensures -1 <= r < |s|
    ensures r >= 0 ==> s[r] == c && forall j :: r < j < |s| ==> s[j] != c
    ensures r == -1 ==> forall j :: 0 <= j < |s| ==> s[j] != c
  {
    if s == [] then -1
    else if s[|s| - 1] == c then |s| - 1
    else LastIndexOf(s[..|s| - 1], c)
  }

  /** A path without its trailing separators. */
  function StripTrailingSlashes(path: string): (r: string)
    ensures |r| <= |path| && r == path[..|r|]
    ensures r == [] || r[|r| - 1] != '/'
    ensures forall j :: |r| <= j < |path| ==> path[j] == '/'
  {
    if path != [] && path[|path| - 1] == '/' then StripTrailingSlashes(path[..|path| - 1])
    else path
  }

  /** `Path(path).name`: the last component of a POSIX path. */
  function FinalComponent(path: string): (name: string)
    ensures '/' !in name
    ensures var p := StripTrailingSlashes(path);
            && |name| <= |p| && name == p[|p| - |name|..]
            && (|name| == |p| || p[|p| - |name| - 1] == '/')
  {
    var p := StripTrailingSlashes(path);
    p[LastIndexOf(p, '/') + 1..]
  }

  /** `Path(path).suffix`: the final component from its last dot on, or ""
      when that component has no dot, only a leading one, or ends with the dot. */
  function Suffix(path: string): (ext: string)
    ensures ext == "" || (|ext| >= 2 && ext[0] == '.' && '.' !in ext[1..] && '/' !in ext)
  {
    NameSuffix(FinalComponent(path))
  }

  /** The suffix rule on one component: from its last dot on, unless that dot
      is the first or the last character. */
  function NameSuffix(name: string): (ext: string)
    ensures ext == "" || (|ext| >= 2 && ext[0] == '.' && '.' !in ext[1..])
    ensures '/' !in name ==> '/' !in ext
  {
    var i := LastIndexOf(name, '.');
    if 0 < i < |name| - 1 then name[i..] else ""
  }

  function LowerChar(c: char): char
  {
    if 'A' <= c <= 'Z' then (c as int - 'A' as int + 'a' as int) as char else c
  }

  /** `str.lower` on ASCII letters. */
  function Lower(s: string): (r: string)
    ensures |r| == |s|
    ensures forall i :: 0 <= i < |s| ==> r[i] == LowerChar(s[i])
  {
    if s == [] then [] else Lower(s[..|s| - 1]) + [LowerChar(s[|s| - 1])]
  }

  /** The extension `analyze` checks. */
  function Extension(filename: string): string
  {
    Lower(Suffix(filename))
  }

  predicate Accepted(filename: string)
  {
    Extension(filename) in SupportedExtensions
  }

  /** A name without '/' is its own final component. */
  lemma FinalComponentOfName(name: string)
    requires name != [] && '/' !in name
    ensures FinalComponent(name) == name
  {
    assert StripTrailingSlashes(name) == name;
    assert LastIndexOf(name, '/') == -1;
    assert name[0..] == name;
  }

  /** A name made of a non-empty stem and a dotted extension has exactly that
      extension as its suffix, whatever dots the stem contains. */
  lemma SuffixOfStemAndExtension(stem: string, ext: string)
    requires stem != [] && '/' !in stem
    requires |ext| >= 2 && ext[0] == '.' && '.' !in ext[1..] && '/' !in ext
    ensures Suffix(stem + ext) == ext
  {
    var path := stem + ext;
    assert '/' !in path;
    FinalComponentOfName(path);
    NameSuffixOfStemAndExtension(stem, ext);
  }

  lemma NameSuffixOfStemAndExtension(stem: string, ext: string)
    requires stem != []
    requires |ext| >= 2 && ext[0] == '.' && '.' !in ext[1..]
    ensures NameSuffix(stem + ext) == ext
  {
    var path := stem + ext;
    assert path[|stem|] == '.';
    forall j | |stem| < j < |path|
      ensures path[j] != '.'
    {
      assert path[j] == ext[1..][j - |stem| - 1];
    }
    assert LastIndexOf(path, '.') == |stem|;
    assert path[|stem|..] == ext;
  }

  /** A path with no dot at all has no suffix. */
  lemma NoDotNoSuffix(path: string)
    requires '.' !in path
    ensures Suffix(path) == ""
  {
    var p := StripTrailingSlashes(path);
    var name := FinalComponent(path);
    forall j | 0 <= j < |name|
      ensures name[j] != '.'
    {
      assert name[j] == p[|p| - |name| + j] == path[|p| - |name| + j];
    }
    assert LastIndexOf(name, '.') == -1;
  }

  /** A final component that ends with its dot has no suffix: "video." gives "". */
  lemma TrailingDotNoSuffix(name: string)
    requires name != [] && name[|name| - 1] == '.' && '/' !in name
    ensures Suffix(name) == ""
  {
    FinalComponentOfName(name);
    assert LastIndexOf(name, '.') == |name| - 1;
  }

  /** Only the final component counts: dots in the directories are ignored. */
  lemma SuffixOfFinalComponent(dir: string, name: string)
    requires name != [] && '/' !in name
    ensures Suffix(dir + "/" + name) == Suffix(name)
  {
    var path := dir + "/" + name;
    assert path[|path| - 1] == name[|name| - 1] != '/';
    assert StripTrailingSlashes(path) == path;
    forall j | |dir| < j < |path|
      ensures path[j] != '/'
    {
      assert path[j] == name[j - |dir| - 1];
    }
    assert path[|dir|] == '/';
    assert LastIndexOf(path, '/') == |dir|;
    assert path[|dir| + 1..] == name;
    FinalComponentOfName(name);
    assert FinalComponent(path) == name;
  }

  /** Upper- or mixed-case extensions are accepted: ".MP4" counts as ".mp4". */
  lemma AcceptedInAnyCase(stem: string, ext: string)
    requires stem != [] && '/' !in stem
    requires |ext| >= 2 && ext[0] == '.' && '.' !in ext[1..] && '/' !in ext
    requires Lower(ext) in SupportedExtensions
    ensures Accepted(stem + ext)
  {
    SuffixOfStemAndExtension(stem, ext);
  }

  /** A name whose only dot is the leading one has no suffix, so ".mp4" by
      itself is rejected. */
  lemma LeadingDotOnlyRejected(rest: string)
    requires '.' !in rest && '/' !in rest
    ensures Suffix("." + rest) == ""
    ensures !Accepted("." + rest)
  {
    var name := "." + rest;
    assert '/' !in name;
    FinalComponentOfName(name);
    NameSuffixLeadingDot(rest);
    assert Lower("") == "";
  }

  lemma NameSuffixLeadingDot(rest: string)
    requires '.' !in rest
    ensures NameSuffix("." + rest) == ""
  {
    var name := "." + rest;
    forall j | 0 < j < |name|
      ensures name[j] != '.'
    {
      assert name[j] == rest[j - 1];
    }
    assert name[0] == '.';
    assert LastIndexOf(name, '.') == 0;
  }

  // ---------------------------------------------------------------------
  // Handlers

  /** A file in the upload directory or in the output directory. */
  datatype FilePath = Upload(name: string) | Output(name: string)

  /** The saved upload: the upload's own name behind the job id and '_'. */
  function InputPath(jobId: string, filename: string): (p: FilePath)
    ensures p.Upload? && |p.name| == |jobId| + 1 + |filename|
    ensures p.name[..|jobId|] == jobId && p.name[|jobId|] == '_' && p.name[|jobId| + 1..] == filename
  {
    Upload(jobId + "_" + filename)
  }

  /** The annotated video: "_annotated.mp4" behind the job id. */
  function OutputPath(jobId: string): (p: FilePath)
    ensures p.Output? && |p.name| == |jobId| + 14
    ensures p.name[..|jobId|] == jobId && p.name[|jobId|..] == "_annotated.mp4"
  {
    Output(jobId + "_annotated.mp4")
  }

  /** The download URL of a job's annotated video. */
  function OutputUrl(jobId: string): (url: string)
    ensures |url| == 12 + |jobId| && url[..12] == "/api/output/" && url[12..] == jobId
  {
    "/api/output/" + jobId
  }

  /** Different jobs never share a file or a URL. Job ids of one length (UUIDs
      have 36 characters) keep even the upload names apart, whatever the
      uploads are called. */
  lemma JobFilesDistinct(a: string, b: string, fa: string, fb: string)
    requires a != b
    ensures OutputPath(a) != OutputPath(b)
    ensures OutputUrl(a) != OutputUrl(b)
    ensures |a| == |b| ==> InputPath(a, fa) != InputPath(b, fb)
    ensures InputPath(a, fa) != OutputPath(b)
  {
  }

  /** File-system effects of a request, in order. */
  datatype Effect = Write(path: FilePath) | RemoveIfExists(path: FilePath)

  /** How `analyze_video` ended: a report, a `ValueError`, or any other exception. */
  datatype AnalysisOutcome =
    | Completed(report: PoseAnalysis.Report)
    | Rejected(error: PoseAnalysis.AnalysisError)
    | Crashed

  datatype ErrorReason =
    | UnsupportedFileType(ext: string)
    | SaveFailed
    | AnalysisRejected(error: PoseAnalysis.AnalysisError)
    | AnalysisFailed
    | InvalidJobId
    | NotFound

  datatype Response =
    | AnalyzeOk(jobId: string, report: PoseAnalysis.Report, annotatedVideoUrl: string)
    | VideoFile(path: FilePath, mediaType: string, downloadName: string)
    | HttpError(status: nat, reason: ErrorReason)

  datatype Handled = Handled(response: Response, effects: seq<Effect>)

  /** `POST /api/analyze`. `jobId` is the fresh UUID, `saved` whether reading
      and writing the upload worked, `analysis` how the analysis ended. A
      completed analysis has written the annotated video to the job's output
      path; that write is listed as the second effect. */
  function Analyze(uploaded: Option<string>, jobId: string, saved: bool, analysis: AnalysisOutcome): (h: Handled)
    ensures h.response.HttpError? ==> h.response.status in {400, 500}
    ensures h.response.AnalyzeOk? ==> h.response.jobId == jobId && analysis.Completed?
  {
    var filename := EffectiveFilename(uploaded);
    var ext := Lower(Suffix(filename));
    if ext !in SupportedExtensions then
      Handled(HttpError(400, UnsupportedFileType(ext)), [])
    else
      var input := InputPath(jobId, filename);
      if !saved then
        Handled(HttpError(500, SaveFailed), [])
      else
        match analysis
        case Completed(report) =>
          Handled(AnalyzeOk(jobId, report, OutputUrl(jobId)), [Write(input), Write(OutputPath(jobId))])
        case Rejected(error) =>
          Handled(HttpError(400, AnalysisRejected(error)), [Write(input), RemoveIfExists(input)])
        case Crashed =>
          Handled(HttpError(500, AnalysisFailed), [Write(input), RemoveIfExists(input)])
  }

  /** An unsupported extension is answered with 400 before anything is
      written, whatever the rest of the request would have done. */
  lemma UnsupportedRejectedBeforeWrite(uploaded: Option<string>, jobId: string, saved: bool, analysis: AnalysisOutcome)
    requires !Accepted(EffectiveFilename(uploaded))
    ensures var h := Analyze(uploaded, jobId, saved, analysis);
            && h.response == HttpError(400, UnsupportedFileType(Extension(EffectiveFilename(uploaded))))
            && h.effects == []
  {
  }

  /** An upload that cannot be saved is answered with 500 and nothing else
      happens. */
  lemma SaveFailureAnswers500(uploaded: Option<string>, jobId: string, analysis: AnalysisOutcome)
    requires Accepted(EffectiveFilename(uploaded))
    ensures Analyze(uploaded, jobId, false, analysis) == Handled(HttpError(500, SaveFailed), [])
  {
  }

  /** A failed analysis maps `ValueError` to 400 and anything else to 500,
      and in both cases the saved upload is removed again. */
  lemma FailedAnalysisCleansUp(uploaded: Option<string>, jobId: string, analysis: AnalysisOutcome)
    requires Accepted(EffectiveFilename(uploaded))
    requires !analysis.Completed?
    ensures var h := Analyze(uploaded, jobId, true, analysis);
            var input := InputPath(jobId, EffectiveFilename(uploaded));
            && h.response.HttpError?
            && h.response.status == (if analysis.Rejected? then 400 else 500)
            && h.effects == [Write(input), RemoveIfExists(input)]
  {
  }

  /** A successful analysis names the input, the output and the URL after the job id. */
  lemma SuccessNaming(uploaded: Option<string>, jobId: string, report: PoseAnalysis.Report)
    requires Accepted(EffectiveFilename(uploaded))
    ensures var h := Analyze(uploaded, jobId, true, Completed(report));
            && h.response == AnalyzeOk(jobId, report, "/api/output/" + jobId)
            && h.effects == [Write(Upload(jobId + "_" + EffectiveFilename(uploaded))),
                             Write(Output(jobId + "_annotated.mp4"))]
  {
  }

  /** `GET /api/output/{job_id}`: 400 for an id `uuid.UUID` rejects, then 404
      when the annotated video is missing, else the file. */
  function GetOutput(jobId: string, isUuid: string -> bool, fileExists: FilePath -> bool): (r: Response)
    ensures !isUuid(jobId) ==> r == HttpError(400, InvalidJobId)
    ensures isUuid(jobId) && !fileExists(OutputPath(jobId)) ==> r == HttpError(404, NotFound)
    ensures isUuid(jobId) && fileExists(OutputPath(jobId)) ==>
      r == VideoFile(OutputPath(jobId), "video/mp4", "wrestling_analysis_" + jobId + ".mp4")
  {
    if !isUuid(jobId) then HttpError(400, InvalidJobId)
    else
      var path := OutputPath(jobId);
      if !fileExists(path) then HttpError(404, NotFound)
      else VideoFile(path, "video/mp4", "wrestling_analysis_" + jobId + ".mp4")
  }

  /** A malformed id is rejected before any file is looked up: the answer does
      not depend on the file system. */
  lemma InvalidIdRejectedBeforeLookup(jobId: string, isUuid: string -> bool, fs1: FilePath -> bool, fs2: FilePath -> bool)
    requires !isUuid(jobId)
    ensures GetOutput(jobId, isUuid, fs1) == GetOutput(jobId, isUuid, fs2) == HttpError(400, InvalidJobId)
  {
  }

  /** The only file `get_output` consults is the job's own output video. */
  lemma GetOutputLooksUpOneFile(jobId: string, isUuid: string -> bool, fs1: FilePath -> bool, fs2: FilePath -> bool)
    requires fs1(OutputPath(jobId)) == fs2(OutputPath(jobId))
    ensures GetOutput(jobId, isUuid, fs1) == GetOutput(jobId, isUuid, fs2)
  {
  }

  /** The URL a successful analysis returns leads `get_output` to the video
      that analysis wrote, once the files it wrote are on disk. */
  lemma AnnotatedUrlIsServed(uploaded: Option<string>, jobId: string, report: PoseAnalysis.Report,
                             isUuid: string -> bool, fileExists: FilePath -> bool)
    requires Accepted(EffectiveFilename(uploaded))
    requires isUuid(jobId)
    requires forall e :: e in Analyze(uploaded, jobId, true, Completed(report)).effects && e.Write? ==>
      fileExists(e.path)
    ensures var h := Analyze(uploaded, jobId, true, Completed(report));
            && h.response.AnalyzeOk?
            && h.response.annotatedVideoUrl[..12] == "/api/output/"
            && var r := GetOutput(h.response.annotatedVideoUrl[12..], isUuid, fileExists);
               && r.VideoFile?
               && Write(r.path) in h.effects
               && r.downloadName == "wrestling_analysis_" + jobId + ".mp4"
  {
    var h := Analyze(uploaded, jobId, true, Completed(report));
    assert Write(OutputPath(jobId)) in h.effects;
    assert OutputUrl(jobId)[12..] == jobId;
  }
}
