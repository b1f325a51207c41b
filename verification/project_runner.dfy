/** The build/serve status of the open project
    (src/app/services/project-runner.service.ts). A build or serve is two
    transitions: the start, taken before the HTTP call is awaited, and the
    completion, taken from whatever the status is when the call settles. */
module ProjectRunner {
  import opened Wrappers
  import opened Models

  datatype ProjectStatus = ProjectStatus(
    isBuilding: bool,
    isServing: bool,
    buildOutput: seq<string>,
    serveOutput: seq<string>,
    serveUrl: Option<string>,
    buildError: Option<string>,
    serveError: Option<string>)

  const Initial := ProjectStatus(false, false, [], [], None, None, None)

  const BuildSucceededLine := "Build completed successfully"
  const ServeUrl := "http://localhost:4200"
  const UnknownError := "Unknown error occurred"

  /** The serve line `Project is now serving at ${serveUrl}`. */
  function ServingLine(url: string): string {
    "Project is now serving at " + url
  }

  /** `error instanceof Error ? error.message : 'Unknown error occurred'`. */
  function ErrorText(e: Thrown): (r: string)
    ensures e.ErrorObject? ==> r == e.message
    ensures e.OtherValue? ==> r == UnknownError
  {
    match e
    case ErrorObject(m) => m
    case OtherValue => UnknownError
  }

  /** The fields only serve operations write. */
  predicate SameServeFields(a: ProjectStatus, b: ProjectStatus) {
    a.isServing == b.isServing && a.serveOutput == b.serveOutput &&
    a.serveUrl == b.serveUrl && a.serveError == b.serveError
  }

  /** The fields only build operations write. */
  predicate SameBuildFields(a: ProjectStatus, b: ProjectStatus) {
    a.isBuilding == b.isBuilding && a.buildOutput == b.buildOutput && a.buildError == b.buildError
  }

  /** Entering `buildProject` when not already building. */
  function StartBuild(s: ProjectStatus): (r: ProjectStatus)
    ensures r.isBuilding && r.buildOutput == [] && r.buildError == None
    ensures SameServeFields(r, s)
  {
    s.(isBuilding := true, buildOutput := [], buildError := None)
  }

  /** The end of `buildProject` once the awaited call settles; the boolean
      is the promise's value. */
  function CompleteBuild(s: ProjectStatus, call: Completion): (r: (ProjectStatus, bool))
    ensures !r.0.isBuilding && SameServeFields(r.0, s)
    ensures r.1 <==> call.Resolved?
    ensures call.Resolved? ==> r.0.buildOutput == [BuildSucceededLine] && r.0.buildError == s.buildError
    ensures call.Rejected? ==> r.0.buildOutput == s.buildOutput && r.0.buildError == Some(ErrorText(call.reason))
  {
    match call
    case Resolved => (s.(isBuilding := false, buildOutput := [BuildSucceededLine]), true)
    case Rejected(e) => (s.(isBuilding := false, buildError := Some(ErrorText(e))), false)
  }

  /** `buildProject` with nothing interleaved between its start and its
      completion. While a build runs it refuses and changes nothing. */
  function BuildProject(s: ProjectStatus, call: Completion): (r: (ProjectStatus, bool))
    ensures s.isBuilding ==> r == (s, false)
    ensures !s.isBuilding ==>
      && !r.0.isBuilding
      && SameServeFields(r.0, s)
      && (r.1 <==> call.Resolved?)
      && (call.Resolved? ==> r.0.buildOutput == [BuildSucceededLine] && r.0.buildError == None)
      && (call.Rejected? ==> r.0.buildOutput == [] && r.0.buildError == Some(ErrorText(call.reason)))
  {
    if s.isBuilding then (s, false)
    else CompleteBuild(StartBuild(s), call)
  }

  /** Entering `serveProject` when not already serving. */
  function StartServe(s: ProjectStatus): (r: ProjectStatus)
    ensures r.isServing && r.serveOutput == [] && r.serveError == None
    ensures SameBuildFields(r, s) && r.serveUrl == s.serveUrl
  {
    s.(isServing := true, serveOutput := [], serveError := None)
  }

  /** The end of `serveProject` once the awaited call settles. */
  function CompleteServe(s: ProjectStatus, call: Completion): (r: (ProjectStatus, bool))
    ensures SameBuildFields(r.0, s)
    ensures r.1 <==> call.Resolved?
    ensures call.Resolved? ==>
      r.0.isServing && r.0.serveUrl == Some(ServeUrl) && r.0.serveOutput == [ServingLine(ServeUrl)] &&
      r.0.serveError == s.serveError
    ensures call.Rejected? ==>
      !r.0.isServing && r.0.serveError == Some(ErrorText(call.reason)) &&
      r.0.serveUrl == s.serveUrl && r.0.serveOutput == s.serveOutput
  {
    match call
    case Resolved =>
      (s.(isServing := true, serveUrl := Some(ServeUrl), serveOutput := [ServingLine(ServeUrl)]), true)
    case Rejected(e) =>
      (s.(isServing := false, serveError := Some(ErrorText(e))), false)
  }

  /** `serveProject` with nothing interleaved. While serving it refuses and
      changes nothing. */
  function ServeProject(s: ProjectStatus, call: Completion): (r: (ProjectStatus, bool))
    ensures s.isServing ==> r == (s, false)
    ensures !s.isServing ==>
      && SameBuildFields(r.0, s)
      && (r.1 <==> call.Resolved?)
      && (call.Resolved? ==>
            r.0.isServing && r.0.serveUrl == Some(ServeUrl) && r.0.serveOutput == [ServingLine(ServeUrl)] &&
            r.0.serveError == None)
      && (call.Rejected? ==>
            !r.0.isServing && r.0.serveOutput == [] && r.0.serveError == Some(ErrorText(call.reason)) &&
            r.0.serveUrl == s.serveUrl)
  {
    if s.isServing then (s, false)
    else CompleteServe(StartServe(s), call)
  }

  /** `stopServing()`: a status reset only. */
  function StopServing(s: ProjectStatus): (r: ProjectStatus)
    ensures !r.isServing && r.serveUrl == None && r.serveOutput == []
    ensures r.serveError == s.serveError && SameBuildFields(r, s)
  {
    s.(isServing := false, serveUrl := None, serveOutput := [])
  }

  /** `addBuildOutput(line)`. */
  function AddBuildOutput(s: ProjectStatus, line: string): (r: ProjectStatus)
    ensures |r.buildOutput| == |s.buildOutput| + 1
    ensures r.buildOutput[..|s.buildOutput|] == s.buildOutput && r.buildOutput[|s.buildOutput|] == line
    ensures r == s.(buildOutput := r.buildOutput)
  {
    s.(buildOutput := s.buildOutput + [line])
  }

  /** `addServeOutput(line)`. */
  function AddServeOutput(s: ProjectStatus, line: string): (r: ProjectStatus)
    ensures |r.serveOutput| == |s.serveOutput| + 1
    ensures r.serveOutput[..|s.serveOutput|] == s.serveOutput && r.serveOutput[|s.serveOutput|] == line
    ensures r == s.(serveOutput := r.serveOutput)
  {
    s.(serveOutput := s.serveOutput + [line])
  }

  /** `clearOutput()`. */
  function ClearOutput(s: ProjectStatus): (r: ProjectStatus)
    ensures r.buildOutput == [] && r.serveOutput == []
    ensures r.isBuilding == s.isBuilding && r.isServing == s.isServing && r.serveUrl == s.serveUrl
    ensures r.buildError == s.buildError && r.serveError == s.serveError
  {
    s.(buildOutput := [], serveOutput := [])
  }

  /** Lines appended while a build is in flight are discarded by a
      successful completion: its output is exactly the success line. */
  lemma {:induction false} BuildSuccessOverwritesInterleavedOutput(s: ProjectStatus, lines: seq<string>)
    requires !s.isBuilding
    ensures var started := StartBuild(s);
      var during := AppendBuildLines(started, lines);
      during.buildOutput == lines &&
      CompleteBuild(during, Resolved).0.buildOutput == [BuildSucceededLine]
  {
    AppendBuildLinesSpec(StartBuild(s), lines);
  }

  /** Repeated `addBuildOutput`. */
  function AppendBuildLines(s: ProjectStatus, lines: seq<string>): ProjectStatus
    decreases |lines|
  {
    if |lines| == 0 then s
    else AppendBuildLines(AddBuildOutput(s, lines[0]), lines[1..])
  }

  lemma {:induction false} AppendBuildLinesSpec(s: ProjectStatus, lines: seq<string>)
    ensures AppendBuildLines(s, lines).buildOutput == s.buildOutput + lines
    ensures SameServeFields(AppendBuildLines(s, lines), s)
    decreases |lines|
  {
    if |lines| > 0 {
      AppendBuildLinesSpec(AddBuildOutput(s, lines[0]), lines[1..]);
      assert s.buildOutput + [lines[0]] + lines[1..] == s.buildOutput + lines;
    }
  }

  /** Serving and building do not interfere: a build leaves every serve
      field as it was, and a serve leaves every build field. */
  lemma BuildAndServeIndependent(s: ProjectStatus, b: Completion, v: Completion)
    ensures SameServeFields(BuildProject(s, b).0, s)
    ensures SameBuildFields(ServeProject(s, v).0, s)
    ensures SameServeFields(ServeProject(BuildProject(s, b).0, v).0, ServeProject(s, v).0)
  {
  }
}
