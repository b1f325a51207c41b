/** The Express server (server/src/server.ts): the mapping from a child
    process's events to an outcome, the path guard of the file endpoints,
    the command each endpoint runs, the step sequence of project creation
    and the recursive project listing. The file system is a small record of
    directories and files; `path.join` and `path.dirname` are parameters;
    whether an I/O step throws is given by an oracle. */
module Server {
  import opened Wrappers
  import opened Models
  import Strings
  import Seqs

  // ---------------------------------------------------------------------
  // Commands

  datatype Platform = Win32 | OtherPlatform

  /** `process.platform === 'win32' ? '<base>.cmd' : '<base>'`. */
  function CommandName(base: string, p: Platform): (r: string)
    ensures Strings.StartsWith(r, base)
    ensures p == Win32 <==> r == base + ".cmd"
    ensures p != Win32 ==> r == base
  {
    if p == Win32 then base + ".cmd"
    else
      assert |base + ".cmd"| != |base|;
      base
  }

  /** A program and its argument list. */
  datatype Command = Command(program: string, args: seq<string>)

  /** The project generator a template runs, if any. */
  function GeneratorCommand(template: string, name: string, p: Platform): (r: Option<Command>)
    ensures r.Some? <==> template == "angular" || template == "react"
    ensures r.Some? ==> r.value.program == CommandName("npx", p) && |r.value.args| > 0 && r.value.args[0] == "--yes"
    ensures template == "angular" ==>
      r.value.args == ["--yes", "@angular/cli@latest", "new", name, "--directory=.", "--routing=true",
                       "--style=scss", "--skip-git", "--skip-tests", "--defaults"]
    ensures template == "react" ==> r.value.args == ["--yes", "create-react-app", ".", "--template", "typescript"]
  {
    var npx := CommandName("npx", p);
    if template == "angular" then
      Some(Command(npx, ["--yes", "@angular/cli@latest", "new", name, "--directory=.", "--routing=true",
                         "--style=scss", "--skip-git", "--skip-tests", "--defaults"]))
    else if template == "react" then
      Some(Command(npx, ["--yes", "create-react-app", ".", "--template", "typescript"]))
    else None
  }

  function InstallCommand(p: Platform): Command { Command(CommandName("npm", p), ["install"]) }
  function ServeCommand(p: Platform): Command { Command(CommandName("npm", p), ["start"]) }
  function BuildCommand(p: Platform): Command { Command(CommandName("npm", p), ["run", "build"]) }

  // ---------------------------------------------------------------------
  // runCommand

  /** What a spawned child reports: a spawn error, or closing with an exit
      code (`null` when it was ended by a signal). */
  datatype ProcessEvent = SpawnFailed(error: Thrown) | Closed(code: Option<int>)

  function DigitChar(d: nat): char
    requires d < 10
  {
    "0123456789"[d]
  }

  function NatText(n: nat): string
    decreases n
  {
    if n < 10 then [DigitChar(n)] else NatText(n / 10) + [DigitChar(n % 10)]
  }

  /** `${code}` for a number or `null`. */
  function CodeText(code: Option<int>): string {
    match code
    case None => "null"
    case Some(c) => if c < 0 then "-" + NatText(-c) else NatText(c)
  }

  /** `runCommand`: the promise settles on the first event the child
      reports and ignores the rest; `None` while it has reported nothing. */
  function RunCommand(events: seq<ProcessEvent>): (r: Option<Completion>)
    ensures r.None? <==> |events| == 0
    ensures r == Some(Resolved) <==> |events| > 0 && events[0] == Closed(Some(0))
    ensures |events| > 0 && events[0].SpawnFailed? ==> r == Some(Rejected(events[0].error))
    ensures |events| > 0 && events[0].Closed? && events[0].code != Some(0) ==>
      r == Some(Rejected(ErrorObject("Command failed with code " + CodeText(events[0].code))))
  {
    if |events| == 0 then None
    else
      match events[0]
      case SpawnFailed(e) => Some(Rejected(e))
      case Closed(code) =>
        if code != Some(0) then Some(Rejected(ErrorObject("Command failed with code " + CodeText(code))))
        else Some(Resolved)
  }

  /** Events after the first never change the outcome. */
  lemma RunCommandFirstEventDecides(first: ProcessEvent, later: seq<ProcessEvent>)
    ensures RunCommand([first] + later) == RunCommand([first])
  {
  }

  // ---------------------------------------------------------------------
  // Responses

  datatype Metadata = Metadata(name: string, description: string, template: string, createdAt: nat, updatedAt: nat)

  datatype Response =
    | Created(id: string, meta: Metadata)
    | Succeeded
    | FileContent(text: string)
    | ErrorStatus(status: nat, message: string)

  /** The serve and build endpoints: `{ success: true }` once the command
      exits 0, a 500 with the endpoint's message once it fails, and no
      response while it runs. */
  function CommandResponse(events: seq<ProcessEvent>, failure: string): (r: Option<Response>)
    ensures r.None? <==> |events| == 0
    ensures r == Some(Succeeded) <==> RunCommand(events) == Some(Resolved)
    ensures r.Some? && r != Some(Succeeded) ==> r == Some(ErrorStatus(500, failure))
  {
    match RunCommand(events)
    case None => None
    case Some(Resolved) => Some(Succeeded)
    case Some(Rejected(_)) => Some(ErrorStatus(500, failure))
  }

  /** POST /project/:id/serve runs `npm start`. */
  function ServeProject(p: Platform, events: seq<ProcessEvent>): (r: (Command, Option<Response>))
    ensures r.0 == Command(CommandName("npm", p), ["start"])
    ensures r.1 == Some(Succeeded) <==> |events| > 0 && events[0] == Closed(Some(0))
    ensures r.1.Some? && r.1 != Some(Succeeded) ==> r.1 == Some(ErrorStatus(500, "Failed to serve project"))
  {
    (ServeCommand(p), CommandResponse(events, "Failed to serve project"))
  }

  /** POST /project/:id/build runs `npm run build`. */
  function BuildProject(p: Platform, events: seq<ProcessEvent>): (r: (Command, Option<Response>))
    ensures r.0 == Command(CommandName("npm", p), ["run", "build"])
    ensures r.1 == Some(Succeeded) <==> |events| > 0 && events[0] == Closed(Some(0))
    ensures r.1.Some? && r.1 != Some(Succeeded) ==> r.1 == Some(ErrorStatus(500, "Failed to build project"))
  {
    (BuildCommand(p), CommandResponse(events, "Failed to build project"))
  }

  // ---------------------------------------------------------------------
  // The path guard

  /** The guard as written: the joined path starts with the project path,
      as strings. */
  predicate GuardAsWritten(projectPath: string, fullPath: string) {
    Strings.StartsWith(fullPath, projectPath)
  }

  /** The guard as intended: the joined path is the project directory or
      lies below it. */
  predicate WithinProject(projectPath: string, fullPath: string) {
    fullPath == projectPath || Strings.StartsWith(fullPath, projectPath + "/")
  }

  /** The as-written guard lets through exactly the paths the intended one
      refuses that continue the project path's last segment. */
  lemma GuardDifference(projectPath: string, fullPath: string)
    ensures GuardAsWritten(projectPath, fullPath) && !WithinProject(projectPath, fullPath) <==>
      |fullPath| > |projectPath| && Strings.StartsWith(fullPath, projectPath) && fullPath[|projectPath|] != '/'
  {
    if |fullPath| > |projectPath| && Strings.StartsWith(fullPath, projectPath) && fullPath[|projectPath|] == '/' {
      assert fullPath[..|projectPath| + 1] == projectPath + "/";
    }
    if Strings.StartsWith(fullPath, projectPath + "/") {
      assert fullPath[|projectPath|] == (projectPath + "/")[|projectPath|];
      assert fullPath[..|projectPath|] == fullPath[..|projectPath| + 1][..|projectPath|];
    }
  }

  /** A sibling directory whose name extends the project id passes the
      as-written guard: with project path "/p/a", "/p/a-x/f" is accepted. */
  lemma SiblingPassesGuard(projectPath: string, c: char, rest: string)
    requires c != '/'
    ensures var fullPath := projectPath + [c] + rest;
      GuardAsWritten(projectPath, fullPath) && !WithinProject(projectPath, fullPath)
  {
    var fullPath := projectPath + [c] + rest;
    assert fullPath[..|projectPath|] == projectPath;
    GuardDifference(projectPath, fullPath);
  }

  /** Whatever the intended guard admits has the project path's segments
      as its leading segments. */
  lemma {:induction false} WithinProjectSegments(projectPath: string, fullPath: string)
    requires WithinProject(projectPath, fullPath)
    ensures var p := Strings.Split(projectPath, '/'); var f := Strings.Split(fullPath, '/');
      |p| <= |f| && f[..|p|] == p
  {
    if fullPath != projectPath {
      var rest := fullPath[|projectPath| + 1..];
      assert fullPath == projectPath + ['/'] + rest by {
        assert fullPath[..|projectPath| + 1] == projectPath + "/";
      }
      Strings.SplitAround(projectPath, rest, '/');
      var p := Strings.Split(projectPath, '/');
      assert (p + Strings.Split(rest, '/'))[..|p|] == p;
    }
  }

  // ---------------------------------------------------------------------
  // The file system and the step runner

  /** What a file holds: text, or the metadata record `project.json`
      holds in serialised form. */
  datatype Content = Text(text: string) | MetadataJson(meta: Metadata)

  datatype Disk = Disk(dirs: set<string>, files: map<string, Content>)

  /** One awaited I/O step of a handler. */
  datatype Step =
    | MakeDirectory(path: string)
    | RunProgram(command: Command, cwd: string)
    | WriteFile(path: string, data: Content)
    | TouchMetadata(path: string, now: nat)

  /** Runs one step; `None` when it throws. `fails` is the environment's
      verdict (a refused write, a command that does not exit 0); refreshing
      the metadata also throws when `project.json` does not hold it. */
  function RunStep(d: Disk, s: Step, fails: bool): (r: Option<Disk>)
    ensures r.Some? ==> d.dirs <= r.value.dirs
    ensures fails ==> r.None?
  {
    if fails then None
    else
      match s
      case MakeDirectory(p) => Some(d.(dirs := d.dirs + {p}))
      case RunProgram(_, _) => Some(d)
      case WriteFile(p, c) => Some(d.(files := d.files[p := c]))
      case TouchMetadata(p, now) =>
        if p in d.files && d.files[p].MetadataJson? then
          Some(d.(files := d.files[p := MetadataJson(d.files[p].meta.(updatedAt := now))]))
        else None
  }

  /** Runs `steps[i..]` in order and stops at the first that throws; the
      result is the disk as that left it and the index of the failed step. */
  function RunSteps(d: Disk, steps: seq<Step>, i: nat, failAt: Option<nat>): (r: (Disk, Option<nat>))
    requires i <= |steps|
    ensures d.dirs <= r.0.dirs
    ensures r.1.Some? ==> i <= r.1.value < |steps|
    ensures failAt.Some? && i <= failAt.value < |steps| ==> r.1.Some? && r.1.value <= failAt.value
    decreases |steps| - i
  {
    if i == |steps| then (d, None)
    else
      match RunStep(d, steps[i], failAt == Some(i))
      case None => (d, Some(i))
      case Some(d') => RunSteps(d', steps, i + 1, failAt)
  }

  /** Steps that throw only when the environment says so. */
  predicate Plain(s: Step) { !s.TouchMetadata? }

  lemma {:induction false} PlainStepsFailOnlyAtOracle(d: Disk, steps: seq<Step>, i: nat, failAt: Option<nat>)
    requires i <= |steps|
    requires forall k :: i <= k < |steps| ==> Plain(steps[k])
    ensures RunSteps(d, steps, i, failAt).1 ==
      (if failAt.Some? && i <= failAt.value < |steps| then failAt else None)
    decreases |steps| - i
  {
    if i < |steps| && failAt != Some(i) {
      PlainStepsFailOnlyAtOracle(RunStep(d, steps[i], false).value, steps, i + 1, failAt);
    }
  }

  // ---------------------------------------------------------------------
  // POST /project

  /** The steps of project creation, in order: make the directory, run the
      template's generator if it has one, write `project.json`, run
      `npm install`. */
  function CreationPlan(projectPath: string, metadataPath: string, meta: Metadata, p: Platform): (plan: seq<Step>)
    ensures |plan| == (if GeneratorCommand(meta.template, meta.name, p).Some? then 4 else 3)
    ensures plan[0] == MakeDirectory(projectPath)
    ensures plan[|plan| - 1] == RunProgram(InstallCommand(p), projectPath)
    ensures plan[|plan| - 2] == WriteFile(metadataPath, MetadataJson(meta))
    ensures |plan| == 4 ==> plan[1] == RunProgram(GeneratorCommand(meta.template, meta.name, p).value, projectPath)
    ensures forall k :: 0 <= k < |plan| ==> Plain(plan[k])
  {
    var generator := match GeneratorCommand(meta.template, meta.name, p)
      case Some(c) => [RunProgram(c, projectPath)]
      case None => [];
    [MakeDirectory(projectPath)] + generator
      + [WriteFile(metadataPath, MetadataJson(meta)), RunProgram(InstallCommand(p), projectPath)]
  }

  /** POST /project with a fresh id. */
  function CreateProject(d: Disk, projectsDir: string, freshId: string, name: string, description: string,
                         template: string, created: nat, updated: nat, p: Platform, join: (string, string) -> string,
                         failAt: Option<nat>): (r: (Disk, Response))
    ensures var meta := Metadata(name, description, template, created, updated);
      var plan := CreationPlan(join(projectsDir, freshId), join(join(projectsDir, freshId), "project.json"), meta, p);
      && (r.1.Created? <==> failAt.None? || failAt.value >= |plan|)
      && (r.1.Created? ==> r.1 == Created(freshId, meta))
      && (!r.1.Created? ==> r.1 == ErrorStatus(500, "Failed to create project"))
      && d.dirs <= r.0.dirs
  {
    var projectPath := join(projectsDir, freshId);
    var meta := Metadata(name, description, template, created, updated);
    var plan := CreationPlan(projectPath, join(projectPath, "project.json"), meta, p);
    var run := RunSteps(d, plan, 0, failAt);
    PlainStepsFailOnlyAtOracle(d, plan, 0, failAt);
    if run.1.None? then (run.0, Created(freshId, meta))
    else (run.0, ErrorStatus(500, "Failed to create project"))
  }

  /** Once the directory exists, a later failure leaves it in place: there
      is no rollback. */
  lemma CreateLeavesDirectory(d: Disk, projectsDir: string, freshId: string, name: string, description: string,
                              template: string, created: nat, updated: nat, p: Platform, join: (string, string) -> string,
                              failAt: Option<nat>)
    requires failAt != Some(0)
    ensures join(projectsDir, freshId) in CreateProject(d, projectsDir, freshId, name, description, template, created, updated, p, join, failAt).0.dirs
  {
    var projectPath := join(projectsDir, freshId);
    var meta := Metadata(name, description, template, created, updated);
    var plan := CreationPlan(projectPath, join(projectPath, "project.json"), meta, p);
    var d1 := RunStep(d, plan[0], false).value;
    assert projectPath in d1.dirs;
    assert RunSteps(d, plan, 0, failAt) == RunSteps(d1, plan, 1, failAt);
  }

  /** A successful creation leaves the metadata in `project.json`. */
  lemma CreateWritesMetadata(d: Disk, projectsDir: string, freshId: string, name: string, description: string,
                             template: string, created: nat, updated: nat, p: Platform, join: (string, string) -> string)
    ensures var r := CreateProject(d, projectsDir, freshId, name, description, template, created, updated, p, join, None);
      var metadataPath := join(join(projectsDir, freshId), "project.json");
      r.1.Created? && metadataPath in r.0.files && r.0.files[metadataPath] == MetadataJson(r.1.meta)
  {
    var projectPath := join(projectsDir, freshId);
    var metadataPath := join(projectPath, "project.json");
    var meta := Metadata(name, description, template, created, updated);
    var plan := CreationPlan(projectPath, metadataPath, meta, p);
    var n := |plan|;
    var dw := RunSteps(d, plan, 0, None);
    RunStepsPrefix(d, plan, n - 1, None);
    var before := RunStepsUpTo(d, plan, n - 2);
    assert RunSteps(d, plan, 0, None) == RunSteps(before, plan, n - 2, None);
  }

  /** The disk after running `steps[..j]` when none fails. */
  function RunStepsUpTo(d: Disk, steps: seq<Step>, j: nat): Disk
    requires j <= |steps|
    requires forall k :: 0 <= k < |steps| ==> Plain(steps[k])
  {
    if j == 0 then d else RunStep(RunStepsUpTo(d, steps, j - 1), steps[j - 1], false).value
  }

  lemma {:induction false} RunStepsPrefix(d: Disk, steps: seq<Step>, j: nat, failAt: Option<nat>)
    requires j <= |steps|
    requires forall k :: 0 <= k < |steps| ==> Plain(steps[k])
    requires failAt == None
    ensures RunSteps(d, steps, 0, failAt) == RunSteps(RunStepsUpTo(d, steps, j), steps, j, failAt)
  {
    if j > 0 {
      RunStepsPrefix(d, steps, j - 1, failAt);
    }
  }

  // ---------------------------------------------------------------------
  // PUT and GET /project/:id/file

  /** The steps of PUT /project/:id/file once the guard admits the path:
      make the parent directory, write the file, refresh `updatedAt` in
      `project.json`; any throw is a 500. */
  function WriteAndTouch(d: Disk, projectPath: string, fullPath: string, content: string, now: nat,
                         join: (string, string) -> string, dirname: string -> string,
                         failAt: Option<nat>): (r: (Disk, Response))
    ensures r.1 == Succeeded || r.1 == ErrorStatus(500, "Failed to update file")
    ensures d.dirs <= r.0.dirs
  {
    var steps := [MakeDirectory(dirname(fullPath)), WriteFile(fullPath, Text(content)),
                  TouchMetadata(join(projectPath, "project.json"), now)];
    var run := RunSteps(d, steps, 0, failAt);
    if run.1.None? then (run.0, Succeeded) else (run.0, ErrorStatus(500, "Failed to update file"))
  }

  /** PUT /project/:id/file as written: the 400 answers exactly the joined
      paths that do not start with the project path as strings; an
      admitted path runs the update steps. */
  function UpdateFile(d: Disk, projectsDir: string, id: string, filePath: string, content: string, now: nat,
                      join: (string, string) -> string, dirname: string -> string,
                      failAt: Option<nat>): (r: (Disk, Response))
    ensures var projectPath := join(projectsDir, id); var fullPath := join(projectPath, filePath);
      && (r.1 == ErrorStatus(400, "Invalid file path") <==> !GuardAsWritten(projectPath, fullPath))
      && (!GuardAsWritten(projectPath, fullPath) ==> r.0 == d)
    ensures r.1 == Succeeded || r.1 == ErrorStatus(400, "Invalid file path") || r.1 == ErrorStatus(500, "Failed to update file")
    ensures d.dirs <= r.0.dirs
  {
    var projectPath := join(projectsDir, id);
    var fullPath := join(projectPath, filePath);
    if !GuardAsWritten(projectPath, fullPath) then (d, ErrorStatus(400, "Invalid file path"))
    else WriteAndTouch(d, projectPath, fullPath, content, now, join, dirname, failAt)
  }

  /** PUT /project/:id/file with the intended guard: the 400 answers
      exactly the joined paths outside the project directory. */
  function UpdateFileIntended(d: Disk, projectsDir: string, id: string, filePath: string, content: string, now: nat,
                              join: (string, string) -> string, dirname: string -> string,
                              failAt: Option<nat>): (r: (Disk, Response))
    ensures var projectPath := join(projectsDir, id); var fullPath := join(projectPath, filePath);
      && (r.1 == ErrorStatus(400, "Invalid file path") <==> !WithinProject(projectPath, fullPath))
      && (!WithinProject(projectPath, fullPath) ==> r.0 == d)
    ensures d.dirs <= r.0.dirs
  {
    var projectPath := join(projectsDir, id);
    var fullPath := join(projectPath, filePath);
    if !WithinProject(projectPath, fullPath) then (d, ErrorStatus(400, "Invalid file path"))
    else WriteAndTouch(d, projectPath, fullPath, content, now, join, dirname, failAt)
  }

  /** Every path the intended guard admits passes the as-written one. */
  lemma WithinProjectPassesGuard(projectPath: string, fullPath: string)
    requires WithinProject(projectPath, fullPath)
    ensures GuardAsWritten(projectPath, fullPath)
  {
    if fullPath != projectPath {
      assert fullPath[..|projectPath|] == fullPath[..|projectPath| + 1][..|projectPath|];
    }
  }

  /** The two handlers agree inside the project directory; they differ
      exactly on the sibling paths, which the as-written handler admits
      and the intended one refuses with 400. */
  lemma UpdateFileIntendedAgrees(d: Disk, projectsDir: string, id: string, filePath: string, content: string, now: nat,
                                 join: (string, string) -> string, dirname: string -> string, failAt: Option<nat>)
    ensures var projectPath := join(projectsDir, id); var fullPath := join(projectPath, filePath);
      var asWritten := UpdateFile(d, projectsDir, id, filePath, content, now, join, dirname, failAt);
      var intended := UpdateFileIntended(d, projectsDir, id, filePath, content, now, join, dirname, failAt);
      && (WithinProject(projectPath, fullPath) ==> intended == asWritten)
      && (asWritten.1 != intended.1 <==> GuardAsWritten(projectPath, fullPath) && !WithinProject(projectPath, fullPath))
  {
    var projectPath := join(projectsDir, id);
    var fullPath := join(projectPath, filePath);
    if WithinProject(projectPath, fullPath) {
      WithinProjectPassesGuard(projectPath, fullPath);
    }
  }

  /** With no step failing and the metadata in place, an admitted update
      succeeds and leaves the content at the joined path. */
  lemma WriteAndTouchSucceeds(d: Disk, projectPath: string, fullPath: string, content: string, now: nat,
                              join: (string, string) -> string, dirname: string -> string)
    requires join(projectPath, "project.json") in d.files && d.files[join(projectPath, "project.json")].MetadataJson?
    requires fullPath != join(projectPath, "project.json")
    ensures var r := WriteAndTouch(d, projectPath, fullPath, content, now, join, dirname, None);
      r.1 == Succeeded && fullPath in r.0.files && r.0.files[fullPath] == Text(content)
  {
    var metadataPath := join(projectPath, "project.json");
    var steps := [MakeDirectory(dirname(fullPath)), WriteFile(fullPath, Text(content)), TouchMetadata(metadataPath, now)];
    var d1 := d.(dirs := d.dirs + {dirname(fullPath)});
    var d2 := d1.(files := d1.files[fullPath := Text(content)]);
    var d3 := d2.(files := d2.files[metadataPath := MetadataJson(d2.files[metadataPath].meta.(updatedAt := now))]);
    assert RunSteps(d, steps, 0, None) == RunSteps(d2, steps, 2, None);
    assert RunSteps(d2, steps, 2, None) == (d3, None);
  }

  /** The path-guard finding carried through the handler: a joined path
      that continues the project path with a character other than '/'
      (project "/p/a", path "/p/a-x/f") is written by the as-written
      handler, while the intended one refuses it and leaves the disk. */
  lemma SiblingUpdateSucceeds(d: Disk, projectsDir: string, id: string, filePath: string, content: string, now: nat,
                              join: (string, string) -> string, dirname: string -> string, c: char, rest: string)
    requires c != '/'
    requires join(join(projectsDir, id), filePath) == join(projectsDir, id) + [c] + rest
    requires var metadataPath := join(join(projectsDir, id), "project.json");
      metadataPath in d.files && d.files[metadataPath].MetadataJson?
    requires join(join(projectsDir, id), filePath) != join(join(projectsDir, id), "project.json")
    ensures var fullPath := join(join(projectsDir, id), filePath);
      var r := UpdateFile(d, projectsDir, id, filePath, content, now, join, dirname, None);
      && r.1 == Succeeded && fullPath in r.0.files && r.0.files[fullPath] == Text(content)
      && UpdateFileIntended(d, projectsDir, id, filePath, content, now, join, dirname, None)
         == (d, ErrorStatus(400, "Invalid file path"))
  {
    var projectPath := join(projectsDir, id);
    var fullPath := join(projectPath, filePath);
    SiblingPassesGuard(projectPath, c, rest);
    WriteAndTouchSucceeds(d, projectPath, fullPath, content, now, join, dirname);
  }

  /** A successful update wrote the file and then the metadata: the new
      `updatedAt` is `now` and every other metadata field is kept. */
  lemma UpdateFileTouchesMetadata(d: Disk, projectsDir: string, id: string, filePath: string, content: string, now: nat,
                                  join: (string, string) -> string, dirname: string -> string, failAt: Option<nat>)
    ensures var r := UpdateFile(d, projectsDir, id, filePath, content, now, join, dirname, failAt);
      var projectPath := join(projectsDir, id);
      var fullPath := join(projectPath, filePath);
      var metadataPath := join(projectPath, "project.json");
      r.1 == Succeeded ==>
        && metadataPath in d.files && d.files[metadataPath].MetadataJson?
        && fullPath != metadataPath
        && r.0.files == d.files[fullPath := Text(content)][metadataPath := MetadataJson(d.files[metadataPath].meta.(updatedAt := now))]
  {
    var projectPath := join(projectsDir, id);
    var fullPath := join(projectPath, filePath);
    var metadataPath := join(projectPath, "project.json");
    if GuardAsWritten(projectPath, fullPath) {
      var steps := [MakeDirectory(dirname(fullPath)), WriteFile(fullPath, Text(content)), TouchMetadata(metadataPath, now)];
      if failAt != Some(0) && failAt != Some(1) && failAt != Some(2) {
        var d1 := d.(dirs := d.dirs + {dirname(fullPath)});
        var d2 := d1.(files := d1.files[fullPath := Text(content)]);
        assert RunSteps(d, steps, 0, failAt) == RunSteps(d2, steps, 2, failAt);
        if metadataPath in d2.files && d2.files[metadataPath].MetadataJson? {
          var d3 := d2.(files := d2.files[metadataPath := MetadataJson(d2.files[metadataPath].meta.(updatedAt := now))]);
          assert RunSteps(d2, steps, 2, failAt) == (d3, None);
          assert fullPath != metadataPath;
          assert d.files[metadataPath] == d2.files[metadataPath];
        } else {
          assert RunSteps(d2, steps, 2, failAt) == (d2, Some(2));
        }
      }
    }
  }

  /** Reading an admitted path: its text, the serialised metadata for
      `project.json`, or a 500 when nothing is stored there. */
  function ReadAt(d: Disk, fullPath: string, stringify: Metadata -> string): (r: Response)
    ensures fullPath in d.files && d.files[fullPath].Text? ==> r == FileContent(d.files[fullPath].text)
    ensures fullPath !in d.files <==> r == ErrorStatus(500, "Failed to read file")
  {
    if fullPath !in d.files then ErrorStatus(500, "Failed to read file")
    else match d.files[fullPath]
      case Text(t) => FileContent(t)
      case MetadataJson(m) => FileContent(stringify(m))
  }

  /** GET /project/:id/file as written: the 400 answers exactly the joined
      paths that do not start with the project path as strings; otherwise
      the file's text, or 500 when it cannot be read. */
  function ReadFile(d: Disk, projectsDir: string, id: string, filePath: string,
                    join: (string, string) -> string, stringify: Metadata -> string): (r: Response)
    ensures var projectPath := join(projectsDir, id); var fullPath := join(projectPath, filePath);
      && (r == ErrorStatus(400, "Invalid file path") <==> !GuardAsWritten(projectPath, fullPath))
      && (GuardAsWritten(projectPath, fullPath) && fullPath in d.files && d.files[fullPath].Text? ==>
            r == FileContent(d.files[fullPath].text))
      && (GuardAsWritten(projectPath, fullPath) && fullPath !in d.files ==> r == ErrorStatus(500, "Failed to read file"))
  {
    var projectPath := join(projectsDir, id);
    var fullPath := join(projectPath, filePath);
    if !GuardAsWritten(projectPath, fullPath) then ErrorStatus(400, "Invalid file path")
    else ReadAt(d, fullPath, stringify)
  }

  /** GET /project/:id/file with the intended guard. */
  function ReadFileIntended(d: Disk, projectsDir: string, id: string, filePath: string,
                            join: (string, string) -> string, stringify: Metadata -> string): (r: Response)
    ensures var projectPath := join(projectsDir, id); var fullPath := join(projectPath, filePath);
      && (r == ErrorStatus(400, "Invalid file path") <==> !WithinProject(projectPath, fullPath))
      && (WithinProject(projectPath, fullPath) && fullPath in d.files && d.files[fullPath].Text? ==>
            r == FileContent(d.files[fullPath].text))
  {
    var projectPath := join(projectsDir, id);
    var fullPath := join(projectPath, filePath);
    if !WithinProject(projectPath, fullPath) then ErrorStatus(400, "Invalid file path")
    else ReadAt(d, fullPath, stringify)
  }

  /** The two read handlers agree inside the project directory; on a
      sibling path holding text the as-written one answers that text. */
  lemma ReadFileIntendedAgrees(d: Disk, projectsDir: string, id: string, filePath: string,
                               join: (string, string) -> string, stringify: Metadata -> string)
    ensures var projectPath := join(projectsDir, id); var fullPath := join(projectPath, filePath);
      && (WithinProject(projectPath, fullPath) ==>
            ReadFileIntended(d, projectsDir, id, filePath, join, stringify) == ReadFile(d, projectsDir, id, filePath, join, stringify))
      && (GuardAsWritten(projectPath, fullPath) && !WithinProject(projectPath, fullPath)
          && fullPath in d.files && d.files[fullPath].Text? ==>
            ReadFile(d, projectsDir, id, filePath, join, stringify) == FileContent(d.files[fullPath].text)
            && ReadFileIntended(d, projectsDir, id, filePath, join, stringify) == ErrorStatus(400, "Invalid file path"))
  {
    var projectPath := join(projectsDir, id);
    var fullPath := join(projectPath, filePath);
    if WithinProject(projectPath, fullPath) {
      WithinProjectPassesGuard(projectPath, fullPath);
    }
  }

  /** Reading back a file the update endpoint just wrote gives its text. */
  lemma ReadAfterUpdate(d: Disk, projectsDir: string, id: string, filePath: string, content: string, now: nat,
                        join: (string, string) -> string, dirname: string -> string, failAt: Option<nat>,
                        stringify: Metadata -> string)
    requires UpdateFile(d, projectsDir, id, filePath, content, now, join, dirname, failAt).1 == Succeeded
    ensures ReadFile(UpdateFile(d, projectsDir, id, filePath, content, now, join, dirname, failAt).0,
                     projectsDir, id, filePath, join, stringify) == FileContent(content)
  {
    UpdateFileTouchesMetadata(d, projectsDir, id, filePath, content, now, join, dirname, failAt);
  }

  // ---------------------------------------------------------------------
  // getProjectFiles

  /** A directory entry as `readdir` reports it, with what `stat` gives
      for files. */
  datatype DirEntry =
    | FileEntry(name: string, size: nat, mtime: nat)
    | DirectoryEntry(name: string, entries: seq<DirEntry>)

  /** An element of the listing. */
  datatype Listed =
    | ListedFile(name: string, path: string, size: nat, modifiedAt: nat)
    | ListedDirectory(name: string, path: string, children: seq<Listed>)

  predicate Excluded(name: string) {
    name == "project.json" || name == "node_modules"
  }

  /** One entry: `null` when excluded, a directory with its listed
      children, or a file with its size and time. */
  function ListEntry(e: DirEntry, base: string, join: (string, string) -> string): (r: Option<Listed>)
    ensures r.None? <==> Excluded(e.name)
    ensures r.Some? ==> r.value.name == e.name && r.value.path == join(base, e.name)
    ensures r.Some? ==> (r.value.ListedFile? <==> e.FileEntry?)
    ensures r.Some? && e.FileEntry? ==> r.value.size == e.size && r.value.modifiedAt == e.mtime
    decreases e, 0
  {
    if Excluded(e.name) then None
    else
      var relativePath := join(base, e.name);
      match e
      case FileEntry(name, size, mtime) => Some(ListedFile(name, relativePath, size, mtime))
      case DirectoryEntry(name, entries) => Some(ListedDirectory(name, relativePath, ListEntries(entries, relativePath, join)))
  }

  /** `getProjectFiles(dirPath, base)`: the entries in order, excluded ones
      dropped. */
  function ListEntries(es: seq<DirEntry>, base: string, join: (string, string) -> string): (r: seq<Listed>)
    ensures |r| <= |es|
    decreases es, 1
  {
    if |es| == 0 then []
    else
      match ListEntry(es[0], base, join)
      case None => ListEntries(es[1..], base, join)
      case Some(l) => [l] + ListEntries(es[1..], base, join)
  }

  /** No element of the listing, at any depth, has an excluded name. */
  ghost predicate NoExcludedNames(ls: seq<Listed>)
    decreases ls
  {
    forall k :: 0 <= k < |ls| ==>
      !Excluded(ls[k].name) && (ls[k].ListedDirectory? ==> NoExcludedNames(ls[k].children))
  }

  lemma {:induction false} ListingOmitsExcluded(es: seq<DirEntry>, base: string, join: (string, string) -> string)
    ensures NoExcludedNames(ListEntries(es, base, join))
    decreases es
  {
    if |es| > 0 {
      ListingOmitsExcluded(es[1..], base, join);
      var e := es[0];
      if !Excluded(e.name) && e.DirectoryEntry? {
        ListingOmitsExcluded(e.entries, join(base, e.name), join);
      }
      var r := ListEntries(es, base, join);
      var tail := ListEntries(es[1..], base, join);
      if !Excluded(e.name) {
        assert r == [ListEntry(e, base, join).value] + tail;
      }
    }
  }

  function ListedNames(ls: seq<Listed>): (r: seq<string>)
    ensures |r| == |ls|
    ensures forall k :: 0 <= k < |ls| ==> r[k] == ls[k].name
  {
    if |ls| == 0 then [] else [ls[0].name] + ListedNames(ls[1..])
  }

  function EntryNames(es: seq<DirEntry>): seq<string> {
    if |es| == 0 then [] else [es[0].name] + EntryNames(es[1..])
  }

  /** At each level the listing names exactly the entries with a kept name,
      in `readdir` order. */
  lemma {:induction false} ListingNames(es: seq<DirEntry>, base: string, join: (string, string) -> string)
    ensures ListedNames(ListEntries(es, base, join)) == Seqs.Filter(EntryNames(es), (n: string) => !Excluded(n))
  {
    if |es| > 0 {
      ListingNames(es[1..], base, join);
      assert EntryNames(es)[1..] == EntryNames(es[1..]);
      var r := ListEntries(es, base, join);
      if !Excluded(es[0].name) {
        assert ListedNames(r)[1..] == ListedNames(r[1..]);
      }
    }
  }
}
