/** The new-project dialog
    (src/app/components/project-creator/project-creator.component.ts): the
    form validators, and the `create` and `cancel` handlers over the
    dialog's `creating`/`canCancel` flags and its log. `create` is split at
    its single await: `StartCreate` runs up to the call, `FinishCreate`
    from the call's outcome. */
module ProjectCreator {
  import opened Models

  datatype LogKind = Stdout | Stderr | ErrorLog

  /** A log line; the timestamp is not modelled. */
  datatype LogLine = LogLine(kind: LogKind, data: string)

  datatype Form = Form(name: string, description: string, template: string)

  /** The dialog state. `closedWith` records every `dialogRef.close(x)`
      call in order. */
  datatype Creator = Creator(form: Form, creating: bool, canCancel: bool, logs: seq<LogLine>, closedWith: seq<bool>)

  const InitialForm := Form("", "", "angular")

  function Initial(form: Form): Creator {
    Creator(form, false, true, [], [])
  }

  const StartLine := "Starting project creation..."
  const SuccessLine := "Project created successfully! Navigating to project..."
  const FailureLine := "Failed to create project. Please try again."

  /** One character of the class `[a-z0-9-]`. */
  predicate NameChar(c: char) {
    'a' <= c <= 'z' || '0' <= c <= '9' || c == '-'
  }

  /** The string is a run of name characters (`[a-z0-9-]*`). */
  function AllNameChars(s: string): (r: bool)
    ensures r <==> forall i :: 0 <= i < |s| ==> NameChar(s[i])
  {
    if |s| == 0 then true
    else NameChar(s[0]) && AllNameChars(s[1..])
  }

  /** `Validators.required`: fails on the empty string. */
  predicate Required(s: string) {
    |s| > 0
  }

  /** `Validators.pattern('^[a-z0-9-]+$')`, which lets an empty value pass
      (the required validator reports that case). */
  predicate MatchesNamePattern(s: string) {
    |s| == 0 || AllNameChars(s)
  }

  /** The name control's validity. */
  function ValidName(name: string): (r: bool)
    ensures r <==> |name| > 0 && forall i :: 0 <= i < |name| ==> NameChar(name[i])
  {
    Required(name) && MatchesNamePattern(name)
  }

  /** The whole form's validity: the description has no validator and the
      template is required. */
  predicate FormValid(f: Form) {
    ValidName(f.name) && Required(f.template)
  }

  /** The lines `create` writes before its call: three, and a fourth only
      for a non-empty description. */
  function StartLogs(f: Form): (r: seq<LogLine>)
    ensures |r| == (if f.description == "" then 3 else 4)
    ensures forall i :: 0 <= i < |r| ==> r[i].kind == Stdout
    ensures r[0].data == StartLine
  {
    [LogLine(Stdout, StartLine),
     LogLine(Stdout, "Project Name: " + f.name),
     LogLine(Stdout, "Template: " + f.template)]
    + (if f.description != "" then [LogLine(Stdout, "Description: " + f.description)] else [])
  }

  /** `create()` up to the awaited call; a no-op unless the form is valid
      and no creation is running. */
  function StartCreate(c: Creator): (r: Creator)
    ensures !(FormValid(c.form) && !c.creating) ==> r == c
    ensures FormValid(c.form) && !c.creating ==>
      r.creating && r.logs == StartLogs(c.form) &&
      r.canCancel == c.canCancel && r.form == c.form && r.closedWith == c.closedWith
  {
    if FormValid(c.form) && !c.creating then c.(creating := true, logs := StartLogs(c.form))
    else c
  }

  /** The rest of `create()` once the call settles. */
  function FinishCreate(c: Creator, call: Completion): (r: Creator)
    ensures call.Resolved? ==>
      && !r.canCancel && r.creating == c.creating
      && r.logs == c.logs + [LogLine(Stdout, SuccessLine)]
      && r.closedWith == c.closedWith + [true]
    ensures call.Rejected? ==>
      && !r.creating && r.canCancel == c.canCancel && r.closedWith == c.closedWith
      && (call.reason.ErrorObject? ==> r.logs == c.logs + [LogLine(ErrorLog, FailureLine), LogLine(ErrorLog, call.reason.message)])
      && (call.reason.OtherValue? ==> r.logs == c.logs + [LogLine(ErrorLog, FailureLine)])
  {
    match call
    case Resolved =>
      c.(canCancel := false, logs := c.logs + [LogLine(Stdout, SuccessLine)], closedWith := c.closedWith + [true])
    case Rejected(e) =>
      var detail := if e.ErrorObject? then [LogLine(ErrorLog, e.message)] else [];
      c.(creating := false, logs := c.logs + [LogLine(ErrorLog, FailureLine)] + detail)
  }

  /** `create()` with nothing interleaved at its await. */
  function Create(c: Creator, call: Completion): (r: Creator)
    ensures !(FormValid(c.form) && !c.creating) ==> r == c
    ensures FormValid(c.form) && !c.creating && call.Resolved? ==>
      && r.creating && !r.canCancel
      && r.logs == StartLogs(c.form) + [LogLine(Stdout, SuccessLine)]
      && r.closedWith == c.closedWith + [true]
    ensures FormValid(c.form) && !c.creating && call.Rejected? ==>
      && !r.creating && r.canCancel == c.canCancel && r.closedWith == c.closedWith
      && (call.reason.ErrorObject? ==>
            r.logs == StartLogs(c.form) + [LogLine(ErrorLog, FailureLine), LogLine(ErrorLog, call.reason.message)])
      && (call.reason.OtherValue? ==> r.logs == StartLogs(c.form) + [LogLine(ErrorLog, FailureLine)])
  {
    if FormValid(c.form) && !c.creating then FinishCreate(StartCreate(c), call) else c
  }

  /** `cancel()`: closes with `false` unless a creation is running that can
      no longer be cancelled. */
  function Cancel(c: Creator): (r: Creator)
    ensures (!c.creating || c.canCancel) ==> r == c.(closedWith := c.closedWith + [false])
    ensures !(!c.creating || c.canCancel) ==> r == c
  {
    if !c.creating || c.canCancel then c.(closedWith := c.closedWith + [false]) else c
  }

  /** After a successful creation the dialog can no longer be cancelled:
      `creating` stays set and `canCancel` is cleared for good. */
  lemma {:induction false} CancelAfterSuccessIsNoOp(c: Creator)
    requires FormValid(c.form) && !c.creating
    ensures var r := Create(c, Resolved);
      Cancel(r) == r && Create(r, Resolved) == r && Create(r, Rejected(OtherValue)) == r
  {
    var r := Create(c, Resolved);
    assert r.creating && !r.canCancel;
  }

  /** While the call is in flight the dialog still can be cancelled (the
      creation carries on). */
  lemma CancelWhileCreating(form: Form)
    requires FormValid(form)
    ensures var started := StartCreate(Initial(form));
      started.creating && Cancel(started).closedWith == [false]
  {
  }

  /** After a failed creation the form can be submitted again. */
  lemma RetryAfterFailure(c: Creator, e: Thrown)
    requires FormValid(c.form) && !c.creating
    ensures var r := Create(c, Rejected(e));
      !r.creating && StartCreate(r).creating && StartCreate(r).logs == StartLogs(c.form)
  {
  }

  /** Some concrete names the validator accepts and rejects. */
  lemma NameExamples()
    ensures ValidName("my-app-2")
    ensures !ValidName("") && !ValidName("My-App") && !ValidName("my app") && !ValidName("my_app")
  {
    assert !NameChar('M');
    assert !NameChar(' ');
    assert !NameChar('_');
    assert "My-App"[0] == 'M';
    assert "my app"[2] == ' ';
    assert "my_app"[2] == '_';
  }
}
