/** The machine-readable event stream of a command: whatever the body does, one
    terminal event, and it is the last. */
module ForgeSession {
  import opened Prelude
  import PyText

  const RUN_COMPLETED := "run_completed"
  const ERROR := "error"

  predicate IsTerminal(name: string) {
    name == RUN_COMPLETED || name == ERROR
  }

  predicate IsDeclared(name: string) {
    || IsTerminal(name)
    || name in {"run_started", "plan_saved", "plan_invalid", "task_started", "task_completed", "task_failed"}
    || name in {"scope_amended", "verification_result", "verification_unavailable", "review_result"}
  }

  /** The names a stream may carry; two of them close it. */
  lemma NamesDecided(name: string)
    ensures IsTerminal(name) <==> name == "run_completed" || name == "error"
    ensures IsDeclared(name) <==>
      (|| name == "run_started" || name == "plan_saved" || name == "plan_invalid" || name == "task_started"
       || name == "task_completed" || name == "task_failed" || name == "scope_amended"
       || name == "verification_result" || name == "verification_unavailable" || name == "review_result"
       || name == "run_completed" || name == "error")
  {
  }

  const EXIT_OK := 0
  const EXIT_NOT_ACCEPTED := 1
  const EXIT_ERROR := 2
  const EXIT_INTERRUPTED := 130

  datatype Data =
    | Plain(payload: string)
    | Completed(ok: bool, exitCode: int)
    | Failed(kind: string, exitCode: int)

  datatype Event = Event(name: string, runId: Option<string>, data: Data)

  /** The value of an attribute of an exception, where it has one. */
  datatype Attribute = Absent | NoValue | BoolValue(b: bool) | IntValue(n: int) | OtherValue

  datatype Failure =
    | KeyboardInterrupt
    | Exception(exitCode: Attribute, code: Attribute)

  const PROTOCOL_ERROR := Exception(Absent, Absent)

  // ---------------------------------------------------------------- emitter

  /** Only the last event, if any, is terminal. */
  predicate Ordered(lines: seq<Event>) {
    forall i | 0 <= i < |lines| - 1 :: !IsTerminal(lines[i].name)
  }

  predicate Closed(lines: seq<Event>) {
    |lines| > 0 && IsTerminal(lines[|lines| - 1].name)
  }

  lemma TerminalNamesAreStripped()
    ensures PyText.Strip(RUN_COMPLETED) == RUN_COMPLETED && PyText.Strip(ERROR) == ERROR
    ensures IsDeclared(RUN_COMPLETED) && IsDeclared(ERROR)
  {
    hide PyText.LStrip, PyText.RStrip, PyText.Strip;
    PyText.StripOfSolid(RUN_COMPLETED);
    PyText.StripOfSolid(ERROR);
  }

  function Normalized(runId: string): Option<string> {
    var text := PyText.Strip(runId);
    if text == "" then None else Some(text)
  }

  class Emitter {
    const enabled: bool
    var runId: Option<string>
    var terminalEvent: Option<string>
    var emitted: nat
    /** The lines written so far. */
    var lines: seq<Event>

    ghost predicate Valid()
      reads this
    {
      && Ordered(lines) && emitted == |lines| && (!enabled ==> |lines| == 0)
      && terminalEvent == (if Closed(lines) then Some(lines[|lines| - 1].name) else None)
    }

    constructor (enabled: bool, runId: Option<string>)
      ensures Valid() && this.enabled == enabled && lines == []
      ensures this.runId == (if runId.Some? then Normalized(runId.value) else None)
    {
      this.enabled := enabled;
      this.runId := if runId.Some? then Normalized(runId.value) else None;
      terminalEvent, emitted, lines := None, 0, [];
    }

    method SetRunId(runId: Option<string>)
      requires Valid()
      modifies this`runId
      ensures Valid() && this.runId == (if runId.Some? then Normalized(runId.value) else None)
    {
      this.runId := if runId.Some? then Normalized(runId.value) else None;
    }

    /** `emit`: an undeclared name raises, a disabled or closed emitter ignores the
        event, any other event is appended. */
    method Emit(event: string, data: Data, runId: Option<string>) returns (r: Result<bool, Failure>)
      requires Valid()
      modifies this
      ensures Valid()
      ensures
        var name := PyText.Strip(event);
        var written := IsDeclared(name) && enabled && !Closed(old(lines));
        && r == (if IsDeclared(name) then Ok(written) else Raise(PROTOCOL_ERROR))
        && this.runId == (if written && runId.Some? then Normalized(runId.value) else old(this.runId))
        && lines == (if written then old(lines) + [Event(name, this.runId, data)] else old(lines))
    {
      hide IsTerminal, IsDeclared, PyText.Strip;
      var name := PyText.Strip(event);
      if !IsDeclared(name) { return Raise(PROTOCOL_ERROR); }
      if !enabled { return Ok(false); }
      if terminalEvent.Some? { return Ok(false); }
      if runId.Some? { SetRunId(runId); }
      lines := lines + [Event(name, this.runId, data)];
      emitted := emitted + 1;
      if IsTerminal(name) { terminalEvent := Some(name); }
      r := Ok(true);
    }

    /** `run_completed` and `error`. */
    method EmitTerminal(data: Data)
      requires Valid() && !data.Plain?
      modifies this
      ensures Valid() && runId == old(runId)
      ensures
        var event := Event(if data.Completed? then RUN_COMPLETED else ERROR, runId, data);
        lines == if enabled && !Closed(old(lines)) then old(lines) + [event] else old(lines)
    {
      TerminalNamesAreStripped();
      hide PyText.Strip, IsTerminal, Ordered, Closed;
      var r := Emit(if data.Completed? then RUN_COMPLETED else ERROR, data, None);
    }
  }

  // ---------------------------------------------------------------- exit codes

  function CodeOf(a: Attribute): Option<int> {
    match a
    case NoValue => Some(0)
    case BoolValue(b) => Some(if b then 1 else 0)
    case IntValue(n) => Some(n)
    case _ => None
  }

  /** `_exit_code_from_exception`. */
  function ExitCodeOf(exitCode: Attribute, code: Attribute): Option<int> {
    if CodeOf(exitCode).Some? then CodeOf(exitCode) else CodeOf(code)
  }

  /** The terminal event of a session whose body did not emit one. */
  function TerminalFor(outcome: Option<Failure>): Data {
    match outcome
    case None => Completed(true, EXIT_OK)
    case Some(KeyboardInterrupt) => Failed("interrupted", EXIT_INTERRUPTED)
    case Some(Exception(exitCode, code)) =>
      match ExitCodeOf(exitCode, code)
      case Some(0) => Completed(true, EXIT_OK)
      case Some(1) => Completed(false, EXIT_NOT_ACCEPTED)
      case Some(n) => Failed("exit", n)
      case None => Failed("exception", EXIT_ERROR)
  }

  function TerminalEvent(outcome: Option<Failure>, runId: Option<string>): Event {
    var data := TerminalFor(outcome);
    Event(if data.Completed? then RUN_COMPLETED else ERROR, runId, data)
  }

  /** How an exception is reported: as an error exactly when the code found on it is
      neither 0 nor 1, and with the code 2 of a failed command exactly when it carries
      none or that very code. */
  lemma ExceptionIsReportedExactlyAs(exitCode: Attribute, code: Attribute)
    ensures
      var data, found := TerminalFor(Some(Exception(exitCode, code))), ExitCodeOf(exitCode, code);
      && (data.Failed? <==> found != Some(0) && found != Some(1))
      && (data.exitCode == EXIT_ERROR <==> found.None? || found == Some(2))
      && (data.exitCode == EXIT_OK <==> found == Some(0))
      && (data.Completed? && data.ok ==> data.exitCode == EXIT_OK)
  {
  }

  /** An unhandled exception that merely has an attribute `code` without a value is
      reported as a completed command. */
  lemma FailureCanReadAsSuccess()
    ensures TerminalFor(Some(Exception(Absent, NoValue))) == Completed(true, EXIT_OK)
  {
  }

  // ----------------------------------------------------------------- sessions

  class Registry {
    var active: Emitter?

    constructor ()
      ensures active == null
    {
      active := null;
    }

    method SetActive(emitter: Emitter?) returns (previous: Emitter?)
      modifies this
      ensures previous == old(active) && active == emitter
    {
      previous := active;
      active := emitter;
    }
  }

  class MachineSession {
    const emitter: Emitter
    const registerActive: bool
    var previous: Emitter?
    var registered: bool

    constructor (emitter: Emitter, registerActive: bool)
      ensures this.emitter == emitter && this.registerActive == registerActive && !registered
    {
      this.emitter, this.registerActive := emitter, registerActive;
      previous, registered := null, false;
    }

    method Enter(registry: Registry)
      modifies this, registry
      ensures registered == (registerActive || old(registered))
      ensures if registerActive then previous == old(registry.active) && registry.active == emitter
              else previous == old(previous) && registry.active == old(registry.active)
    {
      if registerActive {
        previous := registry.SetActive(emitter);
        registered := true;
      }
    }

    /** `_finalize`. */
    method Finalize(outcome: Option<Failure>)
      requires emitter.Valid()
      modifies emitter
      ensures emitter.Valid() && emitter.runId == old(emitter.runId)
      ensures emitter.enabled ==> Closed(emitter.lines)
      ensures
        emitter.lines == if emitter.enabled && !Closed(old(emitter.lines))
                         then old(emitter.lines) + [TerminalEvent(outcome, emitter.runId)]
                         else old(emitter.lines)
    {
      if !emitter.enabled || emitter.terminalEvent.Some? { return; }
      match outcome {
        case None => emitter.EmitTerminal(Completed(true, EXIT_OK));
        case Some(KeyboardInterrupt) => emitter.EmitTerminal(Failed("interrupted", EXIT_INTERRUPTED));
        case Some(Exception(exitCode, code)) =>
          var found := ExitCodeOf(exitCode, code);
          if found == Some(EXIT_OK) {
            emitter.EmitTerminal(Completed(true, EXIT_OK));
          } else if found == Some(EXIT_NOT_ACCEPTED) {
            emitter.EmitTerminal(Completed(false, EXIT_NOT_ACCEPTED));
          } else if found.Some? {
            emitter.EmitTerminal(Failed("exit", found.value));
          } else {
            emitter.EmitTerminal(Failed("exception", EXIT_ERROR));
          }
      }
    }

    /** `__exit__`: the exception, if any, keeps propagating. */
    method Exit(registry: Registry, outcome: Option<Failure>)
      requires emitter.Valid()
      modifies this, registry, emitter
      ensures emitter.Valid() && emitter.runId == old(emitter.runId)
      ensures emitter.enabled ==> Closed(emitter.lines)
      ensures
        emitter.lines == if emitter.enabled && !Closed(old(emitter.lines))
                         then old(emitter.lines) + [TerminalEvent(outcome, emitter.runId)]
                         else old(emitter.lines)
      ensures registry.active == (if old(registered) then old(previous) else old(registry.active))
      ensures !registered
    {
      Finalize(outcome);
      if registered {
        var ignored := registry.SetActive(previous);
        registered := false;
      }
    }
  }

  // ------------------------------------------------------------------ bodies

  /** What a command body does: emit through its own or the active emitter, complete or
      fail by itself, run another session, whose exception it may catch. */
  datatype Action =
    | Emit(event: string, data: Data, runId: Option<string>)
    | EmitActive(event: string, data: Data, runId: Option<string>)
    | Terminate(data: Data)
    | Nested(machine: bool, runId: Option<string>, body: Body, catches: bool)

  datatype Body = Body(actions: seq<Action>, ending: Option<Failure>)

  /** What an emitter has written and under which run id. */
  datatype Stream = Stream(enabled: bool, runId: Option<string>, lines: seq<Event>)

  function NewStream(enabled: bool, runId: Option<string>): Stream {
    Stream(enabled, if runId.Some? then Normalized(runId.value) else None, [])
  }

  predicate Declared(event: string) {
    IsDeclared(PyText.Strip(event))
  }

  function EmitOn(s: Stream, event: string, data: Data, runId: Option<string>): Stream {
    if !Declared(event) || !s.enabled || Closed(s.lines) then s
    else
      var run := if runId.Some? then Normalized(runId.value) else s.runId;
      Stream(true, run, s.lines + [Event(PyText.Strip(event), run, data)])
  }

  function TerminateOn(s: Stream, data: Data): Stream {
    if data.Plain? || !s.enabled || Closed(s.lines) then s
    else s.(lines := s.lines + [Event(if data.Completed? then RUN_COMPLETED else ERROR, s.runId, data)])
  }

  /** The active stream after a body from action i on, and the exception the body ends
      with. The body of an enabled session writes to the active stream, which is its
      own; the body of a disabled one only what it sends to the active emitter. */
  function Perform(body: Body, i: nat, enabled: bool, active: Option<Stream>): (Option<Stream>, Option<Failure>)
    requires i <= |body.actions|
    decreases body, |body.actions| - i
  {
    if i == |body.actions| then (active, body.ending)
    else
      match body.actions[i]
      case Emit(event, data, runId) =>
        if !Declared(event) then (active, Some(PROTOCOL_ERROR))
        else
          var written := if enabled && active.Some? then Some(EmitOn(active.value, event, data, runId)) else active;
          Perform(body, i + 1, enabled, written)
      case EmitActive(event, data, runId) =>
        if active.None? then Perform(body, i + 1, enabled, active)
        else if !Declared(event) then (active, Some(PROTOCOL_ERROR))
        else Perform(body, i + 1, enabled, Some(EmitOn(active.value, event, data, runId)))
      case Terminate(data) =>
        var written := if enabled && active.Some? then Some(TerminateOn(active.value, data)) else active;
        Perform(body, i + 1, enabled, written)
      case Nested(machine, runId, inner, catches) =>
        var (left, failure) := PerformNested(machine, runId, inner, active);
        if failure.Some? && !catches then (left, failure) else Perform(body, i + 1, enabled, left)
  }

  /** A nested session: an enabled one has a stream of its own. */
  function PerformNested(machine: bool, runId: Option<string>, inner: Body, active: Option<Stream>)
    : (Option<Stream>, Option<Failure>)
    decreases inner, |inner.actions| + 1
  {
    if machine then (active, Perform(inner, 0, true, Some(NewStream(true, runId))).1)
    else Perform(inner, 0, false, active)
  }

  /** The stream of an enabled session, body and terminal event. */
  function SessionStream(body: Body, runId: Option<string>): Stream {
    var (written, outcome) := Perform(body, 0, true, Some(NewStream(true, runId)));
    var s := written.GetOr(NewStream(true, runId));
    if Closed(s.lines) then s else s.(lines := s.lines + [TerminalEvent(outcome, s.runId)])
  }

  ghost function StreamOf(e: Emitter?): Option<Stream>
    reads e
  {
    if e == null then None else Some(Stream(e.enabled, e.runId, e.lines))
  }

  /** Runs the body of a session whose emitter is `own`. */
  method RunBody(registry: Registry, own: Emitter, body: Body) returns (outcome: Option<Failure>)
    requires own.Valid() && (registry.active != null ==> registry.active.Valid())
    requires own.enabled ==> registry.active == own
    modifies registry, own, registry.active
    ensures registry.active == old(registry.active)
    ensures own.Valid() && (registry.active != null ==> registry.active.Valid())
    ensures !own.enabled && registry.active != own ==> own.lines == old(own.lines)
    ensures (StreamOf(registry.active), outcome) == Perform(body, 0, own.enabled, old(StreamOf(registry.active)))
    decreases body, 0
  {
    hide IsTerminal, IsDeclared, PyText.Strip, Ordered, Closed, Normalized;
    ghost var start := StreamOf(registry.active);
    for i := 0 to |body.actions|
      invariant registry.active == old(registry.active)
      invariant own.Valid() && (registry.active != null ==> registry.active.Valid())
      invariant !own.enabled && registry.active != own ==> own.lines == old(own.lines)
      invariant Perform(body, 0, own.enabled, start) == Perform(body, i, own.enabled, StreamOf(registry.active))
    {
      match body.actions[i] {
        case Emit(event, data, runId) =>
          var r := own.Emit(event, data, runId);
          if r.Raise? { return Some(r.error); }
        case EmitActive(event, data, runId) =>
          if registry.active != null {
            var r := registry.active.Emit(event, data, runId);
            if r.Raise? { return Some(r.error); }
          }
        case Terminate(data) =>
          if !data.Plain? { own.EmitTerminal(data); }
        case Nested(machine, runId, inner, catches) =>
          var emitter, failure := RunSession(registry, machine, runId, inner);
          if failure.Some? && !catches { return failure; }
      }
    }
    outcome := body.ending;
  }

  /** `machine_session` around a body: what it writes and raises is exactly what the
      body determines, and the emitter active before is active again. */
  method RunSession(registry: Registry, machine: bool, runId: Option<string>, body: Body)
    returns (emitter: Emitter, outcome: Option<Failure>)
    requires registry.active != null ==> registry.active.Valid()
    modifies registry, registry.active
    ensures fresh(emitter) && emitter.Valid() && emitter.enabled == machine
    ensures registry.active == old(registry.active)
    ensures registry.active != null ==> registry.active.Valid()
    ensures (StreamOf(registry.active), outcome) == PerformNested(machine, runId, body, old(StreamOf(registry.active)))
    ensures machine ==> StreamOf(emitter) == Some(SessionStream(body, runId))
    ensures !machine ==> emitter.lines == []
    decreases body, 1
  {
    hide IsTerminal, IsDeclared, PyText.Strip, Ordered, Closed, Normalized, TerminalEvent;
    emitter := new Emitter(machine, runId);
    var session := new MachineSession(emitter, machine);
    session.Enter(registry);
    outcome := RunBody(registry, emitter, body);
    session.Exit(registry, outcome);
  }

  // ------------------------------------------------------------- main results

  predicate WellFormed(s: Stream) {
    Ordered(s.lines) && (!s.enabled ==> |s.lines| == 0)
  }

  /** s is t with fewer events, the rest of which came later. */
  predicate Grew(s: Stream, t: Stream) {
    && t.enabled == s.enabled && s.lines <= t.lines && (Closed(s.lines) ==> t.lines == s.lines)
    && (WellFormed(s) ==> WellFormed(t))
  }

  lemma GrewTwice(s: Stream, t: Stream, u: Stream)
    requires Grew(s, t) && Grew(t, u)
    ensures Grew(s, u)
  {
    hide Ordered, Closed;
  }

  lemma EmitGrows(s: Stream, event: string, data: Data, runId: Option<string>)
    ensures Grew(s, EmitOn(s, event, data, runId)) && Grew(s, TerminateOn(s, data))
  {
    hide IsTerminal, IsDeclared, PyText.Strip, Normalized;
  }

  ghost predicate GrewAll(before: Option<Stream>, after: Option<Stream>) {
    && (before.Some? <==> after.Some?) && (before.Some? ==> Grew(before.value, after.value))
  }

  lemma SameGrew(s: Stream)
    ensures Grew(s, s)
  {
  }

  /** A body only appends to the stream it reaches, and to a closed one nothing. */
  lemma {:induction false} BodyGrows(body: Body, i: nat, enabled: bool, active: Option<Stream>)
    requires i <= |body.actions|
    ensures GrewAll(active, Perform(body, i, enabled, active).0)
    decreases body, |body.actions| - i
  {
    if active.Some? { SameGrew(active.value); }
    hide Grew, EmitOn, TerminateOn, Declared;
    if i < |body.actions| {
      match body.actions[i] {
        case Emit(event, data, runId) =>
          if active.Some? { EmitGrows(active.value, event, data, runId); }
          var written := if enabled && active.Some? then Some(EmitOn(active.value, event, data, runId)) else active;
          BodyGrows(body, i + 1, enabled, written);
          GrewAllTwice(active, written, Perform(body, i + 1, enabled, written).0);
        case EmitActive(event, data, runId) =>
          if active.Some? { EmitGrows(active.value, event, data, runId); }
          var written := if active.Some? then Some(EmitOn(active.value, event, data, runId)) else active;
          BodyGrows(body, i + 1, enabled, written);
          GrewAllTwice(active, written, Perform(body, i + 1, enabled, written).0);
        case Terminate(data) =>
          if active.Some? { EmitGrows(active.value, "", data, None); }
          var written := if enabled && active.Some? then Some(TerminateOn(active.value, data)) else active;
          BodyGrows(body, i + 1, enabled, written);
          GrewAllTwice(active, written, Perform(body, i + 1, enabled, written).0);
        case Nested(machine, runId, inner, _) =>
          if !machine { BodyGrows(inner, 0, false, active); }
          var left := PerformNested(machine, runId, inner, active).0;
          BodyGrows(body, i + 1, enabled, left);
          GrewAllTwice(active, left, Perform(body, i + 1, enabled, left).0);
      }
    }
  }

  lemma GrewAllTwice(a: Option<Stream>, b: Option<Stream>, c: Option<Stream>)
    requires GrewAll(a, b) && GrewAll(b, c)
    ensures GrewAll(a, c)
  {
    hide Grew;
    if a.Some? { GrewTwice(a.value, b.value, c.value); }
  }

  lemma CloseKeepsForm(s: Stream, outcome: Option<Failure>)
    requires WellFormed(s) && s.enabled && !Closed(s.lines)
    ensures
      var lines := s.lines + [TerminalEvent(outcome, s.runId)];
      Ordered(lines) && Closed(lines)
  {
    hide TerminalFor;
  }

  /** An attribute holds an exit code; one without a value counts as 0. */
  predicate Carries(a: Attribute, code: int) {
    (a.NoValue? && code == 0) || (a.BoolValue? && code == if a.b then 1 else 0) || (a.IntValue? && code == a.n)
  }

  /** The exception carries this code: as `exit_code`, or as `code` where the first is
      missing or no number. */
  predicate Leaves(outcome: Option<Failure>, code: int) {
    match outcome
    case Some(Exception(exitCode, other)) =>
      Carries(exitCode, code) || ((exitCode.Absent? || exitCode.OtherValue?) && Carries(other, code))
    case _ => false
  }

  lemma CodeDecided(exitCode: Attribute, other: Attribute, code: int)
    ensures ExitCodeOf(exitCode, other) == Some(code) <==> Leaves(Some(Exception(exitCode, other)), code)
    ensures ExitCodeOf(exitCode, other).None? <==>
      (exitCode.Absent? || exitCode.OtherValue?) && (other.Absent? || other.OtherValue?)
  {
  }

  /** The event tells what became of the body: completed with 0 for a return or the code 0,
      completed but not accepted with 1 for the code 1, an error with any other code, with
      130 for an interrupt, and with 2 for an exception that carries no code. */
  ghost predicate Tells(last: Event, outcome: Option<Failure>) {
    var exception := outcome.Some? && outcome.value.Exception?;
    && (last.name == "run_completed" <==> outcome.None? || Leaves(outcome, 0) || Leaves(outcome, 1))
    && (last.name == "error" <==> outcome == Some(KeyboardInterrupt) || (exception && !Leaves(outcome, 0) && !Leaves(outcome, 1)))
    && (last.data == Completed(true, 0) <==> outcome.None? || Leaves(outcome, 0))
    && (last.data == Completed(false, 1) <==> Leaves(outcome, 1))
    && (last.data == Failed("interrupted", 130) <==> outcome == Some(KeyboardInterrupt))
    && (forall code :: last.data == Failed("exit", code) <==> Leaves(outcome, code) && code != 0 && code != 1)
    && (last.data == Failed("exception", 2) <==> exception && forall code :: !Leaves(outcome, code))
  }

  lemma TerminalTells(outcome: Option<Failure>, runId: Option<string>)
    ensures Tells(TerminalEvent(outcome, runId), outcome)
  {
    assert "exit" != "exception" && "exit" != "interrupted" && "exception" != "interrupted" && RUN_COMPLETED != ERROR by {
      assert "exit"[1] == 'x' && "interrupted"[0] == 'i' && |"exception"| == 9;
    }
    match outcome
    case Some(Exception(exitCode, other)) =>
      var found := ExitCodeOf(exitCode, other);
      CodeDecided(exitCode, other, 0);
      CodeDecided(exitCode, other, 1);
      forall code ensures found == Some(code) <==> Leaves(outcome, code) { CodeDecided(exitCode, other, code); }
      hide Leaves, ExitCodeOf;
    case _ =>
  }

  /** Every enabled session, whatever its body does and however it ends, writes exactly
      one terminal event, as its last; unless the body wrote it itself, it tells the
      outcome, with its exit code, under the run id of that moment. */
  lemma OneTerminalEvent(body: Body, runId: Option<string>)
    ensures
      var lines := SessionStream(body, runId).lines;
      var (written, outcome) := Perform(body, 0, true, Some(NewStream(true, runId)));
      && |lines| > 0 && lines[|lines| - 1].name in {"run_completed", "error"}
      && (forall i | 0 <= i < |lines| - 1 :: lines[i].name !in {"run_completed", "error"})
      && written.Some? && written.value.lines <= lines
      && (if Closed(written.value.lines) then lines == written.value.lines
          else |lines| == |written.value.lines| + 1
               && Tells(lines[|lines| - 1], outcome) && lines[|lines| - 1].runId == written.value.runId)
  {
    var start := NewStream(true, runId);
    BodyGrows(body, 0, true, Some(start));
    var (written, outcome) := Perform(body, 0, true, Some(start));
    hide Perform, TerminalFor, Tells;
    if !Closed(written.value.lines) {
      CloseKeepsForm(written.value, outcome);
      TerminalTells(outcome, written.value.runId);
    }
  }
}
