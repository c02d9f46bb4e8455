/** Double-checked lazy loading of the background runner: any number of threads
    call `_resolve_runner`, every read and write of the shared fields is a step of
    its own, and the loader may return, raise an Exception, or be torn away by an
    exception that is not one (an interrupt), which is not stored. */
module LazyRunner {
  import opened Prelude

  type Thread = nat
  type Runner = nat
  type Error = nat

  datatype Pc =
    | CheckRunner      // before the unlocked test of _runner
    | CheckError       // before the unlocked test of _load_error
    | Waiting          // before taking the lock
    | RecheckRunner    // holds the lock
    | RecheckError     // holds the lock
    | Loading          // holds the lock, inside the loader
    | Loaded(runner: Runner)  // holds the lock, before storing the runner
    | Failed(error: Error)    // holds the lock, before storing the error
    | Leaving(result: Result<Runner, Error>)  // holds the lock, about to release it
    | Done(result: Result<Runner, Error>)
    | Interrupted      // a non-Exception left the call

  /** `loads` counts completed runs of the loader, `starts` the begun ones and
      `interrupts` those torn away. */
  datatype State = State(
    runner: Option<Runner>, error: Option<Error>, lock: Option<Thread>, pcs: map<Thread, Pc>,
    starts: nat, loads: nat, interrupts: nat)
  {
    function At(t: Thread): Pc {
      if t in pcs then pcs[t] else CheckRunner
    }

    function Goto(t: Thread, p: Pc): State {
      this.(pcs := pcs[t := p])
    }
  }

  const INIT := State(None, None, None, map[], 0, 0, 0)

  datatype Outcome = Returns(runner: Runner) | Raises(error: Error) | TornAway

  datatype Action = Proceed(t: Thread) | LoaderEnds(t: Thread, outcome: Outcome) | CallAgain(t: Thread)

  predicate Enabled(s: State, a: Action) {
    match a
    case Proceed(t) =>
      var p := s.At(t);
      !p.Loading? && !p.Done? && !p.Interrupted? && (p.Waiting? ==> s.lock.None?)
    case LoaderEnds(t, _) => s.At(t).Loading?
    case CallAgain(t) => s.At(t).Done? || s.At(t).Interrupted?
  }

  function Next(s: State, a: Action): State
    requires Enabled(s, a)
  {
    match a
    case CallAgain(t) => s.Goto(t, CheckRunner)
    case LoaderEnds(t, outcome) =>
      (match outcome
       case Returns(r) => s.Goto(t, Loaded(r)).(loads := s.loads + 1)
       case Raises(e) => s.Goto(t, Failed(e)).(loads := s.loads + 1)
       case TornAway => s.Goto(t, Interrupted).(lock := None, interrupts := s.interrupts + 1))
    case Proceed(t) =>
      match s.At(t)
      case CheckRunner => s.Goto(t, if s.runner.Some? then Done(Ok(s.runner.value)) else CheckError)
      case CheckError => s.Goto(t, if s.error.Some? then Done(Raise(s.error.value)) else Waiting)
      case Waiting => s.Goto(t, RecheckRunner).(lock := Some(t))
      case RecheckRunner => s.Goto(t, if s.runner.Some? then Leaving(Ok(s.runner.value)) else RecheckError)
      case RecheckError =>
        if s.error.Some? then s.Goto(t, Leaving(Raise(s.error.value)))
        else s.Goto(t, Loading).(starts := s.starts + 1)
      case Loaded(r) => s.Goto(t, Leaving(Ok(r))).(runner := Some(r))
      case Failed(e) => s.Goto(t, Leaving(Raise(e))).(error := Some(e))
      case Leaving(result) => s.Goto(t, Done(result)).(lock := None)
  }

  predicate IsRun(s: State, run: seq<Action>)
    decreases |run|
  {
    run == [] || (Enabled(s, run[0]) && IsRun(Next(s, run[0]), run[1..]))
  }

  function Final(s: State, run: seq<Action>): State
    requires IsRun(s, run)
    decreases |run|
  {
    if run == [] then s else Final(Next(s, run[0]), run[1..])
  }

  predicate Holds(p: Pc) {
    p.RecheckRunner? || p.RecheckError? || p.Loading? || p.Loaded? || p.Failed? || p.Leaving?
  }

  /** What the shared fields say the call returns or raises. */
  function Settled(s: State): Option<Result<Runner, Error>> {
    if s.runner.Some? then Some(Ok(s.runner.value))
    else if s.error.Some? then Some(Raise(s.error.value))
    else None
  }

  ghost predicate Inv(s: State) {
    && !(s.runner.Some? && s.error.Some?)
    && (forall t <- s.pcs :: Holds(s.pcs[t]) <==> s.lock == Some(t))
    && (s.lock.Some? ==> s.lock.value in s.pcs)
    && (forall t <- s.pcs :: s.pcs[t].Done? || s.pcs[t].Leaving? ==> Settled(s) == Some(s.pcs[t].result))
    && (forall t <- s.pcs :: s.pcs[t].RecheckError? ==> s.runner.None?)
    && (forall t <- s.pcs :: s.pcs[t].Loading? || s.pcs[t].Loaded? || s.pcs[t].Failed? ==> Settled(s).None?)
    && s.loads == (if Settled(s).Some? || InFlight(s) then 1 else 0)
    && s.starts == s.loads + s.interrupts + (if s.lock.Some? && s.At(s.lock.value).Loading? then 1 else 0)
  }

  /** The loader finished and its outcome is about to be stored. */
  predicate InFlight(s: State) {
    s.lock.Some? && (s.At(s.lock.value).Loaded? || s.At(s.lock.value).Failed?)
  }

  lemma LoaderKeepsInv(s: State, t: Thread, outcome: Outcome)
    requires Inv(s) && Enabled(s, LoaderEnds(t, outcome))
    ensures Inv(Next(s, LoaderEnds(t, outcome)))
    ensures Settled(s).None?
  {
  }

  predicate WithoutLock(s: State, a: Action) {
    a.CallAgain? || (a.Proceed? && (s.At(a.t).CheckRunner? || s.At(a.t).CheckError?))
  }

  lemma UnlockedStepKeepsInv(s: State, a: Action)
    requires Inv(s) && Enabled(s, a) && WithoutLock(s, a)
    ensures Inv(Next(s, a)) && Settled(Next(s, a)) == Settled(s)
  {
    var t := a.t;
    assert s.lock != Some(t);
    if a.CallAgain? {
      UnlockedMoveKeepsInv(s, t, CheckRunner);
    } else if s.At(t).CheckRunner? {
      UnlockedMoveKeepsInv(s, t, if s.runner.Some? then Done(Ok(s.runner.value)) else CheckError);
    } else {
      UnlockedMoveKeepsInv(s, t, if s.error.Some? then Done(Raise(s.error.value)) else Waiting);
    }
  }

  /** A caller that does not hold the lock moves without it. */
  lemma UnlockedMoveKeepsInv(s: State, t: Thread, p: Pc)
    requires Inv(s) && s.lock != Some(t) && !Holds(p) && (p.Done? ==> Settled(s) == Some(p.result))
    ensures Inv(s.Goto(t, p)) && Settled(s.Goto(t, p)) == Settled(s)
  {
  }

  lemma LockedStepKeepsInv(s: State, a: Action)
    requires Inv(s) && Enabled(s, a) && a.Proceed? && !WithoutLock(s, a)
    requires !s.At(a.t).Loaded? && !s.At(a.t).Failed?
    ensures Inv(Next(s, a)) && Settled(Next(s, a)) == Settled(s)
  {
  }

  lemma StoreKeepsInv(s: State, t: Thread)
    requires Inv(s) && (s.At(t).Loaded? || s.At(t).Failed?)
    ensures Inv(Next(s, Proceed(t))) && Settled(s).None?
  {
  }

  lemma StepKeepsInv(s: State, a: Action)
    requires Inv(s) && Enabled(s, a)
    ensures Inv(Next(s, a))
    ensures Settled(s).Some? ==> Settled(Next(s, a)) == Settled(s)
  {
    if a.LoaderEnds? {
      LoaderKeepsInv(s, a.t, a.outcome);
    } else if WithoutLock(s, a) {
      UnlockedStepKeepsInv(s, a);
    } else if s.At(a.t).Loaded? || s.At(a.t).Failed? {
      StoreKeepsInv(s, a.t);
    } else {
      LockedStepKeepsInv(s, a);
    }
  }

  lemma {:induction false} RunKeepsInv(s: State, run: seq<Action>)
    requires Inv(s) && IsRun(s, run)
    ensures Inv(Final(s, run))
    ensures Settled(s).Some? ==> Settled(Final(s, run)) == Settled(s)
    decreases |run|
  {
    if run != [] {
      StepKeepsInv(s, run[0]);
      RunKeepsInv(Next(s, run[0]), run[1..]);
    }
  }

  /** Under every interleaving the loader completes at most once, the runner and the
      stored error are never both set, and every caller that is through got the
      same runner or the same error. The loader is started again only after a start
      that was torn away. */
  lemma LoadsOnceForAllCallers(run: seq<Action>)
    requires IsRun(INIT, run)
    ensures
      var s := Final(INIT, run);
      && s.loads <= 1 && !(s.runner.Some? && s.error.Some?)
      && s.starts <= 1 + s.interrupts
      && (forall t, u | t in s.pcs && u in s.pcs && s.pcs[t].Done? && s.pcs[u].Done? ::
            s.pcs[t].result == s.pcs[u].result)
  {
    RunKeepsInv(INIT, run);
  }

  /** A caller that got its answer keeps getting it: whatever happens later, the
      same thread or any other one is through with the same result. */
  lemma AnswerNeverChanges(before: seq<Action>, after: seq<Action>, t: Thread, u: Thread)
    requires IsRun(INIT, before) && IsRun(Final(INIT, before), after)
    requires Final(INIT, before).At(t).Done?
    requires Final(Final(INIT, before), after).At(u).Done?
    ensures Final(Final(INIT, before), after).At(u).result == Final(INIT, before).At(t).result
  {
    RunKeepsInv(INIT, before);
    RunKeepsInv(Final(INIT, before), after);
  }

  /** The lock never wedges: as long as some caller is not through, some thread can
      take a step. */
  lemma SomeCallerCanStep(run: seq<Action>, t: Thread)
    requires IsRun(INIT, run)
    requires !Final(INIT, run).At(t).Done? && !Final(INIT, run).At(t).Interrupted?
    ensures exists a: Action :: Enabled(Final(INIT, run), a) && !a.CallAgain?
  {
    var s := Final(INIT, run);
    RunKeepsInv(INIT, run);
    var busy := if s.lock.Some? then s.lock.value else t;
    if s.At(busy).Loading? {
      assert Enabled(s, LoaderEnds(busy, TornAway));
    } else {
      assert Enabled(s, Proceed(busy));
    }
  }
}
