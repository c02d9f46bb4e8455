/** Runs of a deadline: any sequence of clock advances, duration observations,
    stage and window reports, and marks. The methods of ExecutionDeadline are
    proved to take exactly these steps. */
module DeadlineRuns {
  import opened Prelude
  import opened DeadlineModel
  import opened DeadlineTheorems

  datatype State = State(
    now: real, obs: Observations, entered: map<Phase, real>,
    finalizationReason: Option<string>, finalizationEnteredAt: Option<real>,
    directiveSent: bool, llmStarted: bool)

  const DEFAULT_REASON := "reserve_reached"

  /** An event carries the clock readings it makes. */
  datatype Event =
    | Tick(to: real)
    | Observed(operation: string, duration: real)
    | ReportStage(read: real, recorded: real)
    | ReportWindow(t1: real, t2: real, t3: real, recorded: real, reason: string)
    | DirectiveSent
    | LlmStarted

  ghost predicate Enabled(s: State, e: Event) {
    match e
    case Tick(to) => s.now <= to
    case Observed(_, _) => true
    case ReportStage(read, recorded) => s.now <= read <= recorded
    case ReportWindow(t1, t2, t3, recorded, _) => s.now <= t1 <= t2 <= t3 <= recorded
    case DirectiveSent => true
    case LlmStarted => true
  }

  /** The stage `maybe_enter_degradation_stage` returns. */
  function StageReported(c: Config, entered: map<Phase, real>, read: real): Option<Phase> {
    var stage := StageAt(c, read);
    if stage == Normal || stage in entered then None else Some(stage)
  }

  /** Whether `maybe_enter_finalization` returns true. */
  ghost predicate WindowReported(c: Config, s: State, t1: real, t2: real, t3: real) {
    PhaseRead(c, s.obs, t1, t2, t3) == FinalizationWindow && s.finalizationReason.None?
  }

  ghost function Step(c: Config, s: State, e: Event): State
    requires Enabled(s, e)
  {
    match e
    case Tick(to) => s.(now := to)
    case Observed(op, d) => s.(obs := Observe(s.obs, op, d))
    case ReportStage(read, recorded) =>
      var r := StageReported(c, s.entered, read);
      s.(now := recorded, entered := if r.Some? then s.entered[r.value := recorded] else s.entered)
    case ReportWindow(t1, t2, t3, recorded, reason) =>
      if WindowReported(c, s, t1, t2, t3) then
        s.(now := recorded, finalizationEnteredAt := Some(recorded),
           finalizationReason := Some(if reason == "" then DEFAULT_REASON else reason))
      else s.(now := recorded)
    case DirectiveSent => s.(directiveSent := true)
    case LlmStarted => s.(llmStarted := true)
  }

  ghost predicate IsRun(c: Config, s: State, es: seq<Event>)
    decreases |es|
  {
    es == [] || (Enabled(s, es[0]) && IsRun(c, Step(c, s, es[0]), es[1..]))
  }

  ghost function Final(c: Config, s: State, es: seq<Event>): State
    requires IsRun(c, s, es)
    decreases |es|
  {
    if es == [] then s else Final(c, Step(c, s, es[0]), es[1..])
  }

  function Reported(c: Config, s: State, e: Event): seq<Phase> {
    if e.ReportStage? && StageReported(c, s.entered, e.read).Some?
    then [StageReported(c, s.entered, e.read).value]
    else []
  }

  /** The stages reported along a run, in order. */
  ghost function Reports(c: Config, s: State, es: seq<Event>): seq<Phase>
    requires IsRun(c, s, es)
    decreases |es|
  {
    if es == [] then []
    else Reported(c, s, es[0]) + Reports(c, Step(c, s, es[0]), es[1..])
  }

  ghost predicate NotBefore(c: Config, s: State, s': State) {
    && s.now <= s'.now
    && AllSound(s'.obs)
    && Reserve(c, s.obs) <= Reserve(c, s'.obs)
    && (forall p <- s.entered :: p in s'.entered && s'.entered[p] == s.entered[p])
    && (s.finalizationReason.Some? ==>
          s'.finalizationReason == s.finalizationReason
          && s'.finalizationEnteredAt == s.finalizationEnteredAt)
    && (s.directiveSent ==> s'.directiveSent) && (s.llmStarted ==> s'.llmStarted)
  }

  lemma StepIsNotBefore(c: Config, s: State, e: Event)
    requires Enabled(s, e) && AllSound(s.obs)
    ensures NotBefore(c, s, Step(c, s, e))
  {
    if e.Observed? { ReserveGrows(c, s.obs, e.operation, e.duration); }
  }

  lemma {:induction false} RunIsNotBefore(c: Config, s: State, es: seq<Event>)
    requires AllSound(s.obs) && IsRun(c, s, es)
    ensures NotBefore(c, s, Final(c, s, es))
    decreases |es|
  {
    if es != [] {
      StepIsNotBefore(c, s, es[0]);
      RunIsNotBefore(c, Step(c, s, es[0]), es[1..]);
    }
  }

  /** Over any run the clock, the reserve and the phase only move forward: normal,
      convergence, wrap-up, finalization window, exhausted. What was entered,
      why the window was entered and when, and every mark stay as they were set. */
  lemma RunNeverGoesBack(c: Config, s: State, es: seq<Event>)
    requires AllSound(s.obs) && IsRun(c, s, es)
    ensures
      var s' := Final(c, s, es);
      && NotBefore(c, s, s')
      && Rank(PhaseAt(c, s.obs, s.now)) <= Rank(PhaseAt(c, s'.obs, s'.now))
  {
    RunIsNotBefore(c, s, es);
    var s' := Final(c, s, es);
    PhaseNeverGoesBack(c, s.obs, s'.obs, s.now, s'.now);
  }

  /** A budget refusal made before a run is still a refusal after it. */
  lemma RefusalSurvivesRun(c: Config, s: State, es: seq<Event>, op: string,
                           q: StartRequest, at: Readings, q': StartRequest, at': Readings)
    requires AllSound(s.obs) && IsRun(c, s, es)
    requires at.Ordered(at.remaining, s.now)
    requires at'.Ordered(Final(c, s, es).now, at'.blocked)
    requires
      var r := Decide(c, s.obs, op, q, at);
      r.Ok? && (r.value.reason == ReasonExhausted || r.value.reason == DegradationDisallows)
    ensures Refuses(Decide(c, Final(c, s, es).obs, op, q', at'))
  {
    var s' := Final(c, s, es);
    RunIsNotBefore(c, s, es);
    assert at.Ordered(at.remaining, s'.now);
    BudgetRefusalIsPermanent(c, op, s.obs, q, at, s'.obs, q', at', at.remaining, s'.now, at'.blocked);
  }

  // -------------------------------------------------------- the stage ladder

  /** What holds of the stages reported so far. */
  ghost predicate Ladder(c: Config, s: State) {
    forall p <- s.entered :: p != Normal && Rank(p) <= Rank(StageAt(c, s.now)) && s.entered[p] <= s.now
  }

  /** Reporting r one by one, from `now` on, turns `before` into `after`; each
      report is above everything entered before it and not earlier. */
  ghost predicate Climbs(before: map<Phase, real>, now: real, r: seq<Phase>, after: map<Phase, real>)
    decreases |r|
  {
    if r == [] then after == before
    else
      && r[0] in after && now <= after[r[0]]
      && (forall q <- before :: Rank(q) < Rank(r[0]))
      && Climbs(before[r[0] := after[r[0]]], after[r[0]], r[1..], after)
  }

  lemma {:induction false} ClimbsKeeps(before: map<Phase, real>, now: real, r: seq<Phase>,
                                       after: map<Phase, real>, p: Phase)
    requires Climbs(before, now, r, after) && p in before
    ensures p in after && after[p] == before[p]
    decreases |r|
  {
    if r != [] {
      ClimbsKeeps(before[r[0] := after[r[0]]], after[r[0]], r[1..], after, p);
    }
  }

  lemma {:induction false} ClimbsAt(before: map<Phase, real>, now: real, r: seq<Phase>,
                                    after: map<Phase, real>, i: nat, j: nat)
    requires Climbs(before, now, r, after) && i < j < |r|
    ensures r[i] in after && r[j] in after
    ensures Rank(r[i]) < Rank(r[j]) && after[r[i]] <= after[r[j]]
    decreases |r|
  {
    if i > 0 {
      ClimbsAt(before[r[0] := after[r[0]]], after[r[0]], r[1..], after, i - 1, j - 1);
    } else {
      ClimbsAbove(before[r[0] := after[r[0]]], after[r[0]], r[1..], after, j - 1);
    }
  }

  lemma {:induction false} ClimbsAbove(before: map<Phase, real>, now: real, r: seq<Phase>,
                                       after: map<Phase, real>, j: nat)
    requires Climbs(before, now, r, after) && j < |r|
    ensures r[j] in after && now <= after[r[j]]
    ensures forall q <- before :: Rank(q) < Rank(r[j])
    decreases |r|
  {
    if j > 0 {
      ClimbsAbove(before[r[0] := after[r[0]]], after[r[0]], r[1..], after, j - 1);
    }
  }

  lemma {:induction false} ClimbsKeys(before: map<Phase, real>, now: real, r: seq<Phase>,
                                      after: map<Phase, real>, p: Phase)
    requires Climbs(before, now, r, after)
    ensures p in after <==> p in before || p in r
    decreases |r|
  {
    if r != [] {
      ClimbsKeys(before[r[0] := after[r[0]]], after[r[0]], r[1..], after, p);
      assert r == [r[0]] + r[1..];
    }
  }

  lemma {:induction false} ReportsClimb(c: Config, s: State, es: seq<Event>)
    requires IsRun(c, s, es) && Ladder(c, s)
    ensures Ladder(c, Final(c, s, es))
    ensures Climbs(s.entered, s.now, Reports(c, s, es), Final(c, s, es).entered)
    decreases |es|
  {
    if es != [] {
      var s1 := Step(c, s, es[0]);
      LadderStep(c, s, es[0]);
      ReportsClimb(c, s1, es[1..]);
      ClimbsOneMore(s.entered, s.now, Reported(c, s, es[0]), s1.entered, s1.now,
        Reports(c, s1, es[1..]), Final(c, s, es).entered);
    }
  }

  lemma ClimbsOneMore(before: map<Phase, real>, now: real, first: seq<Phase>,
                      middle: map<Phase, real>, at: real, rest: seq<Phase>, after: map<Phase, real>)
    requires now <= at && |first| <= 1
    requires first == [] ==> middle == before
    requires first != [] ==>
      middle == before[first[0] := at] && forall q <- before :: Rank(q) < Rank(first[0])
    requires Climbs(middle, at, rest, after)
    ensures Climbs(before, now, first + rest, after)
  {
    if first == [] {
      assert first + rest == rest;
    } else {
      ClimbsKeeps(middle, at, rest, after, first[0]);
      assert (first + rest)[1..] == rest;
    }
  }

  lemma LadderStep(c: Config, s: State, e: Event)
    requires Enabled(s, e) && Ladder(c, s)
    ensures
      var s1 := Step(c, s, e);
      var r := Reported(c, s, e);
      && Ladder(c, s1) && s.now <= s1.now
      && (r == [] ==> s1.entered == s.entered)
      && (r != [] ==>
            && s1.entered == s.entered[r[0] := s1.now]
            && forall q <- s.entered :: Rank(q) < Rank(r[0]))
  {
    if e.ReportStage? {
      StageReportClimbs(c, s, e.read, e.recorded);
    } else {
      StageNeverGoesBack(c, s.now, Step(c, s, e).now);
    }
  }

  lemma StageReportClimbs(c: Config, s: State, read: real, recorded: real)
    requires Ladder(c, s) && s.now <= read <= recorded
    ensures
      var r := StageReported(c, s.entered, read);
      && Ladder(c, Step(c, s, ReportStage(read, recorded)))
      && (r.Some? ==> forall q <- s.entered :: Rank(q) < Rank(r.value))
  {
    StageNeverGoesBack(c, s.now, read);
    StageNeverGoesBack(c, read, recorded);
    RankIsInjective();
  }

  lemma RankIsInjective()
    ensures forall p, q :: Rank(p) == Rank(q) ==> p == q
  {
  }

  lemma LadderHoldsOnlyStages(c: Config, s: State, p: Phase)
    requires Ladder(c, s) && p in s.entered
    ensures p == Convergence || p == WrapUp
  {
    StageNeverGoesBack(c, s.now, s.now);
  }

  /** From a fresh deadline, every degradation stage is reported at most once, in
      ladder order, at times that do not decrease, and the record of entered
      stages holds exactly the reported ones. */
  lemma StagesReportedOnceInOrder(c: Config, s: State, es: seq<Event>)
    requires s.entered == map[] && IsRun(c, s, es)
    ensures
      var r := Reports(c, s, es);
      var entered := Final(c, s, es).entered;
      && (forall p :: p in entered <==> p in r)
      && (forall p <- r :: p == Convergence || p == WrapUp)
      && (forall i, j | 0 <= i < j < |r| :: Rank(r[i]) < Rank(r[j]) && entered[r[i]] <= entered[r[j]])
  {
    ReportsClimb(c, s, es);
    ReportsInOrder(c, s, Reports(c, s, es), Final(c, s, es));
  }

  lemma ReportsInOrder(c: Config, s: State, r: seq<Phase>, end: State)
    requires s.entered == map[] && Ladder(c, end) && Climbs(s.entered, s.now, r, end.entered)
    ensures forall p :: p in end.entered <==> p in r
    ensures forall p <- r :: p == Convergence || p == WrapUp
    ensures forall i, j | 0 <= i < j < |r| ::
      Rank(r[i]) < Rank(r[j]) && end.entered[r[i]] <= end.entered[r[j]]
  {
    forall p ensures p in end.entered <==> p in r {
      ClimbsKeys(s.entered, s.now, r, end.entered, p);
    }
    forall p | p in r ensures p == Convergence || p == WrapUp {
      LadderHoldsOnlyStages(c, end, p);
    }
    forall i, j | 0 <= i < j < |r|
      ensures Rank(r[i]) < Rank(r[j]) && end.entered[r[i]] <= end.entered[r[j]]
    {
      ClimbsAt(s.entered, s.now, r, end.entered, i, j);
    }
  }
}
