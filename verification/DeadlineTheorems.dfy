/** What the deadline's answers guarantee, for every policy, every record of
    observations and every order of clock readings that does not go back. */
module DeadlineTheorems {
  import opened Prelude
  import opened DeadlineModel

  // ------------------------------------------------------------ monotonicity

  lemma QuotientMonotone(a: real, b: real, span: real)
    requires a <= b && span > 0.0
    ensures a / span <= b / span
  {
    DivideBound(a, b / span, span);
  }

  /** A later reading of the clock never reports an earlier stage. */
  lemma StageNeverGoesBack(c: Config, t: real, later: real)
    requires t <= later
    ensures Rank(StageAt(c, t)) <= Rank(StageAt(c, later)) <= Rank(WrapUp)
    ensures BlockedBy(StageAt(c, t)) <= BlockedBy(StageAt(c, later))
  {
    if Span(c).Some? {
      QuotientMonotone(Elapsed(c, t), Elapsed(c, later), Span(c).value);
    }
  }

  /** A phase put together from several readings lies between the phases at the
      first and at the last of them: a clock that moves during the call is harmless. */
  lemma TornPhaseIsBetween(c: Config, obs: Observations, t1: real, t2: real, t3: real)
    requires t1 <= t2 <= t3
    ensures Rank(PhaseAt(c, obs, t1)) <= Rank(PhaseRead(c, obs, t1, t2, t3)) <= Rank(PhaseAt(c, obs, t3))
  {
    StageNeverGoesBack(c, t1, t3);
    StageNeverGoesBack(c, t2, t3);
  }

  lemma PhaseNeverGoesBack(c: Config, obs: Observations, obs': Observations, t: real, t': real)
    requires t <= t' && Reserve(c, obs) <= Reserve(c, obs')
    ensures Rank(PhaseAt(c, obs, t)) <= Rank(PhaseAt(c, obs', t'))
  {
    StageNeverGoesBack(c, t, t');
  }

  // ----------------------------------------------------------------- reserve

  /** The reserve is capped by the absolute limit and by the fraction of the
      configured budget, up to the smallest usable timeout. */
  lemma ReserveIsCapped(c: Config, obs: Observations)
    requires c.configured.Some?
    ensures
      var p := c.finalization.Normalized();
      Reserve(c, obs) <= Max(MINIMUM_OPERATION_TIMEOUT,
                             Min(p.maxReserve, Scaled(c.configured.value, p.maxReserveFraction)))
  {
    var p := c.finalization.Normalized();
    CapFolds(p.maxReserve, Scaled(c.configured.value, p.maxReserveFraction));
    CapBounds(c, Peak(obs, Llm), Peak(obs, Verification), Peak(obs, Tool));
  }

  lemma CapFolds(limit: real, fraction: real)
    ensures Max(MINIMUM_OPERATION_TIMEOUT, Min(limit, Max(MINIMUM_OPERATION_TIMEOUT, fraction)))
            == Max(MINIMUM_OPERATION_TIMEOUT, Min(limit, fraction))
  {
  }

  lemma CapBounds(c: Config, llm: real, verification: real, tool: real)
    ensures ReserveFrom(c, llm, verification, tool) <= ReserveCap(c)
  {
  }

  function FromDuration(started: real, duration: real, degradation: DegradationPolicy): Config {
    Config(started, Some(started + duration), Some(duration), DEFAULT_FINALIZATION, degradation)
  }

  ghost predicate WindowOpensLate(c: Config, duration: real) {
    forall obs: Observations, t: real | Rank(PhaseAt(c, obs, t)) >= Rank(FinalizationWindow) ::
      t - c.started >= 0.75 * duration
  }

  /** With the default finalization policy the window opens at 75% of the budget
      at the earliest exactly for budgets of at least 0.2 seconds. Below that the
      smallest usable timeout becomes the reserve and the window opens sooner. */
  lemma WindowOpensAfterThreeQuarters(started: real, duration: real, degradation: DegradationPolicy)
    requires duration > 0.0
    ensures WindowOpensLate(FromDuration(started, duration, degradation), duration) <==> duration >= 0.2
  {
    var c := FromDuration(started, duration, degradation);
    if duration >= 0.2 {
      forall obs: Observations, t: real | Rank(PhaseAt(c, obs, t)) >= Rank(FinalizationWindow)
        ensures t - c.started >= 0.75 * duration
      {
        ReserveIsCapped(c, obs);
        StageNeverGoesBack(c, t, t);
      }
    } else {
      var obs: Observations := map[];
      PeakIsPeak(obs, Llm);
      PeakIsPeak(obs, Verification);
      PeakIsPeak(obs, Tool);
      var t := Max(started, started + duration - 0.05);
      assert Reserve(c, obs) == 0.05;
      assert PhaseAt(c, obs, t) == FinalizationWindow;
      assert t - c.started < 0.75 * duration;
    }
  }

  // ---------------------------------------------------------- start decision

  /** The budget has closed the operation for every caller. */
  ghost predicate Closed(c: Config, op: string, t: real) {
    c.deadline.Some? && (c.deadline.value <= t || op in BlockedBy(StageAt(c, t)))
  }

  lemma ClosedStaysClosed(c: Config, op: string, t: real, later: real)
    requires t <= later && Closed(c, op, t)
    ensures Closed(c, op, later)
  {
    StageNeverGoesBack(c, t, later);
  }

  predicate Refuses(r: Result<Decision, DeadlineError>) {
    r.Raise? || !r.value.allowed
  }

  lemma ClosedIsRefused(c: Config, obs: Observations, op: string, q: StartRequest,
                        at: Readings, from: real, to: real)
    requires at.Ordered(from, to) && Closed(c, op, from)
    ensures Refuses(Decide(c, obs, op, q, at))
  {
    ClosedStaysClosed(c, op, from, at.blocked);
    StageNeverGoesBack(c, from, at.blocked);
  }

  /** Being closed is exactly being refused whatever the caller asks. */
  lemma ClosedMeansEveryRequestRefused(c: Config, obs: Observations, op: string, t: real)
    ensures Closed(c, op, t) <==>
      forall q: StartRequest :: Refuses(Decide(c, obs, op, q, Readings.Instant(t)))
  {
    if Closed(c, op, t) {
      forall q: StartRequest ensures Refuses(Decide(c, obs, op, q, Readings.Instant(t))) {
        ClosedIsRefused(c, obs, op, q, Readings.Instant(t), t, t);
      }
    } else {
      var eager := StartRequest(0.0, Some(0.0), None, true);
      assert !Refuses(Decide(c, obs, op, eager, Readings.Instant(t)));
    }
  }

  lemma BudgetRefusalCloses(c: Config, obs: Observations, op: string, q: StartRequest,
                            at: Readings, from: real, to: real)
    requires at.Ordered(from, to)
    requires
      var r := Decide(c, obs, op, q, at);
      r.Ok? && (r.value.reason == ReasonExhausted || r.value.reason == DegradationDisallows)
    ensures Closed(c, op, to)
  {
    if op in BlockedBy(StageAt(c, at.blocked)) && c.deadline.Some? {
      ClosedStaysClosed(c, op, at.blocked, to);
    } else {
      ClosedStaysClosed(c, op, at.exhausted, to);
    }
  }

  /** Once an operation is refused because the budget degraded or ran out, every
      later decision on it is a refusal, whatever was observed in between and
      whatever minimum, estimate, timeout or finalization flag the caller gives. */
  lemma BudgetRefusalIsPermanent(c: Config, op: string,
                                 obs: Observations, q: StartRequest, at: Readings,
                                 obs': Observations, q': StartRequest, at': Readings,
                                 from: real, between: real, to: real)
    requires at.Ordered(from, between) && at'.Ordered(between, to)
    requires
      var r := Decide(c, obs, op, q, at);
      r.Ok? && (r.value.reason == ReasonExhausted || r.value.reason == DegradationDisallows)
    ensures Refuses(Decide(c, obs', op, q', at'))
  {
    BudgetRefusalCloses(c, obs, op, q, at, from, between);
    ClosedIsRefused(c, obs', op, q', at', between, to);
  }

  /** Normal work is let through only when its estimate and the reserve both fit
      in the time the decision reports as remaining, and outside the window. */
  lemma NormalWorkFits(c: Config, obs: Observations, op: string, q: StartRequest,
                       at: Readings, from: real, to: real)
    requires at.Ordered(from, to)
    requires
      var r := Decide(c, obs, op, q, at);
      r.Ok? && r.value.reason == NormalWorkAllowed
    ensures
      var d := Decide(c, obs, op, q, at).value;
      && d.remaining.Some? && d.estimate.Some?
      && d.estimate.value + d.reserve <= d.remaining.value
      && d.minimum <= d.remaining.value
      && Rank(d.phase) < Rank(FinalizationWindow)
      && !Closed(c, op, at.exhausted)
  {
    StageNeverGoesBack(c, at.exhausted, at.blocked);
    StageNeverGoesBack(c, at.stage, at.stage);
  }

  /** Inside the window the estimate is not compared with what is left: a request
      is let through even when its estimate exceeds the remaining time. */
  lemma WindowIgnoresEstimate(c: Config, obs: Observations, op: string, q: StartRequest, t: real)
    requires PhaseAt(c, obs, t) == FinalizationWindow
    requires op !in BlockedBy(StageAt(c, t))
    requires op in FINALIZATION_BLOCKED ==> q.allowDuringFinalization
    requires q.estimate.Some? && Max(0.0, q.minimum) <= Remaining(c, t).value
    ensures
      var r := Decide(c, obs, op, q, Readings.Instant(t));
      r.Ok? && r.value.allowed && r.value.reason == FinalizationAllowed
  {
  }
}
