/** When the deadline decides what, in a caller's terms: seconds, thresholds and names of
    operations, whatever the functions of the model look like. */
module DeadlineDecisions {
  import opened Prelude
  import opened PyText
  import opened DeadlineModel
  import opened DeadlineTheorems
  import opened DeadlineRuns

  // ------------------------------------------------------------------ stages

  /** The budget the fractions are taken of: the configured one, else the time from
      start to deadline, where positive. */
  ghost function Budget(c: Config): Option<real> {
    if c.deadline.None? then None
    else if c.configured.Some? && c.configured.value > 0.0 then c.configured
    else if c.deadline.value > c.started then Some(c.deadline.value - c.started)
    else None
  }

  /** That fraction of the budget is over; one that is not in (0, 1] gives way to the
      default. */
  ghost predicate Past(c: Config, fraction: real, default: real, t: real) {
    && c.degradation.enabled && Budget(c).Some?
    && Max(0.0, t - c.started) >= Usable(fraction, default) * Budget(c).value
  }

  ghost function Usable(fraction: real, default: real): real {
    if 0.0 < fraction <= 1.0 then fraction else default
  }

  ghost predicate PastWrapUp(c: Config, t: real) {
    Past(c, c.degradation.wrapUpFraction, 0.9, t)
  }

  ghost predicate PastConvergence(c: Config, t: real) {
    Past(c, c.degradation.convergenceFraction, 0.75, t) || PastWrapUp(c, t)
  }

  lemma QuotientReached(elapsed: real, span: real, fraction: real)
    requires span > 0.0 && elapsed >= 0.0
    ensures elapsed / span >= 0.0
    ensures elapsed / span >= fraction <==> elapsed >= fraction * span
  {
    var q := elapsed / span;
    assert q * span == elapsed;
    if q >= fraction {
      ScaleMonotone(fraction, q, span);
    } else {
      assert (fraction - q) * span > 0.0;
    }
  }

  lemma StageByQuotient(c: Config, t: real)
    requires c.degradation.enabled && Budget(c).Some?
    ensures
      var q := Max(0.0, Max(0.0, t - c.started) / Budget(c).value);
      var wrapUp := Usable(c.degradation.wrapUpFraction, 0.9);
      var convergence := Usable(c.degradation.convergenceFraction, 0.75);
      StageAt(c, t) == if q >= wrapUp then WrapUp else if q >= Min(convergence, wrapUp) then Convergence else Normal
  {
  }

  /** The stage is wrap-up from the wrap-up fraction of the budget on, convergence from
      either fraction on, and normal before; a switched-off ladder or a run without
      budget stays normal. */
  lemma StageDecided(c: Config, t: real)
    ensures StageAt(c, t) == WrapUp <==> PastWrapUp(c, t)
    ensures StageAt(c, t) == Convergence <==> PastConvergence(c, t) && !PastWrapUp(c, t)
    ensures StageAt(c, t) == Normal <==> !PastConvergence(c, t)
  {
    if c.degradation.enabled && Budget(c).Some? {
      var elapsed, span := Max(0.0, t - c.started), Budget(c).value;
      StageByQuotient(c, t);
      hide StageAt, Usable, Budget;
      QuotientReached(elapsed, span, Usable(c.degradation.wrapUpFraction, 0.9));
      QuotientReached(elapsed, span, Usable(c.degradation.convergenceFraction, 0.75));
    }
  }

  /** Convergence closes subagents and background shells, wrap-up exploration and
      editing as well. */
  ghost predicate DegradationCloses(c: Config, op: string, t: real) {
    || (PastConvergence(c, t) && (op == "subagent" || op == "shell_background"))
    || (PastWrapUp(c, t) && (op == "exploration_tool" || op == "mutation_tool"))
  }

  lemma ClosedByStage(c: Config, op: string, t: real)
    ensures op in BlockedBy(StageAt(c, t)) <==> DegradationCloses(c, op, t)
  {
    StageDecided(c, t);
    hide StageAt, PastWrapUp, PastConvergence;
  }

  // ----------------------------------------------------------------- reserve

  /** What a duration weighs in the reserve: model calls, verification, and tools that are
      neither, each by its multiplier. */
  ghost predicate Weighs(c: Config, name: string, multiplier: real) {
    var llm := Contains(name, "llm");
    var verifies := Contains(name, "verification") || Contains(name, "verify");
    || (llm && multiplier == Max(0.0, c.finalization.llmMultiplier))
    || (verifies && multiplier == Max(0.0, c.finalization.verificationMultiplier))
    || (!llm && !verifies && multiplier == Max(0.0, c.finalization.toolMultiplier))
  }

  /** The weighted estimate of an operation that was observed: the larger of its average and
      its longest duration, times its multiplier. */
  ghost predicate Weighed(c: Config, obs: Observations, name: string, seconds: real) {
    && name in obs && obs[name].count > 0
    && exists multiplier :: Weighs(c, name, multiplier)
         && seconds == Max(obs[name].total / obs[name].count as real, obs[name].max) * multiplier
  }

  /** No reserve exceeds the absolute limit or the fraction of the configured budget, but the
      smallest usable timeout is always allowed. */
  ghost function Limit(c: Config): real {
    var absolute := Max(0.0, c.finalization.maxReserve);
    var relative :=
      if c.configured.None? then absolute
      else c.configured.value * Max(0.0, Min(1.0, c.finalization.maxReserveFraction));
    Max(0.05, Min(absolute, relative))
  }

  lemma LimitDecided(c: Config)
    ensures ReserveCap(c) == Limit(c)
  {
  }

  ghost predicate Configured(c: Config, seconds: real) {
    || seconds == Max(0.0, c.finalization.minimumReserve) || seconds == Max(0.0, c.finalization.cleanupReserve)
    || seconds == Max(0.0, c.finalization.localCleanup)
  }

  /** The reserve covers every configured minimum and every weighted estimate of what was
      observed, as far as the limit allows, and is one of these: nothing larger. */
  lemma ReserveDecided(c: Config, obs: Observations)
    ensures c.deadline.None? ==> Reserve(c, obs) == 0.0
    ensures c.deadline.Some? ==>
      var r := Reserve(c, obs);
      && 0.0 <= r <= Limit(c)
      && (forall seconds | Configured(c, seconds) :: Min(seconds, Limit(c)) <= r)
      && (forall name, seconds | Weighed(c, obs, name, seconds) :: Min(seconds, Limit(c)) <= r)
      && (r == Limit(c) || Configured(c, r) || exists name :: Weighed(c, obs, name, r))
  {
    if c.deadline.Some? {
      var p := c.finalization.Normalized();
      LimitDecided(c);
      var llm, verification, tool := Peak(obs, Llm), Peak(obs, Verification), Peak(obs, Tool);
      var l, v, t := Scaled(llm, p.llmMultiplier), Scaled(verification, p.verificationMultiplier), Scaled(tool, p.toolMultiplier);
      ReserveIsLargest(c, l, v, t);
      forall name, seconds | Weighed(c, obs, name, seconds) ensures seconds <= Max(l, Max(v, t)) {
        ObservedInPeak(c, obs, name, seconds);
      }
      PeakObserved(c, obs, Llm, p.llmMultiplier);
      PeakObserved(c, obs, Verification, p.verificationMultiplier);
      PeakObserved(c, obs, Tool, p.toolMultiplier);
      assert Reserve(c, obs) == Max(0.0, Min(RawReserve(p, l, v, t), ReserveCap(c)));
      hide Reserve, Peak, Weighed, Limit, ReserveCap;
    }
  }

  lemma ReserveIsLargest(c: Config, l: real, v: real, t: real)
    ensures
      var p := c.finalization.Normalized();
      var raw := RawReserve(p, l, v, t);
      && raw >= l && raw >= v && raw >= t
      && (forall seconds | Configured(c, seconds) :: seconds <= raw)
      && (Configured(c, raw) || raw == l || raw == v || raw == t)
  {
  }

  lemma ObservedInPeak(c: Config, obs: Observations, name: string, seconds: real)
    requires Weighed(c, obs, name, seconds)
    ensures
      var p := c.finalization.Normalized();
      || seconds <= Scaled(Peak(obs, Llm), p.llmMultiplier)
      || seconds <= Scaled(Peak(obs, Verification), p.verificationMultiplier)
      || seconds <= Scaled(Peak(obs, Tool), p.toolMultiplier)
  {
    var p := c.finalization.Normalized();
    var multiplier :| Weighs(c, name, multiplier)
      && seconds == Max(obs[name].total / obs[name].count as real, obs[name].max) * multiplier;
    assert seconds == Scaled(obs[name].Estimate(), multiplier);
    InPeak(obs, name, Llm, multiplier);
    InPeak(obs, name, Verification, multiplier);
    InPeak(obs, name, Tool, multiplier);
    hide Peak, Scaled, Contains, Observation.Estimate;
  }

  lemma InPeak(obs: Observations, name: string, g: Group, multiplier: real)
    requires name in obs && obs[name].count > 0 && multiplier >= 0.0
    ensures InGroup(name, g) ==> Scaled(obs[name].Estimate(), multiplier) <= Scaled(Peak(obs, g), multiplier)
  {
    hide Peak, Scaled, InGroup;
    if InGroup(name, g) {
      PeakIsPeak(obs, g);
      assert Counts(obs, name, g);
      ScaleMonotone(obs[name].Estimate(), Peak(obs, g), multiplier);
    }
  }

  lemma PeakObserved(c: Config, obs: Observations, g: Group, multiplier: real)
    requires
      var p := c.finalization.Normalized();
      multiplier == match g case Llm => p.llmMultiplier case Verification => p.verificationMultiplier case Tool => p.toolMultiplier
    ensures
      var seconds := Scaled(Peak(obs, g), multiplier);
      seconds == 0.0 || exists name :: Weighed(c, obs, name, seconds)
  {
    PeakIsPeak(obs, g);
    if Peak(obs, g) != 0.0 {
      var name :| Counts(obs, name, g) && obs[name].Estimate() == Peak(obs, g);
      assert Weighs(c, name, multiplier);
      assert Weighed(c, obs, name, Scaled(Peak(obs, g), multiplier));
    }
  }

  /** With the default policy one second is kept at least, two minutes or a quarter of the
      budget at most, and in between one and a half times the longest model call and one and
      a quarter times the longest verification. */
  lemma DefaultReserveDecided(c: Config, obs: Observations, name: string)
    requires c.deadline.Some? && c.finalization == DEFAULT_FINALIZATION && AllSound(obs)
    ensures
      var r := Reserve(c, obs);
      var most := if c.configured.Some? then Max(0.05, Min(120.0, 0.25 * c.configured.value)) else 120.0;
      && Min(1.0, most) <= r <= most
      && (name in obs && obs[name].count > 0 && Contains(name, "llm") ==> Min(1.5 * obs[name].max, most) <= r)
      && (name in obs && obs[name].count > 0 && Contains(name, "verification") ==> Min(1.25 * obs[name].max, most) <= r)
  {
    hide Reserve, Contains;
    ReserveDecided(c, obs);
    assert Configured(c, 1.0);
    assert Limit(c) == if c.configured.Some? then Max(0.05, Min(120.0, 0.25 * c.configured.value)) else 120.0;
    if name in obs && obs[name].count > 0 {
      EstimateIsMaximum(obs[name]);
      if Contains(name, "llm") {
        assert Weighs(c, name, 1.5);
        assert Weighed(c, obs, name, obs[name].max * 1.5);
      }
      if Contains(name, "verification") {
        assert Weighs(c, name, 1.25);
        assert Weighed(c, obs, name, obs[name].max * 1.25);
      }
    }
  }

  // -------------------------------------------------------------- timeouts

  /** A clamped timeout is the longest that fits: no longer one keeps within the configured
      value, or the minimum, and leaves the reserve. */
  lemma ClampIsLongest(c: Config, t: real, configured: Option<real>, reserve: real, minimum: real, longer: real)
    requires c.deadline.Some? && ClampTimeout(c, t, configured, reserve, minimum).Ok?
    requires ClampTimeout(c, t, configured, reserve, minimum).value.Some?
    requires ClampTimeout(c, t, configured, reserve, minimum).value.value < longer
    ensures
      || longer + Max(0.0, reserve) > Max(0.0, c.deadline.value - t)
      || (configured.Some? && longer > configured.value && longer > minimum)
  {
  }

  /** A disabled deadline leaves every timeout alone. */
  lemma DisabledClampsNothing(c: Config, t: real, configured: Option<real>, reserve: real, minimum: real)
    requires c.deadline.None?
    ensures ClampTimeout(c, t, configured, reserve, minimum) == Ok(configured)
  {
  }

  /** A configured timeout as an estimate: cut to what is left but a second, unless less
      than the smallest usable timeout would be left. */
  ghost predicate TimeoutCandidate(c: Config, t: real, configured: real, seconds: real) {
    if c.deadline.None? then seconds == configured
    else
      var left := Max(0.0, c.deadline.value - t) - 1.0;
      seconds == if left < 0.05 then configured else Max(0.05, Min(configured, left))
  }

  ghost predicate Candidate(c: Config, obs: Observations, op: string, configured: Option<real>,
                            default: Option<real>, t: real, seconds: real) {
    || (op in obs && obs[op].count > 0
        && seconds == Max(obs[op].total / obs[op].count as real, obs[op].max))
    || (default.Some? && seconds == Max(0.0, default.value))
    || (configured.Some? && TimeoutCandidate(c, t, configured.value, seconds))
  }

  /** The estimate is the largest of what was observed, the default and the configured
      timeout; there is none without any of them; a configured timeout that is not
      positive raises. */
  lemma EstimateDecided(c: Config, obs: Observations, op: string, configured: Option<real>,
                        default: Option<real>, t: real)
    ensures
      var r := EstimateFor(c, obs, op, configured, default, t);
      && (r.Raise? <==> configured.Some? && configured.value <= 0.0)
      && (r.Ok? && r.value.Some? ==>
            && Candidate(c, obs, op, configured, default, t, r.value.value)
            && forall seconds | Candidate(c, obs, op, configured, default, t, seconds) :: seconds <= r.value.value)
      && (r.Ok? && r.value.None? ==> forall seconds :: !Candidate(c, obs, op, configured, default, t, seconds))
  {
  }

  // --------------------------------------------------------- start decision

  /** The window is open once no more than the reserve is left. */
  ghost predicate WindowOpen(c: Config, obs: Observations, t: real)
    requires c.deadline.Some?
  {
    c.deadline.value - t <= Reserve(c, obs)
  }

  ghost predicate FinalizationBlocks(op: string) {
    op in {"main_llm_retry", "compaction_llm", "adaptive_retry_llm", "subagent", "shell_background",
           "exploration_tool", "provider_retry_sleep"}
  }

  /** The deadline is ahead and the least the caller asks for is left. */
  ghost predicate MinimumLeft(c: Config, q: StartRequest, at: Readings)
    requires c.deadline.Some?
  {
    at.exhausted < c.deadline.value && Max(0.0, q.minimum) <= Max(0.0, c.deadline.value - at.remaining)
  }

  ghost predicate WindowCloses(c: Config, obs: Observations, op: string, q: StartRequest, at: Readings)
    requires c.deadline.Some?
  {
    WindowOpen(c, obs, at.window) && FinalizationBlocks(op) && !q.allowDuringFinalization
  }

  /** The time that is left for normal work. */
  ghost function LeftForWork(c: Config, obs: Observations, t: real): real
    requires c.deadline.Some?
  {
    Max(0.0, c.deadline.value - t - Reserve(c, obs))
  }

  lemma ReserveIsPositive(c: Config, obs: Observations)
    ensures Reserve(c, obs) >= 0.0
  {
  }

  /** Every reason a start decision can give, and exactly when it gives it. Normal work is
      allowed exactly when the deadline is ahead, the minimum is left, the window is not
      open, the stage does not close the operation, and the estimate fits in what is left
      beside the reserve. */
  lemma StartDecided(c: Config, obs: Observations, op: string, q: StartRequest, at: Readings)
    requires c.deadline.Some? && Decide(c, obs, op, q, at).Ok?
    ensures
      var d := Decide(c, obs, op, q, at).value;
      var open := MinimumLeft(c, q, at);
      var window := WindowOpen(c, obs, at.window);
      var closed := DegradationCloses(c, op, at.blocked);
      && (d.reason == ReasonExhausted <==> c.deadline.value <= at.exhausted)
      && (d.reason == InsufficientHardRemaining <==>
            at.exhausted < c.deadline.value && Max(0.0, c.deadline.value - at.remaining) < Max(0.0, q.minimum))
      && (d.reason == FinalizationDisallows <==> open && WindowCloses(c, obs, op, q, at))
      && (d.reason == DegradationDisallows <==> open && closed && !WindowCloses(c, obs, op, q, at))
      && (d.reason == FinalizationAllowed <==> open && window && !closed && !WindowCloses(c, obs, op, q, at))
      && (d.reason == InsufficientNormalWork <==>
            open && !window && !closed && d.estimate.Some? && d.estimate.value > LeftForWork(c, obs, at.normal))
      && (d.reason == NormalWorkAllowed <==>
            open && !window && !closed && (d.estimate.Some? ==> d.estimate.value <= LeftForWork(c, obs, at.normal)))
      && (d.allowed <==> d.reason == FinalizationAllowed || d.reason == NormalWorkAllowed)
  {
    ClosedByStage(c, op, at.blocked);
    ReserveIsPositive(c, obs);
    BlockedSets(op);
    PhaseDecided(c, obs, at.exhausted, at.window, at.stage);
    hide Reserve, StageAt, BlockedBy, EstimateFor, DegradationCloses, PhaseRead;
  }

  lemma BlockedSets(op: string)
    ensures op in FINALIZATION_BLOCKED <==> FinalizationBlocks(op)
  {
  }

  /** Exhausted from the deadline on, in the window while no more than the reserve is left,
      otherwise at the stage of the elapsed budget. */
  lemma PhaseDecided(c: Config, obs: Observations, t1: real, t2: real, t3: real)
    requires c.deadline.Some?
    ensures
      var phase := PhaseRead(c, obs, t1, t2, t3);
      && (phase == Exhausted <==> c.deadline.value <= t1)
      && (phase == FinalizationWindow <==> t1 < c.deadline.value && WindowOpen(c, obs, t2))
      && (t1 < c.deadline.value && !WindowOpen(c, obs, t2) ==>
            && (phase == WrapUp <==> PastWrapUp(c, t3))
            && (phase == Convergence <==> PastConvergence(c, t3) && !PastWrapUp(c, t3))
            && (phase == Normal <==> !PastConvergence(c, t3)))
  {
    ReserveIsPositive(c, obs);
    StageDecided(c, t3);
    StageIsNoWindow(c, t3);
    hide Reserve, StageAt, PastWrapUp, PastConvergence;
  }

  lemma StageIsNoWindow(c: Config, t: real)
    ensures StageAt(c, t) != Exhausted && StageAt(c, t) != FinalizationWindow
  {
  }

  /** What a decision reports beside its verdict, and when it raises. */
  lemma DecisionReports(c: Config, obs: Observations, op: string, q: StartRequest, at: Readings)
    ensures
      var r := Decide(c, obs, op, q, at);
      && (r.Raise? <==> q.estimate.None? && q.configuredTimeout.Some? && q.configuredTimeout.value <= 0.0)
      && (r.Ok? ==>
            && r.value.operation == op && r.value.reserve == Reserve(c, obs) && r.value.minimum == Max(0.0, q.minimum)
            && (q.estimate.Some? ==> r.value.estimate == q.estimate)
            && (q.estimate.None? ==>
                  r.value.estimate.Some?
                  && Candidate(c, obs, op, q.configuredTimeout, Some(Max(0.0, q.minimum)), at.estimate, r.value.estimate.value)
                  && forall seconds | Candidate(c, obs, op, q.configuredTimeout, Some(Max(0.0, q.minimum)), at.estimate, seconds) ::
                       seconds <= r.value.estimate.value)
            && (c.deadline.Some? ==>
                  && r.value.remaining == Some(Max(0.0, c.deadline.value - at.remaining))
                  && r.value.normalRemaining == Some(LeftForWork(c, obs, at.normal)))
            && (c.deadline.None? ==>
                  && r.value.allowed && r.value.reason == DeadlineUnconfigured && r.value.phase == Normal
                  && r.value.remaining.None? && r.value.normalRemaining.None?))
  {
    EstimateDecided(c, obs, op, q.configuredTimeout, Some(Max(0.0, q.minimum)), at.estimate);
    ReserveIsPositive(c, obs);
    DefaultIsCandidate(c, obs, op, q.configuredTimeout, Max(0.0, q.minimum), at.estimate);
    hide Reserve, StageAt, BlockedBy, EstimateFor, Candidate;
  }

  lemma DefaultIsCandidate(c: Config, obs: Observations, op: string, configured: Option<real>, default: real, t: real)
    ensures Candidate(c, obs, op, configured, Some(default), t, Max(0.0, default))
  {
  }

  // ---------------------------------------------------------------- reports

  /** A stage is reported exactly when the clock has reached it and it was not reported
      before; a run that jumps a stage reports only the one it landed in. */
  lemma StageReportDecided(c: Config, s: State, read: real, recorded: real)
    requires Enabled(s, ReportStage(read, recorded))
    ensures
      var stage :=
        if PastWrapUp(c, read) then Some(WrapUp) else if PastConvergence(c, read) then Some(Convergence) else None;
      var s' := Step(c, s, ReportStage(read, recorded));
      if stage.Some? && stage.value !in s.entered then
        Reported(c, s, ReportStage(read, recorded)) == [stage.value]
        && s' == s.(now := recorded, entered := s.entered[stage.value := recorded])
      else
        Reported(c, s, ReportStage(read, recorded)) == [] && s' == s.(now := recorded)
  {
    StageDecided(c, read);
    hide StageAt, PastWrapUp, PastConvergence;
  }

  /** The window is reported exactly when it is open before the deadline and was not
      reported before. */
  lemma WindowReportDecided(c: Config, s: State, e: Event)
    requires c.deadline.Some? && e.ReportWindow? && Enabled(s, e)
    ensures
      var reported := e.t1 < c.deadline.value && WindowOpen(c, s.obs, e.t2) && s.finalizationReason.None?;
      && (WindowReported(c, s, e.t1, e.t2, e.t3) <==> reported)
      && Step(c, s, e) ==
           if reported then
             s.(now := e.recorded, finalizationEnteredAt := Some(e.recorded),
                finalizationReason := Some(if e.reason == "" then "reserve_reached" else e.reason))
           else s.(now := e.recorded)
  {
    PhaseDecided(c, s.obs, e.t1, e.t2, e.t3);
    hide PhaseRead, WindowOpen;
  }
}
