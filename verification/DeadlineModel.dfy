/** Values of the run-deadline engine: policies, duration observations, and what
    a deadline answers at a clock reading. Time is `real`; the class that owns
    the mutable fields is in ExecutionDeadline.dfy. */
module DeadlineModel {
  import opened Prelude
  import PyText

  const CLEANUP_RESERVE := 1.0
  const MINIMUM_OPERATION_TIMEOUT := 0.05
  const CONVERGENCE_FRACTION := 0.75
  const WRAP_UP_FRACTION := 0.9

  // ---------------------------------------------------------------- phases

  datatype Phase = Normal | Convergence | WrapUp | FinalizationWindow | Exhausted

  function Rank(p: Phase): nat {
    match p
    case Normal => 0
    case Convergence => 1
    case WrapUp => 2
    case FinalizationWindow => 3
    case Exhausted => 4
  }

  const FINALIZATION_BLOCKED: set<string> :=
    {"main_llm_retry", "compaction_llm", "adaptive_retry_llm", "subagent",
     "shell_background", "exploration_tool", "provider_retry_sleep"}
  const CONVERGENCE_BLOCKED: set<string> := {"subagent", "shell_background"}
  const WRAP_UP_BLOCKED: set<string> := CONVERGENCE_BLOCKED + {"exploration_tool", "mutation_tool"}

  function BlockedBy(stage: Phase): set<string> {
    match stage
    case Convergence => CONVERGENCE_BLOCKED
    case WrapUp => WRAP_UP_BLOCKED
    case _ => {}
  }

  // -------------------------------------------------------------- policies

  function ClampFraction(value: real, fallback: real): real {
    if value <= 0.0 || value > 1.0 then fallback else value
  }

  datatype DegradationPolicy =
    DegradationPolicy(enabled: bool, convergenceFraction: real, wrapUpFraction: real)
  {
    function Normalized(): DegradationPolicy {
      var wrapUp := ClampFraction(wrapUpFraction, WRAP_UP_FRACTION);
      var convergence := ClampFraction(convergenceFraction, CONVERGENCE_FRACTION);
      DegradationPolicy(enabled, Min(convergence, wrapUp), wrapUp)
    }
  }

  datatype FinalizationPolicy = FinalizationPolicy(
    minimumReserve: real, cleanupReserve: real, maxReserve: real, maxReserveFraction: real,
    llmMultiplier: real, verificationMultiplier: real, toolMultiplier: real, localCleanup: real)
  {
    function Normalized(): FinalizationPolicy {
      FinalizationPolicy(
        Max(0.0, minimumReserve), Max(0.0, cleanupReserve), Max(0.0, maxReserve),
        Max(0.0, Min(1.0, maxReserveFraction)), Max(0.0, llmMultiplier),
        Max(0.0, verificationMultiplier), Max(0.0, toolMultiplier), Max(0.0, localCleanup))
    }
  }

  const DEFAULT_DEGRADATION := DegradationPolicy(true, CONVERGENCE_FRACTION, WRAP_UP_FRACTION)
  const DEFAULT_FINALIZATION := FinalizationPolicy(1.0, 1.0, 120.0, 0.25, 1.5, 1.25, 1.1, 1.0)

  // ---------------------------------------------------------- observations

  datatype Observation = Observation(count: nat, total: real, max: real)
  {
    function Record(duration: real): Observation {
      var d := Max(0.0, duration);
      Observation(count + 1, total + d, Max(max, d))
    }

    function Average(): real {
      if count == 0 then 0.0 else total / count as real
    }

    function Estimate(): real {
      if count == 0 then 0.0 else Max(Average(), max)
    }

    /** What every record built by `Record` from the empty one satisfies. */
    ghost predicate Sound() {
      0.0 <= max && total <= count as real * max
    }
  }

  const NO_OBSERVATION := Observation(0, 0.0, 0.0)

  type Observations = map<string, Observation>

  ghost predicate AllSound(obs: Observations) {
    forall k <- obs :: obs[k].Sound()
  }

  function Observe(obs: Observations, op: string, duration: real): Observations {
    obs[op := (if op in obs then obs[op] else NO_OBSERVATION).Record(duration)]
  }

  lemma RecordKeepsSound(o: Observation, duration: real)
    requires o.Sound()
    ensures o.Record(duration).Sound()
  {
    var d := Max(0.0, duration);
    var m := Max(o.max, d);
    assert o.count as real * o.max <= o.count as real * m;
    assert (o.count + 1) as real * m == o.count as real * m + m;
  }

  /** The average of a sound record never exceeds its maximum, so the estimate is
      the maximum and recording one more duration cannot lower it. */
  lemma EstimateIsMaximum(o: Observation)
    requires o.Sound() && o.count > 0
    ensures o.Estimate() == o.max
  {
    assert o.total <= o.max * o.count as real;
    DivideBound(o.total, o.max, o.count as real);
  }

  lemma DivideBound(total: real, bound: real, count: real)
    requires count > 0.0 && total <= bound * count
    ensures total / count <= bound
  {
    var q := total / count;
    assert q * count == total;
    assert (bound - q) * count >= 0.0;
  }

  lemma ScaleMonotone(a: real, b: real, factor: real)
    requires a <= b && 0.0 <= factor
    ensures Scaled(a, factor) <= Scaled(b, factor)
  {
  }

  lemma EstimateGrows(o: Observation, duration: real)
    requires o.Sound()
    ensures o.Estimate() <= o.Record(duration).Estimate()
    ensures duration <= o.Record(duration).Estimate()
  {
    RecordKeepsSound(o, duration);
    EstimateIsMaximum(o.Record(duration));
    if o.count > 0 { EstimateIsMaximum(o); }
  }

  // ---------------------------------------------------------------- reserve

  datatype Group = Llm | Verification | Tool

  /** An operation name may be both a model call and a verification. */
  predicate InGroup(name: string, g: Group) {
    var verifies := PyText.Contains(name, "verification") || PyText.Contains(name, "verify");
    match g
    case Llm => PyText.Contains(name, "llm")
    case Verification => verifies
    case Tool => !PyText.Contains(name, "llm") && !verifies
  }

  predicate Counts(obs: Observations, k: string, g: Group) {
    k in obs && InGroup(k, g) && obs[k].count > 0
  }

  /** r is the largest estimate recorded for the group, 0 when there is none. */
  ghost predicate IsPeak(obs: Observations, g: Group, r: real) {
    && 0.0 <= r
    && (forall k :: Counts(obs, k, g) ==> obs[k].Estimate() <= r)
    && (r == 0.0 || exists k :: Counts(obs, k, g) && obs[k].Estimate() == r)
  }

  lemma PeakExists(obs: Observations, g: Group)
    ensures exists r :: IsPeak(obs, g, r)
    decreases |obs|
  {
    if obs.Keys == {} {
      assert IsPeak(obs, g, 0.0);
    } else {
      var k :| k in obs;
      var rest := obs - {k};
      assert |rest| < |obs| by { assert rest.Keys == obs.Keys - {k}; }
      PeakExists(rest, g);
      var r :| IsPeak(rest, g, r);
      forall j ensures Counts(obs, j, g) ==> j == k || (Counts(rest, j, g) && rest[j] == obs[j]) {}
      forall j ensures Counts(rest, j, g) ==> Counts(obs, j, g) && rest[j] == obs[j] {}
      if Counts(obs, k, g) && obs[k].Estimate() > r {
        assert IsPeak(obs, g, obs[k].Estimate());
      } else {
        assert IsPeak(obs, g, r);
      }
    }
  }

  ghost function Peak(obs: Observations, g: Group): real {
    PeakExists(obs, g);
    var r :| IsPeak(obs, g, r);
    r
  }

  lemma PeakIsPeak(obs: Observations, g: Group)
    ensures IsPeak(obs, g, Peak(obs, g))
  {
    PeakExists(obs, g);
  }

  lemma PeakUnique(obs: Observations, g: Group, r: real)
    requires IsPeak(obs, g, r)
    ensures r == Peak(obs, g)
  {
    PeakIsPeak(obs, g);
  }

  lemma PeakGrows(obs: Observations, op: string, duration: real, g: Group)
    requires AllSound(obs)
    ensures Peak(obs, g) <= Peak(Observe(obs, op, duration), g)
  {
    var after := Observe(obs, op, duration);
    PeakIsPeak(obs, g);
    PeakIsPeak(after, g);
    if Peak(obs, g) != 0.0 {
      var k :| Counts(obs, k, g) && obs[k].Estimate() == Peak(obs, g);
      if k == op { EstimateGrows(obs[k], duration); }
      assert Counts(after, k, g);
    }
  }

  /** The bounds a deadline is built with; none of them changes afterwards. */
  datatype Config = Config(
    started: real, deadline: Option<real>, configured: Option<real>,
    finalization: FinalizationPolicy, degradation: DegradationPolicy)

  function Scaled(seconds: real, multiplier: real): real {
    seconds * multiplier
  }

  function ReserveCap(c: Config): real {
    var p := c.finalization.Normalized();
    var relative :=
      if c.configured.None? then p.maxReserve
      else Max(MINIMUM_OPERATION_TIMEOUT, Scaled(c.configured.value, p.maxReserveFraction));
    Max(MINIMUM_OPERATION_TIMEOUT, Min(p.maxReserve, relative))
  }

  /** The reserve before the cap, from the three scaled estimates. */
  function RawReserve(p: FinalizationPolicy, llm: real, verification: real, tool: real): real {
    Max(p.minimumReserve, Max(p.cleanupReserve, Max(p.localCleanup,
      Max(llm, Max(verification, tool)))))
  }

  function ReserveFrom(c: Config, llm: real, verification: real, tool: real): real {
    if c.deadline.None? then 0.0
    else
      var p := c.finalization.Normalized();
      var raw := RawReserve(p, Scaled(llm, p.llmMultiplier),
        Scaled(verification, p.verificationMultiplier), Scaled(tool, p.toolMultiplier));
      Max(0.0, Min(raw, ReserveCap(c)))
  }

  ghost function Reserve(c: Config, obs: Observations): real {
    ReserveFrom(c, Peak(obs, Llm), Peak(obs, Verification), Peak(obs, Tool))
  }

  lemma RawReserveMonotone(p: FinalizationPolicy, l: real, v: real, t: real, l': real, v': real, t': real)
    requires l <= l' && v <= v' && t <= t'
    ensures RawReserve(p, l, v, t) <= RawReserve(p, l', v', t')
  {
  }

  lemma ReserveFromMonotone(c: Config, l: real, v: real, t: real, l': real, v': real, t': real)
    requires l <= l' && v <= v' && t <= t'
    ensures ReserveFrom(c, l, v, t) <= ReserveFrom(c, l', v', t')
  {
    var p := c.finalization.Normalized();
    ScaleMonotone(l, l', p.llmMultiplier);
    ScaleMonotone(v, v', p.verificationMultiplier);
    ScaleMonotone(t, t', p.toolMultiplier);
    RawReserveMonotone(p, Scaled(l, p.llmMultiplier), Scaled(v, p.verificationMultiplier), Scaled(t, p.toolMultiplier),
      Scaled(l', p.llmMultiplier), Scaled(v', p.verificationMultiplier), Scaled(t', p.toolMultiplier));
  }

  /** Recording a duration never shrinks the finalization reserve. */
  lemma ReserveGrows(c: Config, obs: Observations, op: string, duration: real)
    requires AllSound(obs)
    ensures AllSound(Observe(obs, op, duration))
    ensures Reserve(c, obs) <= Reserve(c, Observe(obs, op, duration))
  {
    RecordKeepsSound(if op in obs then obs[op] else NO_OBSERVATION, duration);
    PeakGrows(obs, op, duration, Llm);
    PeakGrows(obs, op, duration, Verification);
    PeakGrows(obs, op, duration, Tool);
    var after := Observe(obs, op, duration);
    ReserveFromMonotone(c, Peak(obs, Llm), Peak(obs, Verification), Peak(obs, Tool),
      Peak(after, Llm), Peak(after, Verification), Peak(after, Tool));
  }

  // ------------------------------------------------- answers at an instant

  function Elapsed(c: Config, t: real): real {
    Max(0.0, t - c.started)
  }

  function Remaining(c: Config, t: real): Option<real> {
    if c.deadline.None? then None else Some(Max(0.0, c.deadline.value - t))
  }

  predicate IsExhausted(c: Config, t: real) {
    Remaining(c, t).Some? && Remaining(c, t).value <= 0.0
  }

  ghost function NormalWorkRemaining(c: Config, obs: Observations, t: real): Option<real> {
    if c.deadline.None? then None
    else Some(Max(0.0, Remaining(c, t).value - Reserve(c, obs)))
  }

  function Span(c: Config): (s: Option<real>)
    ensures s.Some? ==> s.value > 0.0
  {
    if c.deadline.None? then None
    else if c.configured.Some? && c.configured.value > 0.0 then c.configured
    else if c.deadline.value - c.started > 0.0 then Some(c.deadline.value - c.started)
    else None
  }

  function StageAt(c: Config, t: real): Phase {
    var p := c.degradation.Normalized();
    if !p.enabled || Span(c).None? then Normal
    else
      var fraction := Max(0.0, Elapsed(c, t) / Span(c).value);
      if fraction >= p.wrapUpFraction then WrapUp
      else if fraction >= p.convergenceFraction then Convergence
      else Normal
  }

  /** `phase()` reads the clock up to three times: for exhaustion, for the
      finalization window, and for the degradation stage. */
  ghost function PhaseRead(c: Config, obs: Observations, t1: real, t2: real, t3: real): Phase {
    if IsExhausted(c, t1) then Exhausted
    else if Remaining(c, t2).None? then Normal
    else if Remaining(c, t2).value <= Reserve(c, obs) then FinalizationWindow
    else StageAt(c, t3)
  }

  /** The phase at one instant. */
  ghost function PhaseAt(c: Config, obs: Observations, t: real): Phase {
    PhaseRead(c, obs, t, t, t)
  }

  datatype DeadlineError = InvalidSeconds | DeadlineExhausted

  function ClampTimeout(c: Config, t: real, configured: Option<real>, reserve: real, minimum: real)
    : Result<Option<real>, DeadlineError>
  {
    if c.deadline.None? then Ok(configured)
    else
      var safe := Remaining(c, t).value - Max(0.0, reserve);
      if safe < Max(0.0, minimum) then Ok(None)
      else if configured.None? then Ok(Some(safe))
      else if configured.value <= 0.0 then Raise(InvalidSeconds)
      else Ok(Some(Max(minimum, Min(configured.value, safe))))
  }

  /** A granted timeout fits what is left once the reserve is set aside. It is
      the configured one, shortened to fit, but never below the minimum: so it
      exceeds the configured value exactly when that value is below the minimum. */
  lemma ClampedTimeoutFits(c: Config, t: real, configured: Option<real>, reserve: real, minimum: real)
    requires c.deadline.Some?
    requires configured.Some? ==> configured.value > 0.0
    ensures
      var r := ClampTimeout(c, t, configured, reserve, minimum);
      && r.Ok?
      && (r.value.None? <==> Remaining(c, t).value - Max(0.0, reserve) < Max(0.0, minimum))
      && (r.value.Some? ==>
            && minimum <= r.value.value
            && t + r.value.value <= Max(t, c.deadline.value) - Max(0.0, reserve)
            && (configured.Some? ==> (r.value.value > configured.value <==> configured.value < minimum)))
  {
  }

  /** `estimated_duration_seconds`, with the clock read it may make. */
  function EstimateFor(c: Config, obs: Observations, op: string, configured: Option<real>,
                       default: Option<real>, t: real)
    : Result<Option<real>, DeadlineError>
  {
    var observed :=
      if op in obs && obs[op].count > 0 then Some(obs[op].Estimate()) else None;
    var withDefault :=
      if default.None? then observed
      else if observed.None? then Some(Max(0.0, default.value))
      else Some(Max(observed.value, Max(0.0, default.value)));
    if configured.None? then Ok(withDefault)
    else if configured.value <= 0.0 then Raise(InvalidSeconds)
    else
      var clamped := ClampTimeout(c, t, configured, CLEANUP_RESERVE, MINIMUM_OPERATION_TIMEOUT);
      var candidate := clamped.value.GetOr(configured.value);
      Ok(Some(if withDefault.None? then candidate else Max(withDefault.value, candidate)))
  }

  // --------------------------------------------------------- start decision

  datatype Reason =
    | DeadlineUnconfigured
    | ReasonExhausted
    | InsufficientHardRemaining
    | FinalizationDisallows
    | DegradationDisallows
    | FinalizationAllowed
    | InsufficientNormalWork
    | NormalWorkAllowed

  datatype Decision = Decision(
    operation: string, allowed: bool, phase: Phase, reason: Reason,
    remaining: Option<real>, normalRemaining: Option<real>,
    reserve: real, minimum: real, estimate: Option<real>)

  datatype StartRequest = StartRequest(
    minimum: real, estimate: Option<real>, configuredTimeout: Option<real>,
    allowDuringFinalization: bool)

  /** The clock readings one `start_decision` makes, in order: remaining time,
      remaining normal work, the three of `phase()`, the one of the estimate,
      and the one of the blocked-operation set. */
  datatype Readings = Readings(
    remaining: real, normal: real, exhausted: real, window: real, stage: real,
    estimate: real, blocked: real)
  {
    ghost predicate Ordered(from: real, to: real) {
      from <= remaining <= normal <= exhausted <= window <= stage <= estimate <= blocked <= to
    }

    static function Instant(t: real): Readings {
      Readings(t, t, t, t, t, t, t)
    }
  }

  /** The branches of `start_decision`, in order. */
  function Verdict(op: string, allowDuringFinalization: bool, remaining: Option<real>,
                   normal: Option<real>, phase: Phase, minimum: real, estimate: Option<real>,
                   blocked: bool): (bool, Reason)
  {
    if remaining.None? then (true, DeadlineUnconfigured)
    else if phase == Exhausted then (false, ReasonExhausted)
    else if remaining.value < minimum then (false, InsufficientHardRemaining)
    else if phase == FinalizationWindow then
      if op in FINALIZATION_BLOCKED && !allowDuringFinalization then (false, FinalizationDisallows)
      else if blocked then (false, DegradationDisallows)
      else (true, FinalizationAllowed)
    else if blocked then (false, DegradationDisallows)
    else if estimate.Some? && normal.Some? && estimate.value > normal.value then
      (false, InsufficientNormalWork)
    else (true, NormalWorkAllowed)
  }

  ghost function Decide(c: Config, obs: Observations, op: string, q: StartRequest, at: Readings)
    : Result<Decision, DeadlineError>
  {
    var remaining := Remaining(c, at.remaining);
    var normal := NormalWorkRemaining(c, obs, at.normal);
    var phase := PhaseRead(c, obs, at.exhausted, at.window, at.stage);
    var minimum := Max(0.0, q.minimum);
    var estimated :=
      if q.estimate.Some? then Ok(q.estimate)
      else EstimateFor(c, obs, op, q.configuredTimeout, Some(minimum), at.estimate);
    if estimated.Raise? then Raise(estimated.error)
    else
      var blocked := op in BlockedBy(StageAt(c, at.blocked));
      var (allowed, reason) := Verdict(op, q.allowDuringFinalization, remaining, normal, phase,
                                       minimum, estimated.value, blocked);
      Ok(Decision(op, allowed, phase, reason, remaining, normal, Reserve(c, obs), minimum,
                  estimated.value))
  }
}
