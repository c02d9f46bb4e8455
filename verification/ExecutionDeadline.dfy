/** The deadline object itself. Every method is proved to answer what
    DeadlineModel says at the clock readings it makes, which are returned as a
    ghost result, and to take exactly one step of DeadlineRuns. */
module ExecutionDeadlines {
  import opened Prelude
  import opened DeadlineModel
  import Runs = DeadlineRuns
  import Chain = SubagentDeadlines

  /** A monotonic clock. Any amount of time may pass before a reading. */
  class Clock {
    var now: real

    method Read() returns (t: real)
      modifies this
      ensures old(now) <= t == now
    {
      var passed: real := *;
      if passed > 0.0 { now := now + passed; }
      t := now;
    }
  }

  class DurationObservation {
    var count: nat
    var totalSeconds: real
    var maxSeconds: real

    ghost function View(): Observation
      reads this
    {
      Observation(count, totalSeconds, maxSeconds)
    }

    constructor ()
      ensures View() == NO_OBSERVATION
    {
      count, totalSeconds, maxSeconds := 0, 0.0, 0.0;
    }

    method Record(durationSeconds: real)
      modifies this
      ensures View() == old(View()).Record(durationSeconds)
    {
      var duration := Max(0.0, durationSeconds);
      count := count + 1;
      totalSeconds := totalSeconds + duration;
      maxSeconds := Max(maxSeconds, duration);
    }

    method EstimateSeconds() returns (r: real)
      ensures r == View().Estimate()
    {
      if count == 0 { return 0.0; }
      r := Max(totalSeconds / count as real, maxSeconds);
    }
  }

  class ExecutionDeadline {
    const config: Config
    const clock: Clock
    var observations: map<string, DurationObservation>
    var finalizationReason: Option<string>
    var finalizationEnteredAt: Option<real>
    var directiveSent: bool
    var llmStarted: bool
    var stagesEntered: map<Phase, real>
    ghost var observed: Observations  // what `observations` records

    /** Distinct operations have distinct records, each built by Record. */
    ghost predicate Valid()
      reads this, observations.Values
    {
      && observed.Keys == observations.Keys && AllSound(observed)
      && (forall k <- observations :: observations[k].View() == observed[k])
      && (forall k, j | k in observations && j in observations && k != j :: observations[k] != observations[j])
    }

    ghost function View(): Runs.State
      reads this, clock
    {
      Runs.State(clock.now, observed, stagesEntered, finalizationReason, finalizationEnteredAt,
        directiveSent, llmStarted)
    }

    constructor (config: Config, clock: Clock)
      ensures Valid() && fresh(observations.Values)
      ensures this.config == config && this.clock == clock
      ensures View() == Runs.State(clock.now, map[], map[], None, None, false, false)
    {
      this.config, this.clock := config, clock;
      observations, stagesEntered, observed := map[], map[], map[];
      finalizationReason, finalizationEnteredAt := None, None;
      directiveSent, llmStarted := false, false;
    }

    method RemainingSeconds() returns (r: Option<real>)
      modifies clock
      ensures old(clock.now) <= clock.now
      ensures r == Remaining(config, clock.now)
    {
      if config.deadline.None? { return None; }
      var t := clock.Read();
      r := Some(Max(0.0, config.deadline.value - t));
    }

    method ClampTimeoutSeconds(configured: Option<real>, reserve: real, minimum: real)
      returns (r: Result<Option<real>, DeadlineError>)
      modifies clock
      ensures old(clock.now) <= clock.now
      ensures r == ClampTimeout(config, clock.now, configured, reserve, minimum)
    {
      var remaining := RemainingSeconds();
      if remaining.None? { return Ok(configured); }
      var safe := remaining.value - Max(0.0, reserve);
      if safe < Max(0.0, minimum) { return Ok(None); }
      if configured.None? { return Ok(Some(safe)); }
      if configured.value <= 0.0 { return Raise(InvalidSeconds); }
      r := Ok(Some(Max(minimum, Min(configured.value, safe))));
    }

    method ObserveDuration(operation: string, durationSeconds: real)
      requires Valid()
      modifies this, observations.Values
      ensures Valid() && fresh(observations.Values - old(observations.Values))
      ensures View() == Runs.Step(config, old(View()), Runs.Observed(operation, durationSeconds))
    {
      var observation: DurationObservation;
      if operation in observations {
        observation := observations[operation];
      } else {
        observation := new DurationObservation();
        observations := observations[operation := observation];
      }
      RecordKeepsSound(observation.View(), durationSeconds);
      observation.Record(durationSeconds);
      observed := Observe(observed, operation, durationSeconds);
    }

    /** The largest estimate of a group: the generator inside each `max(...)`. */
    method LargestEstimate(g: Group) returns (r: real)
      requires Valid()
      ensures r == Peak(observed, g)
    {
      r := 0.0;
      var keys := observations.Keys;
      ghost var seen: set<string> := {};
      while keys != {}
        invariant keys + seen == observations.Keys && keys !! seen
        invariant 0.0 <= r
        invariant forall k <- seen :: Counts(observed, k, g) ==> observed[k].Estimate() <= r
        invariant r == 0.0 || exists k :: Counts(observed, k, g) && observed[k].Estimate() == r
        decreases keys
      {
        var k :| k in keys;
        if InGroup(k, g) && observations[k].count > 0 {
          var estimate := observations[k].EstimateSeconds();
          if estimate > r {
            r := estimate;
            assert Counts(observed, k, g);
          }
        }
        keys := keys - {k};
        seen := seen + {k};
      }
      PeakUnique(observed, g, r);
    }

    method FinalizationReserveSeconds() returns (r: real)
      requires Valid()
      ensures r == Reserve(config, observed)
    {
      if config.deadline.None? { return 0.0; }
      var llm := LargestEstimate(Llm);
      var verification := LargestEstimate(Verification);
      var tool := LargestEstimate(Tool);
      r := ReserveFrom(config, llm, verification, tool);
    }

    method NormalWorkRemainingSeconds() returns (r: Option<real>)
      requires Valid()
      modifies clock
      ensures old(clock.now) <= clock.now
      ensures r == NormalWorkRemaining(config, observed, clock.now)
    {
      var remaining := RemainingSeconds();
      if remaining.None? { return None; }
      var reserve := FinalizationReserveSeconds();
      r := Some(Max(0.0, remaining.value - reserve));
    }

    method DegradationStage() returns (stage: Phase)
      modifies clock
      ensures old(clock.now) <= clock.now
      ensures stage == StageAt(config, clock.now)
    {
      var policy := config.degradation.Normalized();
      if !policy.enabled { return Normal; }
      var span := Span(config);
      if span.None? { return Normal; }
      var t := clock.Read();
      var fraction := Max(0.0, Max(0.0, t - config.started) / span.value);
      if fraction >= policy.wrapUpFraction { return WrapUp; }
      if fraction >= policy.convergenceFraction { return Convergence; }
      return Normal;
    }

    method CurrentPhase() returns (phase: Phase, ghost t1: real, ghost t2: real)
      requires Valid()
      modifies clock
      ensures old(clock.now) <= t1 <= t2 <= clock.now
      ensures phase == PhaseRead(config, observed, t1, t2, clock.now)
    {
      var first := RemainingSeconds();
      t1, t2 := clock.now, clock.now;
      if first.Some? && first.value <= 0.0 { return Exhausted, t1, t2; }
      var second := RemainingSeconds();
      t2 := clock.now;
      if second.None? { return Normal, t1, t2; }
      var reserve := FinalizationReserveSeconds();
      if second.value <= reserve { return FinalizationWindow, t1, t2; }
      phase := DegradationStage();
    }

    method MaybeEnterDegradationStage() returns (r: Option<Phase>, ghost read: real)
      modifies this`stagesEntered, clock
      ensures old(clock.now) <= read <= clock.now
      ensures r == Runs.StageReported(config, old(stagesEntered), read)
      ensures View() == Runs.Step(config, old(View()), Runs.ReportStage(read, clock.now))
    {
      var stage := DegradationStage();
      read := clock.now;
      if stage == Normal || stage in stagesEntered { return None, read; }
      var at := clock.Read();
      stagesEntered := stagesEntered[stage := at];
      r := Some(stage);
    }

    method MaybeEnterFinalization(reason: string) returns (entered: bool, ghost e: Runs.Event)
      requires Valid()
      modifies this`finalizationReason, this`finalizationEnteredAt, clock
      ensures e.ReportWindow? && e.reason == reason && Runs.Enabled(old(View()), e)
      ensures entered <==> Runs.WindowReported(config, old(View()), e.t1, e.t2, e.t3)
      ensures View() == Runs.Step(config, old(View()), e)
    {
      ghost var t1: real, t2: real;
      var phase: Phase;
      phase, t1, t2 := CurrentPhase();
      ghost var t3 := clock.now;
      if phase == FinalizationWindow && finalizationReason.None? {
        finalizationReason := Some(if reason == "" then Runs.DEFAULT_REASON else reason);
        var at := clock.Read();
        finalizationEnteredAt := Some(at);
        entered := true;
      } else {
        entered := false;
      }
      e := Runs.ReportWindow(t1, t2, t3, clock.now, reason);
    }

    method MarkFinalizationDirectiveSent()
      modifies this`directiveSent
      ensures View() == Runs.Step(config, old(View()), Runs.DirectiveSent)
    {
      directiveSent := true;
    }

    method MarkFinalizationLlmStarted()
      modifies this`llmStarted
      ensures View() == Runs.Step(config, old(View()), Runs.LlmStarted)
    {
      llmStarted := true;
    }

    method EstimatedDurationSeconds(operation: string, configured: Option<real>, default: Option<real>)
      returns (r: Result<Option<real>, DeadlineError>)
      requires Valid()
      modifies clock
      ensures old(clock.now) <= clock.now
      ensures r == EstimateFor(config, observed, operation, configured, default, clock.now)
    {
      var best: Option<real> := None;
      if operation in observations && observations[operation].count > 0 {
        var seen := observations[operation].EstimateSeconds();
        best := Some(seen);
      }
      if default.Some? {
        best := Some(if best.None? then Max(0.0, default.value) else Max(best.value, Max(0.0, default.value)));
      }
      if configured.Some? {
        if configured.value <= 0.0 { return Raise(InvalidSeconds); }
        var clamped := ClampTimeoutSeconds(configured, CLEANUP_RESERVE, MINIMUM_OPERATION_TIMEOUT);
        var candidate := clamped.value.GetOr(configured.value);
        best := Some(if best.None? then candidate else Max(best.value, candidate));
      }
      r := Ok(best);
    }

    method StartDecision(operation: string, q: StartRequest)
      returns (r: Result<Decision, DeadlineError>, ghost at: Readings)
      requires Valid()
      modifies clock
      ensures at.Ordered(old(clock.now), clock.now)
      ensures r == Decide(config, observed, operation, q, at)
    {
      var remaining := RemainingSeconds();
      ghost var t1 := clock.now;
      var reserve := FinalizationReserveSeconds();
      var normal := NormalWorkRemainingSeconds();
      ghost var t2 := clock.now;
      var phase: Phase;
      ghost var t3: real, t4: real;
      phase, t3, t4 := CurrentPhase();
      ghost var t5 := clock.now;
      var minimum := Max(0.0, q.minimum);
      var estimate := q.estimate;
      if estimate.None? {
        var computed := EstimatedDurationSeconds(operation, q.configuredTimeout, Some(minimum));
        if computed.Raise? {
          at := Readings(t1, t2, t3, t4, t5, clock.now, clock.now);
          return Raise(computed.error), at;
        }
        estimate := computed.value;
      }
      ghost var t6 := clock.now;
      var blocked := false;
      if remaining.Some? && phase != Exhausted && remaining.value >= minimum {
        var stage := DegradationStage();
        blocked := operation in BlockedBy(stage);
      }
      var (allowed, reason) := Verdict(operation, q.allowDuringFinalization, remaining, normal, phase,
                                       minimum, estimate, blocked);
      at := Readings(t1, t2, t3, t4, t5, t6, clock.now);
      r := Ok(Decision(operation, allowed, phase, reason, remaining, normal, reserve, minimum, estimate));
    }
  }

  /** The earlier of an active parent ceiling and a finite fallback. A child may be
      the parent object itself, sharing its observations. */
  method DeriveSubagentDeadline(parent: ExecutionDeadline?, fallbackSeconds: real, systemClock: Clock)
    returns (r: Result<ExecutionDeadline, DeadlineError>, ghost at: Chain.DerivationReadings)
    requires parent != null ==> parent.Valid()
    modifies if parent != null then parent.clock else systemClock
    ensures r.Raise? <==> fallbackSeconds <= 0.0
    ensures r.Ok? && parent == null ==>
      && fresh(r.value) && r.value.clock == systemClock
      && r.value.config == Chain.Fallback(systemClock.now, fallbackSeconds, DEFAULT_FINALIZATION, DEFAULT_DEGRADATION)
    ensures r.Ok? && parent != null ==>
      && at.Ordered(old(parent.clock.now), parent.clock.now)
      && r.value.config == Chain.Derive(parent.config, parent.observed, fallbackSeconds, at)
      && r.value.clock == parent.clock
      && (r.value == parent || fresh(r.value))
      && (Chain.KeepsParent(parent.config, parent.observed, fallbackSeconds, at) ==> r.value == parent)
  {
    at := Chain.DerivationReadings(0.0, 0.0, 0.0, 0.0);
    if fallbackSeconds <= 0.0 { return Raise(InvalidSeconds), at; }
    if parent == null {
      var started := systemClock.Read();
      var own := new ExecutionDeadline(
        Chain.Fallback(started, fallbackSeconds, DEFAULT_FINALIZATION, DEFAULT_DEGRADATION), systemClock);
      return Ok(own), at;
    }
    var now := parent.clock.Read();
    var fallbackDeadline := now + fallbackSeconds;
    at := Chain.DerivationReadings(now, now, now, now);
    if parent.config.deadline.Some? {
      var phase: Phase;
      ghost var t1: real, t2: real;
      phase, t1, t2 := parent.CurrentPhase();
      at := Chain.DerivationReadings(now, t1, t2, parent.clock.now);
      if phase == FinalizationWindow || phase == Exhausted { return Ok(parent), at; }
      if parent.config.deadline.value <= fallbackDeadline { return Ok(parent), at; }
    }
    var child := new ExecutionDeadline(
      Chain.Fallback(now, fallbackSeconds, parent.config.finalization, parent.config.degradation), parent.clock);
    return Ok(child), at;
  }
}
