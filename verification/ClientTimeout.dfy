/** The context manager that shortens a client's timeout to the run deadline, and
    the retry hook it installs on the client. What both answer is a function of the
    clock readings they make; the properties are proved about those functions. */
module ClientTimeout {
  import opened Prelude
  import opened DeadlineModel
  import opened DeadlineTheorems
  import opened DeadlineDecisions
  import opened ExecutionDeadlines

  const RETRY_OPERATION := "provider_retry_sleep"

  /** Time a request may take: an absent timeout is no bound at all. */
  predicate NoLonger(a: Option<real>, b: Option<real>) {
    b.None? || (a.Some? && a.value <= b.value)
  }

  /** Something that starts at `at`, takes so long and leaves `unused` seconds before the
      deadline. */
  predicate EndsBefore(c: Config, at: real, seconds: Option<real>, unused: real) {
    c.deadline.Some? ==> seconds.Some? && at + seconds.value + unused <= Max(at, c.deadline.value)
  }

  // --------------------------------------------------------------- readings

  /** The readings of one phase, then those of the decision, then the last one. */
  datatype RetryReadings = RetryReadings(t1: real, t2: real, t3: real, decision: Readings, last: real)
  {
    ghost predicate Ordered(from: real, to: real) {
      from <= t1 <= t2 <= t3 && decision.Ordered(t3, last) && last == to
    }
  }

  /** The readings of one phase and of the clamp with and without finalization reserve. */
  datatype EntryReadings = EntryReadings(t1: real, t2: real, t3: real, reserving: real, last: real)
  {
    ghost predicate Ordered(from: real, to: real) {
      from <= t1 <= t2 <= t3 <= reserving <= last == to
    }
  }

  /** One attempt the client may start, with what the deadline had observed and the
      readings that were made for it. */
  datatype Attempt =
    | Entered(obs: Observations, entry: EntryReadings, limit: real)
    | Retried(obs: Observations, readings: RetryReadings, wait: real, timeout: Option<real>)
  {
    function At(): real {
      match this
      case Entered(_, entry, _) => entry.last
      case Retried(_, readings, _, _) => readings.last
    }

    function Timeout(): Option<real> {
      match this
      case Entered(_, _, limit) => Some(limit)
      case Retried(_, _, _, timeout) => timeout
    }
  }

  /** The attempt leaves the cleanup reserve unused. A retry that was granted while the
      phase was not the finalization window leaves the finalization reserve as well, and
      so does the first attempt where there is room for it. */
  ghost predicate OnTime(c: Config, reserveSeconds: real, minimumSeconds: real, a: Attempt) {
    var cleanup := Max(0.0, reserveSeconds);
    match a
    case Entered(obs, at, limit) =>
      && EndsBefore(c, at.last, Some(limit), cleanup)
      && (RoomForReserve(c, obs, cleanup, minimumSeconds, at) ==>
            EndsBefore(c, at.last, Some(limit), cleanup + Reserve(c, obs)))
    case Retried(obs, at, wait, timeout) =>
      var seconds := if timeout.Some? then Some(Max(0.0, wait) + timeout.value) else None;
      && EndsBefore(c, at.last, seconds, cleanup)
      && (PhaseRead(c, obs, at.t1, at.t2, at.t3) != FinalizationWindow ==>
            EndsBefore(c, at.last, seconds, cleanup + Reserve(c, obs)))
  }

  /** The run is neither exhausted nor in the window, and beside both reserves the minimum
      is left. */
  ghost predicate RoomForReserve(c: Config, obs: Observations, cleanup: real, minimumSeconds: real, at: EntryReadings) {
    c.deadline.Some? ==>
      && at.t1 < c.deadline.value && !WindowOpen(c, obs, at.t2)
      && Max(0.0, c.deadline.value - at.reserving) - cleanup - Reserve(c, obs) >= Max(0.0, minimumSeconds)
  }

  /** What a block is entered with: the deadline, what it observed, and the caller's
      reserve and minimum. */
  datatype Terms = Terms(config: Config, obs: Observations, reserveSeconds: real, minimumSeconds: real)
  {
    ghost function FinalizationReserve(): real {
      Reserve(config, obs)
    }

    // ------------------------------------------------------------- retries

    ghost predicate InWindow(at: RetryReadings) {
      PhaseRead(config, obs, at.t1, at.t2, at.t3) == FinalizationWindow
    }

    /** Outside the window a retry leaves the finalization reserve alone as well. */
    ghost function Guard(inWindow: bool): real {
      Max(0.0, reserveSeconds) + if inWindow then 0.0 else FinalizationReserve()
    }

    function Request(wait: real, inWindow: bool): StartRequest {
      var window := Max(0.0, wait) + Max(0.0, minimumSeconds);
      StartRequest(window, Some(window), None, inWindow)
    }

    ghost function Budget(wait: real, at: RetryReadings): real
      requires config.deadline.Some?
    {
      Remaining(config, at.last).value - Max(0.0, wait) - Guard(InWindow(at))
    }

    ghost predicate Grants(wait: real, at: RetryReadings) {
      && !Refuses(Decide(config, obs, RETRY_OPERATION, Request(wait, InWindow(at)), at.decision))
      && (config.deadline.Some? ==> Budget(wait, at) >= Max(minimumSeconds, MINIMUM_OPERATION_TIMEOUT))
    }

    /** The client's timeout after a retry was granted. */
    ghost function Shortened(timeout: Option<real>, wait: real, at: RetryReadings): Option<real> {
      if config.deadline.None? then timeout
      else if timeout.None? || timeout.value > Budget(wait, at) then Some(Budget(wait, at))
      else timeout
    }

    ghost function Retry(timeout: Option<real>, wait: real, at: RetryReadings): Attempt {
      Retried(obs, at, wait, Shortened(timeout, wait, at))
    }

    // --------------------------------------------------------------- entry

    ghost predicate Closing(at: EntryReadings) {
      Rank(PhaseRead(config, obs, at.t1, at.t2, at.t3)) >= Rank(FinalizationWindow)
    }

    /** The clamp that leaves the finalization reserve too; None when it is not tried or
        leaves less than the minimum. */
    ghost function ReservingTimeout(configured: Option<real>, at: EntryReadings): Result<Option<real>, DeadlineError> {
      if Closing(at) then Ok(None)
      else ClampTimeout(config, at.reserving, configured, Max(0.0, reserveSeconds) + FinalizationReserve(), minimumSeconds)
    }

    ghost function EntryTimeout(configured: Option<real>, at: EntryReadings): Result<real, DeadlineError> {
      match ReservingTimeout(configured, at)
      case Raise(error) => Raise(error)
      case Ok(Some(timeout)) => Ok(timeout)
      case Ok(None) =>
        match ClampTimeout(config, at.last, configured, reserveSeconds, minimumSeconds)
        case Raise(error) => Raise(error)
        case Ok(Some(timeout)) => Ok(timeout)
        case Ok(None) => Raise(DeadlineExhausted)
    }
  }

  /** A granted retry never lengthens the timeout, leaves it at a useful length, and is on
      time. */
  lemma GrantedRetryEndsInTime(q: Terms, timeout: Option<real>, wait: real, at: RetryReadings)
    requires q.Grants(wait, at)
    ensures
      var after := q.Shortened(timeout, wait, at);
      && NoLonger(after, timeout)
      && OnTime(q.config, q.reserveSeconds, q.minimumSeconds, Retried(q.obs, at, wait, after))
      && (after != timeout ==> after.Some? && after.value >= Max(q.minimumSeconds, 0.05))
  {
    ReserveIsPositive(q.config, q.obs);
    hide Reserve, PhaseRead, Decide, Refuses;
  }

  /** What is left for an attempt after the sleep and beside the reserves. */
  ghost function Spare(q: Terms, wait: real, at: RetryReadings): real
    requires q.config.deadline.Some?
  {
    Max(0.0, q.config.deadline.value - at.last) - Max(0.0, wait) - Max(0.0, q.reserveSeconds)
    - if PhaseRead(q.config, q.obs, at.t1, at.t2, at.t3) == FinalizationWindow then 0.0 else Reserve(q.config, q.obs)
  }

  /** When a retry is granted: sleep and minimum still fit before the deadline, and beside the
      reserve unless the window is open; a window that opened only after the phase was
      read refuses it; and a useful attempt is left after the sleep. */
  lemma RetryGrantedExactlyWhen(q: Terms, wait: real, at: RetryReadings)
    requires q.config.deadline.Some?
    ensures
      var c, d := q.config, at.decision;
      var needed := Max(0.0, wait) + Max(0.0, q.minimumSeconds);
      var inWindow := at.t1 < c.deadline.value && WindowOpen(c, q.obs, at.t2);
      q.Grants(wait, at) <==>
        && d.exhausted < c.deadline.value && needed <= Max(0.0, c.deadline.value - d.remaining)
        && (if WindowOpen(c, q.obs, d.window) then inWindow else needed <= LeftForWork(c, q.obs, d.normal))
        && Spare(q, wait, at) >= Max(q.minimumSeconds, 0.05)
  {
    var request := q.Request(wait, q.InWindow(at));
    DecisionReports(q.config, q.obs, RETRY_OPERATION, request, at.decision);
    StartDecided(q.config, q.obs, RETRY_OPERATION, request, at.decision);
    PhaseDecided(q.config, q.obs, at.t1, at.t2, at.t3);
    RetriesAreOpen(q.config, at.decision.blocked);
    hide Reserve, PhaseRead, Decide, WindowOpen, LeftForWork, DegradationCloses;
  }

  lemma RetriesAreOpen(c: Config, t: real)
    ensures FinalizationBlocks(RETRY_OPERATION) && !DegradationCloses(c, RETRY_OPERATION, t)
  {
  }

  /** The timeout of a granted retry is the longest there is: any longer one exceeds the
      one before or what is left. */
  lemma RetryTimeoutIsLongest(q: Terms, timeout: Option<real>, wait: real, at: RetryReadings, longer: real)
    requires q.config.deadline.Some? && q.Grants(wait, at)
    ensures
      var after := q.Shortened(timeout, wait, at);
      && after.Some? && after.value <= Spare(q, wait, at)
      && (longer > after.value ==> longer > Spare(q, wait, at) || (timeout.Some? && longer > timeout.value))
  {
    hide Reserve, PhaseRead, Decide, Refuses;
  }

  ghost predicate TooLate(q: Terms, at: real)
    requires q.config.deadline.Some?
  {
    Max(0.0, q.config.deadline.value - at) - Max(0.0, q.reserveSeconds) < Max(0.0, q.minimumSeconds)
  }

  lemma EntryRaises(q: Terms, configured: Option<real>, at: EntryReadings)
    requires q.config.deadline.Some? && at.Ordered(at.t1, at.last)
    requires q.ReservingTimeout(configured, at) != Ok(None) ==> at.last == at.reserving
    ensures
      var r := q.EntryTimeout(configured, at);
      && (r == Raise(DeadlineExhausted) <==> TooLate(q, at.last))
      && (r == Raise(InvalidSeconds) <==> !TooLate(q, at.last) && configured.Some? && configured.value <= 0.0)
  {
    ReserveIsPositive(q.config, q.obs);
    hide Reserve, PhaseRead, Terms.Closing;
  }

  lemma EntryIsBounded(q: Terms, configured: Option<real>, at: EntryReadings)
    requires q.config.deadline.Some? && q.EntryTimeout(configured, at).Ok?
    ensures
      var timeout := q.EntryTimeout(configured, at).value;
      && q.minimumSeconds <= timeout
      && (configured.Some? ==> timeout <= Max(q.minimumSeconds, configured.value))
  {
    ReserveIsPositive(q.config, q.obs);
    hide Reserve, PhaseRead, Terms.Closing;
  }

  lemma EntryIsOnTime(q: Terms, configured: Option<real>, at: EntryReadings)
    requires q.config.deadline.Some? && q.EntryTimeout(configured, at).Ok?
    requires q.ReservingTimeout(configured, at) != Ok(None) ==> at.last == at.reserving
    ensures OnTime(q.config, q.reserveSeconds, q.minimumSeconds, Entered(q.obs, at, q.EntryTimeout(configured, at).value))
  {
    ReserveIsPositive(q.config, q.obs);
    ClosingDecided(q, at);
    hide Reserve, PhaseRead, Terms.Closing, WindowOpen;
  }

  /** The timeout of the first attempt under an enabled deadline. It is the configured
      one shortened, unless that is below the minimum; entering raises for exhaustion
      exactly when the cleanup reserve leaves less than the minimum at the last reading,
      and otherwise for an invalid value exactly when the configured one is not
      positive; and the attempt is on time. */
  lemma EntryTimeoutFits(q: Terms, configured: Option<real>, at: EntryReadings)
    requires q.config.deadline.Some? && at.Ordered(at.t1, at.last)
    requires q.ReservingTimeout(configured, at) != Ok(None) ==> at.last == at.reserving
    ensures
      var r := q.EntryTimeout(configured, at);
      && (r == Raise(DeadlineExhausted) <==> TooLate(q, at.last))
      && (r == Raise(InvalidSeconds) <==> !TooLate(q, at.last) && configured.Some? && configured.value <= 0.0)
      && (r.Ok? ==>
            && q.minimumSeconds <= r.value
            && (configured.Some? ==> r.value <= Max(q.minimumSeconds, configured.value))
            && OnTime(q.config, q.reserveSeconds, q.minimumSeconds, Entered(q.obs, at, r.value)))
  {
    hide *;
    EntryRaises(q, configured, at);
    if q.EntryTimeout(configured, at).Ok? {
      EntryIsBounded(q, configured, at);
      EntryIsOnTime(q, configured, at);
    }
  }

  lemma ClosingDecided(q: Terms, at: EntryReadings)
    requires q.config.deadline.Some?
    ensures q.Closing(at) <==> q.config.deadline.value <= at.t1 || WindowOpen(q.config, q.obs, at.t2)
  {
    PhaseDecided(q.config, q.obs, at.t1, at.t2, at.t3);
    hide PhaseRead, WindowOpen, PastWrapUp, PastConvergence;
  }

  /** It is the longest there is: any longer one exceeds the configured value and the
      minimum, or does not leave the cleanup reserve, with the finalization reserve where
      there is room for it. */
  lemma EntryTimeoutIsLongest(q: Terms, configured: Option<real>, at: EntryReadings, longer: real)
    requires q.config.deadline.Some? && q.EntryTimeout(configured, at).Ok?
    ensures
      var c, cleanup := q.config, Max(0.0, q.reserveSeconds);
      var left :=
        if RoomForReserve(c, q.obs, cleanup, q.minimumSeconds, at)
        then Max(0.0, c.deadline.value - at.reserving) - cleanup - Reserve(c, q.obs)
        else Max(0.0, c.deadline.value - at.last) - cleanup;
      longer > q.EntryTimeout(configured, at).value ==>
        longer > left || (configured.Some? && longer > configured.value && longer > q.minimumSeconds)
  {
    ReserveIsPositive(q.config, q.obs);
    ClosingDecided(q, at);
    hide Reserve, PhaseRead;
  }

  /** A disabled deadline leaves the configured timeout and raises exactly without one. */
  lemma DisabledEntry(q: Terms, configured: Option<real>, at: EntryReadings)
    requires q.config.deadline.None?
    ensures q.EntryTimeout(configured, at) == if configured.Some? then Ok(configured.value) else Raise(DeadlineExhausted)
  {
  }

  // ---------------------------------------------------- a sequence of retries

  /** One request for a retry after a failure: the durations recorded since the request
      before it, also by others that share the deadline, and the sleep asked for. */
  datatype Turn = Turn(recorded: seq<(string, real)>, wait: real)

  ghost function Recorded(obs: Observations, durations: seq<(string, real)>, n: nat): Observations
    requires n <= |durations|
  {
    if n == 0 then obs else Observe(Recorded(obs, durations, n - 1), durations[n - 1].0, durations[n - 1].1)
  }

  /** What the deadline has observed when the n-th request is made. */
  ghost function Known(obs: Observations, turns: seq<Turn>, n: nat): Observations
    requires n <= |turns|
  {
    if n == 0 then obs
    else Recorded(Known(obs, turns, n - 1), turns[n - 1].recorded, |turns[n - 1].recorded|)
  }

  ghost function Knowing(q: Terms, turns: seq<Turn>, n: nat): Terms
    requires n <= |turns|
  {
    q.(obs := Known(q.obs, turns, n))
  }

  /** The client's timeout after the first n requests for a retry. */
  ghost function TimeoutAfter(q: Terms, timeout: Option<real>, turns: seq<Turn>, at: seq<RetryReadings>, n: nat): Option<real>
    requires n <= |turns| && n <= |at|
  {
    if n == 0 then timeout
    else
      var before := TimeoutAfter(q, timeout, turns, at, n - 1);
      var now, wait := Knowing(q, turns, n), turns[n - 1].wait;
      if now.Grants(wait, at[n - 1]) then now.Shortened(before, wait, at[n - 1]) else before
  }

  /** The attempts the first n requests were granted. */
  ghost function Granted(q: Terms, timeout: Option<real>, turns: seq<Turn>, at: seq<RetryReadings>, n: nat): seq<Attempt>
    requires n <= |turns| && n <= |at|
  {
    if n == 0 then []
    else
      var before := Granted(q, timeout, turns, at, n - 1);
      var now, wait := Knowing(q, turns, n), turns[n - 1].wait;
      if now.Grants(wait, at[n - 1])
      then before + [now.Retry(TimeoutAfter(q, timeout, turns, at, n - 1), wait, at[n - 1])]
      else before
  }

  ghost function GrantsAmong(granted: seq<bool>, n: nat): nat
    requires n <= |granted|
  {
    if n == 0 then 0 else GrantsAmong(granted, n - 1) + if granted[n - 1] then 1 else 0
  }

  /** The attempts are those of the granted requests, in order, each with its readings, its
      sleep and what was observed by then. */
  ghost predicate Logs(attempts: seq<Attempt>, obs: Observations, turns: seq<Turn>, at: seq<RetryReadings>, granted: seq<bool>)
    requires |granted| <= |turns| && |granted| <= |at|
  {
    && |attempts| == GrantsAmong(granted, |granted|)
    && forall i | 0 <= i < |granted| && granted[i] ::
         var k := GrantsAmong(granted, i);
         && k < |attempts| && attempts[k].Retried? && attempts[k].obs == Known(obs, turns, i + 1)
         && attempts[k].readings == at[i] && attempts[k].wait == turns[i].wait
  }

  lemma {:induction false} GrantsAmongPrefix(granted: seq<bool>, k: nat, n: nat)
    requires k <= n <= |granted|
    ensures GrantsAmong(granted[..n], k) == GrantsAmong(granted, k)
  {
    if k > 0 { GrantsAmongPrefix(granted, k - 1, n); }
  }

  lemma {:induction false} GrantedIsLogged(q: Terms, timeout: Option<real>, turns: seq<Turn>, at: seq<RetryReadings>,
                                           granted: seq<bool>, n: nat)
    requires n <= |granted| <= |turns| && |granted| <= |at|
    requires forall i | 0 <= i < |granted| :: granted[i] == Knowing(q, turns, i + 1).Grants(turns[i].wait, at[i])
    ensures Logs(Granted(q, timeout, turns, at, n), q.obs, turns, at, granted[..n])
  {
    hide Known, Terms.Grants, Terms.Shortened;
    if n > 0 {
      GrantedIsLogged(q, timeout, turns, at, granted, n - 1);
      GrantsAmongPrefix(granted, n, n);
      forall i: nat | i < n
        ensures GrantsAmong(granted[..n], i) == GrantsAmong(granted[..n - 1], i) == GrantsAmong(granted, i)
      {
        GrantsAmongPrefix(granted, i, n);
        GrantsAmongPrefix(granted, i, n - 1);
      }
      GrantsAmongPrefix(granted, n - 1, n - 1);
    }
  }

  lemma {:induction false} RecordedGrows(c: Config, obs: Observations, durations: seq<(string, real)>, n: nat)
    requires AllSound(obs) && n <= |durations|
    ensures AllSound(Recorded(obs, durations, n)) && Reserve(c, obs) <= Reserve(c, Recorded(obs, durations, n))
  {
    hide AllSound, Reserve, Observe;
    if n > 0 {
      RecordedGrows(c, obs, durations, n - 1);
      ReserveGrows(c, Recorded(obs, durations, n - 1), durations[n - 1].0, durations[n - 1].1);
    }
  }

  /** While durations come in, what a retry outside the window must leave unused never
      shrinks from one request to a later one. */
  lemma {:induction false} GuardsNeverShrink(q: Terms, turns: seq<Turn>, m: nat, n: nat)
    requires AllSound(q.obs) && m <= n <= |turns|
    ensures AllSound(Known(q.obs, turns, n))
    ensures Knowing(q, turns, m).Guard(false) <= Knowing(q, turns, n).Guard(false)
    decreases n
  {
    hide AllSound, Reserve, Recorded;
    if n > 0 {
      GuardsNeverShrink(q, turns, if m < n then m else n - 1, n - 1);
      var recorded := turns[n - 1].recorded;
      RecordedGrows(q.config, Known(q.obs, turns, n - 1), recorded, |recorded|);
    }
  }

  /** The requests come one after the other. */
  ghost predicate InOrder(at: seq<RetryReadings>, from: real, to: real) {
    && from <= to
    && (forall i | 0 <= i < |at| :: at[i].Ordered(at[i].t1, at[i].last) && from <= at[i].t1 && at[i].last <= to)
    && (forall i | 0 <= i < |at| - 1 :: at[i].last <= at[i + 1].t1)
  }

  lemma NoneInOrder(now: real)
    ensures InOrder([], now, now)
  {
  }

  lemma InOrderExtends(at: seq<RetryReadings>, next: RetryReadings, from: real, middle: real, to: real)
    requires InOrder(at, from, middle) && next.Ordered(middle, to)
    ensures InOrder(at + [next], from, to)
  {
    forall i | 0 <= i < |at| ensures at[i].last <= next.t1 {}
  }

  /** Later attempts are granted later and get no longer timeout. */
  ghost predicate Shrinking(attempts: seq<Attempt>) {
    forall i, j | 0 <= i < j < |attempts| ::
      attempts[i].At() <= attempts[j].At() && NoLonger(attempts[j].Timeout(), attempts[i].Timeout())
  }

  ghost predicate AllOnTime(q: Terms, attempts: seq<Attempt>) {
    forall i | 0 <= i < |attempts| :: OnTime(q.config, q.reserveSeconds, q.minimumSeconds, attempts[i])
  }

  lemma ShrinkingExtends(attempts: seq<Attempt>, a: Attempt)
    requires Shrinking(attempts) && |attempts| > 0
    requires attempts[|attempts| - 1].At() <= a.At() && NoLonger(a.Timeout(), attempts[|attempts| - 1].Timeout())
    ensures Shrinking(attempts + [a])
  {
    hide Attempt.At, Attempt.Timeout;
    forall i | 0 <= i < |attempts| ensures attempts[i].At() <= a.At() && NoLonger(a.Timeout(), attempts[i].Timeout()) {}
  }

  lemma AllOnTimeExtends(q: Terms, attempts: seq<Attempt>, a: Attempt)
    requires AllOnTime(q, attempts) && OnTime(q.config, q.reserveSeconds, q.minimumSeconds, a)
    ensures AllOnTime(q, attempts + [a])
  {
    hide OnTime;
  }

  /** For any sequence of failures, and whatever is observed meanwhile, the granted
      timeouts only shrink, from the first attempt on, and every granted attempt is on
      time: it leaves the cleanup reserve, and outside the window the finalization
      reserve of that moment too. */
  lemma {:induction false} RetriesEndInTime(q: Terms, first: Attempt, turns: seq<Turn>, at: seq<RetryReadings>, n: nat)
    requires n <= |turns| && n <= |at| && InOrder(at, first.At(), if |at| == 0 then first.At() else at[|at| - 1].last)
    requires OnTime(q.config, q.reserveSeconds, q.minimumSeconds, first)
    ensures
      var attempts := [first] + Granted(q, first.Timeout(), turns, at, n);
      && Shrinking(attempts) && AllOnTime(q, attempts)
      && attempts[|attempts| - 1].Timeout() == TimeoutAfter(q, first.Timeout(), turns, at, n)
      && attempts[|attempts| - 1].At() <= (if n == 0 then first.At() else at[n - 1].last)
  {
    hide OnTime, NoLonger, Shrinking, AllOnTime, Known, Terms.Grants, Terms.Shortened, Terms.Guard;
    if n == 0 {
      OnlyFirst(q, first);
    } else {
      RetriesEndInTime(q, first, turns, at, n - 1);
      var before := [first] + Granted(q, first.Timeout(), turns, at, n - 1);
      var now, wait := Knowing(q, turns, n), turns[n - 1].wait;
      TurnsInOrder(first.At(), at, n);
      if now.Grants(wait, at[n - 1]) {
        var timeout := TimeoutAfter(q, first.Timeout(), turns, at, n - 1);
        var a := now.Retry(timeout, wait, at[n - 1]);
        GrantedRetryEndsInTime(now, timeout, wait, at[n - 1]);
        ShrinkingExtends(before, a);
        AllOnTimeExtends(q, before, a);
        assert [first] + Granted(q, first.Timeout(), turns, at, n) == before + [a];
      }
    }
  }

  lemma OnlyFirst(q: Terms, first: Attempt)
    requires OnTime(q.config, q.reserveSeconds, q.minimumSeconds, first)
    ensures Shrinking([first] + []) && AllOnTime(q, [first] + [])
  {
    hide OnTime;
  }

  lemma TurnsInOrder(from: real, at: seq<RetryReadings>, n: nat)
    requires 0 < n <= |at| && InOrder(at, from, at[|at| - 1].last)
    ensures (if n == 1 then from else at[n - 2].last) <= at[n - 1].last
  {
    if n > 1 { assert at[n - 2].last <= at[n - 2 + 1].t1; }
  }

  lemma SameSoFar(q: Terms, timeout: Option<real>, turns: seq<Turn>, at: seq<RetryReadings>, next: RetryReadings, n: nat)
    requires n <= |turns| && n <= |at|
    ensures TimeoutAfter(q, timeout, turns, at + [next], n) == TimeoutAfter(q, timeout, turns, at, n)
    ensures Granted(q, timeout, turns, at + [next], n) == Granted(q, timeout, turns, at, n)
  {
    hide Known, Terms.Grants, Terms.Shortened, Terms.Retry;
    if n > 0 { SameSoFar(q, timeout, turns, at, next, n - 1); }
  }

  /** One more request: what the client has after it. */
  lemma TurnTaken(q: Terms, timeout: Option<real>, turns: seq<Turn>, at: seq<RetryReadings>, next: RetryReadings, n: nat)
    requires n == |at| < |turns|
    ensures
      var before := TimeoutAfter(q, timeout, turns, at, n);
      var now, wait, taken := Knowing(q, turns, n + 1), turns[n].wait, at + [next];
      && TimeoutAfter(q, timeout, turns, taken, n + 1)
         == (if now.Grants(wait, next) then now.Shortened(before, wait, next) else before)
      && Granted(q, timeout, turns, taken, n + 1)
         == Granted(q, timeout, turns, at, n) + (if now.Grants(wait, next) then [now.Retry(before, wait, next)] else [])
  {
    hide Known, Terms.Grants, Terms.Shortened, Terms.Retry;
    SameSoFar(q, timeout, turns, at, next, n);
  }

  // ------------------------------------------------------ the objects themselves

  class Client {
    var timeout: Option<real>
    var retryHook: Option<RetryHook>  // None: the attribute is missing
    ghost var attempts: seq<Attempt>  // what it was allowed to start
  }

  class RetryHook {
    const client: Client
    const deadline: ExecutionDeadline
    const reserveSeconds: real
    const minimumSeconds: real

    constructor (client: Client, deadline: ExecutionDeadline, reserveSeconds: real, minimumSeconds: real)
      ensures this.client == client && this.deadline == deadline
      ensures this.reserveSeconds == reserveSeconds && this.minimumSeconds == minimumSeconds
    {
      this.client, this.deadline := client, deadline;
      this.reserveSeconds, this.minimumSeconds := reserveSeconds, minimumSeconds;
    }

    ghost function View(): Terms
      reads deadline
    {
      Terms(deadline.config, deadline.observed, reserveSeconds, minimumSeconds)
    }

    /** `_provider_retry_deadline_allows`: grants exactly when the terms do, and only then
        shortens the timeout and lets one more attempt start. */
    method Allows(wait: real) returns (granted: bool, ghost at: RetryReadings)
      requires deadline.Valid()
      modifies client`timeout, client`attempts, deadline.clock
      ensures at.Ordered(old(deadline.clock.now), deadline.clock.now)
      ensures granted == View().Grants(wait, at)
      ensures client.timeout == if granted then View().Shortened(old(client.timeout), wait, at) else old(client.timeout)
      ensures client.attempts ==
        if granted then old(client.attempts) + [Retried(deadline.observed, at, wait, client.timeout)] else old(client.attempts)
      ensures granted ==>
        NoLonger(client.timeout, old(client.timeout))
        && OnTime(deadline.config, reserveSeconds, minimumSeconds, Retried(deadline.observed, at, wait, client.timeout))
    {
      hide Reserve, StageAt, PhaseRead, AllSound, Verdict, NormalWorkRemaining, EstimateFor;
      ghost var q, before := View(), client.timeout;
      var retryWindow := Max(0.0, wait) + Max(0.0, minimumSeconds);
      var phase: Phase;
      ghost var t1: real, t2: real;
      phase, t1, t2 := deadline.CurrentPhase();
      ghost var t3 := deadline.clock.now;
      var inFinalization := phase == FinalizationWindow;
      var decision: Result<Decision, DeadlineError>;
      ghost var readings: Readings;
      decision, readings := deadline.StartDecision(RETRY_OPERATION,
        StartRequest(retryWindow, Some(retryWindow), None, inFinalization));
      at := RetryReadings(t1, t2, t3, readings, deadline.clock.now);
      if !decision.value.allowed { return false, at; }
      var remaining := deadline.RemainingSeconds();
      at := RetryReadings(t1, t2, t3, readings, deadline.clock.now);
      if remaining.Some? {
        var guard := Max(0.0, reserveSeconds);
        if !inFinalization {
          var reserve := deadline.FinalizationReserveSeconds();
          guard := guard + reserve;
        }
        var budget := remaining.value - Max(0.0, wait) - guard;
        if budget < Max(minimumSeconds, MINIMUM_OPERATION_TIMEOUT) { return false, at; }
        if client.timeout.None? || client.timeout.value > budget {
          client.timeout := Some(budget);
        }
      }
      GrantedRetryEndsInTime(q, before, wait, at);
      client.attempts := client.attempts + [Retried(deadline.observed, at, wait, client.timeout)];
      granted := true;
    }
  }

  /** What the context manager remembers between entry and exit. */
  datatype Saved = Untouched | Saved(timeout: Option<real>, hook: Option<RetryHook>)

  function WithCeiling(original: Option<real>, ceiling: Option<real>): Option<real> {
    if ceiling.None? then original
    else if original.None? then ceiling
    else Some(Min(original.value, ceiling.value))
  }

  /** The timeout of the first attempt. */
  method ClampForEntry(deadline: ExecutionDeadline, configured: Option<real>,
                       reserveSeconds: real, minimumSeconds: real)
    returns (r: Result<real, DeadlineError>, ghost at: EntryReadings)
    requires deadline.Valid()
    modifies deadline.clock
    ensures at.Ordered(old(deadline.clock.now), deadline.clock.now)
    ensures
      var q := Terms(deadline.config, deadline.observed, reserveSeconds, minimumSeconds);
      && r == q.EntryTimeout(configured, at)
      && (q.ReservingTimeout(configured, at) != Ok(None) ==> at.last == at.reserving)
  {
    hide Reserve, StageAt, PhaseRead, AllSound, ClampTimeout;
    ghost var q := Terms(deadline.config, deadline.observed, reserveSeconds, minimumSeconds);
    var phase: Phase;
    ghost var t1: real, t2: real;
    phase, t1, t2 := deadline.CurrentPhase();
    ghost var t3 := deadline.clock.now;
    ghost var t4 := deadline.clock.now;
    if phase != FinalizationWindow && phase != Exhausted {
      var reserve := deadline.FinalizationReserveSeconds();
      var guard := Max(0.0, reserveSeconds) + reserve;
      var clamped := deadline.ClampTimeoutSeconds(configured, guard, minimumSeconds);
      t4 := deadline.clock.now;
      at := EntryReadings(t1, t2, t3, t4, t4);
      if clamped.Raise? { return Raise(clamped.error), at; }
      if clamped.value.Some? { return Ok(clamped.value.value), at; }
    }
    var plain := deadline.ClampTimeoutSeconds(configured, reserveSeconds, minimumSeconds);
    at := EntryReadings(t1, t2, t3, t4, deadline.clock.now);
    if plain.Raise? { return Raise(plain.error), at; }
    if plain.value.None? { return Raise(DeadlineExhausted), at; }
    r := Ok(plain.value.value);
  }

  /** Shortens the client's timeout and installs the hook, or raises and changes
      nothing. */
  method Enter(client: Client, deadline: ExecutionDeadline?, ceiling: Option<real>,
               reserveSeconds: real, minimumSeconds: real)
    returns (r: Result<Saved, DeadlineError>, ghost at: EntryReadings)
    requires deadline != null ==> deadline.Valid()
    modifies client, if deadline != null then {deadline.clock} else {}
    ensures deadline == null ==> r == Ok(Untouched)
    ensures r.Raise? || deadline == null ==> unchanged(client)
    ensures deadline != null ==>
      var q := Terms(deadline.config, deadline.observed, reserveSeconds, minimumSeconds);
      var configured := WithCeiling(old(client.timeout), ceiling);
      && at.Ordered(old(deadline.clock.now), deadline.clock.now)
      && (q.ReservingTimeout(configured, at) != Ok(None) ==> at.last == at.reserving)
      && match q.EntryTimeout(configured, at)
         case Raise(error) => r == Raise(error)
         case Ok(timeout) =>
           && r == Ok(Saved(old(client.timeout), old(client.retryHook)))
           && client.timeout == Some(timeout)
           && client.attempts == old(client.attempts) + [Entered(q.obs, at, q.EntryTimeout(configured, at).value)]
           && client.retryHook.Some? && fresh(client.retryHook.value)
           && client.retryHook.value.client == client && client.retryHook.value.deadline == deadline
           && client.retryHook.value.View() == q
  {
    hide Reserve, StageAt, PhaseRead, AllSound, ClampTimeout;
    at := EntryReadings(0.0, 0.0, 0.0, 0.0, 0.0);
    if deadline == null { return Ok(Untouched), at; }
    ghost var q := Terms(deadline.config, deadline.observed, reserveSeconds, minimumSeconds);
    var original := client.timeout;
    var originalHook := client.retryHook;
    var timeout: Result<real, DeadlineError>;
    timeout, at := ClampForEntry(deadline, WithCeiling(original, ceiling), reserveSeconds, minimumSeconds);
    if timeout.Raise? { return Raise(timeout.error), at; }
    client.timeout := Some(timeout.value);
    client.attempts := client.attempts + [Entered(q.obs, at, timeout.value)];
    var hook := new RetryHook(client, deadline, reserveSeconds, minimumSeconds);
    client.retryHook := Some(hook);
    r := Ok(Saved(original, originalHook));
  }

  method Exit(client: Client, saved: Saved)
    modifies client
    ensures saved.Untouched? ==> unchanged(client)
    ensures saved.Saved? ==> client.timeout == saved.timeout && client.retryHook == saved.hook
    ensures client.attempts == old(client.attempts)
  {
    if saved.Saved? {
      client.timeout, client.retryHook := saved.timeout, saved.hook;
    }
  }

  /** Others record durations on the shared deadline. */
  method Record(deadline: ExecutionDeadline, durations: seq<(string, real)>)
    requires deadline.Valid()
    modifies deadline, deadline.observations.Values
    ensures deadline.Valid() && fresh(deadline.observations.Values - old(deadline.observations.Values))
    ensures deadline.observed == Recorded(old(deadline.observed), durations, |durations|)
  {
    hide AllSound, Observe;
    for i := 0 to |durations|
      invariant deadline.Valid() && fresh(deadline.observations.Values - old(deadline.observations.Values))
      invariant deadline.observed == Recorded(old(deadline.observed), durations, i)
    {
      deadline.ObserveDuration(durations[i].0, durations[i].1);
    }
  }

  /** Any number of failed attempts, each asking for a retry after a sleep. */
  method Retries(hook: RetryHook, turns: seq<Turn>) returns (granted: seq<bool>, ghost at: seq<RetryReadings>)
    requires hook.deadline.Valid()
    modifies hook.client`timeout, hook.client`attempts
    modifies hook.deadline, hook.deadline.observations.Values, hook.deadline.clock
    ensures |granted| == |at| == |turns| && InOrder(at, old(hook.deadline.clock.now), hook.deadline.clock.now)
    ensures
      var q, timeout := old(hook.View()), old(hook.client.timeout);
      && (forall i | 0 <= i < |turns| :: granted[i] == Knowing(q, turns, i + 1).Grants(turns[i].wait, at[i]))
      && hook.client.timeout == TimeoutAfter(q, timeout, turns, at, |turns|)
      && hook.client.attempts == old(hook.client.attempts) + Granted(q, timeout, turns, at, |turns|)
      && hook.View() == Knowing(q, turns, |turns|)
    ensures exists more: seq<Attempt> ::
      hook.client.attempts == old(hook.client.attempts) + more && Logs(more, old(hook.deadline.observed), turns, at, granted)
  {
    hide AllSound, Reserve, InOrder, Recorded, OnTime, Terms.Grants, Terms.Shortened, Logs;
    ghost var q, timeout := hook.View(), hook.client.timeout;
    NoneInOrder(hook.deadline.clock.now);
    granted, at := [], [];
    for i := 0 to |turns|
      invariant hook.deadline.Valid() && hook.View() == Knowing(q, turns, i)
      invariant fresh(hook.deadline.observations.Values - old(hook.deadline.observations.Values))
      invariant |granted| == |at| == i && InOrder(at, old(hook.deadline.clock.now), hook.deadline.clock.now)
      invariant forall k | 0 <= k < i :: granted[k] == Knowing(q, turns, k + 1).Grants(turns[k].wait, at[k])
      invariant hook.client.timeout == TimeoutAfter(q, timeout, turns, at, i)
      invariant hook.client.attempts == old(hook.client.attempts) + Granted(q, timeout, turns, at, i)
    {
      var allowed: bool;
      ghost var readings: RetryReadings;
      ghost var before := hook.deadline.clock.now;
      Record(hook.deadline, turns[i].recorded);
      allowed, readings := hook.Allows(turns[i].wait);
      InOrderExtends(at, readings, old(hook.deadline.clock.now), before, hook.deadline.clock.now);
      TurnTaken(q, timeout, turns, at, readings, i);
      granted, at := granted + [allowed], at + [readings];
    }
    GrantedIsLogged(q, timeout, turns, at, granted, |granted|);
    assert granted[..|granted|] == granted;
    assert Logs(Granted(q, timeout, turns, at, |turns|), q.obs, turns, at, granted);
  }

  /** A whole `with` block: the first attempt, then any number of failures that ask for
      a retry, while durations are recorded. However the body ends, the client gets its
      timeout and its hook back. The block raises exactly when its entry does, and then
      no attempt starts; otherwise exactly the first and the granted attempts do, with
      shrinking timeouts, each on time. */
  method WithClampedClient(client: Client, deadline: ExecutionDeadline?, ceiling: Option<real>,
                           reserveSeconds: real, minimumSeconds: real, turns: seq<Turn>)
    returns (raised: Option<DeadlineError>, granted: seq<bool>, ghost entry: EntryReadings, ghost at: seq<RetryReadings>)
    requires deadline != null ==> deadline.Valid()
    modifies client, if deadline != null then {deadline, deadline.clock} else {}
    modifies if deadline != null then deadline.observations.Values else {}
    ensures client.timeout == old(client.timeout) && client.retryHook == old(client.retryHook)
    ensures deadline == null ==> raised.None? && client.attempts == old(client.attempts)
    ensures deadline != null ==>
      var q := old(Terms(deadline.config, deadline.observed, reserveSeconds, minimumSeconds));
      var configured := WithCeiling(old(client.timeout), ceiling);
      && entry.Ordered(old(deadline.clock.now), entry.last)
      && match q.EntryTimeout(configured, entry)
         case Raise(error) => raised == Some(error) && client.attempts == old(client.attempts)
         case Ok(timeout) =>
           && raised.None? && |granted| == |at| == |turns| && InOrder(at, entry.last, deadline.clock.now)
           && (forall i | 0 <= i < |turns| :: granted[i] == Knowing(q, turns, i + 1).Grants(turns[i].wait, at[i]))
           && var retried := Granted(q, Some(timeout), turns, at, |turns|);
              var attempts := [Entered(q.obs, entry, timeout)] + retried;
              && client.attempts == old(client.attempts) + attempts && Logs(retried, q.obs, turns, at, granted)
              && Shrinking(attempts) && AllOnTime(q, attempts)
  {
    hide Reserve, StageAt, PhaseRead, AllSound, ClampTimeout, Shrinking, AllOnTime, OnTime, Known, Terms.Grants;
    hide Logs, Granted, TimeoutAfter, InOrder, Terms.EntryTimeout, Terms.ReservingTimeout;
    granted, at := [], [];
    var saved: Result<Saved, DeadlineError>;
    saved, entry := Enter(client, deadline, ceiling, reserveSeconds, minimumSeconds);
    if saved.Raise? { return Some(saved.error), granted, entry, at; }
    if deadline != null {
      var hook := client.retryHook.value;
      ghost var q := hook.View();
      ghost var first := Entered(q.obs, entry, client.timeout.value);
      granted, at := Retries(hook, turns);
      FirstIsOnTime(q, WithCeiling(old(client.timeout), ceiling), entry);
      InOrderUpToLast(at, entry.last, deadline.clock.now);
      RetriesEndInTime(q, first, turns, at, |turns|);
      GrantedIsLogged(q, first.Timeout(), turns, at, granted, |granted|);
      assert granted[..|granted|] == granted;
    }
    Exit(client, saved.value);
    raised := None;
  }

  lemma FirstIsOnTime(q: Terms, configured: Option<real>, at: EntryReadings)
    requires at.Ordered(at.t1, at.last) && q.EntryTimeout(configured, at).Ok?
    requires q.ReservingTimeout(configured, at) != Ok(None) ==> at.last == at.reserving
    ensures OnTime(q.config, q.reserveSeconds, q.minimumSeconds, Entered(q.obs, at, q.EntryTimeout(configured, at).value))
  {
    hide Reserve, PhaseRead, ClampTimeout;
    if q.config.deadline.Some? { EntryTimeoutFits(q, configured, at); }
  }

  lemma InOrderUpToLast(at: seq<RetryReadings>, from: real, to: real)
    requires InOrder(at, from, to)
    ensures InOrder(at, from, if |at| == 0 then from else at[|at| - 1].last)
  {
    forall i | 0 <= i < |at| ensures at[i].last <= at[|at| - 1].last {
      LastIsLatest(at, from, to, i);
    }
  }

  lemma LastIsLatest(at: seq<RetryReadings>, from: real, to: real, i: nat)
    requires InOrder(at, from, to) && i < |at|
    ensures at[i].last <= at[|at| - 1].last
    decreases |at| - i
  {
    if i < |at| - 1 {
      assert at[i].last <= at[i + 1].t1 <= at[i + 1].last;
      LastIsLatest(at, from, to, i + 1);
    }
  }
}
