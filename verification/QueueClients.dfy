/** Any number of clients on one queue directory: when an event is lost. */
module QueueClients {
  import opened Prelude
  import opened EventQueue
  import opened QueueProtocol

  // --------------------------------------------------------------- invariant

  /** What a rewrite is about to put into the file was there once, in log order. */
  ghost predicate RewritesInOrder(s: State) {
    forall t <- s.pcs :: s.pcs[t].Prepared? ==> Subsequence(Events(s.pcs[t].remaining), s.log)
  }

  ghost predicate Shared(s: State) {
    LocksHeld(s) && ShippedAreStored(s) && IdsAreFresh(s) && InOrder(s) && RewritesInOrder(s)
  }

  lemma LogGrows(s: State, a: Action)
    requires Enabled(s, a)
    ensures Next(s, a).log == s.log || (Puts(s, a).Some? && Next(s, a).log == s.log + [Puts(s, a).value.0])
    ensures s.stored <= Next(s, a).stored
  {
    hide Append, Keep, Batch, Events;
  }

  lemma PrepareStartsInOrder(s: State, t: Thread)
    requires InOrder(s) && s.At(t).Rewriting?
    ensures Subsequence(Events(Keep(s.file.lines, s.At(t).shipped)), s.log)
  {
    hide Subsequence, Events, Keep, Without;
    KeepTakesOutShipped(s.file.lines, s.At(t).shipped);
    SubsequenceFilters(Events(s.file.lines), s.log, s.At(t).shipped);
  }

  lemma RewritesStayInOrder(s: State, a: Action)
    requires InOrder(s) && RewritesInOrder(s) && Enabled(s, a)
    ensures RewritesInOrder(Next(s, a))
  {
    var s' := Next(s, a);
    LogGrows(s, a);
    forall u | u in s'.pcs && s'.pcs[u].Prepared? ensures Subsequence(Events(s'.pcs[u].remaining), s'.log) {
      if a == Prepare(u) {
        PrepareStartsInOrder(s, u);
      } else {
        PreparedBefore(s, a, u);
        hide Next, Subsequence, Events;
        if s'.log != s.log { SubsequenceExtends(Events(s.pcs[u].remaining), s.log, Puts(s, a).value.0); }
      }
    }
  }

  lemma WriteStaysInOrder(s: State, e: Event, how: Written)
    requires InOrder(s)
    ensures InOrder(s.Write(e, how))
  {
    hide Subsequence, Events, Append;
    var s' := s.Write(e, how);
    var before, after := Events(s.file.lines), Events(s'.file.lines);
    EventsAfterWrite(s.file, e, how);
    if how == Nothing {
      NothingWritten(s.file, e);
    } else if s.file.open {
      MergingStaysInOrder(s, e, how);
    } else {
      PlainStaysInOrder(s, e, how);
    }
  }

  lemma NothingWritten(f: QueueFile, e: Event)
    ensures Append(f, e, Nothing) == f
  {
  }

  lemma PlainStaysInOrder(s: State, e: Event, how: Written)
    requires InOrder(s) && !s.file.open && how != Nothing
    ensures InOrder(s.Write(e, how))
  {
    var s' := s.Write(e, how);
    var before, after := Events(s.file.lines), Events(s'.file.lines);
    hide Subsequence, Events;
    EventsAfterWrite(s.file, e, how);
    SubsequenceExtends(before, s.log, e);
    if how == Fragment {
      assert after == before && s'.log == s.log;
    } else {
      assert after == before + [e] && s'.log == s.log + [e];
    }
  }

  lemma MergingStaysInOrder(s: State, e: Event, how: Written)
    requires InOrder(s) && s.file.open && how != Nothing
    ensures InOrder(s.Write(e, how))
  {
    var last := s.file.lines[|s.file.lines| - 1];
    var before, after := Events(s.file.lines), Events(s.Write(e, how).file.lines);
    hide Subsequence, Events;
    EventsAfterWrite(s.file, e, how);
    TailOfEvents(s.file.lines);
    assert before == after + if last.Entry? then [last.event] else [];
    if last.Entry? {
      SubsequenceDrops(before, s.log);
      assert before[..|before| - 1] == after;
    } else {
      assert before == after;
    }
    assert Subsequence(after, s.log);
    SubsequenceExtends(after, s.log, e);
  }

  lemma OrderStays(s: State, a: Action)
    requires Shared(s) && Enabled(s, a)
    ensures InOrder(Next(s, a))
  {
    hide Subsequence, Events, Append, IdsAreFresh, Keep, Batch;
    match a
    case AppendEvent(t) => WriteStaysInOrder(s, s.At(t).event, Complete);
    case FailAppend(t, how) => WriteStaysInOrder(s, s.At(t).event, how);
    case Crash(c, how) =>
      if c in s.locks && s.At(s.locks[c]).Appending? { WriteStaysInOrder(s, s.At(s.locks[c]).event, how); }
    case _ =>
  }

  lemma StepStaysShared(s: State, a: Action)
    requires Shared(s) && Enabled(s, a)
    ensures Shared(Next(s, a))
  {
    LocksStayHeld(s, a);
    ShippedStayStored(s, a);
    IdsStayFresh(s, a);
    OrderStays(s, a);
    RewritesStayInOrder(s, a);
  }

  lemma {:induction false} RunStaysShared(s: State, run: seq<Action>, n: nat)
    requires Shared(s) && IsRun(s, run) && n <= |run|
    ensures Shared(StateAt(s, run, n))
    decreases n
  {
    hide Shared, Next, Enabled, StateAt;
    if n == 0 {
      FirstState(s, run);
    } else {
      RunStaysShared(s, run, n - 1);
      StepAt(s, run, n - 1);
      StepStaysShared(StateAt(s, run, n - 1), run[n - 1]);
    }
  }

  lemma NothingShared()
    ensures Shared(INIT)
  {
  }

  // ---------------------------------------------------- taking an event away

  ghost predicate Readable(s: State, e: Event) {
    e in Events(s.file.lines)
  }

  /** Written whole once, and not readable now. */
  ghost predicate Gone(s: State, e: Event) {
    e in s.log && !Readable(s, e)
  }

  /** An append onto a line left open takes the event of that line, and its own. */
  ghost predicate SpoilsEvent(s: State, a: Action, e: Event)
    requires Enabled(s, a)
  {
    && Puts(s, a).Some? && s.file.open && |s.file.lines| > 0
    && (s.file.lines[|s.file.lines| - 1] == Entry(e) || (Puts(s, a).value.1 == Complete && Puts(s, a).value.0 == e))
  }

  /** A replace takes every event that the lines it prepared do not hold. */
  ghost predicate ReplaceTakes(s: State, a: Action, e: Event)
    requires Enabled(s, a)
  {
    a.Replace? && Readable(s, e) && e !in Events(s.At(a.t).remaining)
  }

  ghost predicate Takes(s: State, a: Action, e: Event)
    requires Enabled(s, a)
  {
    SpoilsEvent(s, a, e) || ReplaceTakes(s, a, e)
  }

  /** A replace with lines prepared earlier can also bring an event back. */
  ghost predicate Returns(s: State, a: Action, e: Event)
    requires Enabled(s, a)
  {
    a.Replace? && e in Events(s.At(a.t).remaining)
  }

  /** The prepared lines are not what the file now holds without the shipped events. */
  ghost predicate Stale(s: State, a: Action)
    requires Enabled(s, a)
  {
    a.Replace? && s.At(a.t).remaining != Keep(s.file.lines, s.At(a.t).shipped)
  }

  /** What a replace takes is stored by the plane, unless the replace is stale. */
  lemma TakenByStaleReplace(s: State, a: Action, e: Event)
    requires Shared(s) && Enabled(s, a) && ReplaceTakes(s, a, e) && e.id !in s.stored
    ensures Stale(s, a)
  {
    hide Events, Subsequence, Keep, Without;
    var shipped := s.At(a.t).shipped;
    KeepTakesOutShipped(s.file.lines, shipped);
    WithoutMembers(Events(s.file.lines), shipped, e);
  }

  // ------------------------------------------------------------- one step

  /** How a write of x changes which events are logged and readable. */
  lemma WriteChanges(s: State, x: Event, how: Written, e: Event)
    requires InOrder(s) && DistinctIds(s.log) && x !in s.log && how != Nothing
    ensures
      var w := s.Write(x, how);
      var last := if s.file.open then Some(s.file.lines[|s.file.lines| - 1]) else None;
      var taken := s.file.open && (last == Some(Entry(e)) || (how == Complete && x == e));
      if taken then Gone(w, e) else Gone(w, e) <==> Gone(s, e)
  {
    EventsAfterWrite(s.file, x, how);
    if Readable(s, e) { ReadableIsLogged(s, e); }
    if s.file.open {
      TailOfEvents(s.file.lines);
      SubsequenceIsDistinct(Events(s.file.lines), s.log);
      hide Subsequence, Events;
      MergeChanges(s, x, how, e);
    } else {
      hide Subsequence, Events;
    }
  }

  lemma MergeChanges(s: State, x: Event, how: Written, e: Event)
    requires InOrder(s) && DistinctIds(Events(s.file.lines)) && x !in s.log && how != Nothing && s.file.open
    ensures
      var w := s.Write(x, how);
      var taken := s.file.lines[|s.file.lines| - 1] == Entry(e) || (how == Complete && x == e);
      if taken then Gone(w, e) else Gone(w, e) <==> Gone(s, e)
  {
    var before, after := Events(s.file.lines), Events(s.Write(x, how).file.lines);
    var last := s.file.lines[|s.file.lines| - 1];
    hide Subsequence, Events, DistinctIds;
    EventsAfterWrite(s.file, x, how);
    TailOfEvents(s.file.lines);
    assert s.Write(x, how).log == if how == Complete then s.log + [x] else s.log;
    hide Append;
    if e in before { ReadableIsLogged(s, e); }
    if last.Entry? {
      assert before == after + [last.event];
      LastIsNotBefore(after, last.event);
    } else {
      assert before == after;
    }
  }

  lemma LastIsNotBefore(es: seq<Event>, e: Event)
    requires DistinctIds(es + [e])
    ensures e !in es
  {
    assert (es + [e])[|es|] == e && forall i | 0 <= i < |es| :: (es + [e])[i] == es[i];
  }

  lemma StepChanges(s: State, a: Action, e: Event)
    requires Shared(s) && Enabled(s, a)
    ensures Takes(s, a, e) ==> Gone(Next(s, a), e) && !Returns(s, a, e)
    ensures Returns(s, a, e) ==> !Gone(Next(s, a), e)
    ensures !Takes(s, a, e) && !Returns(s, a, e) ==> (Gone(Next(s, a), e) <==> Gone(s, e))
  {
    hide Subsequence, Events, Append, Keep, Batch, RewritesInOrder;
    if Puts(s, a).Some? {
      var (x, how) := Puts(s, a).value;
      PutIsWrite(s, a);
      PutIsPending(s, a);
      WriteChanges(s, x, how, e);
    } else if a.Replace? {
      if Readable(s, e) { ReadableIsLogged(s, e); }
    } else {
      NothingPut(s, a);
    }
  }

  lemma PutIsWrite(s: State, a: Action)
    requires Enabled(s, a) && Puts(s, a).Some?
    ensures
      var (x, how) := Puts(s, a).value;
      how != Nothing && Next(s, a).file == s.Write(x, how).file && Next(s, a).log == s.Write(x, how).log && !a.Replace?
  {
    hide Append;
  }

  lemma PutIsPending(s: State, a: Action)
    requires Enabled(s, a) && Puts(s, a).Some? && IdsAreFresh(s)
    ensures Puts(s, a).value.0 !in s.log
  {
  }

  lemma NothingPut(s: State, a: Action)
    requires Enabled(s, a) && Puts(s, a).None? && !a.Replace?
    ensures Next(s, a).file == s.file && Next(s, a).log == s.log
  {
    hide Keep, Batch, Events;
  }

  // ------------------------------------------------------------- whole runs

  ghost predicate TakesAt(run: seq<Action>, k: nat, e: Event)
    requires IsRun(INIT, run)
  {
    k < |run| && Enabled(StateAt(INIT, run, k), run[k]) && Takes(StateAt(INIT, run, k), run[k], e)
  }

  ghost predicate ReturnsAt(run: seq<Action>, k: nat, e: Event)
    requires IsRun(INIT, run)
  {
    k < |run| && Enabled(StateAt(INIT, run, k), run[k]) && Returns(StateAt(INIT, run, k), run[k], e)
  }

  /** Step k takes e, and up to step n none brings it back. */
  ghost predicate TakenForGood(run: seq<Action>, n: nat, k: nat, e: Event)
    requires IsRun(INIT, run)
  {
    k < n && TakesAt(run, k, e) && forall j | k < j < n :: !ReturnsAt(run, j, e)
  }

  lemma {:induction false} GoneUpTo(run: seq<Action>, n: nat, e: Event)
    requires IsRun(INIT, run) && n <= |run|
    ensures Gone(StateAt(INIT, run, n), e) <==> exists k :: TakenForGood(run, n, k, e)
    decreases n
  {
    hide Next, Enabled, StateAt, Takes, Returns, Gone, Shared;
    if n == 0 {
      FirstState(INIT, run);
      NothingGone(e);
    } else {
      GoneUpTo(run, n - 1, e);
      NothingShared();
      RunStaysShared(INIT, run, n - 1);
      StepAt(INIT, run, n - 1);
      StepChanges(StateAt(INIT, run, n - 1), run[n - 1], e);
      assert TakesAt(run, n - 1, e) <==> Takes(StateAt(INIT, run, n - 1), run[n - 1], e);
      assert ReturnsAt(run, n - 1, e) <==> Returns(StateAt(INIT, run, n - 1), run[n - 1], e);
      TakenUpTo(run, n - 1, n, e);
    }
  }

  lemma NothingGone(e: Event)
    ensures !Gone(INIT, e)
  {
  }

  lemma TakenUpTo(run: seq<Action>, m: nat, n: nat, e: Event)
    requires IsRun(INIT, run) && n == m + 1 <= |run|
    requires TakesAt(run, m, e) ==> !ReturnsAt(run, m, e)
    ensures (exists k :: TakenForGood(run, n, k, e)) <==>
      TakesAt(run, m, e) || (!ReturnsAt(run, m, e) && exists k :: TakenForGood(run, m, k, e))
  {
    hide TakesAt, ReturnsAt;
    if TakesAt(run, m, e) {
      assert TakenForGood(run, n, m, e);
    } else {
      forall k: nat ensures TakenForGood(run, n, k, e) <==> !ReturnsAt(run, m, e) && TakenForGood(run, m, k, e) {
        StillTaken(run, m, n, k, e);
      }
    }
  }

  lemma StillTaken(run: seq<Action>, m: nat, n: nat, k: nat, e: Event)
    requires IsRun(INIT, run) && n == m + 1 <= |run| && !TakesAt(run, m, e)
    ensures TakenForGood(run, n, k, e) <==> !ReturnsAt(run, m, e) && TakenForGood(run, m, k, e)
  {
    hide TakesAt, ReturnsAt;
  }

  lemma {:induction false} StoredGrows(run: seq<Action>, k: nat, n: nat)
    requires IsRun(INIT, run) && k <= n <= |run|
    ensures StateAt(INIT, run, k).stored <= StateAt(INIT, run, n).stored
    decreases n
  {
    hide Next, Enabled, StateAt;
    if k < n {
      StoredGrows(run, k, n - 1);
      StepAt(INIT, run, n - 1);
      LogGrows(StateAt(INIT, run, n - 1), run[n - 1]);
    }
  }

  /** Any number of clients, any run: an event is lost if and only if the plane has not
      stored it, and some step took it that no later replace undid. */
  lemma LostExactlyWhenTaken(run: seq<Action>, e: Event)
    requires IsRun(INIT, run)
    ensures Loses(Final(INIT, run), e) <==>
      e.id !in Final(INIT, run).stored && exists k :: TakenForGood(run, |run|, k, e)
  {
    LastState(INIT, run);
    GoneUpTo(run, |run|, e);
    hide Final, StateAt, TakenForGood, Events;
  }

  /** Such a step is an append onto a line left open, or a replace whose prepared lines no
      longer match the file. */
  lemma TakenByStaleOrSpoiling(run: seq<Action>, k: nat, e: Event)
    requires IsRun(INIT, run) && TakesAt(run, k, e) && e.id !in Final(INIT, run).stored
    ensures
      var s := StateAt(INIT, run, k);
      Enabled(s, run[k]) && (SpoilsEvent(s, run[k], e) || Stale(s, run[k]))
  {
    var s := StateAt(INIT, run, k);
    LastState(INIT, run);
    StoredGrows(run, k, |run|);
    NothingShared();
    RunStaysShared(INIT, run, k);
    hide Final, StateAt, Shared, Stale, SpoilsEvent, Enabled, Next, Events;
    if ReplaceTakes(s, run[k], e) { TakenByStaleReplace(s, run[k], e); }
  }

  /** However many clients there are, the queue keeps the order of writing and holds no
      event twice. */
  lemma OrderIsKept(run: seq<Action>)
    requires IsRun(INIT, run)
    ensures
      var s := Final(INIT, run);
      Subsequence(Events(s.file.lines), s.log) && DistinctIds(Events(s.file.lines))
  {
    LastState(INIT, run);
    NothingShared();
    RunStaysShared(INIT, run, |run|);
    var s := Final(INIT, run);
    hide Events, Subsequence, Final, StateAt, DistinctIds;
    SubsequenceIsDistinct(Events(s.file.lines), s.log);
  }
}
