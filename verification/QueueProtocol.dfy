/** Enqueuers and shippers of any number of clients interleaving over one queue
    file, a remote plane, lost responses, failed writes and crashes. Each client
    object guards the file with a lock of its own. */
module QueueProtocol {
  import opened Prelude
  import opened EventQueue

  /** `open`: the last line was written without its newline. */
  datatype QueueFile = QueueFile(lines: seq<Line>, open: bool)

  /** How much of an envelope reached the file. */
  datatype Written = Nothing | Fragment | WithoutNewline | Complete

  /** Text appended to an open last line merges with it into one unreadable line. */
  function Append(f: QueueFile, e: Event, how: Written): QueueFile {
    if how == Nothing then f
    else if f.open && f.lines != [] then
      QueueFile(f.lines[..|f.lines| - 1] + [Junk], how != Complete)
    else QueueFile(f.lines + [if how == Fragment then Junk else Entry(e)], how != Complete)
  }

  datatype Thread = Thread(client: nat, n: nat)

  datatype Pc =
    | Idle
    | Made(event: Event)                              // _event returned
    | Appending(event: Event)                         // holds the queue lock
    | Appended                                        // holds the queue lock
    | Reading                                         // holds the queue lock
    | HasRead(lines: seq<Line>)                       // holds the queue lock
    | Posting(batch: seq<Event>)
    | Answered(shipped: set<Id>)
    | Rewriting(shipped: set<Id>)                     // holds the queue lock
    | Prepared(shipped: set<Id>, remaining: seq<Line>) // temporary file written
    | Replaced                                        // holds the queue lock

  predicate Holds(p: Pc) {
    p.Appending? || p.Appended? || p.Reading? || p.HasRead? || p.Rewriting? || p.Prepared? || p.Replaced?
  }

  /** `log` is every event whose envelope was written whole, in that order;
      `spoiled` the ids of those that ended up in an unreadable line. */
  datatype State = State(
    file: QueueFile, locks: map<nat, Thread>, pcs: map<Thread, Pc>, stored: set<Id>,
    used: set<Id>, log: seq<Event>, spoiled: set<Id>)
  {
    function At(t: Thread): Pc {
      if t in pcs then pcs[t] else Idle
    }

    function Goto(t: Thread, p: Pc): State {
      this.(pcs := pcs[t := p])
    }

    function Lock(t: Thread, p: Pc): State {
      this.(locks := locks[t.client := t], pcs := pcs[t := p])
    }

    function Unlock(t: Thread, p: Pc): State {
      this.(locks := locks - {t.client}, pcs := pcs[t := p])
    }

    function Write(e: Event, how: Written): State {
      var merges := how != Nothing && file.open && file.lines != [];
      var tail := if merges && file.lines[|file.lines| - 1].Entry?
                  then {file.lines[|file.lines| - 1].event.id} else {};
      this.(file := Append(file, e, how),
            log := if how == Complete || (how == WithoutNewline && !merges) then log + [e] else log,
            spoiled := if merges then spoiled + tail + (if how == Complete then {e.id} else {}) else spoiled)
    }
  }

  const INIT := State(QueueFile([], false), map[], map[], {}, {}, [], {})

  datatype Action =
    | Make(t: Thread, id: Id, body: nat)
    | LockToAppend(t: Thread)
    | AppendEvent(t: Thread)
    | FailAppend(t: Thread, how: Written)     // the write raises part way
    | LockToRead(t: Thread)
    | ReadQueue(t: Thread)
    | UnlockBatch(t: Thread)
    | Deliver(t: Thread, kept: set<Id>)       // the plane stores part of the request
    | Answer(t: Thread, reply: set<Id>)       // accepted or duplicate ids
    | NoAnswer(t: Thread)                     // timeout, error or malformed body
    | LockToRewrite(t: Thread)
    | Prepare(t: Thread)
    | Replace(t: Thread)
    | FailRewrite(t: Thread)
    | Release(t: Thread)
    | Crash(client: nat, how: Written)        // may cut an append in progress

  /** The plane acknowledges only ids it has stored; ids are never reused. */
  predicate Enabled(s: State, a: Action) {
    match a
    case Make(t, id, _) => s.At(t).Idle? && id !in s.used
    case LockToAppend(t) => s.At(t).Made? && t.client !in s.locks
    case AppendEvent(t) => s.At(t).Appending?
    case FailAppend(t, how) => s.At(t).Appending? && how != Complete
    case LockToRead(t) => s.At(t).Idle? && t.client !in s.locks
    case ReadQueue(t) => s.At(t).Reading?
    case UnlockBatch(t) => s.At(t).HasRead?
    case Deliver(t, kept) => s.At(t).Posting? && kept <= Ids(s.At(t).batch)
    case Answer(t, reply) => s.At(t).Posting? && reply <= s.stored
    case NoAnswer(t) => s.At(t).Posting?
    case LockToRewrite(t) => s.At(t).Answered? && t.client !in s.locks
    case Prepare(t) => s.At(t).Rewriting?
    case Replace(t) => s.At(t).Prepared?
    case FailRewrite(t) => s.At(t).Rewriting? || s.At(t).Prepared?
    case Release(t) => s.At(t).Appended? || s.At(t).Replaced?
    case Crash(_, how) => how != Complete
  }

  function Next(s: State, a: Action): State
    requires Enabled(s, a)
  {
    match a
    case Make(t, id, body) => s.Goto(t, Made(Event(id, body))).(used := s.used + {id})
    case LockToAppend(t) => s.Lock(t, Appending(s.At(t).event))
    case AppendEvent(t) => s.Write(s.At(t).event, Complete).Goto(t, Appended)
    case FailAppend(t, how) => s.Write(s.At(t).event, how).Unlock(t, Idle)
    case LockToRead(t) => s.Lock(t, Reading)
    case ReadQueue(t) => s.Goto(t, HasRead(s.file.lines))
    case UnlockBatch(t) =>
      var batch := Batch(Events(s.At(t).lines));
      s.Unlock(t, if batch == [] then Idle else Posting(batch))
    case Deliver(t, kept) => s.(stored := s.stored + kept)
    case Answer(t, reply) => s.Goto(t, if reply == {} then Idle else Answered(reply))
    case NoAnswer(t) => s.Goto(t, Idle)
    case LockToRewrite(t) => s.Lock(t, Rewriting(s.At(t).shipped))
    case Prepare(t) => s.Goto(t, Prepared(s.At(t).shipped, Keep(s.file.lines, s.At(t).shipped)))
    case Replace(t) => s.(file := QueueFile(s.At(t).remaining, false)).Goto(t, Replaced)
    case FailRewrite(t) => s.Unlock(t, Idle)
    case Release(t) => s.Unlock(t, Idle)
    case Crash(c, how) =>
      var cut :=
        if c in s.locks && s.At(s.locks[c]).Appending?
        then s.Write(s.At(s.locks[c]).event, how) else s;
      cut.(locks := s.locks - {c},
           pcs := map t | t in s.pcs && t.client != c :: s.pcs[t])
  }

  predicate IsRun(s: State, run: seq<Action>)
    decreases |run|
  {
    run == [] || (Enabled(s, run[0]) && IsRun(Next(s, run[0]), run[1..]))
  }

  function Final(s: State, run: seq<Action>): State
    requires IsRun(s, run)
    decreases |run|
  {
    if run == [] then s else Final(Next(s, run[0]), run[1..])
  }

  // ------------------------------------------------------------ subsequences

  ghost predicate Subsequence<T>(a: seq<T>, b: seq<T>)
    decreases |b|
  {
    a == [] ||
    (b != [] &&
      ((a[|a| - 1] == b[|b| - 1] && Subsequence(a[..|a| - 1], b[..|b| - 1]))
        || Subsequence(a, b[..|b| - 1])))
  }

  lemma SubsequenceExtends<T>(a: seq<T>, b: seq<T>, x: T)
    requires Subsequence(a, b)
    ensures Subsequence(a, b + [x]) && Subsequence(a + [x], b + [x])
  {
    assert (b + [x])[..|b|] == b && (a + [x])[..|a|] == a;
  }

  lemma {:induction false} SubsequenceDrops<T>(a: seq<T>, b: seq<T>)
    requires Subsequence(a, b) && a != []
    ensures Subsequence(a[..|a| - 1], b)
    decreases |b|
  {
    var init := b[..|b| - 1];
    if !(a[|a| - 1] == b[|b| - 1] && Subsequence(a[..|a| - 1], init)) {
      SubsequenceDrops(a, init);
    }
    SubsequenceExtends(a[..|a| - 1], init, b[|b| - 1]);
    assert init + [b[|b| - 1]] == b;
  }

  lemma {:induction false} SubsequenceFilters(a: seq<Event>, b: seq<Event>, shipped: set<Id>)
    requires Subsequence(a, b)
    ensures Subsequence(Without(a, shipped), b)
    decreases |b|
  {
    if a != [] {
      var init, last := b[..|b| - 1], b[|b| - 1];
      assert init + [last] == b;
      if a[|a| - 1] == last && Subsequence(a[..|a| - 1], init) {
        SubsequenceFilters(a[..|a| - 1], init, shipped);
        var kept := Without(a[..|a| - 1], shipped);
        SubsequenceExtends(kept, init, last);
        assert Without(a, shipped) == if last.id in shipped then kept else kept + [last];
      } else {
        SubsequenceFilters(a, init, shipped);
        SubsequenceExtends(Without(a, shipped), init, last);
      }
    }
  }

  // --------------------------------------------------------------- invariant

  function Pending(p: Pc): Option<Event> {
    if p.Made? || p.Appending? then Some(p.event) else None
  }

  ghost predicate LocksHeld(s: State) {
    && (forall t <- s.pcs :: Holds(s.pcs[t]) ==> t.client in s.locks && s.locks[t.client] == t)
    && (forall c <- s.locks :: s.locks[c].client == c)
  }

  ghost predicate ShippedAreStored(s: State) {
    forall t <- s.pcs ::
      var p := s.pcs[t];
      p.Answered? || p.Rewriting? || p.Prepared? ==> p.shipped <= s.stored
  }

  ghost predicate IdsAreFresh(s: State) {
    && DistinctIds(s.log)
    && (forall e <- s.log :: e.id in s.used)
    && (forall t <- s.pcs :: Pending(s.pcs[t]).Some? ==>
          var id := Pending(s.pcs[t]).value.id;
          id in s.used && forall e <- s.log :: e.id != id)
    && (forall t, u | t in s.pcs && u in s.pcs && t != u
                      && Pending(s.pcs[t]).Some? && Pending(s.pcs[u]).Some? ::
          Pending(s.pcs[t]).value.id != Pending(s.pcs[u]).value.id)
  }

  /** The readable events stand in the order they were written. */
  ghost predicate InOrder(s: State) {
    && (s.file.open ==> s.file.lines != [])
    && Subsequence(Events(s.file.lines), s.log)
  }

  ghost predicate NoneLost(s: State) {
    forall e <- s.log :: e in Events(s.file.lines) || e.id in s.stored || e.id in s.spoiled
  }

  /** A rewrite in progress still fits the file. */
  ghost predicate RewritesFit(s: State) {
    forall t <- s.pcs :: s.pcs[t].Prepared? ==> s.pcs[t].remaining == Keep(s.file.lines, s.pcs[t].shipped)
  }

  ghost predicate OneClient(s: State, c: nat) {
    forall t <- s.pcs :: t.client == c
  }

  ghost predicate Inv(s: State) {
    LocksHeld(s) && ShippedAreStored(s) && IdsAreFresh(s) && InOrder(s) && NoneLost(s) && RewritesFit(s)
  }

  predicate ByClient(a: Action, c: nat) {
    if a.Crash? then a.client == c else a.t.client == c
  }

  lemma EventsAfterWrite(f: QueueFile, e: Event, how: Written)
    requires f.open ==> f.lines != []
    ensures
      var after := Events(Append(f, e, how).lines);
      if how == Nothing then after == Events(f.lines)
      else if f.open then after == Events(f.lines[..|f.lines| - 1])
      else after == Events(f.lines) + if how == Fragment then [] else [e]
  {
    if how != Nothing {
      if f.open {
        EventsConcat(f.lines[..|f.lines| - 1], [Junk]);
      } else {
        EventsConcat(f.lines, [if how == Fragment then Junk else Entry(e)]);
      }
    }
  }

  /** Writing an envelope, whole or cut short, keeps order and loses nothing that is
      not recorded as spoiled. */
  lemma WriteKeepsEvents(s: State, e: Event, how: Written)
    requires InOrder(s) && NoneLost(s)
    ensures InOrder(s.Write(e, how)) && NoneLost(s.Write(e, how))
  {
    if how == Nothing {
      assert s.Write(e, how).file == s.file && s.Write(e, how).log == s.log;
    } else if s.file.open {
      MergingWriteKeepsEvents(s, e, how);
    } else {
      PlainWriteKeepsEvents(s, e, how);
    }
  }

  lemma PlainWriteKeepsEvents(s: State, e: Event, how: Written)
    requires InOrder(s) && NoneLost(s) && !s.file.open && how != Nothing
    ensures InOrder(s.Write(e, how)) && NoneLost(s.Write(e, how))
  {
    hide Subsequence, Events;
    var s' := s.Write(e, how);
    var before, after := Events(s.file.lines), Events(s'.file.lines);
    EventsAfterWrite(s.file, e, how);
    SubsequenceExtends(before, s.log, e);
    if how == Fragment {
      assert after == before && s'.log == s.log;
    } else {
      assert after == before + [e] && s'.log == s.log + [e];
    }
  }

  lemma MergingWriteKeepsEvents(s: State, e: Event, how: Written)
    requires InOrder(s) && NoneLost(s) && s.file.open && how != Nothing
    ensures InOrder(s.Write(e, how)) && NoneLost(s.Write(e, how))
  {
    hide Subsequence;
    var s' := s.Write(e, how);
    var before, after := Events(s.file.lines), Events(s'.file.lines);
    EventsAfterWrite(s.file, e, how);
    var last := s.file.lines[|s.file.lines| - 1];
    assert before == after + if last.Entry? then [last.event] else [];
    if last.Entry? {
      SubsequenceDrops(before, s.log);
      assert before[..|before| - 1] == after;
    } else {
      assert before == after;
    }
    SubsequenceExtends(after, s.log, e);
  }

  lemma ReplaceKeepsEvents(s: State, t: Thread)
    requires Inv(s) && s.At(t).Prepared?
    ensures InOrder(Next(s, Replace(t))) && NoneLost(Next(s, Replace(t)))
  {
    hide Subsequence, Without, Events, Keep;
    var shipped := s.pcs[t].shipped;
    var before := Events(s.file.lines);
    KeepTakesOutShipped(s.file.lines, shipped);
    SubsequenceFilters(before, s.log, shipped);
    forall e | e in s.log && e in before
      ensures e in Without(before, shipped) || e.id in s.stored
    {
      WithoutMembers(before, shipped, e);
    }
  }

  lemma LocksStayHeld(s: State, a: Action)
    requires LocksHeld(s) && Enabled(s, a)
    ensures LocksHeld(Next(s, a))
  {
  }

  lemma ShippedStayStored(s: State, a: Action)
    requires ShippedAreStored(s) && Enabled(s, a)
    ensures ShippedAreStored(Next(s, a))
  {
  }

  lemma IdsStayFresh(s: State, a: Action)
    requires IdsAreFresh(s) && LocksHeld(s) && Enabled(s, a)
    ensures IdsAreFresh(Next(s, a))
  {
    hide Append, IdsAreFresh, Keep, Batch, Events, Ids;
    match a
    case Make(t, id, body) => MakeIsFresh(s, t, id, body);
    case AppendEvent(t) => LogGrowsFresh(s, Next(s, a), t);
    case FailAppend(t, _) => LogGrowsFresh(s, Next(s, a), t);
    case Crash(c, how) => CrashIsFresh(s, c, how);
    case _ => NothingNewIsFresh(s, Next(s, a));
  }

  lemma CrashIsFresh(s: State, c: nat, how: Written)
    requires IdsAreFresh(s) && LocksHeld(s) && how != Complete
    ensures IdsAreFresh(Next(s, Crash(c, how)))
  {
    hide Append, IdsAreFresh;
    var s' := Next(s, Crash(c, how));
    if c in s.locks && s.At(s.locks[c]).Appending? {
      LogGrowsFresh(s, s', s.locks[c]);
    } else {
      NothingNewIsFresh(s, s');
    }
  }

  lemma MakeIsFresh(s: State, t: Thread, id: Id, body: nat)
    requires IdsAreFresh(s) && Enabled(s, Make(t, id, body))
    ensures IdsAreFresh(Next(s, Make(t, id, body)))
  {
  }

  lemma NothingNewIsFresh(s: State, s': State)
    requires IdsAreFresh(s) && s'.used == s.used && s'.log == s.log
    requires forall u <- s'.pcs :: Pending(s'.pcs[u]).Some? ==>
      u in s.pcs && Pending(s'.pcs[u]) == Pending(s.pcs[u])
    ensures IdsAreFresh(s')
  {
  }

  /** t's pending event may have joined the log; it is no longer pending. */
  lemma LogGrowsFresh(s: State, s': State, t: Thread)
    requires IdsAreFresh(s) && t in s.pcs && Pending(s.pcs[t]).Some?
    requires s'.log == s.log || s'.log == s.log + [Pending(s.pcs[t]).value]
    requires s'.used == s.used
    requires forall u <- s'.pcs :: Pending(s'.pcs[u]).Some? ==> u != t && u in s.pcs && s'.pcs[u] == s.pcs[u]
    ensures IdsAreFresh(s')
  {
    forall e | e in s'.log ensures e in s.log || e == Pending(s.pcs[t]).value {}
  }

  /** Only the holder of a client's lock writes the file or prepares a rewrite. */
  lemma FileChangesUnderLock(s: State, a: Action)
    requires LocksHeld(s) && Enabled(s, a) && Next(s, a).file != s.file
    ensures
      var c := if a.Crash? then a.client else a.t.client;
      && c in s.locks && s.locks[c] in s.pcs && !s.pcs[s.locks[c]].Rewriting?
      && (s.locks[c] in Next(s, a).pcs ==> !Next(s, a).pcs[s.locks[c]].Prepared?)
  {
  }

  lemma PreparedBefore(s: State, a: Action, u: Thread)
    requires Enabled(s, a) && a != Prepare(u) && u in Next(s, a).pcs && Next(s, a).pcs[u].Prepared?
    ensures u in s.pcs && s.pcs[u] == Next(s, a).pcs[u]
  {
  }

  /** With one client, only the thread that prepared a rewrite can touch the file. */
  lemma RewritesStayFitting(s: State, a: Action, c: nat)
    requires LocksHeld(s) && RewritesFit(s) && OneClient(s, c) && Enabled(s, a) && ByClient(a, c)
    ensures RewritesFit(Next(s, a))
  {
    var s' := Next(s, a);
    forall u | u in s'.pcs && s'.pcs[u].Prepared?
      ensures s'.pcs[u].remaining == Keep(s'.file.lines, s'.pcs[u].shipped)
    {
      if a != Prepare(u) {
        PreparedBefore(s, a, u);
        if s'.file != s.file { FileChangesUnderLock(s, a); }
      }
    }
  }

  lemma OneClientStays(s: State, a: Action, c: nat)
    requires OneClient(s, c) && Enabled(s, a) && ByClient(a, c)
    ensures OneClient(Next(s, a), c)
  {
  }

  lemma EventsStay(s: State, a: Action)
    requires Inv(s) && Enabled(s, a)
    ensures InOrder(Next(s, a)) && NoneLost(Next(s, a))
  {
    match a
    case AppendEvent(t) => WriteKeepsEvents(s, s.At(t).event, Complete);
    case FailAppend(t, how) => WriteKeepsEvents(s, s.At(t).event, how);
    case Replace(t) => ReplaceKeepsEvents(s, t);
    case Crash(c, how) =>
      if c in s.locks && s.At(s.locks[c]).Appending? {
        WriteKeepsEvents(s, s.At(s.locks[c]).event, how);
      }
    case _ => assert Next(s, a).file == s.file && Next(s, a).log == s.log;
  }

  lemma StepKeepsInv(s: State, a: Action, c: nat)
    requires Inv(s) && OneClient(s, c) && Enabled(s, a) && ByClient(a, c)
    ensures Inv(Next(s, a)) && OneClient(Next(s, a), c)
  {
    LocksStayHeld(s, a);
    ShippedStayStored(s, a);
    IdsStayFresh(s, a);
    RewritesStayFitting(s, a, c);
    OneClientStays(s, a, c);
    EventsStay(s, a);
  }

  lemma {:induction false} RunKeepsInv(s: State, run: seq<Action>, c: nat)
    requires Inv(s) && OneClient(s, c) && IsRun(s, run) && forall a <- run :: ByClient(a, c)
    ensures Inv(Final(s, run))
    decreases |run|
  {
    if run != [] {
      StepKeepsInv(s, run[0], c);
      hide Inv, OneClient, ByClient;
      RunKeepsInv(Next(s, run[0]), run[1..], c);
    }
  }

  // ---------------------------------------------------------- spoiled events

  lemma {:induction false} SubsequenceMember(a: seq<Event>, b: seq<Event>, e: Event)
    requires Subsequence(a, b) && e in a
    ensures e in b
    decreases |b|
  {
    var init := b[..|b| - 1];
    assert b == init + [b[|b| - 1]] && a == a[..|a| - 1] + [a[|a| - 1]];
    if Subsequence(a, init) {
      SubsequenceMember(a, init, e);
    } else if e != a[|a| - 1] {
      SubsequenceMember(a[..|a| - 1], init, e);
    }
  }

  lemma {:induction false} SubsequenceIsDistinct(a: seq<Event>, b: seq<Event>)
    requires Subsequence(a, b) && DistinctIds(b)
    ensures DistinctIds(a)
    decreases |b|
  {
    if a != [] {
      var init, last := b[..|b| - 1], b[|b| - 1];
      assert b == init + [last];
      if a[|a| - 1] == last && Subsequence(a[..|a| - 1], init) {
        SubsequenceIsDistinct(a[..|a| - 1], init);
        forall e | e in a[..|a| - 1] ensures e.id != last.id {
          SubsequenceMember(a[..|a| - 1], init, e);
          var j :| 0 <= j < |init| && init[j] == e;
          assert b[j] == e;
        }
        LastIsNew(a);
      } else {
        SubsequenceIsDistinct(a, init);
      }
    }
  }

  lemma LastIsNew(a: seq<Event>)
    requires |a| > 0 && DistinctIds(a[..|a| - 1]) && forall e | e in a[..|a| - 1] :: e.id != a[|a| - 1].id
    ensures DistinctIds(a)
  {
    forall i, j | 0 <= i < j < |a| ensures a[i].id != a[j].id {
      assert a[..|a| - 1][i] == a[i];
      if j < |a| - 1 { assert a[..|a| - 1][j] == a[j]; }
    }
  }

  /** Spoiled ids are used up: none is pending and none is on a readable line. */
  ghost predicate SpoiledGone(s: State) {
    && (forall id <- s.spoiled :: id in s.used)
    && (forall t <- s.pcs :: Pending(s.pcs[t]).Some? ==> Pending(s.pcs[t]).value.id !in s.spoiled)
    && (forall e | e in Events(s.file.lines) :: e.id !in s.spoiled)
  }

  lemma NothingWrittenGone(s: State, s': State)
    requires SpoiledGone(s) && s'.spoiled == s.spoiled && s.used <= s'.used
    requires forall e | e in Events(s'.file.lines) :: e in Events(s.file.lines)
    requires forall u <- s'.pcs :: Pending(s'.pcs[u]).Some? ==>
      (u in s.pcs && Pending(s'.pcs[u]) == Pending(s.pcs[u])) || Pending(s'.pcs[u]).value.id !in s.used
    ensures SpoiledGone(s')
  {
    hide Events;
  }

  /** What a write by t leaves. */
  ghost predicate WrittenBy(s: State, s': State, t: Thread, how: Written) {
    && t in s.pcs && Pending(s.pcs[t]).Some?
    && s'.file == s.Write(Pending(s.pcs[t]).value, how).file
    && s'.spoiled == s.Write(Pending(s.pcs[t]).value, how).spoiled
    && s'.used == s.used
    && (forall u <- s'.pcs :: Pending(s'.pcs[u]).Some? ==> u != t && u in s.pcs && s'.pcs[u] == s.pcs[u])
  }

  lemma TailOfEvents(lines: seq<Line>)
    requires |lines| > 0
    ensures
      var last := lines[|lines| - 1];
      Events(lines) == Events(lines[..|lines| - 1]) + if last.Entry? then [last.event] else []
  {
    var init, last := lines[..|lines| - 1], lines[|lines| - 1];
    EventsConcat(init, [last]);
    assert init + [last] == lines;
    assert [last][..0] == [];
  }

  /** The event on the last line, if it holds one. */
  function TailEvents(f: QueueFile): seq<Event> {
    if |f.lines| > 0 && f.lines[|f.lines| - 1].Entry? then [f.lines[|f.lines| - 1].event] else []
  }

  lemma TailIds(f: QueueFile)
    requires |f.lines| > 0
    ensures
      var last := f.lines[|f.lines| - 1];
      Ids(TailEvents(f)) == if last.Entry? then {last.event.id} else {}
  {
  }

  /** The readable events after a write, and the ids it spoils. */
  lemma WriteLeaves(s: State, e: Event, how: Written)
    requires InOrder(s) && DistinctIds(s.log)
    ensures
      var before, w, tail := Events(s.file.lines), s.Write(e, how), TailEvents(s.file);
      if how != Nothing && s.file.open then
        && before == Events(w.file.lines) + tail && DistinctIds(before)
        && w.spoiled == s.spoiled + Ids(tail) + (if how == Complete then {e.id} else {})
      else
        && w.spoiled == s.spoiled
        && (forall x | x in Events(w.file.lines) :: x in before || x == e)
  {
    hide Subsequence, DistinctIds, Events, Ids;
    EventsAfterWrite(s.file, e, how);
    SubsequenceIsDistinct(Events(s.file.lines), s.log);
    if s.file.open {
      TailOfEvents(s.file.lines);
      TailIds(s.file);
    }
  }

  lemma ReadableIsLogged(s: State, x: Event)
    requires InOrder(s) && x in Events(s.file.lines)
    ensures x in s.log
  {
    hide Subsequence;
    SubsequenceMember(Events(s.file.lines), s.log, x);
  }

  lemma WriteKeepsGone(s: State, s': State, t: Thread, how: Written)
    requires SpoiledGone(s) && IdsAreFresh(s) && InOrder(s) && WrittenBy(s, s', t, how)
    ensures SpoiledGone(s')
  {
    var e := Pending(s.pcs[t]).value;
    var before, after := Events(s.file.lines), Events(s'.file.lines);
    WriteLeaves(s, e, how);
    forall x | x in before ensures x.id != e.id && x.id in s.used {
      ReadableIsLogged(s, x);
    }
    hide Events, Subsequence, Append;
    if how != Nothing && s.file.open {
      var tail := TailEvents(s.file);
      MergedGone(s, s', t, e, before, after, tail, how);
    } else {
      PlainGone(s, s', t, e, before, after);
    }
  }

  lemma PlainGone(s: State, s': State, t: Thread, e: Event, before: seq<Event>, after: seq<Event>)
    requires SpoiledGone(s) && t in s.pcs && Pending(s.pcs[t]) == Some(e)
    requires before == Events(s.file.lines) && after == Events(s'.file.lines)
    requires s'.spoiled == s.spoiled && s'.used == s.used && forall x | x in after :: x in before || x == e
    requires forall u <- s'.pcs :: Pending(s'.pcs[u]).Some? ==> u != t && u in s.pcs && s'.pcs[u] == s.pcs[u]
    ensures SpoiledGone(s')
  {
    hide Events;
  }

  lemma MergedGone(s: State, s': State, t: Thread, e: Event, before: seq<Event>, after: seq<Event>,
                   tail: seq<Event>, how: Written)
    requires SpoiledGone(s) && IdsAreFresh(s) && InOrder(s) && t in s.pcs && Pending(s.pcs[t]) == Some(e)
    requires before == Events(s.file.lines) && after == Events(s'.file.lines)
    requires before == after + tail && DistinctIds(before) && |tail| <= 1
    requires s'.spoiled == s.spoiled + Ids(tail) + (if how == Complete then {e.id} else {}) && s'.used == s.used
    requires forall u <- s'.pcs :: Pending(s'.pcs[u]).Some? ==> u != t && u in s.pcs && s'.pcs[u] == s.pcs[u]
    requires forall x | x in before :: x.id != e.id && x.id in s.used
    ensures SpoiledGone(s')
  {
    hide Events, Subsequence, InOrder;
    forall x | x in after ensures x.id !in s'.spoiled {
      assert x in before;
      if |tail| > 0 {
        var i :| 0 <= i < |after| && after[i] == x;
        assert before[i] == x && before[|after|] == tail[0];
      }
    }
    forall id | id in Ids(tail) ensures id in s.used
      && forall u <- s.pcs :: Pending(s.pcs[u]).Some? ==> Pending(s.pcs[u]).value.id != id
    {
      assert tail[0] in before;
      TailIsLogged(s, tail[0]);
    }
  }

  lemma TailIsLogged(s: State, x: Event)
    requires IdsAreFresh(s) && InOrder(s) && x in Events(s.file.lines)
    ensures forall u <- s.pcs :: Pending(s.pcs[u]).Some? ==> Pending(s.pcs[u]).value.id != x.id
  {
    hide Events, Subsequence;
    ReadableIsLogged(s, x);
  }

  lemma StepKeepsGone(s: State, a: Action)
    requires Inv(s) && SpoiledGone(s) && Enabled(s, a)
    ensures SpoiledGone(Next(s, a))
  {
    hide Append, IdsAreFresh, Events, Subsequence, SpoiledGone;
    match a
    case AppendEvent(t) => WriteKeepsGone(s, Next(s, a), t, Complete);
    case FailAppend(t, how) => WriteKeepsGone(s, Next(s, a), t, how);
    case Crash(c, how) => CrashKeepsGone(s, c, how);
    case Replace(t) => ReplaceKeepsGone(s, t);
    case _ => NothingWrittenGone(s, Next(s, a));
  }

  lemma CrashKeepsGone(s: State, c: nat, how: Written)
    requires Inv(s) && SpoiledGone(s) && how != Complete
    ensures SpoiledGone(Next(s, Crash(c, how)))
  {
    hide Append, IdsAreFresh, Events, Subsequence, SpoiledGone;
    var s' := Next(s, Crash(c, how));
    if c in s.locks && s.At(s.locks[c]).Appending? {
      WriteKeepsGone(s, s', s.locks[c], how);
    } else {
      NothingWrittenGone(s, s');
    }
  }

  lemma ReplaceKeepsGone(s: State, t: Thread)
    requires Inv(s) && SpoiledGone(s) && s.At(t).Prepared?
    ensures SpoiledGone(Next(s, Replace(t)))
  {
    hide Append, IdsAreFresh, Events, Subsequence, SpoiledGone, Without, Keep;
    var shipped := s.pcs[t].shipped;
    KeepTakesOutShipped(s.file.lines, shipped);
    forall e | e in Without(Events(s.file.lines), shipped) ensures e in Events(s.file.lines) {
      WithoutMembers(Events(s.file.lines), shipped, e);
    }
    NothingWrittenGone(s, Next(s, Replace(t)));
  }

  lemma {:induction false} RunKeepsGone(s: State, run: seq<Action>, c: nat)
    requires Inv(s) && SpoiledGone(s) && OneClient(s, c) && IsRun(s, run) && forall a <- run :: ByClient(a, c)
    ensures SpoiledGone(Final(s, run))
    decreases |run|
  {
    if run != [] {
      StepKeepsInv(s, run[0], c);
      StepKeepsGone(s, run[0]);
      hide Inv, OneClient, ByClient, SpoiledGone;
      RunKeepsGone(Next(s, run[0]), run[1..], c);
    }
  }

  // ------------------------------------------------------------ main results

  /** One client, any interleaving of its threads, lost responses, failed writes
      and crashes: every event written whole is still readable in the queue, or the
      plane has stored it, or its line was spoiled; and the readable events stand
      in the order they were written. */
  lemma NoEventLost(run: seq<Action>, c: nat)
    requires IsRun(INIT, run) && forall a <- run :: ByClient(a, c)
    ensures
      var s := Final(INIT, run);
      && (forall e <- s.log :: e in Events(s.file.lines) || e.id in s.stored || e.id in s.spoiled)
      && Subsequence(Events(s.file.lines), s.log) && DistinctIds(s.log)
  {
    RunKeepsInv(INIT, run, c);
  }

  lemma ReplaceTakesShipped(s: State, t: Thread)
    requires RewritesFit(s) && ShippedAreStored(s) && s.At(t).Prepared?
    ensures
      var p, f := s.At(t), Next(s, Replace(t)).file;
      && Events(f.lines) == Without(Events(s.file.lines), p.shipped) && !f.open && p.shipped <= s.stored
  {
    hide Without, Events, Keep;
    KeepTakesOutShipped(s.file.lines, s.At(t).shipped);
  }

  /** With one client, replacing the file takes out exactly the events the plane
      acknowledged, whatever was appended since they were read, and closes its last line. */
  lemma AcknowledgedLeave(run: seq<Action>, c: nat, t: Thread, e: Event)
    requires IsRun(INIT, run) && (forall a <- run :: ByClient(a, c)) && Final(INIT, run).At(t).Prepared?
    ensures
      var s := Final(INIT, run);
      var f := Next(s, Replace(t)).file;
      && (e in Events(f.lines) <==> e in Events(s.file.lines) && e.id !in s.At(t).shipped)
      && s.At(t).shipped <= s.stored && !f.open
  {
    var s := Final(INIT, run);
    RunKeepsInv(INIT, run, c);
    assert RewritesFit(s) && ShippedAreStored(s);
    hide *;
    ReplaceTakesShipped(s, t);
    WithoutMembers(Events(s.file.lines), s.At(t).shipped, e);
  }

  /** With one client an event written whole is lost if and only if its line was spoiled
      before the plane stored it. */
  lemma LostExactlyWhenSpoiled(run: seq<Action>, c: nat)
    requires IsRun(INIT, run) && forall a <- run :: ByClient(a, c)
    ensures
      var s := Final(INIT, run);
      forall e <- s.log :: Loses(s, e) <==> e.id in s.spoiled && e.id !in s.stored
  {
    NoEventLost(run, c);
    NothingSpoiledYet();
    RunKeepsGone(INIT, run, c);
    hide Subsequence, Events, DistinctIds;
  }

  lemma NothingSpoiledYet()
    ensures Inv(INIT) && SpoiledGone(INIT)
  {
  }

  // ----------------------------------------------------- what spoils a line

  /** The envelope a step puts into the file, whole or cut, if it does. */
  function Puts(s: State, a: Action): Option<(Event, Written)>
    requires Enabled(s, a)
  {
    match a
    case AppendEvent(t) => Some((s.At(t).event, Complete))
    case FailAppend(t, how) => if how == Nothing then None else Some((s.At(t).event, how))
    case Crash(c, how) =>
      if c in s.locks && s.At(s.locks[c]).Appending? && how != Nothing then Some((s.At(s.locks[c]).event, how)) else None
    case _ => None
  }

  /** An append onto a line left open spoils the event on that line, and its own. */
  function Spoils(s: State, a: Action): set<Id>
    requires Enabled(s, a)
  {
    if Puts(s, a).None? || !s.file.open || |s.file.lines| == 0 then {}
    else
      var last := s.file.lines[|s.file.lines| - 1];
      (if last.Entry? then {last.event.id} else {}) + (if Puts(s, a).value.1 == Complete then {Puts(s, a).value.0.id} else {})
  }

  function StateAt(s: State, run: seq<Action>, k: nat): State
    requires IsRun(s, run) && k <= |run|
    decreases k
  {
    if k == 0 then s else StateAt(Next(s, run[0]), run[1..], k - 1)
  }

  lemma {:induction false} StepAt(s: State, run: seq<Action>, k: nat)
    requires IsRun(s, run) && k < |run|
    ensures Enabled(StateAt(s, run, k), run[k]) && StateAt(s, run, k + 1) == Next(StateAt(s, run, k), run[k])
    decreases k
  {
    hide Next, Enabled;
    if k > 0 { StepAt(Next(s, run[0]), run[1..], k - 1); }
  }

  lemma {:induction false} LastState(s: State, run: seq<Action>)
    requires IsRun(s, run)
    ensures StateAt(s, run, |run|) == Final(s, run)
    decreases |run|
  {
    hide Next, Enabled;
    if run != [] { LastState(Next(s, run[0]), run[1..]); }
  }

  lemma SpoiledStep(s: State, a: Action)
    requires Enabled(s, a)
    ensures Next(s, a).spoiled == s.spoiled + Spoils(s, a)
  {
    hide Append, Keep, Batch, Events;
  }

  ghost predicate SpoiledAt(s: State, run: seq<Action>, k: nat, id: Id)
    requires IsRun(s, run)
  {
    k < |run| && Enabled(StateAt(s, run, k), run[k]) && id in Spoils(StateAt(s, run, k), run[k])
  }

  lemma {:induction false} SpoiledUpTo(s: State, run: seq<Action>, n: nat, id: Id)
    requires IsRun(s, run) && n <= |run|
    ensures id in StateAt(s, run, n).spoiled <==> id in s.spoiled || exists k | 0 <= k < n :: SpoiledAt(s, run, k, id)
    decreases n
  {
    hide Next, Enabled, Spoils, StateAt;
    if n == 0 {
      FirstState(s, run);
    } else {
      SpoiledUpTo(s, run, n - 1, id);
      StepAt(s, run, n - 1);
      SpoiledStep(StateAt(s, run, n - 1), run[n - 1]);
      assert SpoiledAt(s, run, n - 1, id) <==> id in Spoils(StateAt(s, run, n - 1), run[n - 1]);
    }
  }

  lemma FirstState(s: State, run: seq<Action>)
    requires IsRun(s, run)
    ensures StateAt(s, run, 0) == s
  {
  }

  /** A step of the run that changes what the last line is. */
  ghost predicate WritesAt(s: State, run: seq<Action>, k: nat)
    requires IsRun(s, run)
  {
    && k < |run| && Enabled(StateAt(s, run, k), run[k])
    && (run[k].Replace? || Puts(StateAt(s, run, k), run[k]).Some?)
  }

  ghost predicate LastWriteAt(s: State, run: seq<Action>, n: nat, k: nat)
    requires IsRun(s, run)
  {
    k < n && WritesAt(s, run, k) && forall j | k < j < n :: !WritesAt(s, run, j)
  }

  lemma OpenStep(s: State, a: Action)
    requires Enabled(s, a)
    ensures Next(s, a).file.open ==
      if Puts(s, a).Some? then Puts(s, a).value.1 != Complete else if a.Replace? then false else s.file.open
    ensures Puts(s, a).Some? ==> (Puts(s, a).value.1 != Complete <==> Cuts(a))
  {
    hide Keep, Batch, Events;
  }

  lemma {:induction false} OpenUpTo(run: seq<Action>, n: nat)
    requires IsRun(INIT, run) && n <= |run|
    ensures StateAt(INIT, run, n).file.open <==> exists k | 0 <= k < n :: LastWriteAt(INIT, run, n, k) && Cuts(run[k])
    decreases n
  {
    hide Next, Enabled, StateAt, Puts, Cuts;
    if n == 0 {
      FirstState(INIT, run);
    } else {
      OpenUpTo(run, n - 1);
      StepAt(INIT, run, n - 1);
      OpenStep(StateAt(INIT, run, n - 1), run[n - 1]);
      if WritesAt(INIT, run, n - 1) {
        OnlyLastWrites(run, n);
        ReplaceCutsNothing(run[n - 1]);
      } else {
        forall k | 0 <= k < n - 1
          ensures LastWriteAt(INIT, run, n, k) <==> LastWriteAt(INIT, run, n - 1, k)
        {}
      }
    }
  }

  lemma ReplaceCutsNothing(a: Action)
    ensures a.Replace? ==> !Cuts(a)
  {
  }

  lemma OnlyLastWrites(run: seq<Action>, n: nat)
    requires IsRun(INIT, run) && 0 < n <= |run| && WritesAt(INIT, run, n - 1)
    ensures forall k | 0 <= k < n :: LastWriteAt(INIT, run, n, k) <==> k == n - 1
  {
    hide WritesAt;
  }

  /** Spoiling in terms of the run: an id is spoiled if and only if some step appends,
      whole or cut, onto a last line left open; and a line is open if and only if the
      last step before that wrote the file was a write cut part way. */
  lemma SpoiledExactlyWhen(run: seq<Action>, id: Id)
    requires IsRun(INIT, run)
    ensures id in Final(INIT, run).spoiled <==> exists k | 0 <= k < |run| :: SpoiledAt(INIT, run, k, id)
    ensures forall n: nat | n <= |run| ::
      StateAt(INIT, run, n).file.open <==> exists k | 0 <= k < n :: LastWriteAt(INIT, run, n, k) && Cuts(run[k])
  {
    SpoiledUpTo(INIT, run, |run|, id);
    LastState(INIT, run);
    forall n: nat | n <= |run|
      ensures StateAt(INIT, run, n).file.open <==> exists k | 0 <= k < n :: LastWriteAt(INIT, run, n, k) && Cuts(run[k])
    {
      OpenUpTo(run, n);
    }
  }

  /** A write that stops part way. */
  predicate Cuts(a: Action) {
    (a.FailAppend? || a.Crash?) && a.how != Nothing
  }

  /** Lines are spoiled only after a write was cut: without one nothing is. A crash
      before or after the atomic replace does no harm. */
  lemma {:induction false} UncutRunSpoilsNothing(s: State, run: seq<Action>)
    requires !s.file.open && s.spoiled == {} && IsRun(s, run) && forall a <- run :: !Cuts(a)
    ensures !Final(s, run).file.open && Final(s, run).spoiled == {}
    decreases |run|
  {
    if run != [] {
      assert !Cuts(run[0]);
      UncutRunSpoilsNothing(Next(s, run[0]), run[1..]);
    }
  }

  /** So with one client and no cut write no event is lost. */
  lemma UncutRunLosesNothing(run: seq<Action>, c: nat)
    requires IsRun(INIT, run) && forall a <- run :: ByClient(a, c) && !Cuts(a)
    ensures
      var s := Final(INIT, run);
      forall e <- s.log :: e in Events(s.file.lines) || e.id in s.stored
  {
    NoEventLost(run, c);
    UncutRunSpoilsNothing(INIT, run);
  }

  ghost predicate Loses(s: State, e: Event) {
    e in s.log && e !in Events(s.file.lines) && e.id !in s.stored
  }

  /** A run whose last state loses e. */
  ghost predicate Losing(s: State, run: seq<Action>, e: Event) {
    IsRun(s, run) && Loses(Final(s, run), e)
  }

  lemma Before(s: State, a: Action, s': State, rest: seq<Action>, e: Event) returns (run: seq<Action>)
    requires Enabled(s, a) && Next(s, a) == s' && Losing(s', rest, e)
    ensures run == [a] + rest && Losing(s, run, e)
  {
    run := [a] + rest;
    assert run[1..] == rest;
  }

  /** After a crash inside an append, the next envelope merges with the fragment
      and is lost, although its own write succeeded. */
  lemma CutWriteLosesNextEvent(t: Thread, u: Thread, id: Id, id': Id, body: nat)
    returns (run: seq<Action>)
    requires t.client == u.client && id != id'
    ensures Losing(INIT, run, Event(id', body)) && forall a <- run :: ByClient(a, t.client)
  {
    var c, e, e' := t.client, Event(id, body), Event(id', body);
    var clean, torn := QueueFile([], false), QueueFile([Junk], true);
    var s1 := State(clean, map[], map[t := Made(e)], {}, {id}, [], {});
    var s2 := State(clean, map[c := t], map[t := Appending(e)], {}, {id}, [], {});
    var s3 := State(torn, map[], map[], {}, {id}, [], {});
    run := LossAfterFragment(u, id, id', body);
    assert Next(s2, Crash(c, Fragment)) == s3;
    run := Before(s2, Crash(c, Fragment), s3, run, e');
    assert Next(s1, LockToAppend(t)) == s2;
    run := Before(s1, LockToAppend(t), s2, run, e');
    assert Next(INIT, Make(t, id, body)) == s1;
    run := Before(INIT, Make(t, id, body), s1, run, e');
  }

  lemma LossAfterFragment(u: Thread, id: Id, id': Id, body: nat) returns (run: seq<Action>)
    requires id != id'
    ensures Losing(State(QueueFile([Junk], true), map[], map[], {}, {id}, [], {}), run, Event(id', body))
    ensures forall a <- run :: ByClient(a, u.client)
  {
    var e' := Event(id', body);
    var torn := QueueFile([Junk], true);
    var s3 := State(torn, map[], map[], {}, {id}, [], {});
    var s4 := State(torn, map[], map[u := Made(e')], {}, {id, id'}, [], {});
    var s5 := State(torn, map[u.client := u], map[u := Appending(e')], {}, {id, id'}, [], {});
    var s6 := State(QueueFile([Junk], false), map[u.client := u], map[u := Appended], {}, {id, id'}, [e'], {id'});
    assert Events([Junk]) == [];
    run := [];
    assert Losing(s6, run, e');
    assert Next(s5, AppendEvent(u)) == s6;
    run := Before(s5, AppendEvent(u), s6, run, e');
    assert Next(s4, LockToAppend(u)) == s5;
    run := Before(s4, LockToAppend(u), s5, run, e');
    assert Next(s3, Make(u, id', body)) == s4;
    run := Before(s3, Make(u, id', body), s4, run, e');
  }

  /** A rewrite prepared by t while u, of another client, is about to append d. */
  function Interfering(t: Thread, u: Thread, e: Event, d: Event, p: Pc): State {
    State(QueueFile([Entry(e)], false),
          if Holds(p) then map[t.client := t, u.client := u] else map[t.client := t],
          map[t := Prepared({e.id}, []), u := p], {e.id}, {e.id, d.id}, [e], {})
  }

  lemma LossOnReplace(t: Thread, u: Thread, e: Event, d: Event) returns (run: seq<Action>)
    requires t.client != u.client && e.id != d.id
    ensures Losing(Interfering(t, u, e, d, Appending(d)), run, d) && forall a <- run :: !Cuts(a)
  {
    var s := Interfering(t, u, e, d, Appending(d));
    var s1 := s.(file := QueueFile([Entry(e), Entry(d)], false), log := [e, d],
                 pcs := map[t := Prepared({e.id}, []), u := Appended]);
    var s2 := s1.(file := QueueFile([], false), pcs := map[t := Replaced, u := Appended]);
    run := [];
    assert Losing(s2, run, d);
    assert Next(s1, Replace(t)) == s2;
    run := Before(s1, Replace(t), s2, run, d);
    assert Next(s, AppendEvent(u)) == s1;
    run := Before(s, AppendEvent(u), s1, run, d);
  }

  lemma LossDuringRewrite(t: Thread, u: Thread, e: Event, d: Event) returns (run: seq<Action>)
    requires t.client != u.client && e.id != d.id
    ensures Losing(Shipping(t, e, Prepared({e.id}, [])), run, d) && forall a <- run :: !Cuts(a)
  {
    var s, s1 := Interfering(t, u, e, d, Appending(d)), Interfering(t, u, e, d, Made(d));
    run := LossOnReplace(t, u, e, d);
    assert Next(s1, LockToAppend(u)) == s;
    run := Before(s1, LockToAppend(u), s, run, d);
    var s0 := Shipping(t, e, Prepared({e.id}, []));
    assert Next(s0, Make(u, d.id, d.body)) == s1;
    run := Before(s0, Make(u, d.id, d.body), s1, run, d);
  }

  /** One event queued and stored; thread t of its client is at p. */
  function Shipping(t: Thread, e: Event, p: Pc): State {
    State(QueueFile([Entry(e)], false), if Holds(p) then map[t.client := t] else map[], map[t := p],
          {e.id}, {e.id}, [e], {})
  }

  /** With two clients on one queue directory the locks do not exclude each other:
      an event appended between a rewrite's read and its replace is lost, with no
      crash and no failed write. NoEventLost needs its single client. */
  lemma TwoClientsLoseAnEvent(t: Thread, u: Thread, id: Id, id': Id, body: nat)
    returns (run: seq<Action>)
    requires t.client != u.client && id != id'
    ensures Losing(INIT, run, Event(id', body)) && forall a <- run :: !Cuts(a)
  {
    var e, d := Event(id, body), Event(id', body);
    run := LossDuringRewrite(t, u, e, d);
    run := RewriteReached(t, e, d, run);
    run := AnswerReached(t, e, d, run);
    run := PostReached(t, e, d, run);
    run := BatchReached(t, e, d, run);
    run := ReadReached(t, e, d, run);
    run := QueuedReached(t, e, d, run);
  }

  lemma RewriteReached(t: Thread, e: Event, d: Event, rest: seq<Action>) returns (run: seq<Action>)
    requires Losing(Shipping(t, e, Prepared({e.id}, [])), rest, d) && forall a <- rest :: !Cuts(a)
    ensures Losing(Shipping(t, e, Rewriting({e.id})), run, d) && forall a <- run :: !Cuts(a)
  {
    var s := Shipping(t, e, Rewriting({e.id}));
    assert Keep([Entry(e)], {e.id}) == [];
    assert Next(s, Prepare(t)) == Shipping(t, e, Prepared({e.id}, []));
    run := Before(s, Prepare(t), Shipping(t, e, Prepared({e.id}, [])), rest, d);
  }

  lemma AnswerReached(t: Thread, e: Event, d: Event, rest: seq<Action>) returns (run: seq<Action>)
    requires Losing(Shipping(t, e, Rewriting({e.id})), rest, d) && forall a <- rest :: !Cuts(a)
    ensures Losing(Shipping(t, e, Posting([e])), run, d) && forall a <- run :: !Cuts(a)
  {
    var s, s1 := Shipping(t, e, Posting([e])), Shipping(t, e, Answered({e.id}));
    assert Next(s1, LockToRewrite(t)) == Shipping(t, e, Rewriting({e.id}));
    run := Before(s1, LockToRewrite(t), Shipping(t, e, Rewriting({e.id})), rest, d);
    assert Next(s, Answer(t, {e.id})) == s1;
    run := Before(s, Answer(t, {e.id}), s1, run, d);
  }

  lemma OneEventBatch(e: Event)
    ensures Events([Entry(e)]) == [e] && Batch([e]) == [e] && Ids([e]) == {e.id}
  {
    assert [Entry(e)][..0] == [];
  }

  lemma PostReached(t: Thread, e: Event, d: Event, rest: seq<Action>) returns (run: seq<Action>)
    requires Losing(Shipping(t, e, Posting([e])), rest, d) && forall a <- rest :: !Cuts(a)
    ensures Losing(Shipping(t, e, Posting([e])).(stored := {}), run, d) && forall a <- run :: !Cuts(a)
  {
    var s := Shipping(t, e, Posting([e])).(stored := {});
    OneEventBatch(e);
    assert Next(s, Deliver(t, {e.id})) == Shipping(t, e, Posting([e]));
    run := Before(s, Deliver(t, {e.id}), Shipping(t, e, Posting([e])), rest, d);
  }

  lemma BatchReached(t: Thread, e: Event, d: Event, rest: seq<Action>) returns (run: seq<Action>)
    requires Losing(Shipping(t, e, Posting([e])).(stored := {}), rest, d) && forall a <- rest :: !Cuts(a)
    ensures Losing(Shipping(t, e, HasRead([Entry(e)])).(stored := {}), run, d) && forall a <- run :: !Cuts(a)
  {
    var s, s' := Shipping(t, e, HasRead([Entry(e)])).(stored := {}), Shipping(t, e, Posting([e])).(stored := {});
    OneEventBatch(e);
    assert Next(s, UnlockBatch(t)) == s';
    run := Before(s, UnlockBatch(t), s', rest, d);
  }

  lemma ReadReached(t: Thread, e: Event, d: Event, rest: seq<Action>) returns (run: seq<Action>)
    requires Losing(Shipping(t, e, HasRead([Entry(e)])).(stored := {}), rest, d) && forall a <- rest :: !Cuts(a)
    ensures Losing(Shipping(t, e, Idle).(stored := {}), run, d) && forall a <- run :: !Cuts(a)
  {
    var s0, s1 := Shipping(t, e, Idle).(stored := {}), Shipping(t, e, Reading).(stored := {});
    var s2 := Shipping(t, e, HasRead([Entry(e)])).(stored := {});
    assert Next(s1, ReadQueue(t)) == s2;
    run := Before(s1, ReadQueue(t), s2, rest, d);
    assert Next(s0, LockToRead(t)) == s1;
    run := Before(s0, LockToRead(t), s1, run, d);
  }

  lemma QueuedReached(t: Thread, e: Event, d: Event, rest: seq<Action>) returns (run: seq<Action>)
    requires Losing(Shipping(t, e, Idle).(stored := {}), rest, d) && forall a <- rest :: !Cuts(a)
    ensures Losing(INIT, run, d) && forall a <- run :: !Cuts(a)
  {
    var c := t.client;
    var s1 := State(QueueFile([], false), map[], map[t := Made(e)], {}, {e.id}, [], {});
    var s2 := State(QueueFile([], false), map[c := t], map[t := Appending(e)], {}, {e.id}, [], {});
    var s3 := State(QueueFile([Entry(e)], false), map[c := t], map[t := Appended], {}, {e.id}, [e], {});
    var s4 := Shipping(t, e, Idle).(stored := {});
    assert Next(s3, Release(t)) == s4;
    run := Before(s3, Release(t), s4, rest, d);
    assert Next(s2, AppendEvent(t)) == s3;
    run := Before(s2, AppendEvent(t), s3, run, d);
    assert Next(s1, LockToAppend(t)) == s2;
    run := Before(s1, LockToAppend(t), s2, run, d);
    assert Next(INIT, Make(t, e.id, e.body)) == s1;
    run := Before(INIT, Make(t, e.id, e.body), s1, run, d);
  }
}
