/** The telemetry queue file as a sequence of lines, and what reading a batch and
    rewriting the file do to it. Parsing a line is abstract: a line either holds an
    event with a string id or it is junk that every reader skips. */
module EventQueue {
  import opened Prelude

  type Id = nat  // event ids are random UUIDs

  datatype Event = Event(id: Id, body: nat)

  datatype Line = Entry(event: Event) | Junk

  const BATCH_LIMIT := 500

  function Events(lines: seq<Line>): seq<Event> {
    if lines == [] then []
    else
      var last := lines[|lines| - 1];
      Events(lines[..|lines| - 1]) + if last.Entry? then [last.event] else []
  }

  /** The lines left when the shipped events are taken out. */
  function Keep(lines: seq<Line>, shipped: set<Id>): seq<Line> {
    if lines == [] then []
    else
      var last := lines[|lines| - 1];
      Keep(lines[..|lines| - 1], shipped)
        + if last.Entry? && last.event.id in shipped then [] else [last]
  }

  function Without(es: seq<Event>, shipped: set<Id>): seq<Event> {
    if es == [] then []
    else
      var last := es[|es| - 1];
      Without(es[..|es| - 1], shipped) + if last.id in shipped then [] else [last]
  }

  function Batch(es: seq<Event>): seq<Event> {
    es[..MinInt(BATCH_LIMIT, |es|)]
  }

  function Ids(es: seq<Event>): set<Id> {
    set e <- es :: e.id
  }

  method EventBatch(lines: seq<Line>) returns (events: seq<Event>)
    ensures events == Batch(Events(lines))
  {
    events := [];
    var i := 0;
    while i < |lines|
      invariant 0 <= i <= |lines|
      invariant events == Events(lines[..i]) && |events| < BATCH_LIMIT
    {
      assert lines[..i + 1][..i] == lines[..i];
      var line := lines[i];
      i := i + 1;
      if line.Entry? {
        events := events + [line.event];
        if |events| >= BATCH_LIMIT { break; }
      }
    }
    assert lines[..|lines|] == lines;
    EventsPrefix(lines, i);
  }

  method Remaining(lines: seq<Line>, shipped: set<Id>) returns (kept: seq<Line>)
    ensures kept == Keep(lines, shipped)
  {
    kept := [];
    for i := 0 to |lines|
      invariant kept == Keep(lines[..i], shipped)
    {
      assert lines[..i + 1][..i] == lines[..i];
      if !(lines[i].Entry? && lines[i].event.id in shipped) {
        kept := kept + [lines[i]];
      }
    }
    assert lines[..|lines|] == lines;
  }

  lemma {:induction false} EventsPrefix(lines: seq<Line>, i: nat)
    requires i <= |lines|
    ensures Events(lines[..i]) <= Events(lines)
  {
    if i == |lines| {
      assert lines[..i] == lines;
    } else {
      EventsPrefix(lines[..|lines| - 1], i);
      assert lines[..|lines| - 1][..i] == lines[..i];
    }
  }

  /** Rewriting takes out exactly the shipped events and no junk. */
  lemma {:induction false} KeepTakesOutShipped(lines: seq<Line>, shipped: set<Id>)
    ensures Events(Keep(lines, shipped)) == Without(Events(lines), shipped)
  {
    if lines != [] {
      var init, last := lines[..|lines| - 1], lines[|lines| - 1];
      KeepTakesOutShipped(init, shipped);
      var tail := if last.Entry? && last.event.id in shipped then [] else [last];
      EventsConcat(Keep(init, shipped), tail);
      WithoutConcat(Events(init), if last.Entry? then [last.event] else [], shipped);
    }
  }

  /** Every line stays but those of shipped events, and in order: rewriting goes line by
      line, and a line that holds no event is kept. */
  lemma {:induction false} KeepGoesByLine(before: seq<Line>, line: Line, after: seq<Line>, shipped: set<Id>)
    ensures Keep(before + [line] + after, shipped) == Keep(before, shipped) + Keep([line], shipped) + Keep(after, shipped)
    ensures Keep([line], shipped) == (match line
                                      case Entry(e) => if e.id in shipped then [] else [line]
                                      case Junk => [Junk])
  {
    KeepConcat(before, [line], shipped);
    KeepConcat(before + [line], after, shipped);
    assert [line][..0] == [];
  }

  lemma {:induction false} KeepConcat(a: seq<Line>, b: seq<Line>, shipped: set<Id>)
    ensures Keep(a + b, shipped) == Keep(a, shipped) + Keep(b, shipped)
  {
    if b == [] {
      assert a + b == a;
    } else {
      KeepConcat(a, b[..|b| - 1], shipped);
      assert (a + b)[..|a + b| - 1] == a + b[..|b| - 1];
    }
  }

  /** A batch is the first 500 events, or all of them. */
  lemma BatchDecided(es: seq<Event>)
    ensures Batch(es) <= es && |Batch(es)| == MinInt(500, |es|)
  {
  }

  lemma EventsConcat(a: seq<Line>, b: seq<Line>)
    requires |b| <= 1
    ensures Events(a + b) == Events(a) + Events(b)
  {
    if b == [] {
      assert a + b == a;
    } else {
      assert (a + b)[..|a + b| - 1] == a;
    }
  }

  lemma {:induction false} WithoutConcat(a: seq<Event>, b: seq<Event>, shipped: set<Id>)
    ensures Without(a + b, shipped) == Without(a, shipped) + Without(b, shipped)
  {
    if b == [] {
      assert a + b == a;
    } else {
      WithoutConcat(a, b[..|b| - 1], shipped);
      assert (a + b)[..|a + b| - 1] == a + b[..|b| - 1];
    }
  }

  lemma {:induction false} WithoutMembers(es: seq<Event>, shipped: set<Id>, e: Event)
    ensures e in Without(es, shipped) <==> e in es && e.id !in shipped
  {
    if es != [] {
      WithoutMembers(es[..|es| - 1], shipped, e);
      assert es == es[..|es| - 1] + [es[|es| - 1]];
    }
  }

  // -------------------------------------------------- draining the queue

  ghost predicate DistinctIds(es: seq<Event>) {
    forall i, j | 0 <= i < j < |es| :: es[i].id != es[j].id
  }

  /** One ship against a plane that accepts exactly the ids in `accepted`. */
  function Ship(es: seq<Event>, accepted: set<Id>): seq<Event> {
    Without(es, Ids(Batch(es)) * accepted)
  }

  function Ships(es: seq<Event>, accepted: set<Id>, rounds: nat): seq<Event>
    decreases rounds
  {
    if rounds == 0 then es else Ships(Ship(es, accepted), accepted, rounds - 1)
  }

  function Rejected(es: seq<Event>, accepted: set<Id>): nat {
    if es == [] then 0
    else Rejected(es[..|es| - 1], accepted) + if es[|es| - 1].id in accepted then 0 else 1
  }

  lemma {:induction false} WithoutIsSmaller(es: seq<Event>, shipped: set<Id>, e: Event)
    requires e in es && e.id in shipped
    ensures |Without(es, shipped)| < |es|
  {
    var init := es[..|es| - 1];
    assert es == init + [es[|es| - 1]];
    WithoutAtMost(init, shipped);
    if es[|es| - 1].id !in shipped {
      WithoutIsSmaller(init, shipped, e);
    }
  }

  lemma {:induction false} WithoutAtMost(es: seq<Event>, shipped: set<Id>)
    ensures |Without(es, shipped)| <= |es|
  {
    if es != [] { WithoutAtMost(es[..|es| - 1], shipped); }
  }

  lemma {:induction false} WithoutKeepsDistinct(es: seq<Event>, shipped: set<Id>)
    requires DistinctIds(es)
    ensures DistinctIds(Without(es, shipped))
  {
    if es != [] {
      var init, last := es[..|es| - 1], es[|es| - 1];
      WithoutKeepsDistinct(init, shipped);
      forall e | e in Without(init, shipped) ensures e.id != last.id {
        WithoutMembers(init, shipped, e);
        var i :| 0 <= i < |init| && init[i] == e;
        assert es[i] == e;
      }
    }
  }

  lemma {:induction false} RejectedStay(es: seq<Event>, shipped: set<Id>, accepted: set<Id>)
    requires shipped <= accepted
    ensures Rejected(Without(es, shipped), accepted) == Rejected(es, accepted)
  {
    if es != [] {
      var init, last := es[..|es| - 1], es[|es| - 1];
      RejectedStay(init, shipped, accepted);
      var kept := Without(init, shipped);
      if last.id in shipped {
        assert Without(es, shipped) == kept;
      } else {
        assert Without(es, shipped) == kept + [last] && (kept + [last])[..|kept|] == kept;
      }
    }
  }

  lemma {:induction false} RejectedAtMost(es: seq<Event>, accepted: set<Id>)
    ensures Rejected(es, accepted) <= |es|
    ensures Rejected(es, accepted) < |es| ==> exists e :: e in es && e.id in accepted
  {
    if es != [] {
      RejectedAtMost(es[..|es| - 1], accepted);
      assert es[|es| - 1] in es;
      assert forall e <- es[..|es| - 1] :: e in es;
    }
  }

  lemma {:induction false} RejectedPrefix(es: seq<Event>, accepted: set<Id>, n: nat)
    requires n <= |es|
    ensures Rejected(es[..n], accepted) <= Rejected(es, accepted)
  {
    if n == |es| {
      assert es[..n] == es;
    } else {
      RejectedPrefix(es[..|es| - 1], accepted, n);
      assert es[..|es| - 1][..n] == es[..n];
    }
  }

  /** An accepted event within the first batch leaves with the next ship. */
  lemma NearEventLeaves(es: seq<Event>, i: nat, accepted: set<Id>)
    requires i < |es| && i < BATCH_LIMIT && es[i].id in accepted
    ensures es[i] !in Ship(es, accepted)
  {
    assert es[i] == Batch(es)[i];
    WithoutMembers(es, Ids(Batch(es)) * accepted, es[i]);
  }

  /** An event behind the first batch stays; of what stands before it only rejected
      events are sure to remain, and something leaves unless all of the batch is rejected. */
  lemma FarEventStays(before: seq<Event>, e: Event, after: seq<Event>, accepted: set<Id>)
    returns (before': seq<Event>, after': seq<Event>)
    requires DistinctIds(before + [e] + after) && |before| >= BATCH_LIMIT
    ensures Ship(before + [e] + after, accepted) == before' + [e] + after'
    ensures DistinctIds(before' + [e] + after')
    ensures Rejected(before', accepted) == Rejected(before, accepted)
    ensures |before'| <= |before|
    ensures Rejected(before, accepted) < BATCH_LIMIT ==> |before'| < |before|
  {
    var es := before + [e] + after;
    var batch := Batch(es);
    var shipped := Ids(batch) * accepted;
    before', after' := Without(before, shipped), Without(after, shipped);
    assert es[|before|] == e;
    assert e.id !in Ids(batch);
    assert Without([e], shipped) == [e];
    WithoutConcat(before + [e], after, shipped);
    WithoutConcat(before, [e], shipped);
    WithoutKeepsDistinct(es, shipped);
    RejectedStay(before, shipped, accepted);
    WithoutAtMost(before, shipped);
    if Rejected(before, accepted) < BATCH_LIMIT {
      assert batch == before[..BATCH_LIMIT];
      RejectedPrefix(before, accepted, BATCH_LIMIT);
      RejectedAtMost(batch, accepted);
      var gone :| gone in batch && gone.id in accepted;
      WithoutIsSmaller(before, shipped, gone);
    }
  }

  lemma {:induction false} ShippedStaysOut(es: seq<Event>, accepted: set<Id>, rounds: nat, e: Event)
    requires e !in es
    ensures e !in Ships(es, accepted, rounds)
    decreases rounds
  {
    if rounds > 0 {
      WithoutMembers(es, Ids(Batch(es)) * accepted, e);
      ShippedStaysOut(Ship(es, accepted), accepted, rounds - 1, e);
    }
  }

  lemma {:induction false} ReachableEventLeaves(before: seq<Event>, e: Event, after: seq<Event>,
                                                accepted: set<Id>, rounds: nat)
    requires DistinctIds(before + [e] + after) && e.id in accepted
    requires Rejected(before, accepted) < BATCH_LIMIT && |before| < rounds
    ensures e !in Ships(before + [e] + after, accepted, rounds)
    decreases |before|
  {
    var es := before + [e] + after;
    if |before| < BATCH_LIMIT {
      assert es[|before|] == e;
      NearEventLeaves(es, |before|, accepted);
      ShippedStaysOut(Ship(es, accepted), accepted, rounds - 1, e);
    } else {
      var before', after' := FarEventStays(before, e, after, accepted);
      ReachableEventLeaves(before', e, after', accepted, rounds - 1);
    }
  }

  lemma {:induction false} BlockedEventStays(before: seq<Event>, e: Event, after: seq<Event>,
                                             accepted: set<Id>, rounds: nat)
    requires DistinctIds(before + [e] + after) && Rejected(before, accepted) >= BATCH_LIMIT
    ensures e in Ships(before + [e] + after, accepted, rounds)
    decreases rounds
  {
    if rounds > 0 {
      RejectedAtMost(before, accepted);
      var before', after' := FarEventStays(before, e, after, accepted);
      BlockedEventStays(before', e, after', accepted, rounds - 1);
    }
  }

  /** An event the plane would accept is eventually shipped exactly when fewer than
      a whole batch of events it rejects stand before it: rejected events are never
      removed, and a full batch of them is sent again on every ship. */
  lemma EventuallyShippedIff(before: seq<Event>, e: Event, after: seq<Event>, accepted: set<Id>)
    requires DistinctIds(before + [e] + after) && e.id in accepted
    ensures (exists rounds: nat :: e !in Ships(before + [e] + after, accepted, rounds))
            <==> Rejected(before, accepted) < 500
  {
    if Rejected(before, accepted) < BATCH_LIMIT {
      ReachableEventLeaves(before, e, after, accepted, |before| + 1);
    } else {
      forall rounds: nat ensures e in Ships(before + [e] + after, accepted, rounds) {
        BlockedEventStays(before, e, after, accepted, rounds);
      }
    }
  }

  ghost predicate AllIn(es: seq<Event>, accepted: set<Id>) {
    forall i | 0 <= i < |es| :: es[i].id in accepted
  }

  lemma AcceptedShipTakesBatch(es: seq<Event>, accepted: set<Id>)
    requires DistinctIds(es) && AllIn(es, accepted)
    ensures Ship(es, accepted) == es[MinInt(BATCH_LIMIT, |es|)..]
  {
    var n := MinInt(BATCH_LIMIT, |es|);
    var head, tail := es[..n], es[n..];
    var shipped := Ids(Batch(es)) * accepted;
    assert es == head + tail;
    forall e | e in head ensures e.id in shipped {
      assert e in es && e.id in Ids(head);
    }
    forall e | e in tail ensures e.id !in shipped {
      var j :| 0 <= j < |tail| && tail[j] == e;
      assert es[n + j] == e;
    }
    WithoutAll(head, shipped);
    WithoutNone(tail, shipped);
    WithoutConcat(head, tail, shipped);
  }

  lemma TailOfQueue(es: seq<Event>, accepted: set<Id>, n: nat)
    requires n <= |es| && DistinctIds(es) && AllIn(es, accepted)
    ensures DistinctIds(es[n..]) && AllIn(es[n..], accepted)
  {
  }

  lemma ShipsTail(es: seq<Event>, accepted: set<Id>, rounds: nat, n: nat, m: nat)
    requires rounds > 0 && n + m <= |es| && Ship(es, accepted) == es[n..]
    requires Ships(es[n..], accepted, rounds - 1) == es[n..][m..]
    ensures Ships(es, accepted, rounds) == es[n + m..]
  {
    assert es[n..][m..] == es[n + m..];
  }

  /** How many events a number of ships takes off a queue. */
  function Shipped(total: nat, rounds: nat): nat {
    MinInt(BATCH_LIMIT * rounds, total)
  }

  lemma ShippedOneMore(total: nat, rounds: nat)
    requires rounds > 0
    ensures
      var n := MinInt(BATCH_LIMIT, total);
      Shipped(total, rounds) == n + Shipped(total - n, rounds - 1)
  {
  }

  /** When the plane accepts everything, each ship takes exactly the next batch off
      the front of the queue, in order, until it is empty. */
  lemma {:induction false} AcceptedQueueDrains(es: seq<Event>, accepted: set<Id>, rounds: nat)
    requires DistinctIds(es) && AllIn(es, accepted)
    ensures Ships(es, accepted, rounds) == es[MinInt(500 * rounds, |es|)..]
    decreases rounds
  {
    assert Shipped(|es|, rounds) == MinInt(500 * rounds, |es|);
    if rounds > 0 {
      var n := MinInt(BATCH_LIMIT, |es|);
      AcceptedShipTakesBatch(es, accepted);
      TailOfQueue(es, accepted, n);
      AcceptedQueueDrains(es[n..], accepted, rounds - 1);
      ShippedOneMore(|es|, rounds);
      ShipsTail(es, accepted, rounds, n, Shipped(|es| - n, rounds - 1));
    }
  }

  lemma {:induction false} WithoutAll(es: seq<Event>, shipped: set<Id>)
    requires forall e <- es :: e.id in shipped
    ensures Without(es, shipped) == []
  {
    if es != [] { WithoutAll(es[..|es| - 1], shipped); }
  }

  lemma {:induction false} WithoutNone(es: seq<Event>, shipped: set<Id>)
    requires forall e <- es :: e.id !in shipped
    ensures Without(es, shipped) == es
  {
    if es != [] { WithoutNone(es[..|es| - 1], shipped); }
  }
}
