/** The telemetry client as one thread sees it: stamping events, appending them to
    the queue file and shipping a batch to the plane. How several threads and clients
    interleave is the subject of QueueProtocol.dfy. */
module AgentBoxClients {
  import opened Prelude
  import opened EventQueue

  /** The remote end: it stores what it accepts and answers with just those ids,
      unless the answer is lost. */
  class Plane {
    const accepts: set<Id>
    var stored: set<Id>

    constructor (accepts: set<Id>)
      ensures this.accepts == accepts && stored == {}
    {
      this.accepts := accepts;
      stored := {};
    }

    method Ingest(batch: seq<Event>, answers: bool) returns (reply: Option<set<Id>>)
      modifies this
      ensures stored == old(stored) + Ids(batch) * accepts
      ensures reply == if answers then Some(Ids(batch) * accepts) else None
    {
      stored := stored + Ids(batch) * accepts;
      reply := if answers then Some(Ids(batch) * accepts) else None;
    }
  }

  datatype Stamp = Stamp(session: nat, sequence: nat)

  class AgentBoxClient {
    const hasToken: bool
    var sequence: nat
    var sessionId: Option<nat>
    /** The queue file; None while it does not exist. */
    var file: Option<seq<Line>>

    constructor (hasToken: bool)
      ensures this.hasToken == hasToken && sequence == 0 && sessionId.None? && file.None?
    {
      this.hasToken := hasToken;
      sequence, sessionId, file := 0, None, None;
    }

    function Lines(): seq<Line>
      reads this
    {
      file.GetOr([])
    }

    /** `_event`: the next number of the client, whatever the session. */
    method NewEvent(id: Id, freshSession: nat, body: nat) returns (event: Event, stamp: Stamp)
      modifies this`sequence
      ensures sequence == old(sequence) + 1
      ensures event == Event(id, body) && stamp == Stamp(sessionId.GetOr(freshSession), sequence)
    {
      sequence := sequence + 1;
      event, stamp := Event(id, body), Stamp(sessionId.GetOr(freshSession), sequence);
    }

    /** `_enqueue`. */
    method Enqueue(event: Event)
      modifies this`file
      ensures file == Some(old(Lines()) + [Entry(event)])
      ensures Events(Lines()) == Events(old(Lines())) + [event]
    {
      EventsConcat(Lines(), [Entry(event)]);
      file := Some(Lines() + [Entry(event)]);
    }

    /** `_ship_once`: at most one batch is posted; what the plane says it accepted
        leaves the queue, in one rewrite, and nothing else does. */
    method ShipOnce(plane: Plane, answers: bool)
      modifies this`file, plane
      ensures
        var es := Events(old(Lines()));
        var posted := if hasToken then Batch(es) else [];
        && plane.stored == old(plane.stored) + Ids(posted) * plane.accepts
        && Events(Lines()) == (if hasToken && answers then Ship(es, plane.accepts) else es)
      ensures
        Lines() == if hasToken && answers then Keep(old(Lines()), Ids(Batch(Events(old(Lines())))) * plane.accepts)
                   else old(Lines())
      ensures forall e | e in Events(old(Lines())) && e !in Events(Lines()) :: e.id in plane.stored
    {
      ghost var es := Events(Lines());
      WithoutNone(es, {});
      KeepNone(Lines());
      if !hasToken || file.None? { return; }
      var lines := file.value;
      var batch := EventBatch(lines);
      if |batch| == 0 {
        assert es == [] && Ids(batch) * plane.accepts == {};
        return;
      }
      var reply := plane.Ingest(batch, answers);
      if reply.None? || reply.value == {} { return; }
      var remaining := Remaining(lines, reply.value);
      KeepTakesOutShipped(lines, reply.value);
      file := Some(remaining);
      forall e | e in es && e !in Events(remaining) ensures e.id in plane.stored {
        WithoutMembers(es, reply.value, e);
      }
    }
  }

  lemma {:induction false} KeepNone(lines: seq<Line>)
    ensures Keep(lines, {}) == lines
  {
    if |lines| > 0 {
      var init, last := lines[..|lines| - 1], lines[|lines| - 1];
      KeepNone(init);
      assert Keep(lines, {}) == init + [last] == lines;
    }
  }
}
