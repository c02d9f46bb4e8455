/** Stopping a durable service by its recorded process: what decides whether the
    process behind the recorded number is still the service. */
module ServiceIdentity {
  import opened Prelude

  datatype Status = Starting | Running | Exited | Stopped | Stale | Unknown

  /** `container` is the name of the container of a service run by docker. */
  datatype Metadata = Metadata(pid: int, startToken: string, status: Status, container: Option<string>)

  /** What the system says during one call: the start token of the recorded process,
      empty when it cannot be read, whether such a process exists, and whether a
      process started by this manager has exited, at the check and at termination. */
  datatype Seen = Seen(startToken: string, present: bool, exited: bool, exitedLater: bool)

  datatype Target = Container(name: string) | Started(id: string) | Recorded(pid: int)

  datatype Liveness = Liveness(alive: bool, identityValid: bool)

  /** `_metadata_process_alive`. */
  function ProcessAlive(m: Metadata, started: bool, seen: Seen): Liveness {
    if m.pid <= 0 then Liveness(false, false)
    else if m.startToken != "" && seen.startToken != "" && seen.startToken != m.startToken then Liveness(true, false)
    else if started && seen.exited then Liveness(false, true)
    else Liveness(seen.present, true)
  }

  /** The recorded process number belongs to another process by now, for all that can
      be told. */
  predicate Replaced(m: Metadata, seen: Seen) {
    m.pid > 0 && m.startToken != "" && seen.startToken != "" && seen.startToken != m.startToken
  }

  /** A process under the recorded number is there, and it is not one this manager started
      and saw exit. */
  predicate Live(m: Metadata, started: bool, seen: Seen) {
    m.pid > 0 && seen.present && !(started && seen.exited)
  }

  /** Alive means live, or replaced by another process; the identity is valid for every
      recorded number that is not known to be another process. */
  lemma AliveExactlyWhen(m: Metadata, started: bool, seen: Seen)
    ensures
      var live := ProcessAlive(m, started, seen);
      && (live.alive <==> Live(m, started, seen) || Replaced(m, seen))
      && (live.identityValid <==> m.pid > 0 && !Replaced(m, seen))
  {
  }

  datatype StopResult = StopResult(status: Status, stopped: bool, mismatch: bool)

  class ServiceManager {
    var metadata: map<string, Metadata>
    var started: set<string>
    /** What was terminated so far. */
    var terminated: seq<Target>

    constructor ()
      ensures metadata == map[] && started == {} && terminated == []
    {
      metadata, started, terminated := map[], {}, [];
    }

    /** `_terminate_loaded_metadata`, without its metadata part. */
    method Terminate(id: string, m: Metadata, seen: Seen)
      modifies this`terminated
      ensures terminated == old(terminated) + Targets(id, m, id in started, seen)
    {
      if m.container.Some? { terminated := terminated + [Container(m.container.value)]; }
      if id in started {
        if !seen.exitedLater { terminated := terminated + [Started(id)]; }
      } else if m.pid > 0 {
        terminated := terminated + [Recorded(m.pid)];
      }
    }

    /** `stop`: a service whose recorded process is known to be another one is left
        alone and marked stale; any other known service is forgotten, and terminated
        first when it is alive. */
    method Stop(id: string, seen: Seen) returns (r: StopResult)
      modifies this
      ensures started == old(started)
      ensures id !in old(metadata) ==>
        r == StopResult(Unknown, false, false) && metadata == old(metadata) && terminated == old(terminated)
      ensures id in old(metadata) && Replaced(old(metadata)[id], seen) ==>
        && r == StopResult(Stale, false, true) && terminated == old(terminated)
        && metadata == old(metadata)[id := old(metadata)[id].(status := Stale)]
      ensures id in old(metadata) && !Replaced(old(metadata)[id], seen) ==>
        && r == StopResult(Stopped, true, false) && metadata == old(metadata) - {id}
        && terminated == old(terminated) +
             if Live(old(metadata)[id], id in started, seen)
             then Targets(id, old(metadata)[id], id in started, seen) else []
    {
      if id !in metadata { return StopResult(Unknown, false, false); }
      var m := metadata[id];
      var live := ProcessAlive(m, id in started, seen);
      AliveExactlyWhen(m, id in started, seen);
      if live.alive && !live.identityValid {
        metadata := metadata[id := m.(status := Stale)];
        return StopResult(Stale, false, true);
      }
      if live.alive { Terminate(id, m, seen); }
      metadata := metadata - {id};
      r := StopResult(Stopped, true, false);
    }

    /** `status`, which records what it reports. */
    method ReportStatus(id: string, seen: Seen) returns (status: Status, identityValid: bool)
      modifies this`metadata
      ensures id !in old(metadata) ==> status == Unknown && metadata == old(metadata)
      ensures id in old(metadata) ==>
        var m, live := old(metadata)[id], Live(old(metadata)[id], id in started, seen);
        && status == (if live || Replaced(m, seen) then Running else if m.pid <= 0 then Stale else Exited)
        && metadata == old(metadata)[id := m.(status := status)]
        && identityValid == (m.pid > 0 && !Replaced(m, seen))
    {
      if id !in metadata { return Unknown, false; }
      var live := ProcessAlive(metadata[id], id in started, seen);
      AliveExactlyWhen(metadata[id], id in started, seen);
      status := if live.alive then Running else if !live.identityValid then Stale else Exited;
      identityValid := live.identityValid;
      metadata := metadata[id := metadata[id].(status := status)];
    }
  }

  function Targets(id: string, m: Metadata, started: bool, seen: Seen): seq<Target> {
    (if m.container.Some? then [Container(m.container.value)] else [])
    + if started then (if seen.exitedLater then [] else [Started(id)])
      else if m.pid > 0 then [Recorded(m.pid)] else []
  }

  /** What terminating goes for: the container, if there is one; then the process this
      manager started, unless it has exited, or else the recorded number. */
  lemma TargetsDecided(id: string, m: Metadata, started: bool, seen: Seen, target: Target)
    ensures
      var targets := Targets(id, m, started, seen);
      && (target in targets <==>
            match target
            case Container(name) => m.container == Some(name)
            case Started(other) => other == id && started && !seen.exitedLater
            case Recorded(pid) => pid == m.pid && !started && m.pid > 0)
      && (forall i, j | 0 <= i < j < |targets| :: targets[i].Container? && !targets[j].Container?)
  {
  }

  function StatusFor(live: Liveness): Status {
    if live.alive then Running else if !live.identityValid then Stale else Exited
  }

  /** Status says running about a replaced process, which stop refuses to touch; about
      any other process the two agree. */
  lemma RunningDespiteReplacement(m: Metadata, started: bool, seen: Seen)
    ensures
      var live := ProcessAlive(m, started, seen);
      && (Replaced(m, seen) <==> live.alive && !live.identityValid)
      && (Replaced(m, seen) ==> StatusFor(live) == Running)
      && (StatusFor(live) == Running && !Replaced(m, seen) ==> live.identityValid && seen.present)
  {
  }
}
