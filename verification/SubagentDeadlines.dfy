/** Deadlines handed down a chain of nested subagents. */
module SubagentDeadlines {
  import opened Prelude
  import opened DeadlineModel
  import opened DeadlineDecisions

  /** The clock readings of one derivation: `now`, then those of `phase()`. */
  datatype DerivationReadings = DerivationReadings(now: real, t1: real, t2: real, t3: real)
  {
    ghost predicate Ordered(from: real, to: real) {
      from <= now <= t1 <= t2 <= t3 <= to
    }
  }

  function Fallback(now: real, seconds: real, finalization: FinalizationPolicy,
                    degradation: DegradationPolicy): Config
  {
    Config(now, Some(now + seconds), Some(seconds), finalization, degradation)
  }

  ghost predicate ParentClosing(parent: Config, obs: Observations, at: DerivationReadings) {
    Rank(PhaseRead(parent, obs, at.t1, at.t2, at.t3)) >= Rank(FinalizationWindow)
  }

  ghost predicate KeepsParent(parent: Config, obs: Observations, seconds: real, at: DerivationReadings) {
    && parent.deadline.Some?
    && (ParentClosing(parent, obs, at) || parent.deadline.value <= at.now + seconds)
  }

  ghost function Derive(parent: Config, obs: Observations, seconds: real, at: DerivationReadings): Config {
    if KeepsParent(parent, obs, seconds, at) then parent
    else Fallback(at.now, seconds, parent.finalization, parent.degradation)
  }

  /** A parent that is neither finalizing nor exhausted hands down exactly the
      earlier of its own deadline and now plus the fallback. */
  lemma DerivedIsTheEarlier(parent: Config, obs: Observations, seconds: real, at: DerivationReadings)
    requires !ParentClosing(parent, obs, at)
    ensures
      var d := Derive(parent, obs, seconds, at).deadline;
      d == Some(if parent.deadline.Some? then Min(parent.deadline.value, at.now + seconds)
                else at.now + seconds)
  {
  }

  /** A parent that is over, in its window or ends first is handed down as it is; any other
      gives a fresh budget of its own, from now on, under its policies. */
  lemma DerivedDecided(parent: Config, obs: Observations, seconds: real, at: DerivationReadings)
    ensures
      var kept :=
        parent.deadline.Some?
        && (|| parent.deadline.value <= at.t1 || WindowOpen(parent, obs, at.t2)
            || parent.deadline.value <= at.now + seconds);
      Derive(parent, obs, seconds, at) ==
        if kept then parent
        else Config(at.now, Some(at.now + seconds), Some(seconds), parent.finalization, parent.degradation)
  {
    if parent.deadline.Some? { PhaseDecided(parent, obs, at.t1, at.t2, at.t3); }
    hide PhaseRead, WindowOpen;
  }

  datatype Link = Link(obs: Observations, seconds: real, at: DerivationReadings)

  /** Each deadline is derived from the one before it. */
  ghost predicate IsChain(chain: seq<Config>, links: seq<Link>) {
    && |chain| == |links| + 1
    && forall i | 0 <= i < |links| ::
         chain[i + 1] == Derive(chain[i], links[i].obs, links[i].seconds, links[i].at)
  }

  /** In any chain of nested derivations every derived deadline is finite and none
      outlives an enabled ancestor, so an exhausted ancestor leaves no descendant
      running. */
  lemma {:induction false} NoChildOutlivesAnAncestor(chain: seq<Config>, links: seq<Link>, i: nat, j: nat)
    requires IsChain(chain, links) && i < j < |chain|
    ensures chain[j].deadline.Some?
    ensures chain[i].deadline.Some? ==> chain[j].deadline.value <= chain[i].deadline.value
    ensures forall t :: IsExhausted(chain[i], t) ==> IsExhausted(chain[j], t)
    decreases j
  {
    if i + 1 < j {
      NoChildOutlivesAnAncestor(chain, links, i, j - 1);
    }
    var link := links[j - 1];
    assert chain[j - 1 + 1] == Derive(chain[j - 1], link.obs, link.seconds, link.at);
  }
}
