/** The ladder of reduction states an execution pack is tried with. */
module ReductionLadder {
  import opened Prelude

  /** How much there is of each kind. */
  datatype Sizes = Sizes(
    requirements: nat, tasks: nat, assets: nat, acceptance: nat, estimated: nat, scope: nat,
    blocks: nat, full: nat, focused: nat)

  datatype State = State(
    requirements: nat, tasks: nat, assets: nat, goalChars: nat, summaryChars: nat, descriptionChars: nat,
    acceptance: nat, estimated: nat, scope: nat, full: nat, focused: nat, reference: nat,
    mayNeed: bool, pinned: bool)

  function Cap(total: nat, wanted: nat, least: nat): nat {
    if total == 0 then 0
    else
      var capped := MinInt(total, wanted);
      if capped == 0 then least else capped
  }

  /** `_reduction_candidates`. */
  function Candidates(z: Sizes, preferHeadroom: bool): (ladder: seq<State>)
    ensures |ladder| == if preferHeadroom then 9 else 6
  {
    var last := MinInt(z.blocks, 1);
    [ State(Cap(z.requirements, 12, 0), Cap(z.tasks, 16, 0), Cap(z.assets, 12, 1), 240, 600, 1600,
            Cap(z.acceptance, 12, 0), Cap(z.estimated, 12, 0), Cap(z.scope, 12, 0), z.full, z.focused, z.blocks, true, true),
      State(Cap(z.requirements, 8, 0), Cap(z.tasks, 10, 0), Cap(z.assets, 12, 1), 160, 320, 1200,
            Cap(z.acceptance, 8, 0), Cap(z.estimated, 8, 0), Cap(z.scope, 8, 0), z.full, z.focused, z.blocks, true, true),
      State(Cap(z.requirements, 4, 0), Cap(z.tasks, 5, 0), Cap(z.assets, 8, 1), 96, 160, 800,
            Cap(z.acceptance, 5, 0), Cap(z.estimated, 6, 0), Cap(z.scope, 6, 0), z.full, z.focused, z.blocks, false, true),
      State(Cap(z.requirements, 2, 0), Cap(z.tasks, 3, 0), Cap(z.assets, 4, 1), 64, 96, 400,
            Cap(z.acceptance, 3, 0), Cap(z.estimated, 4, 0), Cap(z.scope, 4, 0), 0, z.focused, z.blocks, false, true),
      State(0, 0, Cap(z.assets, 2, 1), 0, 0, 240,
            Cap(z.acceptance, 2, 0), Cap(z.estimated, 3, 0), Cap(z.scope, 3, 0), 0, 0, z.blocks, false, false),
      State(0, 0, Cap(z.assets, 1, 1), 0, 0, 160,
            Cap(z.acceptance, 1, 0), Cap(z.estimated, 2, 0), Cap(z.scope, 2, 0), 0, 0, last, false, false) ]
    + if !preferHeadroom then [] else
    [ State(0, 0, Cap(z.assets, 1, 1), 0, 0, 120,
            Cap(z.acceptance, 1, 0), Cap(z.estimated, 2, 0), Cap(z.scope, 2, 0), 0, 0, last, false, false),
      State(0, 0, 0, 0, 0, 96,
            Cap(z.acceptance, 1, 0), Cap(z.estimated, 2, 0), Cap(z.scope, 2, 0), 0, 0, 0, false, false),
      State(0, 0, 0, 0, 0, 64, 0, Cap(z.estimated, 1, 0), Cap(z.scope, 1, 0), 0, 0, 0, false, false) ]
  }

  /** b allows no more of anything than a. */
  predicate NoMore(a: State, b: State) {
    && b.requirements <= a.requirements && b.tasks <= a.tasks && b.assets <= a.assets
    && b.goalChars <= a.goalChars && b.summaryChars <= a.summaryChars && b.descriptionChars <= a.descriptionChars
    && b.acceptance <= a.acceptance && b.estimated <= a.estimated && b.scope <= a.scope
    && b.full <= a.full && b.focused <= a.focused && b.reference <= a.reference
    && (b.mayNeed ==> a.mayNeed) && (b.pinned ==> a.pinned)
  }

  lemma NextIsNoMore(z: Sizes, preferHeadroom: bool, i: nat)
    requires i + 1 < |Candidates(z, preferHeadroom)|
    ensures NoMore(Candidates(z, preferHeadroom)[i], Candidates(z, preferHeadroom)[i + 1])
  {
  }

  /** Every later state allows no more of anything than an earlier one, and gives the
      task description strictly less room. */
  lemma {:induction false} LadderOnlyShrinks(z: Sizes, preferHeadroom: bool, i: nat, j: nat)
    requires i < j < |Candidates(z, preferHeadroom)|
    ensures
      var ladder := Candidates(z, preferHeadroom);
      NoMore(ladder[i], ladder[j]) && ladder[j].descriptionChars < ladder[i].descriptionChars
    decreases j
  {
    NextIsNoMore(z, preferHeadroom, j - 1);
    if i < j - 1 { LadderOnlyShrinks(z, preferHeadroom, i, j - 1); }
  }

  /** How much each state keeps, kind by kind: the least of what there is and the number of
      that state. */
  lemma LadderDecided(z: Sizes, preferHeadroom: bool, i: nat)
    requires i < |Candidates(z, preferHeadroom)|
    ensures
      var s := Candidates(z, preferHeadroom)[i];
      && s.requirements == MinInt(z.requirements, [12, 8, 4, 2, 0, 0, 0, 0, 0][i])
      && s.tasks == MinInt(z.tasks, [16, 10, 5, 3, 0, 0, 0, 0, 0][i])
      && s.assets == MinInt(z.assets, [12, 12, 8, 4, 2, 1, 1, 0, 0][i])
      && s.acceptance == MinInt(z.acceptance, [12, 8, 5, 3, 2, 1, 1, 1, 0][i])
      && s.estimated == MinInt(z.estimated, [12, 8, 6, 4, 3, 2, 2, 2, 1][i])
      && s.scope == MinInt(z.scope, [12, 8, 6, 4, 3, 2, 2, 2, 1][i])
  {
  }

  /** How long its texts may be, and what is left of the relevant assets. */
  lemma LadderTextsDecided(z: Sizes, preferHeadroom: bool, i: nat)
    requires i < |Candidates(z, preferHeadroom)|
    ensures
      var s := Candidates(z, preferHeadroom)[i];
      && s.goalChars == [240, 160, 96, 64, 0, 0, 0, 0, 0][i]
      && s.summaryChars == [600, 320, 160, 96, 0, 0, 0, 0, 0][i]
      && s.descriptionChars == [1600, 1200, 800, 400, 240, 160, 120, 96, 64][i]
      && s.full == (if i < 3 then z.full else 0) && s.focused == (if i < 4 then z.focused else 0)
      && s.reference == (if i < 5 then z.blocks else if i < 7 then MinInt(z.blocks, 1) else 0)
      && (s.mayNeed <==> i < 2) && (s.pinned <==> i < 4)
  {
  }
}
