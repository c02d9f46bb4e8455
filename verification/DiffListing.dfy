/** Which changes a review looks at: the listings of Git in front of the collection,
    and what is recorded about entries that are left out of them. The output of each
    command is data; what fetching the patch of the i-th change yields is fetch(i). */
module DiffListing {
  import opened Prelude
  import opened Utf8
  import opened DiffCollection
  import PyText
  import NameStatus

  type Outside = set<seq<string>>

  /** What a listing command wrote before its output was cut, if it was. */
  datatype GitOutput = GitOutput(stdout: string, truncated: bool, failed: bool)

  const INVALID_PATH: Text := Lit("<invalid path>")

  datatype Ended = Going | Full | Aborted

  /** The changes found so far and the state they were noted in. */
  datatype Discovery = Discovery(specs: seq<Spec>, state: Collected, ended: Ended)

  function DiscoveryLimit(limits: Limits): nat {
    limits.maxFiles * 2
  }

  function Texts(paths: seq<string>): seq<Text> {
    seq(|paths|, i requires 0 <= i < |paths| => Lit(paths[i]))
  }

  predicate HavePaths(changes: seq<NameStatus.PathChange>) {
    forall i | 0 <= i < |changes| :: |changes[i].paths| > 0
  }

  lemma {:induction false} ParsedHavePaths(tokens: seq<string>, index: nat, listed: seq<NameStatus.PathChange>,
                                           dropped: nat, maxChanges: int, outside: Outside)
    requires index <= |tokens| && HavePaths(listed)
    ensures HavePaths(NameStatus.ParseFrom(tokens, index, listed, dropped, maxChanges, outside).changes)
    decreases |tokens| - index
  {
    hide NameStatus.TakeTurn, NameStatus.NormalizeRepoPath, NameStatus.Safe;
    if index < |tokens| {
      var (turn, next) := NameStatus.TakeTurn(tokens, index);
      if turn.Nothing? || |turn.rawPaths| == 0 {
        ParsedHavePaths(tokens, next, listed, dropped, maxChanges, outside);
      } else if !NameStatus.Safe(turn.rawPaths, outside) {
        ParsedHavePaths(tokens, next, listed, dropped + 1, maxChanges, outside);
      } else {
        var change := NameStatus.PathChange(turn.status, NameStatus.Normalized(turn.rawPaths, outside));
        if |listed| + 1 < maxChanges {
          ParsedHavePaths(tokens, next, listed + [change], dropped, maxChanges, outside);
        }
      }
    }
  }

  /** The specs of a section that starts at position `from`. */
  function SpecsOf(section: string, changes: seq<NameStatus.PathChange>, from: nat, fetch: nat -> Fetched): (specs: seq<Spec>)
    ensures |specs| == |changes| && (HavePaths(changes) ==> AllValid(specs))
  {
    seq(|changes|, i requires 0 <= i < |changes| => Spec(Lit(section), Texts(changes[i].paths), fetch(from + i)))
  }

  function Parsed(output: GitOutput, limits: Limits, outside: Outside): (listing: NameStatus.Listing)
    ensures HavePaths(listing.changes)
  {
    ParsedHavePaths(PyText.Split(output.stdout, NameStatus.NUL), 0, [], 0, DiscoveryLimit(limits), outside);
    NameStatus.ParseFrom(PyText.Split(output.stdout, NameStatus.NUL), 0, [], 0, DiscoveryLimit(limits), outside)
  }

  /** What a listing leaves in the state. */
  function Noted(c: Collected, truncated: bool, listing: NameStatus.Listing): (r: Collected)
    ensures c.Fresh() ==> r.Fresh()
  {
    var c1 := if truncated then c.Truncated().Warn(ListTruncated) else c;
    var c2 := if listing.dropped > 0 then c1.Omit(INVALID_PATH, UnsafePath).Warn(UnsafePathsOmitted) else c1;
    if listing.capped then c2.Truncated().Warn(DiscoveryTruncated) else c2
  }

  /** `_range_specs`. */
  function RangeDiscovery(c: Collected, section: string, output: GitOutput,
                          limits: Limits, outside: Outside, fetch: nat -> Fetched): (r: Discovery)
    ensures AllValid(r.specs) && (c.Fresh() ==> r.state.Fresh())
  {
    if output.failed then Discovery([], c, Aborted)
    else
      var listing := Parsed(output, limits, outside);
      Discovery(SpecsOf(section, listing.changes, 0, fetch), Noted(c, output.truncated, listing), Going)
  }

  /** One section of the working tree; reaching the discovery limit ends the search. */
  function Section(d: Discovery, section: string, output: GitOutput,
                   limits: Limits, outside: Outside, fetch: nat -> Fetched): (r: Discovery)
    ensures AllValid(d.specs) ==> AllValid(r.specs)
    ensures d.state.Fresh() ==> r.state.Fresh()
  {
    if !d.ended.Going? then d
    else if output.failed then d.(ended := Aborted)
    else
      var listing := Parsed(output, limits, outside);
      var specs := d.specs + SpecsOf(section, listing.changes, |d.specs|, fetch);
      var state := Noted(d.state, output.truncated, listing);
      if |specs| >= DiscoveryLimit(limits)
      then Discovery(specs[..DiscoveryLimit(limits)], state.Truncated().Warn(DiscoveryTruncated), Full)
      else Discovery(specs, state, Going)
  }

  /** One untracked name; an empty piece of the output is none. */
  function TakeName(d: Discovery, name: string, limits: Limits, outside: Outside, fetch: nat -> Fetched): (r: Discovery)
    ensures AllValid(d.specs) ==> AllValid(r.specs)
    ensures d.state.Fresh() ==> r.state.Fresh()
  {
    if name == "" then d
    else
      var path := NameStatus.NormalizeRepoPath(name, outside);
      if path.None? then d.(state := d.state.Omit(INVALID_PATH, UnsafePath))
      else
        var specs := d.specs + SpecsOf("untracked", [NameStatus.PathChange("A", [path.value])], |d.specs|, fetch);
        if |specs| >= DiscoveryLimit(limits)
        then Discovery(specs, d.state.Truncated().Warn(DiscoveryTruncated), Full)
        else d.(specs := specs)
  }

  /** The first n names. */
  function TakeNames(d: Discovery, names: seq<string>, n: nat,
                     limits: Limits, outside: Outside, fetch: nat -> Fetched): (r: Discovery)
    requires n <= |names|
    ensures AllValid(d.specs) ==> AllValid(r.specs)
    ensures d.state.Fresh() ==> r.state.Fresh()
  {
    if n == 0 then d
    else
      var before := TakeNames(d, names, n - 1, limits, outside, fetch);
      if before.ended.Going? then TakeName(before, names[n - 1], limits, outside, fetch) else before
  }

  function Untracked(d: Discovery, output: GitOutput, limits: Limits, outside: Outside, fetch: nat -> Fetched): (r: Discovery)
    ensures AllValid(d.specs) ==> AllValid(r.specs)
    ensures d.state.Fresh() ==> r.state.Fresh()
  {
    if !d.ended.Going? then d
    else if output.failed then d.(ended := Aborted)
    else
      var state := if output.truncated then d.state.Truncated().Warn(UntrackedListTruncated) else d.state;
      var names := PyText.Split(output.stdout, NameStatus.NUL);
      TakeNames(d.(state := state), names, |names|, limits, outside, fetch)
  }

  /** `_working_tree_specs`. */
  function TreeDiscovery(c: Collected, staged: GitOutput, unstaged: GitOutput, untracked: GitOutput,
                         limits: Limits, outside: Outside, fetch: nat -> Fetched): (r: Discovery)
    ensures AllValid(r.specs) && (c.Fresh() ==> r.state.Fresh())
  {
    var first := Section(Discovery([], c, Going), "staged", staged, limits, outside, fetch);
    var second := Section(first, "unstaged", unstaged, limits, outside, fetch);
    Untracked(second, untracked, limits, outside, fetch)
  }

  /** What a review is asked to look at; branches and commits are ranges too. */
  datatype Scope =
    | WorkingTree(staged: GitOutput, unstaged: GitOutput, untracked: GitOutput)
    | Range(section: string, output: GitOutput)

  const NOTHING_YET: Collected := Collected([], [], [], [], 0, false)

  function Discover(scope: Scope, limits: Limits, outside: Outside, fetch: nat -> Fetched): (d: Discovery)
    ensures AllValid(d.specs) && d.state.Fresh()
  {
    match scope
    case WorkingTree(staged, unstaged, untracked) =>
      TreeDiscovery(NOTHING_YET, staged, unstaged, untracked, limits, outside, fetch)
    case Range(section, output) => RangeDiscovery(NOTHING_YET, section, output, limits, outside, fetch)
  }

  function Specs(d: Discovery): Result<seq<Spec>, ReviewError> {
    if d.ended.Aborted? then Raise(GitReviewError) else Ok(d.specs)
  }

  // ------------------------------------------------------------- the methods

  /** `_list_changes`. */
  method ListChanges(output: GitOutput, outside: Outside, state: DiffCollector)
    returns (r: Result<seq<NameStatus.PathChange>, ReviewError>)
    modifies state
    ensures state.changedFiles == old(state.changedFiles)
    ensures output.failed ==> r == Raise(GitReviewError) && state.View() == old(state.View())
    ensures !output.failed ==>
      var listing := Parsed(output, state.limits, outside);
      r == Ok(listing.changes) && state.View() == Noted(old(state.View()), output.truncated, listing)
  {
    hide NameStatus.ParseFrom;
    if output.failed { return Raise(GitReviewError); }
    if output.truncated {
      state.truncated := true;
      state.warnings := state.warnings + [ListTruncated];
    }
    var listing := NameStatus.ParseNameStatus(output.stdout, state.limits.maxFiles * 2, outside);
    if listing.dropped > 0 {
      state.omittedFiles := state.omittedFiles + [Omission(INVALID_PATH, UnsafePath)];
      state.warnings := state.warnings + [UnsafePathsOmitted];
    }
    if listing.capped {
      state.truncated := true;
      state.warnings := state.warnings + [DiscoveryTruncated];
    }
    r := Ok(listing.changes);
  }

  method RangeSpecs(section: string, output: GitOutput, outside: Outside, fetch: nat -> Fetched, state: DiffCollector)
    returns (r: Result<seq<Spec>, ReviewError>)
    modifies state
    ensures state.changedFiles == old(state.changedFiles)
    ensures
      var d := RangeDiscovery(old(state.View()), section, output, state.limits, outside, fetch);
      r == Specs(d) && state.View() == d.state
  {
    hide Parsed, Noted;
    var changes := ListChanges(output, outside, state);
    if changes.Raise? { return Raise(changes.error); }
    r := Ok(SpecsOf(section, changes.value, 0, fetch));
  }

  method WorkingTreeSpecs(staged: GitOutput, unstaged: GitOutput, untracked: GitOutput,
                          outside: Outside, fetch: nat -> Fetched, state: DiffCollector)
    returns (r: Result<seq<Spec>, ReviewError>)
    modifies state
    ensures state.changedFiles == old(state.changedFiles)
    ensures
      var d := TreeDiscovery(old(state.View()), staged, unstaged, untracked, state.limits, outside, fetch);
      r == Specs(d) && state.View() == d.state
  {
    hide Parsed, Noted, TakeNames;
    var specs: seq<Spec> := [];
    var discoveryLimit := state.limits.maxFiles * 2;
    var sections := [("staged", staged), ("unstaged", unstaged)];
    ghost var start := Discovery([], state.View(), Going);
    ghost var first := Section(start, "staged", staged, state.limits, outside, fetch);
    for i := 0 to 2
      invariant state.changedFiles == old(state.changedFiles)
      invariant Discovery(specs, state.View(), Going)
             == if i == 0 then start else if i == 1 then first
                else Section(first, "unstaged", unstaged, state.limits, outside, fetch)
    {
      var (section, output) := sections[i];
      var changes := ListChanges(output, outside, state);
      if changes.Raise? { return Raise(changes.error); }
      specs := specs + SpecsOf(section, changes.value, |specs|, fetch);
      if |specs| >= discoveryLimit {
        state.truncated := true;
        state.warnings := state.warnings + [DiscoveryTruncated];
        return Ok(specs[..discoveryLimit]);
      }
    }
    if untracked.failed { return Raise(GitReviewError); }
    if untracked.truncated {
      state.truncated := true;
      state.warnings := state.warnings + [UntrackedListTruncated];
    }
    specs := UntrackedSpecs(specs, PyText.Split(untracked.stdout, NameStatus.NUL), outside, fetch, state);
    r := Ok(specs);
  }

  /** The loop over the untracked names. */
  method UntrackedSpecs(before: seq<Spec>, names: seq<string>, outside: Outside, fetch: nat -> Fetched, state: DiffCollector)
    returns (specs: seq<Spec>)
    modifies state
    ensures state.changedFiles == old(state.changedFiles)
    ensures
      var d := TakeNames(Discovery(before, old(state.View()), Going), names, |names|, state.limits, outside, fetch);
      specs == d.specs && state.View() == d.state && !d.ended.Aborted?
  {
    hide NameStatus.NormalizeRepoPath, SpecsOf;
    specs := before;
    ghost var start := Discovery(before, state.View(), Going);
    for i := 0 to |names|
      invariant state.changedFiles == old(state.changedFiles)
      invariant TakeNames(start, names, i, state.limits, outside, fetch) == Discovery(specs, state.View(), Going)
    {
      if names[i] == "" { continue; }
      var path := NameStatus.NormalizeRepoPath(names[i], outside);
      if path.None? {
        state.omittedFiles := state.omittedFiles + [Omission(INVALID_PATH, UnsafePath)];
        continue;
      }
      specs := specs + SpecsOf("untracked", [NameStatus.PathChange("A", [path.value])], |specs|, fetch);
      if |specs| >= state.limits.maxFiles * 2 {
        state.truncated := true;
        state.warnings := state.warnings + [DiscoveryTruncated];
        NamesEnded(start, names, i + 1, |names|, state.limits, outside, fetch);
        break;
      }
    }
  }

  lemma {:induction false} NamesEnded(d: Discovery, names: seq<string>, k: nat, n: nat,
                                      limits: Limits, outside: Outside, fetch: nat -> Fetched)
    requires k <= n <= |names| && !TakeNames(d, names, k, limits, outside, fetch).ended.Going?
    ensures TakeNames(d, names, n, limits, outside, fetch) == TakeNames(d, names, k, limits, outside, fetch)
  {
    hide TakeName;
    if k < n { NamesEnded(d, names, k, n - 1, limits, outside, fetch); }
  }
}
