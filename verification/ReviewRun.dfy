/** A whole review: the listings, the collection and the answers of the reviewing
    client, and what its verdict says about the changes Git printed. */
module ReviewRun {
  import opened Prelude
  import opened Utf8
  import opened DiffCollection
  import opened DiffTheorems
  import opened DiffListing
  import opened ListingTheorems
  import opened ReviewVerdict
  import opened ReviewTheorems
  import NameStatus
  import PyText

  /** The end of `collect_diff`. */
  function BuildDiff(changed: seq<Text>, c: Collected): ReviewDiff {
    ReviewDiff(c.parts, FirstOccurrences(changed), FirstOccurrences(c.included), FirstOccurrences(c.omitted), c.truncated)
  }

  function Collection(d: Discovery, limits: Limits, leaves: Leaves): Collected
    requires AllValid(d.specs)
  {
    Run(d.state, d.specs, |d.specs|, limits, leaves).state
  }

  function DiffOf(d: Discovery, limits: Limits, leaves: Leaves): ReviewDiff
    requires AllValid(d.specs)
  {
    BuildDiff(Publics(FirstOccurrences(AllPaths(d.specs, |d.specs|)), leaves), Collection(d, limits, leaves))
  }

  function ReviewOfDiscovery(d: Discovery, limits: Limits, leaves: Leaves, answers: seq<Response>): Result<Review, ReviewError>
    requires AllValid(d.specs)
  {
    if d.ended.Aborted? then Raise(GitReviewError) else ReviewOf(DiffOf(d, limits, leaves), answers)
  }

  /** `CodeReviewEngine.review`. */
  method Review(scope: Scope, limits: Limits, leaves: Leaves, outside: Outside, fetch: nat -> Fetched,
                answers: seq<Response>, maxAttempts: nat)
    returns (r: Result<Review, ReviewError>)
    requires 1 <= maxAttempts <= |answers|
    ensures r == ReviewOfDiscovery(Discover(scope, limits, outside, fetch), limits, leaves, answers[..maxAttempts])
  {
    hide TreeDiscovery, RangeDiscovery, Run, AllPaths, Publics, FirstOccurrences, ReviewOf;
    var state := new DiffCollector(limits, leaves);
    var specs: Result<seq<Spec>, ReviewError>;
    match scope {
      case WorkingTree(staged, unstaged, untracked) =>
        specs := WorkingTreeSpecs(staged, unstaged, untracked, outside, fetch, state);
      case Range(section, output) =>
        specs := RangeSpecs(section, output, outside, fetch, state);
    }
    if specs.Raise? { return Raise(specs.error); }
    state.ListChangedFiles(specs.value);
    ghost var changed := Publics(FirstOccurrences(AllPaths(specs.value, |specs.value|)), leaves);
    assert [] + changed == changed;
    state.CollectPatches(specs.value);
    var omitted := DeduplicateOmissions(state.omittedFiles);
    var diff := ReviewDiff(state.patchParts, FirstOccurrences(state.changedFiles),
                           FirstOccurrences(state.includedFiles), omitted, state.truncated);
    var asked: nat;
    r, asked := ReviewCollected(diff, answers, maxAttempts);
  }

  // ---------------------------------------------------------------- failures

  /** How many changes the listing yields. */
  function Found(output: GitOutput, limits: Limits, outside: Outside): nat {
    |Parsed(output, limits, outside).changes|
  }

  /** A review raises a Git error exactly when a listing command that it needs fails. The
      working tree needs the next listing while fewer changes are found than the limit. */
  lemma GitErrorExactlyWhen(scope: Scope, limits: Limits, leaves: Leaves, outside: Outside,
                            fetch: nat -> Fetched, answers: seq<Response>)
    ensures
      var failed := match scope {
        case Range(_, output) => output.failed
        case WorkingTree(staged, unstaged, untracked) =>
          || staged.failed
          || (Found(staged, limits, outside) < 2 * limits.maxFiles
              && (|| unstaged.failed
                  || (Found(staged, limits, outside) + Found(unstaged, limits, outside) < 2 * limits.maxFiles
                      && untracked.failed)))
      };
      ReviewOfDiscovery(Discover(scope, limits, outside, fetch), limits, leaves, answers) == Raise(GitReviewError)
      <==> failed
  {
    hide Parsed, DiffListing.Noted, SpecsOf, DiffOf, FirstValid, EmptyReview, FinalReview;
    if scope.WorkingTree? {
      var first := Section(Discovery([], NOTHING_YET, Going), "staged", scope.staged, limits, outside, fetch);
      var second := Section(first, "unstaged", scope.unstaged, limits, outside, fetch);
      if second.ended.Going? && !scope.untracked.failed {
        NamesNeverAbort(
          if scope.untracked.truncated
          then second.(state := second.state.Truncated().Warn(UntrackedListTruncated)) else second,
          PyText.Split(scope.untracked.stdout, NameStatus.NUL), |PyText.Split(scope.untracked.stdout, NameStatus.NUL)|,
          limits, outside, fetch);
      }
    }
  }

  lemma {:induction false} NamesNeverAbort(d: Discovery, names: seq<string>, n: nat,
                                           limits: Limits, outside: Outside, fetch: nat -> Fetched)
    requires n <= |names| && d.ended.Going?
    ensures !TakeNames(d, names, n, limits, outside, fetch).ended.Aborted?
  {
    hide NameStatus.NormalizeRepoPath, SpecsOf;
    if n > 0 { NamesNeverAbort(d, names, n - 1, limits, outside, fetch); }
  }

  // ------------------------------------------------------------ completeness

  predicate Approves(r: Result<Review, ReviewError>) {
    r.Ok? && r.value.summary.verdict == Approve
  }

  lemma BuiltDiffIsComplete(changed: seq<Text>, c: Collected)
    ensures Incomplete(BuildDiff(changed, c)) <==> !c.Complete()
    ensures |BuildDiff(changed, c).includedFiles| == 0 <==> |c.included| == 0
    ensures |BuildDiff(changed, c).changedFiles| == 0 <==> |changed| == 0
    ensures Allowed(BuildDiff(changed, c)) == Names(c.included)
  {
    DeduplicationKeepsElements(c.omitted);
    DeduplicationKeepsElements(changed);
    DeduplicationKeepsElements(c.included);
    var distinct := FirstOccurrences(c.included);
    assert forall x :: x in Allowed(BuildDiff(changed, c)) <==> x in distinct;
    assert forall x :: x in Names(c.included) <==> x in c.included;
  }

  /** Every spec carries a path, so the files counted as changed are none only without specs. */
  lemma ChangedOnlyWithSpecs(specs: seq<Spec>, leaves: Leaves)
    requires AllValid(specs)
    ensures |Publics(FirstOccurrences(AllPaths(specs, |specs|)), leaves)| == 0 <==> |specs| == 0
  {
    DeduplicationKeepsElements(AllPaths(specs, |specs|));
    if |specs| > 0 { assert |AllPaths(specs, |specs|)| >= |specs[|specs| - 1].paths|; }
  }

  lemma {:induction false} PathsAreAll(specs: seq<Spec>, n: nat, path: Text)
    requires n <= |specs|
    ensures path in AllPaths(specs, n) <==> exists i | 0 <= i < n :: path in specs[i].paths
  {
    if n > 0 { PathsAreAll(specs, n - 1, path); }
  }

  /** The files that count as changed are all paths of all changes, of a rename both, each
      under the name it may be shown by. */
  lemma ChangedFilesExactlyWhen(d: Discovery, limits: Limits, leaves: Leaves, name: Text)
    requires AllValid(d.specs)
    ensures
      name in DiffOf(d, limits, leaves).changedFiles <==>
        exists path, i | 0 <= i < |d.specs| ::
          path in d.specs[i].paths && name == if path in leaves.secret then Lit("<redacted path>") else path
  {
    hide Run, Lit, AllPaths, FirstOccurrences;
    var all := AllPaths(d.specs, |d.specs|);
    var paths := FirstOccurrences(all);
    var public := Publics(paths, leaves);
    DeduplicationKeepsElements(public);
    DeduplicationKeepsElements(all);
    forall path ensures path in paths <==> exists i | 0 <= i < |d.specs| :: path in d.specs[i].paths {
      PathsAreAll(d.specs, |d.specs|, path);
    }
    PublicsAre(paths, leaves, name);
  }

  lemma PublicsAre(paths: seq<Text>, leaves: Leaves, name: Text)
    ensures name in Publics(paths, leaves) <==>
      exists path :: path in paths && name == if path in leaves.secret then Lit("<redacted path>") else path
  {
    hide Lit;
    var public := Publics(paths, leaves);
    if name in public {
      var i :| 0 <= i < |public| && public[i] == name;
      assert paths[i] in paths;
    }
    if path :| path in paths && name == if path in leaves.secret then Lit("<redacted path>") else path {
      var i :| 0 <= i < |paths| && paths[i] == path;
      assert public[i] == name;
    }
  }

  lemma DiffDecided(d: Discovery, limits: Limits, leaves: Leaves)
    requires AllValid(d.specs)
    ensures
      var c, diff := Collection(d, limits, leaves), DiffOf(d, limits, leaves);
      && (Incomplete(diff) <==> !c.Complete())
      && (|diff.includedFiles| == 0 <==> |c.included| == 0)
      && (|diff.changedFiles| == 0 <==> |d.specs| == 0)
      && Allowed(diff) == Names(c.included)
      && diff.patch == c.parts
  {
    hide Incomplete, FirstOccurrences, AllPaths, Publics, Run, Names, Allowed;
    var changed := Publics(FirstOccurrences(AllPaths(d.specs, |d.specs|)), leaves);
    ChangedOnlyWithSpecs(d.specs, leaves);
    BuiltDiffIsComplete(changed, Collection(d, limits, leaves));
  }

  /** The diff of what Git printed is complete exactly when no listing was cut, every
      printed path is safe and within the discovery limit, and every change is public,
      readable, textual, uncut and has room in its turn. Then the i-th printed entry is
      the i-th change, and part by part, in order, the patch shows each of them that has
      something to show: its section and path, and its redacted text. */
  lemma ReviewIsCompleteExactlyWhen(scope: Scope, printout: Printout, limits: Limits, leaves: Leaves,
                                    outside: Outside, fetch: nat -> Fetched)
    requires Prints(scope, printout) && limits.maxFiles >= 1
    ensures
      var d := Discover(scope, limits, outside, fetch);
      var diff := DiffOf(d, limits, leaves);
      && (!Incomplete(diff) <==>
            && Uncut(scope) && printout.EverySafe(outside) && printout.FitsDiscovery(limits)
            && forall i | 0 <= i < |d.specs| :: Clean(d.specs[i], leaves) && HasRoom(d.specs, i, limits))
      && (!Incomplete(diff) ==>
            ListsPrintout(d.specs, scope, printout, outside, fetch)
            && ShowsAll(diff.patch, Collection(d, limits, leaves).included, d.specs, |d.specs|))
  {
    hide Discover, Prints, Run, Clean, HasRoom, ShowsAll, Incomplete, ListsPrintout, Uncut, DiffOf;
    hide Printout.EverySafe, Printout.FitsDiscovery, Printout.NothingSafe;
    var d := Discover(scope, limits, outside, fetch);
    DiscoveryDecided(scope, printout, limits, outside, fetch);
    CompleteExactlyWhen(d.state, d.specs, |d.specs|, limits, leaves);
    DiffDecided(d, limits, leaves);
  }

  /** A review that asked the reviewing client and approves saw everything Git printed:
      no listing was cut, every printed entry is one of the changes, each change was
      public, readable, textual and uncut, and the prompt shows the redacted patch of
      each in order, up to trailing whitespace, unless blank. No finding is critical or
      high, and each cites a shown file. */
  lemma ApprovalSawEverything(scope: Scope, printout: Printout, limits: Limits, leaves: Leaves,
                              outside: Outside, fetch: nat -> Fetched, answers: seq<Response>)
    requires Prints(scope, printout) && limits.maxFiles >= 1
    ensures
      var d := Discover(scope, limits, outside, fetch);
      var diff := DiffOf(d, limits, leaves);
      var r := ReviewOfDiscovery(d, limits, leaves, answers);
      Approves(r) && |diff.includedFiles| > 0 ==>
        && Uncut(scope) && ListsPrintout(d.specs, scope, printout, outside, fetch)
        && (forall i | 0 <= i < |d.specs| :: Clean(d.specs[i], leaves))
        && ShowsAll(diff.patch, Collection(d, limits, leaves).included, d.specs, |d.specs|)
        && SoundFindings(r.value.findings, Names(Collection(d, limits, leaves).included))
        && !Severe(r.value.findings)
  {
    hide Discover, Prints, Run, Clean, HasRoom, ShowsAll, Incomplete, ListsPrintout, Uncut, DiffOf;
    hide Printout.EverySafe, Printout.FitsDiscovery, SoundFindings, Names, Allowed, Severe;
    var d := Discover(scope, limits, outside, fetch);
    var diff := DiffOf(d, limits, leaves);
    ReviewIsCompleteExactlyWhen(scope, printout, limits, leaves, outside, fetch);
    ApprovalThroughClient(diff, answers);
    CompleteExactlyWhen(d.state, d.specs, |d.specs|, limits, leaves);
    DiffDecided(d, limits, leaves);
  }

  lemma ApprovalThroughClient(diff: ReviewDiff, answers: seq<Response>)
    ensures
      var r := ReviewOf(diff, answers);
      Approves(r) && |diff.includedFiles| > 0 ==>
        !Incomplete(diff) && SoundFindings(r.value.findings, Allowed(diff)) && !Severe(r.value.findings)
  {
    hide Normalize, SoundFindings, Incomplete, FirstValid, Allowed, Severe;
    if |diff.includedFiles| > 0 && FirstValid(answers, Allowed(diff)).Some? {
      var k := FirstValidIsValid(answers, Allowed(diff));
      AcceptedAnswerIsSound(answers[k], Allowed(diff));
    }
  }

  /** The false side: an approval of an incomplete diff. Whatever Git wrote, it happens
      exactly when no change was found and something was left out on the way; the
      reviewing client is then never asked. */
  lemma IncompleteApprovalExactlyWhen(scope: Scope, limits: Limits, leaves: Leaves,
                                      outside: Outside, fetch: nat -> Fetched, answers: seq<Response>)
    ensures
      var d := Discover(scope, limits, outside, fetch);
      Approves(ReviewOfDiscovery(d, limits, leaves, answers)) && Incomplete(DiffOf(d, limits, leaves))
      <==> !d.ended.Aborted? && |d.specs| == 0 && !d.state.Complete()
  {
    hide Discover, Run, Incomplete, DiffOf;
    var d := Discover(scope, limits, outside, fetch);
    DiffDecided(d, limits, leaves);
    ApprovalThroughClient(DiffOf(d, limits, leaves), answers);
    if |d.specs| == 0 { NothingCollected(d, limits, leaves); }
  }

  lemma NothingCollected(d: Discovery, limits: Limits, leaves: Leaves)
    requires |d.specs| == 0
    ensures Collection(d, limits, leaves) == d.state
  {
  }

  /** In terms of what Git printed, when no listing was cut: the review approves changes
      it never showed exactly when something was printed and no entry has safe paths. */
  lemma UnseenApprovalExactlyWhen(scope: Scope, printout: Printout, limits: Limits, leaves: Leaves,
                                  outside: Outside, fetch: nat -> Fetched, answers: seq<Response>)
    requires Prints(scope, printout) && Uncut(scope) && limits.maxFiles >= 1
    ensures
      var d := Discover(scope, limits, outside, fetch);
      Approves(ReviewOfDiscovery(d, limits, leaves, answers)) && Incomplete(DiffOf(d, limits, leaves))
      <==> printout.Count() > 0 && printout.NothingSafe(outside)
  {
    hide Discover, Prints, Run, Incomplete, DiffOf, ReviewOfDiscovery, Uncut;
    DiscoveryDecided(scope, printout, limits, outside, fetch);
    IncompleteApprovalExactlyWhen(scope, limits, leaves, outside, fetch, answers);
    SafeOrNot(printout, outside);
  }

  /** Every entry safe and none safe: there is no entry. */
  lemma SafeOrNot(printout: Printout, outside: Outside)
    ensures printout.NothingSafe(outside) ==> (printout.EverySafe(outside) <==> printout.Count() == 0)
  {
    hide NameStatus.Lists;
    match printout
    case TreePrintout(staged, unstaged, names) =>
      NoneAndAll(staged, outside);
      NoneAndAll(unstaged, outside);
      NoneAndAll(AsEntries(names), outside);
    case RangePrintout(entries) => NoneAndAll(entries, outside);
  }

  lemma NoneAndAll(entries: seq<NameStatus.ListedEntry>, outside: Outside)
    ensures NoneSafe(entries, outside) ==> (AllSafe(entries, outside) <==> |entries| == 0)
  {
    hide NameStatus.Lists;
    if |entries| > 0 { assert NameStatus.Lists(entries[0], outside) || !NameStatus.Lists(entries[0], outside); }
  }

  /** Such a range: one added file whose name holds a backslash. */
  lemma BackslashFileIsApproved(limits: Limits, leaves: Leaves, fetch: nat -> Fetched, answers: seq<Response>)
    requires limits.maxFiles >= 1
    ensures
      var entry := NameStatus.ListedEntry("A", ["a\\b"]);
      var output := GitOutput(NameStatus.Render([entry]), false, false);
      var d := Discover(Range("range", output), limits, {}, fetch);
      Approves(ReviewOfDiscovery(d, limits, leaves, answers)) && Incomplete(DiffOf(d, limits, leaves))
  {
    hide Discover, Incomplete, DiffOf, ReviewOfDiscovery, Approves;
    var entry := NameStatus.ListedEntry("A", ["a\\b"]);
    var scope := Range("range", GitOutput(NameStatus.Render([entry]), false, false));
    BackslashIsRefused(entry);
    UnseenApprovalExactlyWhen(scope, RangePrintout([entry]), limits, leaves, {}, fetch, answers);
  }

  lemma BackslashIsRefused(entry: NameStatus.ListedEntry)
    requires entry == NameStatus.ListedEntry("A", ["a\\b"])
    ensures NameStatus.WellFormed(entry) && !NameStatus.Lists(entry, {})
  {
    assert entry.paths[0][1] == '\\';
  }
}
