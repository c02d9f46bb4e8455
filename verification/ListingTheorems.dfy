/** What discovery finds of the entries Git printed. */
module ListingTheorems {
  import opened Prelude
  import opened Utf8
  import opened DiffCollection
  import opened DiffListing
  import opened NameStatus
  import PyText

  // ------------------------------------------------------------ one listing

  predicate AllSafe(entries: seq<ListedEntry>, outside: Outside) {
    forall i | 0 <= i < |entries| :: Lists(entries[i], outside)
  }

  predicate NoneSafe(entries: seq<ListedEntry>, outside: Outside) {
    forall i | 0 <= i < |entries| :: !Lists(entries[i], outside)
  }

  predicate AllWellFormed(entries: seq<ListedEntry>) {
    forall i | 0 <= i < |entries| :: WellFormed(entries[i])
  }

  /** The command wrote this text, of which less may have been kept when it was cut. */
  predicate Shows(output: GitOutput, text: string) {
    !output.failed && (output.truncated || output.stdout == text)
  }

  lemma {:induction false} CountsDecide(entries: seq<ListedEntry>, outside: Outside)
    ensures Unsafe(entries, outside) == 0 <==> AllSafe(entries, outside)
    ensures |Kept(entries, outside)| == 0 <==> NoneSafe(entries, outside)
    ensures |Kept(entries, outside)| + Unsafe(entries, outside) == |entries|
  {
    hide Lists;
    if |entries| > 0 {
      var rest := entries[1..];
      CountsDecide(rest, outside);
      assert forall i | 0 < i < |entries| :: entries[i] == rest[i - 1];
      assert forall i | 0 <= i < |rest| :: rest[i] == entries[i + 1];
    }
  }

  /** A listing that was not cut lists every entry exactly when all are safe and the cap
      has room for them, and lists nothing exactly when none is safe. */
  lemma ListingDecided(output: GitOutput, entries: seq<ListedEntry>, limits: Limits, outside: Outside)
    requires AllWellFormed(entries) && !output.truncated && Shows(output, Render(entries)) && limits.maxFiles >= 1
    ensures
      var listing := Parsed(output, limits, outside);
      && (listing.dropped == 0 && !listing.capped <==>
            AllSafe(entries, outside) && |entries| <= DiscoveryLimit(limits))
      && (listing.dropped == 0 && !listing.capped ==>
            listing.changes == Kept(entries, outside) && |listing.changes| == |entries|)
      && (|listing.changes| == 0 <==> NoneSafe(entries, outside))
      && (|listing.changes| == 0 ==> !listing.capped && listing.dropped == |entries|)
      && (AllSafe(entries, outside) && |entries| >= DiscoveryLimit(limits) ==> |listing.changes| == DiscoveryLimit(limits))
  {
    hide Kept, Unsafe, Consumed, Lists, WellFormed, Render, ParseFrom, PyText.Split;
    var limit := DiscoveryLimit(limits);
    ListingRoundTrip(entries, limit, outside);
    var n := Consumed(entries, limit, outside);
    CountsDecide(entries, outside);
    CountsDecide(entries[..n], outside);
    if n == |entries| { assert entries[..n] == entries; }
    if NoneSafe(entries, outside) { assert NoneSafe(entries[..n], outside); }
    if AllSafe(entries, outside) { assert AllSafe(entries[..n], outside); }
  }

  lemma NotingKeepsComplete(c: Collected, truncated: bool, listing: Listing)
    ensures Noted(c, truncated, listing).Complete()
       <==> c.Complete() && !truncated && listing.dropped == 0 && !listing.capped
  {
  }

  lemma RangeDecided(section: string, output: GitOutput, entries: seq<ListedEntry>,
                     limits: Limits, outside: Outside, fetch: nat -> Fetched)
    requires AllWellFormed(entries) && Shows(output, Render(entries)) && limits.maxFiles >= 1
    ensures
      var r := RangeDiscovery(NOTHING_YET, section, output, limits, outside, fetch);
      && r.ended.Going?
      && (r.state.Complete() <==>
            !output.truncated && AllSafe(entries, outside) && |entries| <= DiscoveryLimit(limits))
      && (r.state.Complete() ==>
            r.specs == SpecsOf(section, Kept(entries, outside), 0, fetch) && |Kept(entries, outside)| == |entries|)
      && (!output.truncated ==> (|r.specs| == 0 <==> NoneSafe(entries, outside)))
  {
    hide Parsed, Noted, SpecsOf, AllSafe, NoneSafe, Kept, AllWellFormed, Render;
    NotingKeepsComplete(NOTHING_YET, output.truncated, Parsed(output, limits, outside));
    if !output.truncated { ListingDecided(output, entries, limits, outside); }
  }

  // ------------------------------------------------------- the working tree

  /** Between the commands: the search goes on with room left, unless it is full. */
  predicate Sane(d: Discovery, limits: Limits) {
    && limits.maxFiles >= 1
    && (d.ended.Going? ==> |d.specs| < DiscoveryLimit(limits))
    && (d.ended.Full? ==> d.state.truncated && |d.specs| > 0)
    && !d.ended.Aborted?
  }

  /** What was left to find is found: it follows the specs found before. */
  predicate Extends(r: Discovery, d: Discovery, section: string, changes: seq<PathChange>, fetch: nat -> Fetched) {
    r.specs == d.specs + SpecsOf(section, changes, |d.specs|, fetch)
  }

  lemma SectionDecided(d: Discovery, section: string, output: GitOutput, entries: seq<ListedEntry>,
                       limits: Limits, outside: Outside, fetch: nat -> Fetched)
    requires Sane(d, limits) && AllWellFormed(entries) && Shows(output, Render(entries))
    ensures
      var r := Section(d, section, output, limits, outside, fetch);
      && Sane(r, limits)
      && (r.state.Complete() <==>
            && d.state.Complete() && !output.truncated && AllSafe(entries, outside)
            && |d.specs| + |entries| < DiscoveryLimit(limits))
      && (r.state.Complete() ==>
            Extends(r, d, section, Kept(entries, outside), fetch) && |Kept(entries, outside)| == |entries|)
      && (!output.truncated ==> (|r.specs| == 0 <==> |d.specs| == 0 && NoneSafe(entries, outside)))
  {
    hide Parsed, Noted, AllSafe, NoneSafe, Kept, AllWellFormed, Render;
    NotingKeepsComplete(d.state, output.truncated, Parsed(output, limits, outside));
    if !output.truncated { ListingDecided(output, entries, limits, outside); }
  }

  // -------------------------------------------------------- untracked names

  /** An untracked file is an added one. */
  function AsEntries(names: seq<string>): (entries: seq<ListedEntry>)
    ensures |entries| == |names|
  {
    seq(|names|, i requires 0 <= i < |names| => ListedEntry("A", [names[i]]))
  }

  predicate FileNames(names: seq<string>) {
    forall i | 0 <= i < |names| :: names[i] != "" && NUL !in names[i]
  }

  /** What one entry adds to the kept ones. */
  function KeptOne(e: ListedEntry, outside: Outside): seq<PathChange> {
    if Lists(e, outside) then [PathChange(e.status, Normalized(e.paths, outside))] else []
  }

  lemma KeptHead(entries: seq<ListedEntry>, outside: Outside)
    requires |entries| > 0
    ensures Kept(entries, outside) == KeptOne(entries[0], outside) + Kept(entries[1..], outside)
  {
  }

  lemma {:induction false} KeptPush(entries: seq<ListedEntry>, e: ListedEntry, outside: Outside)
    ensures Kept(entries + [e], outside) == Kept(entries, outside) + KeptOne(e, outside)
  {
    hide *;
    var longer := entries + [e];
    KeptHead(longer, outside);
    if |entries| == 0 {
      assert longer[0] == e && longer[1..] == [] && entries == [];
      assert Kept([], outside) == [] by { NothingKept([], outside); }
    } else {
      KeptPush(entries[1..], e, outside);
      KeptHead(entries, outside);
      assert longer[1..] == entries[1..] + [e] && longer[0] == entries[0];
      ConcatAssociates(KeptOne(entries[0], outside), Kept(entries[1..], outside), KeptOne(e, outside));
    }
  }

  lemma OneName(name: string, outside: Outside)
    ensures Lists(ListedEntry("A", [name]), outside) <==> NormalizeRepoPath(name, outside).Some?
    ensures Lists(ListedEntry("A", [name]), outside) ==>
      Normalized([name], outside) == [NormalizeRepoPath(name, outside).value]
  {
    assert [name][0] == name;
  }

  lemma SpecsOfPush(section: string, changes: seq<PathChange>, change: PathChange, from: nat, fetch: nat -> Fetched)
    ensures SpecsOf(section, changes + [change], from, fetch)
         == SpecsOf(section, changes, from, fetch) + SpecsOf(section, [change], from + |changes|, fetch)
  {
  }

  lemma SafePush(entries: seq<ListedEntry>, e: ListedEntry, outside: Outside)
    ensures AllSafe(entries + [e], outside) <==> AllSafe(entries, outside) && Lists(e, outside)
    ensures NoneSafe(entries + [e], outside) <==> NoneSafe(entries, outside) && !Lists(e, outside)
  {
    hide Lists;
    var longer := entries + [e];
    assert longer[|entries|] == e && forall i | 0 <= i < |entries| :: longer[i] == entries[i];
  }

  lemma NamesPush(names: seq<string>, n: nat)
    requires 0 < n <= |names|
    ensures AsEntries(names[..n]) == AsEntries(names[..n - 1]) + [ListedEntry("A", [names[n - 1]])]
  {
  }

  lemma ExtendedLength(r: Discovery, d: Discovery, section: string, changes: seq<PathChange>, fetch: nat -> Fetched)
    ensures Extends(r, d, section, changes, fetch) ==> |r.specs| == |d.specs| + |changes|
  {
  }

  lemma {:induction false} NamesDecided(d: Discovery, pieces: seq<string>, names: seq<string>, n: nat,
                                        limits: Limits, outside: Outside, fetch: nat -> Fetched)
    requires Sane(d, limits) && d.ended.Going? && FileNames(names) && n <= |names| <= |pieces|
    requires forall i | 0 <= i < |names| :: pieces[i] == names[i]
    ensures
      var r := TakeNames(d, pieces, n, limits, outside, fetch);
      var entries := AsEntries(names[..n]);
      && Sane(r, limits)
      && (r.state.Complete() <==>
            d.state.Complete() && AllSafe(entries, outside) && |d.specs| + n < DiscoveryLimit(limits))
      && (r.state.Complete() ==>
            Extends(r, d, "untracked", Kept(entries, outside), fetch) && |Kept(entries, outside)| == n)
      && (|r.specs| == 0 <==> |d.specs| == 0 && NoneSafe(entries, outside))
  {
    hide TakeName, Extends, AsEntries, AllSafe, NoneSafe, Lists, Kept, NormalizeRepoPath;
    if n == 0 {
      NoNames(d, outside, fetch);
      assert names[..0] == [];
    } else {
      NamesDecided(d, pieces, names, n - 1, limits, outside, fetch);
      var before := TakeNames(d, pieces, n - 1, limits, outside, fetch);
      var e, entries := ListedEntry("A", [names[n - 1]]), AsEntries(names[..n - 1]);
      NamesPush(names, n);
      SafePush(entries, e, outside);
      KeptPush(entries, e, outside);
      ExtendedLength(before, d, "untracked", Kept(entries, outside), fetch);
      if before.ended.Going? {
        NameDecided(d, before, names[n - 1], Kept(entries, outside), limits, outside, fetch);
      }
    }
  }

  lemma NoNames(d: Discovery, outside: Outside, fetch: nat -> Fetched)
    ensures
      var entries := AsEntries([]);
      && AllSafe(entries, outside) && NoneSafe(entries, outside) && Kept(entries, outside) == []
      && Extends(d, d, "untracked", [], fetch)
  {
  }

  lemma NameDecided(d: Discovery, before: Discovery, name: string, kept: seq<PathChange>,
                    limits: Limits, outside: Outside, fetch: nat -> Fetched)
    requires Sane(before, limits) && before.ended.Going? && name != ""
    ensures
      var e := ListedEntry("A", [name]);
      var r := TakeName(before, name, limits, outside, fetch);
      && Sane(r, limits)
      && (r.state.Complete() <==>
            before.state.Complete() && Lists(e, outside) && |before.specs| + 1 < DiscoveryLimit(limits))
      && (r.state.Complete() ==>
            |r.specs| == |before.specs| + 1
            && (Extends(before, d, "untracked", kept, fetch) ==>
                  Extends(r, d, "untracked", kept + [PathChange("A", Normalized([name], outside))], fetch)))
      && (|r.specs| == 0 <==> |before.specs| == 0 && !Lists(e, outside))
  {
    hide NormalizeRepoPath, Lists, Normalized;
    OneName(name, outside);
    if NormalizeRepoPath(name, outside).Some? {
      var change := PathChange("A", [NormalizeRepoPath(name, outside).value]);
      SpecsOfPush("untracked", kept, change, |d.specs|, fetch);
      ConcatAssociates(d.specs, SpecsOf("untracked", kept, |d.specs|, fetch),
                       SpecsOf("untracked", [change], |d.specs| + |kept|, fetch));
    }
  }

  lemma UntrackedTokens(names: seq<string>)
    requires FileNames(names)
    ensures PyText.Split(Terminated(names), NUL) == names + [""]
  {
    TerminatedTokens(names, "");
    assert Terminated(names) + "" == Terminated(names);
  }

  lemma UntrackedDecided(d: Discovery, output: GitOutput, names: seq<string>,
                         limits: Limits, outside: Outside, fetch: nat -> Fetched)
    requires Sane(d, limits) && FileNames(names) && Shows(output, Terminated(names))
    ensures
      var r := Untracked(d, output, limits, outside, fetch);
      var entries := AsEntries(names);
      && !r.ended.Aborted?
      && (r.state.Complete() <==>
            && d.state.Complete() && !output.truncated && AllSafe(entries, outside)
            && |d.specs| + |names| < DiscoveryLimit(limits))
      && (r.state.Complete() ==>
            Extends(r, d, "untracked", Kept(entries, outside), fetch) && |Kept(entries, outside)| == |names|)
      && (!output.truncated ==> (|r.specs| == 0 <==> |d.specs| == 0 && NoneSafe(entries, outside)))
  {
    hide TakeNames, TakeName, AllSafe, NoneSafe, Kept, AsEntries, Terminated, PyText.Split;
    if d.ended.Going? {
      var pieces := PyText.Split(output.stdout, NUL);
      if output.truncated {
        CutStaysCut(d.(state := d.state.Truncated().Warn(UntrackedListTruncated)), pieces, |pieces|, limits, outside, fetch);
      } else {
        UntrackedTokens(names);
        NamesDecided(d, pieces, names, |names|, limits, outside, fetch);
        assert names[..|names|] == names;
        LastPieceIsNoName(d, names, limits, outside, fetch);
      }
    }
  }

  lemma LastPieceIsNoName(d: Discovery, names: seq<string>, limits: Limits, outside: Outside, fetch: nat -> Fetched)
    ensures
      var pieces := names + [""];
      TakeNames(d, pieces, |pieces|, limits, outside, fetch) == TakeNames(d, pieces, |names|, limits, outside, fetch)
  {
  }

  lemma {:induction false} CutStaysCut(d: Discovery, pieces: seq<string>, n: nat,
                                       limits: Limits, outside: Outside, fetch: nat -> Fetched)
    requires d.state.truncated && !d.ended.Aborted? && n <= |pieces|
    ensures
      var r := TakeNames(d, pieces, n, limits, outside, fetch);
      r.state.truncated && !r.ended.Aborted?
  {
    hide NormalizeRepoPath, SpecsOf;
    if n > 0 { CutStaysCut(d, pieces, n - 1, limits, outside, fetch); }
  }

  // ------------------------------------------------------------ a whole scope

  /** What the listing commands of a scope print, section by section. */
  datatype Printout =
    | TreePrintout(staged: seq<ListedEntry>, unstaged: seq<ListedEntry>, names: seq<string>)
    | RangePrintout(entries: seq<ListedEntry>)
  {
    function Count(): nat {
      match this
      case TreePrintout(staged, unstaged, names) => |staged| + |unstaged| + |names|
      case RangePrintout(entries) => |entries|
    }

    predicate EverySafe(outside: Outside) {
      match this
      case TreePrintout(staged, unstaged, names) =>
        AllSafe(staged, outside) && AllSafe(unstaged, outside) && AllSafe(AsEntries(names), outside)
      case RangePrintout(entries) => AllSafe(entries, outside)
    }

    predicate NothingSafe(outside: Outside) {
      match this
      case TreePrintout(staged, unstaged, names) =>
        NoneSafe(staged, outside) && NoneSafe(unstaged, outside) && NoneSafe(AsEntries(names), outside)
      case RangePrintout(entries) => NoneSafe(entries, outside)
    }

    /** The discovery limit leaves room; reaching it already counts as a cut in the
        working tree. */
    predicate FitsDiscovery(limits: Limits) {
      match this
      case TreePrintout(_, _, _) => Count() < 2 * limits.maxFiles
      case RangePrintout(_) => Count() <= 2 * limits.maxFiles
    }
  }

  predicate Prints(scope: Scope, printout: Printout) {
    match scope
    case WorkingTree(staged, unstaged, untracked) =>
      && printout.TreePrintout? && FileNames(printout.names)
      && AllWellFormed(printout.staged) && AllWellFormed(printout.unstaged)
      && Shows(staged, Render(printout.staged)) && Shows(unstaged, Render(printout.unstaged))
      && Shows(untracked, Terminated(printout.names))
    case Range(_, output) =>
      printout.RangePrintout? && AllWellFormed(printout.entries) && Shows(output, Render(printout.entries))
  }

  predicate Uncut(scope: Scope) {
    match scope
    case WorkingTree(staged, unstaged, untracked) => !staged.truncated && !unstaged.truncated && !untracked.truncated
    case Range(_, output) => !output.truncated
  }

  /** The entries are the specs from this position on, under their normalized paths. */
  predicate ListsEach(specs: seq<Spec>, from: nat, section: string, entries: seq<ListedEntry>,
                      outside: Outside, fetch: nat -> Fetched) {
    && from + |entries| <= |specs|
    && forall i | 0 <= i < |entries| ::
         Lists(entries[i], outside)
         && specs[from + i] == Spec(Lit(section), Texts(Normalized(entries[i].paths, outside)), fetch(from + i))
  }

  predicate ListsPrintout(specs: seq<Spec>, scope: Scope, printout: Printout, outside: Outside, fetch: nat -> Fetched)
    requires Prints(scope, printout)
  {
    && |specs| == printout.Count()
    && match printout
       case TreePrintout(staged, unstaged, names) =>
         && ListsEach(specs, 0, "staged", staged, outside, fetch)
         && ListsEach(specs, |staged|, "unstaged", unstaged, outside, fetch)
         && ListsEach(specs, |staged| + |unstaged|, "untracked", AsEntries(names), outside, fetch)
       case RangePrintout(entries) => ListsEach(specs, 0, scope.section, entries, outside, fetch)
  }

  lemma {:induction false} KeptAt(entries: seq<ListedEntry>, i: nat, outside: Outside)
    requires AllSafe(entries, outside) && i < |entries|
    ensures |Kept(entries, outside)| == |entries|
    ensures Kept(entries, outside)[i] == PathChange(entries[i].status, Normalized(entries[i].paths, outside))
  {
    hide Lists, Normalized;
    CountsDecide(entries, outside);
    var rest := entries[1..];
    assert forall k | 0 <= k < |rest| :: rest[k] == entries[k + 1];
    assert Lists(entries[0], outside);
    if i > 0 { KeptAt(rest, i - 1, outside); }
  }

  lemma ExtensionLists(r: Discovery, d: Discovery, section: string, entries: seq<ListedEntry>,
                       outside: Outside, fetch: nat -> Fetched)
    requires AllSafe(entries, outside) && Extends(r, d, section, Kept(entries, outside), fetch)
    ensures |r.specs| == |d.specs| + |entries| && d.specs <= r.specs
    ensures ListsEach(r.specs, |d.specs|, section, entries, outside, fetch)
  {
    hide NameStatus.Safe, Normalized, Kept;
    CountsDecide(entries, outside);
    forall i | 0 <= i < |entries|
      ensures Lists(entries[i], outside)
      ensures r.specs[|d.specs| + i]
           == Spec(Lit(section), Texts(Normalized(entries[i].paths, outside)), fetch(|d.specs| + i))
    {
      KeptAt(entries, i, outside);
    }
  }

  lemma ListedInLonger(specs: seq<Spec>, longer: seq<Spec>, from: nat, section: string, entries: seq<ListedEntry>,
                       outside: Outside, fetch: nat -> Fetched)
    requires ListsEach(specs, from, section, entries, outside, fetch) && specs <= longer
    ensures ListsEach(longer, from, section, entries, outside, fetch)
  {
    hide Lists, Normalized;
  }

  /** Discovery is complete exactly when no output was cut, every printed path is safe
      and the limit leaves room; then the i-th printed entry is the i-th spec. Without a
      cut, nothing is found exactly when no printed entry is safe. */
  lemma DiscoveryDecided(scope: Scope, printout: Printout, limits: Limits, outside: Outside, fetch: nat -> Fetched)
    requires Prints(scope, printout) && limits.maxFiles >= 1
    ensures
      var d := Discover(scope, limits, outside, fetch);
      && !d.ended.Aborted?
      && (d.state.Complete() <==> Uncut(scope) && printout.EverySafe(outside) && printout.FitsDiscovery(limits))
      && (d.state.Complete() ==> ListsPrintout(d.specs, scope, printout, outside, fetch))
      && (Uncut(scope) ==> (|d.specs| == 0 <==> printout.NothingSafe(outside)))
  {
    if scope.Range? {
      RangeScopeDecided(scope, printout, limits, outside, fetch);
    } else {
      TreeScopeDecided(scope, printout, limits, outside, fetch);
    }
  }

  lemma RangeScopeDecided(scope: Scope, printout: Printout, limits: Limits, outside: Outside, fetch: nat -> Fetched)
    requires scope.Range? && Prints(scope, printout) && limits.maxFiles >= 1
    ensures
      var d := Discover(scope, limits, outside, fetch);
      && !d.ended.Aborted?
      && (d.state.Complete() <==> Uncut(scope) && printout.EverySafe(outside) && printout.FitsDiscovery(limits))
      && (d.state.Complete() ==> ListsPrintout(d.specs, scope, printout, outside, fetch))
      && (Uncut(scope) ==> (|d.specs| == 0 <==> printout.NothingSafe(outside)))
  {
    hide RangeDiscovery, Extends, AllSafe, NoneSafe, ListsEach, Kept, AllWellFormed, Render, SpecsOf;
    var entries := printout.entries;
    RangeDecided(scope.section, scope.output, entries, limits, outside, fetch);
    var d := Discover(scope, limits, outside, fetch);
    if d.state.Complete() {
      StartsExtended(d, scope.section, Kept(entries, outside), fetch);
      ExtensionLists(d, Discovery([], NOTHING_YET, Going), scope.section, entries, outside, fetch);
    }
  }

  lemma StartsExtended(d: Discovery, section: string, changes: seq<PathChange>, fetch: nat -> Fetched)
    requires d.specs == SpecsOf(section, changes, 0, fetch)
    ensures Extends(d, Discovery([], NOTHING_YET, Going), section, changes, fetch)
  {
    assert [] + d.specs == d.specs;
  }

  lemma TreeScopeDecided(scope: Scope, printout: Printout, limits: Limits, outside: Outside, fetch: nat -> Fetched)
    requires scope.WorkingTree? && Prints(scope, printout) && limits.maxFiles >= 1
    ensures
      var d := Discover(scope, limits, outside, fetch);
      && !d.ended.Aborted?
      && (d.state.Complete() <==> Uncut(scope) && printout.EverySafe(outside) && printout.FitsDiscovery(limits))
      && (d.state.Complete() ==> ListsPrintout(d.specs, scope, printout, outside, fetch))
      && (Uncut(scope) ==> (|d.specs| == 0 <==> printout.NothingSafe(outside)))
  {
    hide Section, Untracked, Extends, AllSafe, NoneSafe, ListsEach, Kept, AllWellFormed, Render, Terminated, AsEntries;
    var staged, unstaged, untracked := printout.staged, printout.unstaged, AsEntries(printout.names);
    var d0 := Discovery([], NOTHING_YET, Going);
    SectionDecided(d0, "staged", scope.staged, staged, limits, outside, fetch);
    var d1 := Section(d0, "staged", scope.staged, limits, outside, fetch);
    SectionDecided(d1, "unstaged", scope.unstaged, unstaged, limits, outside, fetch);
    var d2 := Section(d1, "unstaged", scope.unstaged, limits, outside, fetch);
    UntrackedDecided(d2, scope.untracked, printout.names, limits, outside, fetch);
    var d3 := Untracked(d2, scope.untracked, limits, outside, fetch);
    if d1.state.Complete() { ExtensionLists(d1, d0, "staged", staged, outside, fetch); }
    if d2.state.Complete() { ExtensionLists(d2, d1, "unstaged", unstaged, outside, fetch); }
    if d3.state.Complete() {
      ExtensionLists(d3, d2, "untracked", untracked, outside, fetch);
      ListedInLonger(d1.specs, d3.specs, 0, "staged", staged, outside, fetch);
      ListedInLonger(d2.specs, d3.specs, |d1.specs|, "unstaged", unstaged, outside, fetch);
    }
  }
}
