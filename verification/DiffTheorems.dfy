/** What holds of every collection, for every list of changes, every limit and every
    outcome of the leaf decisions. */
module DiffTheorems {
  import opened Prelude
  import opened Utf8
  import opened DiffCollection

  /** The patch sent to the reviewing client. */
  function Joined(parts: seq<Text>): Text {
    if |parts| == 0 then []
    else if |parts| == 1 then parts[0]
    else Joined(parts[..|parts| - 1]) + SEPARATOR + parts[|parts| - 1]
  }

  function Names(paths: seq<Text>): set<Text> {
    set i | 0 <= i < |paths| :: paths[i]
  }

  // ------------------------------------------------------------ one segment

  lemma LiteralIsPlain(s: string)
    ensures Replaced(Lit(s)) == Lit(s)
  {
  }

  lemma CutMarker(maxBytes: int) returns (m: nat)
    ensures m <= |TOTAL_MARKER| && TruncateUtf8(TOTAL_MARKER, maxBytes).0 == TOTAL_MARKER[..m]
  {
    hide TruncateUtf8, Encode, Replaced, Lit;
    LiteralIsPlain("\n[SYLLIPTOR: total diff limit reached]");
    TruncationKeepsWholeChars(TOTAL_MARKER, maxBytes);
    m := |TruncateUtf8(TOTAL_MARKER, maxBytes).0|;
    assert TOTAL_MARKER[..|TOTAL_MARKER|] == TOTAL_MARKER;
  }

  lemma CutAgain(segment: Text, k: nat, maxBytes: int) returns (n: nat)
    requires k <= |segment|
    ensures n <= k && TruncateUtf8(Replaced(segment)[..k], maxBytes).0 == Replaced(segment)[..n]
  {
    var text := Replaced(segment)[..k];
    assert Replaced(text) == text;
    hide TruncateUtf8, Encode, Replaced;
    TruncationKeepsWholeChars(text, maxBytes);
    n := |TruncateUtf8(text, maxBytes).0|;
    assert text[..|text|] == text;
  }

  /** A segment is kept whole or cut; either way it stays within what remains. A cut
      one is a whole-character prefix followed by as much of the marker as fits. */
  lemma CutSegmentStaysWithinBudget(segment: Text, remaining: int)
    ensures
      var (kept, cut) := Fit(segment, remaining);
      && (cut <==> |Encode(segment)| > remaining)
      && (!cut ==> kept == segment)
      && |Encode(kept)| <= MaxInt(0, remaining)
      && (cut ==> exists n, m | 0 <= n <= |segment| && 0 <= m <= |TOTAL_MARKER| ::
            kept == Replaced(segment)[..n] + TOTAL_MARKER[..m])
  {
    hide TruncateUtf8, Encode, Replaced;
    TruncationKeepsWholeChars(segment, remaining);
    var (kept, cut) := TruncateUtf8(segment, remaining);
    if cut {
      var marker := TruncateUtf8(TOTAL_MARKER, remaining).0;
      var budget := MaxInt(0, remaining - |Encode(marker)|);
      var prefix := TruncateUtf8(kept, budget).0;
      TruncationKeepsWholeChars(TOTAL_MARKER, remaining);
      TruncationKeepsWholeChars(kept, budget);
      EncodeConcat(prefix, marker);
      var m := CutMarker(remaining);
      var n := CutAgain(segment, |kept|, budget);
    }
  }

  // ------------------------------------------------------- every collection

  lemma JoinedBytes(parts: seq<Text>, part: Text)
    ensures |Encode(Joined(parts + [part]))| == |Encode(Joined(parts))| + SeparatorBytes(parts) + |Encode(part)|
  {
    assert (parts + [part])[..|parts|] == parts;
    if |parts| > 0 {
      assert |Encode(SEPARATOR)| == 2 by { assert SEPARATOR == [0x0A, 0x0A]; assert SEPARATOR[1..] == [0x0A]; }
      hide Encode;
      EncodeConcat(Joined(parts), SEPARATOR);
      EncodeConcat(Joined(parts) + SEPARATOR, part);
    } else {
      hide Encode;
      assert (parts + [part])[0] == part;
      assert |Encode(Joined(parts))| == 0 by { EmptyHasNoBytes(); }
    }
  }

  lemma EmptyHasNoBytes()
    ensures |Encode([])| == 0
  {
  }

  predicate BytesAreExact(c: Collected, limits: Limits) {
    c.totalBytes == |Encode(Joined(c.parts))| <= limits.maxTotalBytes
  }

  predicate FilesAreBounded(p: Progress, limits: Limits) {
    && |p.state.included| == |p.state.parts|
    && p.accepted == Names(p.state.included) && |p.accepted| <= limits.maxFiles
  }

  lemma AppendKeepsBytes(p: Progress, path: Text, segment: Text, limits: Limits)
    requires BytesAreExact(p.state, limits)
    ensures BytesAreExact(Append(p, path, segment, limits).state, limits)
  {
    hide Fit, Encode, Joined;
    var c := p.state;
    var remaining := limits.maxTotalBytes - c.totalBytes - SeparatorBytes(c.parts);
    CutSegmentStaysWithinBudget(segment, remaining);
    var kept := Fit(segment, remaining).0;
    JoinedBytes(c.parts, kept);
    if |kept| > 0 && remaining < 0 { EncodedIsLonger(kept); }
  }

  lemma EncodedIsLonger(t: Text)
    ensures |Encode(t)| >= |t|
  {
  }

  lemma NamesPush(paths: seq<Text>, path: Text)
    ensures Names(paths + [path]) == Names(paths) + {path}
  {
    assert (paths + [path])[|paths|] == path;
    assert forall i | 0 <= i < |paths| :: (paths + [path])[i] == paths[i];
  }

  lemma AppendKeepsFiles(p: Progress, path: Text, segment: Text, limits: Limits)
    requires FilesAreBounded(p, limits) && (path in p.accepted || |p.accepted| < limits.maxFiles)
    ensures FilesAreBounded(Append(p, path, segment, limits), limits)
  {
    hide Fit, Names;
    NamesPush(p.state.included, path);
    if path in p.accepted { assert p.accepted + {path} == p.accepted; }
  }

  lemma TakeKeepsBounds(p: Progress, spec: Spec, limits: Limits, leaves: Leaves)
    requires spec.Valid() && BytesAreExact(p.state, limits) && FilesAreBounded(p, limits)
    ensures BytesAreExact(Take(p, spec, limits, leaves).state, limits)
    ensures FilesAreBounded(Take(p, spec, limits, leaves), limits)
  {
    hide Encode, Joined, Segment, Append, Names, Blank;
    if spec.fetched.Patch? {
      var q := p.(state := if spec.fetched.cut then p.state.Truncated().Warn(FileDiffsTruncated) else p.state);
      AppendKeepsBytes(q, spec.Display(), Segment(spec), limits);
      if spec.Display() in p.accepted || |p.accepted| < limits.maxFiles {
        AppendKeepsFiles(q, spec.Display(), Segment(spec), limits);
      }
    }
  }

  /** At every turn the byte count is exactly the UTF-8 length of the joined patch and
      within the limit, and no more than the allowed number of distinct files is
      included, one part each time. */
  lemma {:induction false} CollectionIsBounded(init: Collected, specs: seq<Spec>, n: nat, limits: Limits, leaves: Leaves)
    requires n <= |specs| && AllValid(specs) && init.Fresh()
    ensures
      var p := Run(init, specs, n, limits, leaves);
      BytesAreExact(p.state, limits) && FilesAreBounded(p, limits)
  {
    hide Take;
    if n == 0 {
      EmptyHasNoBytes();
    } else {
      CollectionIsBounded(init, specs, n - 1, limits, leaves);
      var p := Run(init, specs, n - 1, limits, leaves);
      if !p.stopped { TakeKeepsBounds(p, specs[n - 1], limits, leaves); }
    }
  }

  // -------------------------------------------------------- nothing vanishes

  /** d is c with more recorded. */
  predicate Extends(c: Collected, d: Collected) {
    && c.parts <= d.parts && c.included <= d.included && c.omitted <= d.omitted
    && (c.truncated ==> d.truncated)
  }

  predicate OmittedIn(c: Collected, path: Text) {
    exists k | 0 <= k < |c.omitted| :: c.omitted[k].path == path
  }

  predicate IncludedIn(c: Collected, path: Text, segment: Text) {
    exists k | 0 <= k < |c.parts| && k < |c.included| :: c.included[k] == path && c.parts[k] == segment
  }

  const NEWLINE: CodePoint := 0x0A

  /** The part is a line naming section and path, and then the redacted patch up to
      trailing whitespace; when the patch was cut, the marker of a cut file follows. */
  predicate Shows(part: Text, spec: Spec)
    requires spec.Valid() && spec.fetched.Patch?
  {
    var header := Lit("### ") + spec.section + Lit(": ") + spec.paths[|spec.paths| - 1] + [NEWLINE];
    var body := RStrip(spec.fetched.redacted);
    var end := if spec.fetched.cut then [NEWLINE] + Lit("[SYLLIPTOR: file diff truncated]") else [];
    && |part| == |header| + |body| + |end|
    && part[..|header|] == header && part[|header|..|header| + |body|] == body && part[|header| + |body|..] == end
  }

  lemma SegmentShows(spec: Spec)
    requires spec.Valid() && spec.fetched.Patch?
    ensures Shows(Segment(spec), spec)
  {
    MarkerLines();
    var header := Lit("### ") + spec.section + Lit(": ") + spec.Display() + [NEWLINE];
    var body := RStrip(spec.fetched.redacted);
    var end := if spec.fetched.cut then [NEWLINE] + Lit("[SYLLIPTOR: file diff truncated]") else [];
    hide Lit, RStrip, FILE_MARKER;
    assert Segment(spec) == header + body + end;
    ThreeParts(header, body, end);
  }

  lemma ThreeParts(header: Text, body: Text, end: Text)
    ensures
      var part := header + body + end;
      && part[..|header|] == header && part[|header|..|header| + |body|] == body && part[|header| + |body|..] == end
  {
  }

  lemma MarkerLines()
    ensures Lit("\n") == [NEWLINE] && FILE_MARKER == [NEWLINE] + Lit("[SYLLIPTOR: file diff truncated]")
  {
    assert "\n[SYLLIPTOR: file diff truncated]" == "\n" + "[SYLLIPTOR: file diff truncated]";
    LitConcat("\n", "[SYLLIPTOR: file diff truncated]");
  }

  lemma LitConcat(a: string, b: string)
    ensures Lit(a + b) == Lit(a) + Lit(b)
  {
  }

  /** Under its path, a part of the patch shows the change. */
  predicate ShownIn(c: Collected, spec: Spec)
    requires spec.Valid() && spec.fetched.Patch?
  {
    exists k | 0 <= k < |c.parts| && k < |c.included| :: c.included[k] == spec.Display() && Shows(c.parts[k], spec)
  }

  predicate Shown(spec: Spec) {
    spec.fetched.Patch? && !Blank(spec.fetched.redacted)
  }

  /** Every change ends up included with its whole segment, or omitted under its
      public path, or has nothing to show, or the diff is marked truncated. */
  predicate Accounted(c: Collected, spec: Spec, leaves: Leaves)
    requires spec.Valid()
  {
    || c.truncated
    || OmittedIn(c, leaves.PublicPath(spec.Display()))
    || (spec.fetched.Patch? && !Shown(spec))
    || (spec.fetched.Patch? && ShownIn(c, spec))
  }

  lemma AppendIsSeen(p: Progress, path: Text, segment: Text, limits: Limits)
    requires |p.state.parts| == |p.state.included| && |segment| > 0
    ensures
      var q := Append(p, path, segment, limits);
      && Extends(p.state, q.state)
      && (q.stopped ==> q.state.truncated)
      && (q.state.truncated || IncludedIn(q.state, path, segment))
  {
    hide Fit;
    var c, q := p.state, Append(p, path, segment, limits);
    CutSegmentStaysWithinBudget(segment, limits.maxTotalBytes - c.totalBytes - SeparatorBytes(c.parts));
    if !q.state.truncated {
      assert q.state.parts[|c.parts|] == segment && q.state.included[|c.parts|] == path;
    }
  }

  lemma SegmentIsNotEmpty(spec: Spec)
    requires spec.Valid() && spec.fetched.Patch?
    ensures |Segment(spec)| > 0
  {
    assert Lit("### ")[0] == Segment(spec)[0];
  }

  lemma PublicUnlessHidden(spec: Spec, leaves: Leaves)
    requires spec.Valid() && !leaves.Hidden(spec)
    ensures leaves.PublicPath(spec.Display()) == spec.Display()
  {
  }

  /** The turn gets as far as appending a segment. */
  predicate Appends(p: Progress, spec: Spec, limits: Limits, leaves: Leaves)
    requires spec.Valid()
  {
    && !leaves.Hidden(spec) && (spec.Display() in p.accepted || |p.accepted| < limits.maxFiles)
    && p.state.totalBytes < limits.maxTotalBytes
    && Shown(spec) && !spec.fetched.binary
  }

  function Noted(c: Collected, cut: bool): Collected {
    if cut then c.Truncated().Warn(FileDiffsTruncated) else c
  }

  lemma TakeAppends(p: Progress, spec: Spec, limits: Limits, leaves: Leaves)
    requires spec.Valid() && Appends(p, spec, limits, leaves)
    ensures Take(p, spec, limits, leaves)
         == Append(p.(state := Noted(p.state, spec.fetched.cut)), spec.Display(), Segment(spec), limits)
  {
    hide Append, Segment, Blank, Leaves.Hidden;
  }

  lemma OtherTakeIsSeen(p: Progress, spec: Spec, limits: Limits, leaves: Leaves)
    requires spec.Valid() && !Appends(p, spec, limits, leaves) && !p.stopped
    ensures
      var q := Take(p, spec, limits, leaves);
      && Extends(p.state, q.state) && !q.stopped
      && Accounted(q.state, spec, leaves)
      && (q == p || !q.state.Complete())
      && (q == p <==>
            && !leaves.Hidden(spec) && spec.fetched.Patch? && !spec.fetched.binary && !Shown(spec)
            && (spec.Display() in p.accepted || |p.accepted| < limits.maxFiles)
            && p.state.totalBytes < limits.maxTotalBytes)
  {
    var public := leaves.PublicPath(spec.Display());
    if !leaves.Hidden(spec) { PublicUnlessHidden(spec, leaves); }
    hide Append, Blank, Leaves.Hidden, Leaves.PublicPath, Segment;
    if !leaves.Hidden(spec) && spec.fetched.Patch? && !Shown(spec) && !spec.fetched.binary {
    } else {
      assert forall reason :: p.state.Omit(public, reason).omitted[|p.state.omitted|].path == public;
    }
  }

  lemma TakeIsSeen(p: Progress, spec: Spec, limits: Limits, leaves: Leaves)
    requires spec.Valid() && FilesAreBounded(p, limits) && !p.stopped
    ensures
      var q := Take(p, spec, limits, leaves);
      && Extends(p.state, q.state)
      && (q.stopped ==> q.state.truncated)
      && Accounted(q.state, spec, leaves)
  {
    if Appends(p, spec, limits, leaves) {
      TakeAppends(p, spec, limits, leaves);
      SegmentIsNotEmpty(spec);
      hide Append, Blank, Leaves.Hidden, OmittedIn, Shows, Segment, Take, Names;
      AppendIsSeen(p.(state := Noted(p.state, spec.fetched.cut)), spec.Display(), Segment(spec), limits);
      SegmentShows(spec);
    } else {
      OtherTakeIsSeen(p, spec, limits, leaves);
    }
  }

  lemma ExtendedStillAccounts(c: Collected, d: Collected, spec: Spec, leaves: Leaves)
    requires spec.Valid() && Extends(c, d) && Accounted(c, spec, leaves)
    ensures Accounted(d, spec, leaves)
  {
    hide Shows, Blank, Leaves.PublicPath;
  }

  /** No change vanishes without a trace, not even behind an early stop. */
  lemma {:induction false} EveryChangeIsAccounted(init: Collected, specs: seq<Spec>, n: nat, i: nat,
                                                  limits: Limits, leaves: Leaves)
    requires i < n <= |specs| && AllValid(specs) && init.Fresh()
    ensures
      var p := Run(init, specs, n, limits, leaves);
      && Accounted(p.state, specs[i], leaves)
      && (p.stopped ==> p.state.truncated)
  {
    hide Take, Accounted, FilesAreBounded, Extends;
    var p := Run(init, specs, n - 1, limits, leaves);
    CollectionIsBounded(init, specs, n - 1, limits, leaves);
    if i < n - 1 {
      EveryChangeIsAccounted(init, specs, n - 1, i, limits, leaves);
    } else if n - 1 > 0 {
      EveryChangeIsAccounted(init, specs, n - 1, n - 2, limits, leaves);
    }
    if p.stopped {
      StoppedTurnAccounts(p.state, specs[i], leaves);
    } else {
      var q := Take(p, specs[n - 1], limits, leaves);
      TakeIsSeen(p, specs[n - 1], limits, leaves);
      if i < n - 1 { ExtendedStillAccounts(p.state, q.state, specs[i], leaves); }
    }
  }

  lemma StoppedTurnAccounts(c: Collected, spec: Spec, leaves: Leaves)
    requires spec.Valid() && c.truncated
    ensures Accounted(c, spec, leaves)
  {
  }

  // ------------------------------------------------------ complete collections

  /** The segments of the first n changes with something to show, and their paths. */
  function Segments(specs: seq<Spec>, n: nat): seq<Text>
    requires n <= |specs| && AllValid(specs)
  {
    if n == 0 then []
    else if Shown(specs[n - 1]) then Segments(specs, n - 1) + [Segment(specs[n - 1])]
    else Segments(specs, n - 1)
  }

  function ShownPaths(specs: seq<Spec>, n: nat): seq<Text>
    requires n <= |specs| && AllValid(specs)
  {
    if n == 0 then []
    else if Shown(specs[n - 1]) then ShownPaths(specs, n - 1) + [specs[n - 1].Display()]
    else ShownPaths(specs, n - 1)
  }

  /** How many of the first n changes have something to show. */
  function ShownBefore(specs: seq<Spec>, n: nat): nat
    requires n <= |specs| && AllValid(specs)
  {
    if n == 0 then 0 else ShownBefore(specs, n - 1) + if Shown(specs[n - 1]) then 1 else 0
  }

  /** Part by part, in order, the patch shows every one of the first n changes that has
      something to show, under its path, and nothing else. */
  predicate ShowsAll(patch: seq<Text>, included: seq<Text>, specs: seq<Spec>, n: nat)
    requires n <= |specs| && AllValid(specs)
  {
    && |patch| == |included| == ShownBefore(specs, n)
    && forall i | 0 <= i < n && Shown(specs[i]) ::
         var k := ShownBefore(specs, i);
         k < |patch| && Shows(patch[k], specs[i]) && included[k] == specs[i].Display()
  }

  lemma {:induction false} SegmentsShowAll(specs: seq<Spec>, n: nat)
    requires n <= |specs| && AllValid(specs)
    ensures ShowsAll(Segments(specs, n), ShownPaths(specs, n), specs, n)
  {
    hide Blank, Shows, Segment;
    if n > 0 {
      SegmentsShowAll(specs, n - 1);
      if Shown(specs[n - 1]) { SegmentShows(specs[n - 1]); }
    }
  }

  function Size(parts: seq<Text>): nat {
    |Encode(Joined(parts))|
  }

  /** The change is public, its patch was read, is text and was not cut. */
  predicate Clean(spec: Spec, leaves: Leaves)
    requires spec.Valid()
  {
    && !leaves.Hidden(spec) && spec.fetched.Patch? && !spec.fetched.binary
    && (Shown(spec) ==> !spec.fetched.cut)
  }

  /** When the loop reaches change i, there is room for it. */
  predicate HasRoom(specs: seq<Spec>, i: nat, limits: Limits)
    requires i < |specs| && AllValid(specs)
  {
    && (specs[i].Display() in Names(ShownPaths(specs, i)) || |Names(ShownPaths(specs, i))| < limits.maxFiles)
    && Size(Segments(specs, i)) < limits.maxTotalBytes
    && Size(Segments(specs, i + 1)) <= limits.maxTotalBytes
  }

  predicate AllTaken(p: Progress, specs: seq<Spec>, n: nat)
    requires n <= |specs| && AllValid(specs)
  {
    && p.state.Complete() && !p.stopped
    && p.state.parts == Segments(specs, n) && p.state.included == ShownPaths(specs, n)
  }

  /** Nothing is truncated or omitted and the patch shows all. */
  predicate AllShown(p: Progress, specs: seq<Spec>, n: nat)
    requires n <= |specs| && AllValid(specs)
  {
    p.state.Complete() && !p.stopped && ShowsAll(p.state.parts, p.state.included, specs, n)
  }

  lemma AppendCompletes(p: Progress, path: Text, segment: Text, limits: Limits)
    requires p.state.Complete() && p.state.totalBytes == Size(p.state.parts) && |segment| > 0
    ensures
      var q := Append(p, path, segment, limits);
      && (q.state.Complete() <==> Size(p.state.parts + [segment]) <= limits.maxTotalBytes)
      && (q.state.Complete() ==> !q.stopped && q.state.parts == p.state.parts + [segment]
                                 && q.state.included == p.state.included + [path])
  {
    hide Fit, Encode, Joined;
    var c := p.state;
    CutSegmentStaysWithinBudget(segment, limits.maxTotalBytes - c.totalBytes - SeparatorBytes(c.parts));
    JoinedBytes(c.parts, segment);
  }

  lemma TakeCompletes(p: Progress, specs: seq<Spec>, i: nat, limits: Limits, leaves: Leaves)
    requires i < |specs| && AllValid(specs) && AllTaken(p, specs, i)
    requires BytesAreExact(p.state, limits) && FilesAreBounded(p, limits)
    ensures
      var q := Take(p, specs[i], limits, leaves);
      && (q.state.Complete() <==> Clean(specs[i], leaves) && HasRoom(specs, i, limits))
      && (q.state.Complete() ==> AllTaken(q, specs, i + 1))
  {
    var spec := specs[i];
    if Appends(p, spec, limits, leaves) {
      TakeAppends(p, spec, limits, leaves);
      SegmentIsNotEmpty(spec);
      hide Append, Names, Blank, Leaves.Hidden, Segment, Joined, Encode, Take;
      if spec.fetched.cut {
        AppendIsSeen(p.(state := Noted(p.state, true)), spec.Display(), Segment(spec), limits);
      } else {
        AppendCompletes(p, spec.Display(), Segment(spec), limits);
      }
    } else {
      OtherTakeIsSeen(p, spec, limits, leaves);
      hide Append, Names, Blank, Leaves.Hidden, Segment, Joined, Encode, Take;
    }
  }

  /** A collection records neither truncation nor omission exactly when the listing
      before it did not, every change is clean, and there is room for each in turn;
      then the patch is exactly the redacted patches of all changes with something to
      show, in order, each up to trailing whitespace. */
  lemma CompleteExactlyWhen(init: Collected, specs: seq<Spec>, n: nat, limits: Limits, leaves: Leaves)
    requires n <= |specs| && AllValid(specs) && init.Fresh()
    ensures
      var p := Run(init, specs, n, limits, leaves);
      && (p.state.Complete() <==>
            && init.Complete()
            && forall i | 0 <= i < n :: Clean(specs[i], leaves) && HasRoom(specs, i, limits))
      && (p.state.Complete() ==> AllShown(p, specs, n))
  {
    hide Run, Clean, HasRoom, Segments, ShownPaths, ShowsAll;
    CompleteByTurns(init, specs, n, limits, leaves);
    SegmentsShowAll(specs, n);
  }

  lemma {:induction false} CompleteByTurns(init: Collected, specs: seq<Spec>, n: nat, limits: Limits, leaves: Leaves)
    requires n <= |specs| && AllValid(specs) && init.Fresh()
    ensures
      var p := Run(init, specs, n, limits, leaves);
      && (p.state.Complete() <==>
            && init.Complete()
            && forall i | 0 <= i < n :: Clean(specs[i], leaves) && HasRoom(specs, i, limits))
      && (p.state.Complete() ==> AllTaken(p, specs, n))
  {
    hide Take, Clean, HasRoom, BytesAreExact, FilesAreBounded;
    if n > 0 {
      var p := Run(init, specs, n - 1, limits, leaves);
      CompleteByTurns(init, specs, n - 1, limits, leaves);
      CollectionIsBounded(init, specs, n - 1, limits, leaves);
      if p.state.Complete() {
        TakeCompletes(p, specs, n - 1, limits, leaves);
      } else if !p.stopped {
        TakeIsSeen(p, specs[n - 1], limits, leaves);
      }
    }
  }
}
