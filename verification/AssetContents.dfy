/** When inline content is gone from a reduced asset section, and when it stays. */
module AssetContents {
  import opened Prelude
  import opened PyText
  import opened AssetBlocks
  import opened AssetTheorems

  predicate Opens(lines: Lines) {
    exists i | 0 <= i < |lines| :: OpensContent(lines[i])
  }

  /** The content opened at line i is closed further down. */
  predicate ClosedLater(lines: Lines, i: nat)
    requires i < |lines|
  {
    NextClose(lines, i + 1) < |lines|
  }

  predicate AllClosed(lines: Lines, from: nat) {
    forall i | from <= i < |lines| && OpensContent(lines[i]) :: ClosedLater(lines, i)
  }

  /** No content is closed at all. */
  predicate Unclosed(lines: Lines) {
    forall i, j | 0 <= i < j < |lines| && OpensContent(lines[i]) :: !ClosesContent(lines[j])
  }

  predicate NoTags(lines: Lines) {
    forall i | 0 <= i < |lines| :: !OpensContent(lines[i]) && !ClosesContent(lines[i])
  }

  // ------------------------------------------------------- pieces of a text

  lemma OpensConcat(a: Lines, b: Lines)
    ensures Opens(a + b) <==> Opens(a) || Opens(b)
  {
    hide OpensContent;
    var all := a + b;
    assert forall i | 0 <= i < |a| :: all[i] == a[i];
    assert forall i | 0 <= i < |b| :: all[|a| + i] == b[i];
    if Opens(all) {
      var i :| 0 <= i < |all| && OpensContent(all[i]);
      if i >= |a| { assert b[i - |a|] == all[i]; }
    }
  }

  lemma OneLineOpens(line: string)
    ensures Opens([line]) <==> OpensContent(line)
  {
    hide OpensContent;
    assert [line][0] == line;
  }

  lemma NothingOpens()
    ensures !Opens([])
  {
  }

  lemma UnclosedParts(a: Lines, b: Lines)
    requires Unclosed(a + b)
    ensures Unclosed(a) && Unclosed(b)
  {
    hide OpensContent, ClosesContent;
    var all := a + b;
    assert forall i | 0 <= i < |a| :: all[i] == a[i];
    assert forall i | 0 <= i < |b| :: all[|a| + i] == b[i];
  }

  lemma {:induction false} NextCloseFrom(lines: Lines, i: nat, j: nat)
    requires i <= j <= |lines| && NextClose(lines, i) >= j
    ensures NextClose(lines, j) == NextClose(lines, i)
    decreases j - i
  {
    hide ClosesContent;
    if i < j { NextCloseFrom(lines, i + 1, j); }
  }

  lemma {:induction false} NextCloseIsClosing(lines: Lines, i: nat)
    requires i <= |lines|
    ensures
      var k := NextClose(lines, i);
      k < |lines| ==> ClosesContent(lines[k]) && !OpensContent(lines[k])
    decreases |lines| - i
  {
    if i < |lines| {
      TagStart(lines[i]);
      hide ClosesContent, OpensContent, Strip;
      if !ClosesContent(lines[i]) { NextCloseIsClosing(lines, i + 1); }
    }
  }

  lemma {:induction false} NextCloseIsFirst(lines: Lines, i: nat)
    requires i <= |lines|
    ensures forall j | i <= j < NextClose(lines, i) :: !ClosesContent(lines[j])
    decreases |lines| - i
  {
    hide ClosesContent;
    if i < |lines| && !ClosesContent(lines[i]) { NextCloseIsFirst(lines, i + 1); }
  }

  lemma {:induction false} NextCloseAtEnd(lines: Lines, i: nat)
    requires i <= |lines| && forall j | i <= j < |lines| :: !ClosesContent(lines[j])
    ensures NextClose(lines, i) == |lines|
    decreases |lines| - i
  {
    hide ClosesContent;
    if i < |lines| { NextCloseAtEnd(lines, i + 1); }
  }

  /** Without closed contents, all are closed exactly when there is none. */
  lemma UnclosedDecided(lines: Lines)
    requires Unclosed(lines)
    ensures AllClosed(lines, 0) <==> !Opens(lines)
  {
    hide OpensContent, ClosesContent;
    forall i | 0 <= i < |lines| && OpensContent(lines[i]) ensures !ClosedLater(lines, i) {
      NextCloseAtEnd(lines, i + 1);
    }
  }

  // ----------------------------------------------------- dropping the contents

  lemma ClosedBefore(lines: Lines, i: nat, j: nat, k: nat)
    requires i <= j <= k < |lines| && NextClose(lines, i + 1) == k && OpensContent(lines[j])
    ensures ClosedLater(lines, j)
  {
    hide OpensContent, ClosesContent, NextClose;
    NextCloseIsClosing(lines, i + 1);
    assert j < k;
    NextCloseFrom(lines, i + 1, j + 1);
  }

  /** Nothing between an opening tag and the tag that closes it stays open. */
  lemma {:induction false} ClosedInside(lines: Lines, i: nat, j: nat, k: nat)
    requires i <= j <= k + 1 && i <= k < |lines| && NextClose(lines, i + 1) == k
    ensures AllClosed(lines, j) <==> AllClosed(lines, k + 1)
    decreases k + 1 - j
  {
    hide *;
    if j <= k {
      ClosedInside(lines, i, j + 1, k);
      AllClosedNext(lines, j);
      if OpensContent(lines[j]) { ClosedBefore(lines, i, j, k); }
    }
  }

  lemma LeftOverOpensNothing(opening: string, closing: string, bare: bool)
    ensures NoTags(LeftOver(opening, closing, bare)) && !Opens(LeftOver(opening, closing, bare))
  {
    hide LeftOver;
    LeftOverIsQuiet(opening, closing, bare);
  }

  lemma WithoutContentStep(lines: Lines, i: nat, bare: bool)
    requires i < |lines|
    ensures
      var k := NextClose(lines, i + 1);
      WithoutContent(lines, i, bare) ==
        if OpensContent(lines[i]) && k < |lines|
        then LeftOver(lines[i], lines[k], bare) + WithoutContent(lines, k + 1, TrailOf(lines[k]) == "")
        else [lines[i]] + WithoutContent(lines, i + 1, false)
  {
    hide OpensContent, NextClose, LeftOver, TrailOf;
  }

  lemma WithoutContentEnd(lines: Lines, bare: bool)
    ensures WithoutContent(lines, |lines|, bare) == []
  {
  }

  /** Dropping the contents leaves an opening tag, and with it inline content, if and
      only if some content is not closed. */
  lemma {:induction false} ContentIsGoneExactlyWhen(lines: Lines, i: nat, bare: bool)
    requires i <= |lines|
    ensures Opens(WithoutContent(lines, i, bare)) <==> !AllClosed(lines, i)
    decreases |lines| - i
  {
    hide *;
    if i == |lines| {
      WithoutContentEnd(lines, bare);
      NothingOpens();
      AllClosedAtEnd(lines);
    } else {
      var k := NextClose(lines, i + 1);
      WithoutContentStep(lines, i, bare);
      if OpensContent(lines[i]) && k < |lines| {
        ContentIsGoneExactlyWhen(lines, k + 1, TrailOf(lines[k]) == "");
        LeftOverOpensNothing(lines[i], lines[k], bare);
        OpensConcat(LeftOver(lines[i], lines[k], bare), WithoutContent(lines, k + 1, TrailOf(lines[k]) == ""));
        ClosedInside(lines, i, i, k);
      } else {
        ContentIsGoneExactlyWhen(lines, i + 1, false);
        OneLineOpens(lines[i]);
        OpensConcat([lines[i]], WithoutContent(lines, i + 1, false));
        AllClosedNext(lines, i);
        NotClosedLater(lines, i);
      }
    }
  }

  lemma NotClosedLater(lines: Lines, i: nat)
    requires i < |lines|
    ensures ClosedLater(lines, i) <==> NextClose(lines, i + 1) < |lines|
  {
  }

  lemma AllClosedAtEnd(lines: Lines)
    ensures AllClosed(lines, |lines|)
  {
  }

  lemma AllClosedNext(lines: Lines, i: nat)
    requires i < |lines|
    ensures AllClosed(lines, i) <==> (OpensContent(lines[i]) ==> ClosedLater(lines, i)) && AllClosed(lines, i + 1)
  {
    hide OpensContent, ClosedLater;
  }

  predicate NoneCloses(lines: Lines, from: nat) {
    forall j | from <= j < |lines| :: !ClosesContent(lines[j])
  }

  lemma {:induction false} NoneClosesLeft(lines: Lines, i: nat, bare: bool)
    requires i <= |lines| && NoneCloses(lines, i)
    ensures NoneCloses(WithoutContent(lines, i, bare), 0)
    decreases |lines| - i
  {
    hide OpensContent, ClosesContent, LeftOver, TrailOf, NextClose;
    if i < |lines| {
      if NextClose(lines, i + 1) < |lines| { NextCloseIsClosing(lines, i + 1); }
      NoneClosesLeft(lines, i + 1, false);
      assert [lines[i]][0] == lines[i];
    }
  }

  lemma UnclosedPush(a: Lines, b: Lines)
    requires Unclosed(b) && (!Opens(a) || (|a| == 1 && NoneCloses(b, 0)))
    ensures Unclosed(a + b)
  {
    hide OpensContent, ClosesContent;
    var all := a + b;
    assert forall i | 0 <= i < |b| :: all[|a| + i] == b[i];
    forall i, j | 0 <= i < j < |all| && OpensContent(all[i]) ensures !ClosesContent(all[j]) {
      if i < |a| {
        assert OpensContent(a[i]);
        assert all[j] == b[j - |a|];
      } else {
        assert all[i] == b[i - |a|] && all[j] == b[j - |a|];
      }
    }
  }

  /** What stays after dropping the contents holds no closed one. */
  lemma {:induction false} LeftIsUnclosed(lines: Lines, i: nat, bare: bool)
    requires i <= |lines|
    ensures Unclosed(WithoutContent(lines, i, bare))
    decreases |lines| - i
  {
    hide *;
    if i == |lines| {
      WithoutContentEnd(lines, bare);
      NothingIsUnclosed();
    } else {
      var k := NextClose(lines, i + 1);
      WithoutContentStep(lines, i, bare);
      if OpensContent(lines[i]) && k < |lines| {
        LeftIsUnclosed(lines, k + 1, TrailOf(lines[k]) == "");
        LeftOverOpensNothing(lines[i], lines[k], bare);
        UnclosedPush(LeftOver(lines[i], lines[k], bare), WithoutContent(lines, k + 1, TrailOf(lines[k]) == ""));
      } else {
        LeftIsUnclosed(lines, i + 1, false);
        OneLineOpens(lines[i]);
        if OpensContent(lines[i]) {
          NoCloseNoneCloses(lines, i + 1);
          NoneClosesLeft(lines, i + 1, false);
        }
        UnclosedPush([lines[i]], WithoutContent(lines, i + 1, false));
      }
    }
  }

  lemma NothingIsUnclosed()
    ensures Unclosed([])
  {
  }

  lemma NoCloseNoneCloses(lines: Lines, i: nat)
    requires i <= |lines| && NextClose(lines, i) == |lines|
    ensures NoneCloses(lines, i)
  {
    hide ClosesContent;
    NextCloseIsFirst(lines, i);
  }

  // ------------------------------------------------------------- stripping

  lemma StrippedTags(line: string)
    ensures OpensContent(RStrip(line)) <==> OpensContent(line)
    ensures OpensContent(LStrip(line)) <==> OpensContent(line)
    ensures ClosesContent(RStrip(line)) <==> ClosesContent(line)
    ensures ClosesContent(LStrip(line)) <==> ClosesContent(line)
    ensures RStrip(line) == "" || LStrip(line) == "" ==> !OpensContent(line) && !ClosesContent(line)
  {
    hide IsOpeningTag, IsSpace, Strip, LStrip, RStrip;
    StripOfLeft(line);
    StripOfRight(line);
    BlankStrips("");
    TagStart(line);
  }

  lemma StripEndStep(lines: Lines)
    requires |lines| > 0
    ensures
      var n := |lines| - 1;
      var last := RStrip(lines[n]);
      StripEnd(lines) == if last == "" then StripEnd(lines[..n]) else lines[..n] + [last]
  {
    hide RStrip;
  }

  lemma StripStartStep(lines: Lines)
    requires |lines| > 0
    ensures
      var first := LStrip(lines[0]);
      StripStart(lines) == if first == "" then StripStart(lines[1..]) else [first] + lines[1..]
  {
    hide LStrip;
  }

  lemma NothingToStrip()
    ensures StripEnd([]) == [] && StripStart([]) == []
  {
  }

  lemma {:induction false} StripEndOpens(lines: Lines)
    ensures Opens(StripEnd(lines)) <==> Opens(lines)
    decreases |lines|
  {
    hide *;
    if |lines| == 0 {
      NothingToStrip();
      assert lines == [];
    } else {
      var n := |lines| - 1;
      var init, last := lines[..n], lines[n];
      StripEndStep(lines);
      StrippedTags(last);
      OneLineOpens(last);
      OneLineOpens(RStrip(last));
      OpensConcat(init, [last]);
      OpensConcat(init, [RStrip(last)]);
      assert init + [last] == lines;
      if RStrip(last) == "" { StripEndOpens(init); }
    }
  }

  lemma {:induction false} StripStartOpens(lines: Lines)
    ensures Opens(StripStart(lines)) <==> Opens(lines)
    decreases |lines|
  {
    hide *;
    if |lines| == 0 {
      NothingToStrip();
      assert lines == [];
    } else {
      var first, rest := lines[0], lines[1..];
      StripStartStep(lines);
      StrippedTags(first);
      OneLineOpens(first);
      OneLineOpens(LStrip(first));
      OpensConcat([first], rest);
      OpensConcat([LStrip(first)], rest);
      assert [first] + rest == lines;
      if LStrip(first) == "" { StripStartOpens(rest); }
    }
  }

  /** The same tags, line by line. */
  predicate SameTags(a: Lines, b: Lines) {
    && |a| == |b|
    && forall i | 0 <= i < |a| ::
         (OpensContent(a[i]) <==> OpensContent(b[i])) && (ClosesContent(a[i]) <==> ClosesContent(b[i]))
  }

  lemma SameTagsUnclosed(a: Lines, b: Lines)
    requires SameTags(a, b) && Unclosed(a)
    ensures Unclosed(b)
  {
    hide OpensContent, ClosesContent;
  }

  lemma LastStripped(init: Lines, last: string)
    ensures SameTags(init + [last], init + [RStrip(last)])
  {
    hide OpensContent, ClosesContent, RStrip, LStrip;
    StrippedTags(last);
  }

  lemma FirstStripped(first: string, rest: Lines)
    ensures SameTags([first] + rest, [LStrip(first)] + rest)
  {
    hide OpensContent, ClosesContent, RStrip, LStrip;
    StrippedTags(first);
  }

  lemma {:induction false} StripEndUnclosed(lines: Lines)
    requires Unclosed(lines)
    ensures Unclosed(StripEnd(lines))
    decreases |lines|
  {
    hide *;
    if |lines| == 0 {
      NothingToStrip();
      assert lines == [];
    } else {
      var n := |lines| - 1;
      var init, last := lines[..n], lines[n];
      StripEndStep(lines);
      assert init + [last] == lines;
      UnclosedParts(init, [last]);
      LastStripped(init, last);
      if RStrip(last) == "" {
        StripEndUnclosed(init);
      } else {
        SameTagsUnclosed(lines, init + [RStrip(last)]);
      }
    }
  }

  lemma {:induction false} StripStartUnclosed(lines: Lines)
    requires Unclosed(lines)
    ensures Unclosed(StripStart(lines))
    decreases |lines|
  {
    hide *;
    if |lines| == 0 {
      NothingToStrip();
      assert lines == [];
    } else {
      var first, rest := lines[0], lines[1..];
      StripStartStep(lines);
      assert [first] + rest == lines;
      UnclosedParts([first], rest);
      FirstStripped(first, rest);
      if LStrip(first) == "" {
        StripStartUnclosed(rest);
      } else {
        SameTagsUnclosed(lines, [LStrip(first)] + rest);
      }
    }
  }

  // ------------------------------------------------------------ one block

  lemma ReferenceLineIsNoTag()
    ensures !OpensContent(REFERENCE_LINE)
  {
    assert REFERENCE_LINE[0] == '-' && !IsSpace('-');
    hide OpensContent;
    OtherStartIsNoTag(REFERENCE_LINE);
  }

  lemma ModesReplacedOpens(lines: Lines)
    ensures Opens(ModesReplaced(lines)) <==> Opens(lines)
  {
    ReferenceLineIsNoTag();
    var r := ModesReplaced(lines);
    forall i | 0 <= i < |lines| ensures OpensContent(r[i]) <==> OpensContent(lines[i]) {
      if StartsWith(lines[i], MODE) { ModeLineIsNoTag(lines[i]); }
    }
    hide OpensContent, StartsWith, ModesReplaced;
    if Opens(lines) {
      var i :| 0 <= i < |lines| && OpensContent(lines[i]);
      assert OpensContent(r[i]);
    }
  }

  lemma ModeLineIsNoTag(line: string)
    requires StartsWith(line, MODE)
    ensures !OpensContent(line) && !ClosesContent(line)
  {
    FirstChar(line, MODE);
    assert line[0] == '-' && !IsSpace('-');
    hide OpensContent, ClosesContent;
    OtherStartIsNoTag(line);
  }

  /** A downgraded block still holds inline content if and only if some content opened
      in it is not closed in it. */
  lemma DowngradedHoldsContentExactlyWhen(block: Lines)
    requires SolidStart(block) && !OpensContent(block[0])
    ensures Opens(Downgraded(block)) <==> !AllClosed(block, 0)
  {
    var content := WithoutContent(block, 0, true);
    var kept := StripEnd(content);
    var lines := ModesReplaced(kept);
    WithoutContentStartsAlike(block);
    StripEndKeeps(content);
    var inserted := [lines[0]] + [REFERENCE_LINE] + lines[1..];
    hide *;
    ContentIsGoneExactlyWhen(block, 0, true);
    StripEndOpens(content);
    ModesReplacedOpens(kept);
    DowngradedIsOneOf(block, lines, inserted);
    InsertedOpens(lines, inserted);
    StripEndOpens(lines);
    StripEndOpens(inserted);
  }

  lemma WithoutContentStartsAlike(block: Lines)
    requires |block| > 0 && !OpensContent(block[0])
    ensures
      var r := WithoutContent(block, 0, true);
      |r| > 0 && r[0] == block[0]
  {
    hide OpensContent;
  }

  lemma InsertedOpens(lines: Lines, inserted: Lines)
    requires |lines| > 0 && inserted == [lines[0]] + [REFERENCE_LINE] + lines[1..]
    ensures Opens(inserted) <==> Opens(lines)
  {
    ReferenceLineIsNoTag();
    hide OpensContent, Opens;
    OneLineOpens(REFERENCE_LINE);
    OpensConcat([lines[0]], lines[1..]);
    OpensConcat([lines[0]], [REFERENCE_LINE]);
    OpensConcat([lines[0]] + [REFERENCE_LINE], lines[1..]);
    assert [lines[0]] + lines[1..] == lines;
  }

  /** Block k may still hold inline content: one that stays inline when it opens any, any
      other exactly when it opens one and does not close it. */
  predicate HoldsContent(blocks: seq<Lines>, k: nat, allow: Allowance)
    requires k < |blocks|
  {
    if StaysInline(blocks, k, allow) then Opens(blocks[k]) else !AllClosed(StripEnd(blocks[k]), 0)
  }

  lemma PieceHoldsContentExactlyWhen(blocks: seq<Lines>, k: nat, allow: Allowance)
    requires k < |blocks| && IsBlock(blocks[k])
    ensures Opens(Piece(blocks, k, allow)) <==> HoldsContent(blocks, k, allow)
  {
    HeadingIsSolid(blocks[k]);
    StripEndKeeps(blocks[k]);
    HeadingStaysOrIsBare(blocks[k]);
    hide IsBlock, IsHeading, OpensContent, StripEnd, Downgraded, Opens, AllClosed, SolidStart, StaysInline;
    if StaysInline(blocks, k, allow) {
      StripEndOpens(blocks[k]);
    } else {
      DowngradedHoldsContentExactlyWhen(StripEnd(blocks[k]));
    }
  }

  // --------------------------------------------------------- the whole section

  /** How many blocks a reduced section shows. */
  function ShownBlocks(s: Sections, allow: Allowance): nat {
    MinInt(|s.blocks|, MaxInt(0, allow.blocks))
  }

  lemma AppendOpens(out: Lines, piece: Lines)
    ensures Opens(Append(out, piece)) <==> Opens(out) || Opens(piece)
  {
    hide Opens, OpensContent, Blank, IsSpace, IsHeading, LineMode;
    NothingOpens();
    BlankIsQuiet("");
    OneLineOpens("");
    OpensConcat(out, [""]);
    OpensConcat(out + [""], piece);
    OpensConcat(out, piece);
  }

  lemma {:induction false} AssembledHoldsContent(s: Sections, n: nat, allow: Allowance)
    requires n <= |s.blocks| && WellSplit(s)
    ensures Opens(Assembled(s, n, allow)) <==> Opens(s.prelude) || exists k | 0 <= k < n :: HoldsContent(s.blocks, k, allow)
  {
    hide Opens, HoldsContent, IsBlock, IsHeading, Append, Piece;
    if n > 0 {
      AssembledHoldsContent(s, n - 1, allow);
      AppendOpens(Assembled(s, n - 1, allow), Piece(s.blocks, n - 1, allow));
      PieceHoldsContentExactlyWhen(s.blocks, n - 1, allow);
    }
  }

  /** A reduced section holds inline content if and only if it opens some before the first
      block, or in a shown block that holds some; with no block allowed nothing is left. */
  lemma ReducedHoldsContentExactlyWhen(lines: Lines, allow: Allowance)
    requires |lines| > 0 ==> SolidStart(lines)
    ensures
      var s := SplitSections(lines);
      var n := ShownBlocks(s, allow);
      Opens(Reduced(lines, allow)) <==>
        (|s.blocks| == 0 || n > 0)
        && (Opens(s.prelude) || exists k | 0 <= k < n :: HoldsContent(s.blocks, k, allow))
  {
    var s := SplitSections(lines);
    SplitLosesNothing(lines);
    NothingOpens();
    if |s.blocks| == 0 {
      assert s.prelude == lines;
    } else if allow.blocks > 0 {
      var n := ShownBlocks(s, allow);
      var out := Assembled(s, n, allow);
      assert |s.prelude| > 0 ==> s.prelude[0] == lines[0];
      AssembledStartsSolid(s, n, allow);
      hide Assembled, SplitSections, SolidStart, Opens, HoldsContent, WellSplit;
      AssembledHoldsContent(s, n, allow);
      SolidNeedsNoStrip(out);
      StripEndOpens(out);
    }
  }

  lemma {:induction false} FlattenOpens(blocks: seq<Lines>)
    ensures Opens(Flatten(blocks)) <==> exists k | 0 <= k < |blocks| :: Opens(blocks[k])
  {
    hide Opens;
    NothingOpens();
    if |blocks| > 0 {
      var n := |blocks| - 1;
      FlattenOpens(blocks[..n]);
      OpensConcat(Flatten(blocks[..n]), blocks[n]);
      assert forall k | 0 <= k < n :: blocks[..n][k] == blocks[k];
    }
  }

  lemma {:induction false} FlattenUnclosed(blocks: seq<Lines>, k: nat)
    requires Unclosed(Flatten(blocks)) && k < |blocks|
    ensures Unclosed(blocks[k])
  {
    hide Unclosed;
    var n := |blocks| - 1;
    UnclosedParts(Flatten(blocks[..n]), blocks[n]);
    if k < n { FlattenUnclosed(blocks[..n], k); }
  }

  /** When no content of the section is closed, a shown block holds content exactly when
      it opens some, whatever is allowed. */
  lemma UnclosedBlockHolds(s: Sections, k: nat, allow: Allowance)
    requires k < |s.blocks| && Unclosed(s.prelude + Flatten(s.blocks))
    ensures HoldsContent(s.blocks, k, allow) <==> Opens(s.blocks[k])
  {
    hide Opens, Unclosed, StripEnd, StaysInline, AllClosed;
    UnclosedParts(s.prelude, Flatten(s.blocks));
    FlattenUnclosed(s.blocks, k);
    StripEndUnclosed(s.blocks[k]);
    StripEndOpens(s.blocks[k]);
    UnclosedDecided(StripEnd(s.blocks[k]));
  }

  /** So reducing a section without closed contents keeps what it opens, as far as its
      blocks are shown. */
  lemma UnclosedSectionReduced(lines: Lines, allow: Allowance)
    requires Unclosed(lines) && (|lines| > 0 ==> SolidStart(lines))
    ensures Opens(Reduced(lines, allow)) ==> Opens(lines)
    ensures |SplitSections(lines).blocks| <= MaxInt(0, allow.blocks) ==> (Opens(Reduced(lines, allow)) <==> Opens(lines))
  {
    var s := SplitSections(lines);
    SplitLosesNothing(lines);
    hide Opens, Unclosed, HoldsContent, Reduced, SolidStart, SplitSections, Flatten;
    ReducedHoldsContentExactlyWhen(lines, allow);
    OpensConcat(s.prelude, Flatten(s.blocks));
    FlattenOpens(s.blocks);
    forall k | 0 <= k < |s.blocks| ensures HoldsContent(s.blocks, k, allow) <==> Opens(s.blocks[k]) {
      UnclosedBlockHolds(s, k, allow);
    }
  }
}
