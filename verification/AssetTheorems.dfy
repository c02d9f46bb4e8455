/** What a reduced asset section holds when it is split again. */
module AssetTheorems {
  import opened Prelude
  import opened PyText
  import opened AssetBlocks

  /** No line states a mode with inline content. */
  predicate NoInline(lines: Lines) {
    forall i | 0 <= i < |lines| :: LineMode(lines[i]) != Full && LineMode(lines[i]) != Focused
  }

  predicate NoHeadings(lines: Lines) {
    forall i | 0 <= i < |lines| :: !IsHeading(lines[i])
  }

  predicate NoLaterHeadings(lines: Lines) {
    forall i | 1 <= i < |lines| :: !IsHeading(lines[i])
  }

  predicate SolidStart(lines: Lines) {
    |lines| > 0 && lines[0] != "" && !IsSpace(lines[0][0])
  }

  function Count(s: Sections, mode: Mode): nat {
    CountBefore(s.blocks, |s.blocks|, mode)
  }

  // ------------------------------------------------------------ single lines

  lemma RStripKeepsStart(line: string, prefix: string)
    requires |prefix| > 0 && !IsSpace(prefix[|prefix| - 1])
    ensures StartsWith(RStrip(line), prefix) <==> StartsWith(line, prefix)
  {
    if StartsWith(line, prefix) {
      assert line[|prefix| - 1] == line[..|prefix|][|prefix| - 1] == prefix[|prefix| - 1];
      assert |RStrip(line)| >= |prefix|;
      assert RStrip(line)[..|prefix|] == line[..|prefix|];
    }
  }

  lemma RStripKeepsMode(line: string)
    ensures LineMode(RStrip(line)) == LineMode(line)
    ensures !IsHeading(line) ==> !IsHeading(RStrip(line))
    ensures RStrip(line) == "" ==> LineMode(line) == Summary
  {
    hide StartsWith, RStrip;
    RStripKeepsStart(line, FULL_INLINE);
    RStripKeepsStart(line, FOCUSED_EXTRACT);
    RStripKeepsStart(line, REFERENCE_ONLY);
    EmptyStatesNothing();
    PrefixStarts(RStrip(line), line);
  }

  lemma EmptyStatesNothing()
    ensures LineMode("") == Summary && !IsHeading("")
  {
  }

  lemma PrefixStarts(a: string, b: string)
    requires a <= b
    ensures IsHeading(a) ==> IsHeading(b)
  {
    if IsHeading(a) { assert a[..|HEADING|] == b[..|HEADING|]; }
  }

  // ------------------------------------------------- stripping and downgrading

  lemma {:induction false} StripEndKeeps(lines: Lines)
    ensures |StripEnd(lines)| <= |lines|
    ensures NoInline(lines) ==> NoInline(StripEnd(lines))
    ensures NoLaterHeadings(lines) ==> NoLaterHeadings(StripEnd(lines))
    ensures NoHeadings(lines) ==> NoHeadings(StripEnd(lines))
    ensures SolidStart(lines) ==> SolidStart(StripEnd(lines))
  {
    hide IsHeading, LineMode, IsSpace;
    if |lines| > 0 {
      var n := |lines| - 1;
      RStripKeepsMode(lines[n]);
      StripEndKeeps(lines[..n]);
    }
  }

  // -------------------------------------------------------------- content tags

  lemma SolidKeepsStart(line: string)
    requires line != "" && !IsSpace(line[0])
    ensures Strip(line) == RStrip(line) && RStrip(line) != "" && RStrip(line)[0] == line[0]
  {
    hide RStrip, LStrip, IsSpace;
    StripFromFront(line, 0);
    assert line[0..] == line;
  }

  lemma TagStart(line: string)
    ensures OpensContent(line) ==> |Strip(line)| > 1 && Strip(line)[0] == '<' && Strip(line)[1] == 'a'
    ensures ClosesContent(line) ==> |Strip(line)| > 1 && Strip(line)[0] == '<' && Strip(line)[1] == '/'
  {
    hide Strip;
    var tag := Strip(line);
    if OpensContent(line) { assert tag[..14] == "<asset_content" && tag[0] == tag[..14][0] && tag[1] == tag[..14][1]; }
  }

  /** A line that starts with another character than a tag opens and closes nothing. */
  lemma OtherStartIsNoTag(line: string)
    requires line != "" && !IsSpace(line[0]) && line[0] != '<'
    ensures !OpensContent(line) && !ClosesContent(line)
  {
    hide OpensContent, ClosesContent, Strip, RStrip, IsSpace;
    SolidKeepsStart(line);
    TagStart(line);
  }

  lemma BlankIsQuiet(line: string)
    requires forall i | 0 <= i < |line| :: IsSpace(line[i])
    ensures !OpensContent(line) && !ClosesContent(line) && !IsHeading(line) && LineMode(line) == Summary
  {
    hide *;
    BlankStrips(line);
    TagStart(line);
    RStripKeepsMode(line);
    HeadingStartsSolid(line);
  }

  lemma HeadingStartsSolid(line: string)
    ensures IsHeading(line) ==> line != "" && !IsSpace(line[0]) && line[0] == '#'
  {
    NumberSignIsSolid();
    hide IsSpace;
    if IsHeading(line) { assert line[0] == line[..4][0]; }
  }

  lemma NumberSignIsSolid()
    ensures !IsSpace('#')
  {
  }

  /** What a removed content leaves is blank. */
  lemma LeftOverIsQuiet(opening: string, closing: string, bare: bool)
    ensures
      var r := LeftOver(opening, closing, bare);
      forall i | 0 <= i < |r| ::
        !OpensContent(r[i]) && !ClosesContent(r[i]) && !IsHeading(r[i]) && LineMode(r[i]) == Summary
  {
    hide OpensContent, ClosesContent, IsHeading, LineMode, LStrip, RStrip, IsSpace;
    LStripDropsSpaces(opening);
    BlankIsQuiet(LeadOf(opening));
    BlankIsQuiet(TrailOf(closing));
    BlankIsQuiet("");
  }

  lemma {:induction false} WithoutContentKeeps(lines: Lines, i: nat, bare: bool)
    requires i <= |lines| && NoLaterHeadings(lines)
    ensures NoLaterHeadings(WithoutContent(lines, i, bare))
    ensures i > 0 ==> NoHeadings(WithoutContent(lines, i, bare))
    ensures i == 0 && |lines| > 0 && !OpensContent(lines[0]) ==>
              |WithoutContent(lines, i, bare)| > 0 && WithoutContent(lines, i, bare)[0] == lines[0]
    decreases |lines| - i
  {
    EmptyStatesNothing();
    hide IsHeading, OpensContent, ClosesContent, NextClose, LineMode, LeftOver, TrailOf;
    if i < |lines| {
      WithoutContentKeeps(lines, i + 1, false);
      var k := NextClose(lines, i + 1);
      if k < |lines| {
        WithoutContentKeeps(lines, k + 1, TrailOf(lines[k]) == "");
        LeftOverIsQuiet(lines[i], lines[k], bare);
      }
    }
  }

  lemma ReferenceLineIsReference()
    ensures LineMode(REFERENCE_LINE) == Reference && !IsHeading(REFERENCE_LINE) && !IsSpace(REFERENCE_LINE[0])
  {
    assert REFERENCE_LINE[..|REFERENCE_ONLY|] == REFERENCE_ONLY;
    assert REFERENCE_LINE[8] == 'r' && FULL_INLINE[8] == 'f' && FOCUSED_EXTRACT[8] == 'f';
    assert REFERENCE_LINE[0] == '-' && HEADING[0] == '#';
  }

  lemma InlineStatesMode(line: string)
    requires LineMode(line) == Full || LineMode(line) == Focused
    ensures StartsWith(line, MODE)
  {
    if LineMode(line) == Full {
      assert line[..|MODE|] == FULL_INLINE[..|MODE|];
    } else {
      assert line[..|MODE|] == FOCUSED_EXTRACT[..|MODE|];
    }
  }

  lemma ModesReplacedIsTame(lines: Lines)
    requires NoLaterHeadings(lines)
    ensures NoInline(ModesReplaced(lines)) && NoLaterHeadings(ModesReplaced(lines))
    ensures SolidStart(lines) ==> SolidStart(ModesReplaced(lines))
  {
    ReferenceLineIsReference();
    hide LineMode, IsHeading, StartsWith, IsSpace;
    var r := ModesReplaced(lines);
    forall i | 0 <= i < |r| ensures LineMode(r[i]) != Full && LineMode(r[i]) != Focused {
      if LineMode(lines[i]) == Full || LineMode(lines[i]) == Focused { InlineStatesMode(lines[i]); }
    }
  }

  lemma InsertedIsTame(lines: Lines, inserted: Lines)
    requires NoInline(lines) && NoLaterHeadings(lines) && SolidStart(lines)
    requires inserted == [lines[0]] + [REFERENCE_LINE] + lines[1..]
    ensures NoInline(inserted) && NoLaterHeadings(inserted) && SolidStart(inserted)
  {
    ReferenceLineIsReference();
    hide LineMode, IsHeading, IsSpace;
  }

  lemma DowngradedIsOneOf(block: Lines, lines: Lines, inserted: Lines)
    requires lines == ModesReplaced(StripEnd(WithoutContent(block, 0, true))) && |lines| > 0
    requires inserted == [lines[0]] + [REFERENCE_LINE] + lines[1..]
    ensures Downgraded(block) == StripEnd(lines) || Downgraded(block) == StripEnd(inserted)
  {
    hide StripEnd, WithoutContent;
  }

  /** A downgraded block holds no inline mode and still at most its own heading. */
  lemma DowngradedIsTame(block: Lines)
    requires NoLaterHeadings(block) && SolidStart(block) && !OpensContent(block[0])
    ensures NoInline(Downgraded(block)) && NoLaterHeadings(Downgraded(block)) && SolidStart(Downgraded(block))
  {
    var content := WithoutContent(block, 0, true);
    WithoutContentKeeps(block, 0, true);
    StripEndKeeps(content);
    var kept := StripEnd(content);
    ModesReplacedIsTame(kept);
    var lines := ModesReplaced(kept);
    var inserted := [lines[0]] + [REFERENCE_LINE] + lines[1..];
    hide *;
    DowngradedIsOneOf(block, lines, inserted);
    InsertedIsTame(lines, inserted);
    StripEndKeeps(lines);
    StripEndKeeps(inserted);
  }

  // --------------------------------------------------------- counting blocks

  lemma {:induction false} ModePush(block: Lines, line: string)
    ensures ModeOf(block + [line]) == if ModeOf(block) != Summary then ModeOf(block) else LineMode(line)
  {
    hide LineMode;
    if |block| == 0 {
      assert block + [line] == [line];
    } else {
      ModePush(block[1..], line);
      assert (block + [line])[1..] == block[1..] + [line];
    }
  }

  lemma {:induction false} CountPrefix(a: seq<Lines>, b: seq<Lines>, k: nat, mode: Mode)
    requires k <= |a| && k <= |b| && forall i | 0 <= i < k :: ModeOf(a[i]) == ModeOf(b[i])
    ensures CountBefore(a, k, mode) == CountBefore(b, k, mode)
  {
    hide ModeOf;
    if k > 0 { CountPrefix(a, b, k - 1, mode); }
  }

  predicate IsInline(mode: Mode) {
    mode == Full || mode == Focused
  }

  /** A line without heading and inline mode opens no block and turns none inline. */
  lemma QuietLine(s: Sections, line: string, mode: Mode)
    requires !IsHeading(line) && !IsInline(LineMode(line)) && IsInline(mode)
    ensures |AddLine(s, line).blocks| == |s.blocks| && Count(AddLine(s, line), mode) == Count(s, mode)
  {
    hide IsHeading, LineMode, ModeOf;
    var r := AddLine(s, line);
    if |s.blocks| > 0 {
      var last := |s.blocks| - 1;
      CountPrefix(s.blocks, r.blocks, last, mode);
      ModePush(s.blocks[last], line);
    }
  }

  lemma {:induction false} QuietLines(s: Sections, lines: Lines, mode: Mode)
    requires NoHeadings(lines) && NoInline(lines) && IsInline(mode)
    ensures |AddLines(s, lines).blocks| == |s.blocks| && Count(AddLines(s, lines), mode) == Count(s, mode)
    decreases |lines|
  {
    hide IsHeading, LineMode, Count, AddLine;
    if |lines| > 0 {
      QuietLine(s, lines[0], mode);
      QuietLines(AddLine(s, lines[0]), lines[1..], mode);
    }
  }

  lemma {:induction false} ExtendLast(s: Sections, lines: Lines)
    requires |s.blocks| > 0 && NoHeadings(lines)
    ensures
      var n := |s.blocks| - 1;
      AddLines(s, lines) == s.(blocks := s.blocks[..n] + [s.blocks[n] + lines])
    decreases |lines|
  {
    hide IsHeading;
    var n := |s.blocks| - 1;
    if |lines| == 0 {
      assert s.blocks[n] + lines == s.blocks[n] && s.blocks[..n] + [s.blocks[n]] == s.blocks;
    } else {
      ExtendLast(AddLine(s, lines[0]), lines[1..]);
      assert s.blocks[n] + [lines[0]] + lines[1..] == s.blocks[n] + lines;
    }
  }

  lemma AddBlock(s: Sections, block: Lines)
    requires IsBlock(block)
    ensures AddLines(s, block) == s.(blocks := s.blocks + [block])
  {
    hide IsHeading;
    var begun := AddLine(s, block[0]);
    ExtendLast(begun, block[1..]);
    assert [block[0]] + block[1..] == block;
    assert begun.blocks[..|s.blocks|] == s.blocks;
  }

  lemma BlockCounts(s: Sections, block: Lines, mode: Mode)
    ensures Count(s.(blocks := s.blocks + [block]), mode) == Count(s, mode) + if ModeOf(block) == mode then 1 else 0
  {
    hide ModeOf;
    CountPrefix(s.blocks, s.blocks + [block], |s.blocks|, mode);
  }

  lemma {:induction false} NoInlineMode(lines: Lines)
    requires NoInline(lines)
    ensures !IsInline(ModeOf(lines))
  {
    hide LineMode;
    if |lines| > 0 { NoInlineMode(lines[1..]); }
  }

  // ----------------------------------------------------------------- a piece

  lemma {:induction false} StripEndKeepsMode(block: Lines)
    requires NoLaterHeadings(block) && |block| > 0
    ensures ModeOf(StripEnd(block)) == ModeOf(block)
  {
    var n := |block| - 1;
    assert block[..n] + [block[n]] == block;
    RStripKeepsMode(block[n]);
    ModePush(block[..n], block[n]);
    ModePush(block[..n], RStrip(block[n]));
    hide LineMode, IsHeading, RStrip;
    if RStrip(block[n]) == "" && n > 0 { StripEndKeepsMode(block[..n]); }
  }

  /** A piece adds at most one block, and an inline one only if it stays inline. */
  lemma PieceCounts(s: Sections, blocks: seq<Lines>, k: nat, allow: Allowance, mode: Mode)
    requires k < |blocks| && IsBlock(blocks[k]) && IsInline(mode)
    ensures
      var r := AddLines(s, Piece(blocks, k, allow));
      && |r.blocks| <= |s.blocks| + 1
      && Count(r, mode) <= Count(s, mode) + if ModeOf(blocks[k]) == mode && StaysInline(blocks, k, allow) then 1 else 0
    ensures SolidStart(Piece(blocks, k, allow))
  {
    var text, piece := StripEnd(blocks[k]), Piece(blocks, k, allow);
    HeadingIsSolid(blocks[k]);
    StripEndKeeps(blocks[k]);
    StripEndKeepsMode(blocks[k]);
    HeadingStaysOrIsBare(blocks[k]);
    if !StaysInline(blocks, k, allow) {
      DowngradedIsTame(text);
      NoInlineMode(piece);
    }
    hide IsHeading, LineMode, StripEnd, Downgraded, StaysInline, Count, SolidStart, AddLines, ModeOf;
    if IsHeading(piece[0]) {
      AddBlock(s, piece);
      BlockCounts(s, piece, mode);
    } else {
      QuietLines(s, piece, mode);
    }
  }

  lemma HeadingIsSolid(block: Lines)
    requires IsBlock(block)
    ensures SolidStart(block) && NoLaterHeadings(block)
  {
    assert block[0][0] == block[0][..4][0] == '#';
  }

  lemma HeadingStripped(line: string)
    requires IsHeading(line)
    ensures IsHeading(RStrip(line)) || RStrip(line) == BARE_HEADING
    ensures RStrip(line) != "" && line[0] == RStrip(line)[0] == '#'
    ensures !OpensContent(line) && !OpensContent(RStrip(line))
  {
    var r := RStrip(line);
    assert line[0] == line[..4][0] == '#' && line[2] == line[..4][2] == '#';
    assert |r| >= 3 && r[..3] == line[..4][..3] == BARE_HEADING;
    if |r| == 3 {
      assert r[..3] == r;
    } else {
      assert r[..4] == line[..4];
    }
    NumberSignIsSolid();
    OtherStartIsNoTag(line);
    OtherStartIsNoTag(r);
  }

  lemma FirstChar(line: string, prefix: string)
    requires |prefix| > 0
    ensures StartsWith(line, prefix) ==> line[0] == prefix[0]
  {
    if StartsWith(line, prefix) { assert line[..|prefix|][0] == prefix[0]; }
  }

  lemma BareHeadingIsQuiet()
    ensures NoHeadings([BARE_HEADING]) && NoInline([BARE_HEADING])
  {
  }

  /** Stripping a block leaves its heading, unless the heading is all there is to it. */
  lemma {:induction false} HeadingStaysOrIsBare(block: Lines)
    requires IsBlock(block)
    ensures
      var text := StripEnd(block);
      && |text| > 0 && !OpensContent(text[0])
      && (IsHeading(text[0]) || (NoHeadings(text) && NoInline(text)))
  {
    var n := |block| - 1;
    HeadingStripped(block[0]);
    BareHeadingIsQuiet();
    hide IsHeading, LineMode, RStrip, OpensContent;
    if n == 0 {
      assert StripEnd(block) == [RStrip(block[0])];
    } else if RStrip(block[n]) == "" {
      HeadingStaysOrIsBare(block[..n]);
    }
  }

  // ---------------------------------------------------------------- the whole

  /** What the assembled pieces hold: no more blocks than pieces, no more inline ones
      than came before or are allowed. */
  lemma {:induction false} AssembledStaysWithin(s: Sections, n: nat, allow: Allowance)
    requires n <= |s.blocks| && WellSplit(s)
    ensures
      var r := SplitSections(Assembled(s, n, allow));
      && |r.blocks| <= n
      && Count(r, Full) <= MinInt(CountBefore(s.blocks, n, Full), MaxInt(0, allow.full))
      && Count(r, Focused) <= MinInt(CountBefore(s.blocks, n, Focused), MaxInt(0, allow.focused))
  {
    hide IsHeading, LineMode, ModeOf, Append, Piece, AddLines, Count;
    if n == 0 {
      PreludeHasNoBlocks(s.prelude);
    } else {
      var out := Assembled(s, n - 1, allow);
      AssembledStaysWithin(s, n - 1, allow);
      AppendCounts(out, s.blocks, n - 1, allow, Full);
      AppendCounts(out, s.blocks, n - 1, allow, Focused);
    }
  }

  lemma {:induction false} PreludeHasNoBlocks(prelude: Lines)
    requires NoHeadings(prelude)
    ensures |SplitSections(prelude).blocks| == 0
    ensures Count(SplitSections(prelude), Full) == 0 && Count(SplitSections(prelude), Focused) == 0
  {
    hide IsHeading;
    NoBlocksBegun(NOTHING, prelude);
  }

  lemma {:induction false} NoBlocksBegun(s: Sections, lines: Lines)
    requires NoHeadings(lines) && |s.blocks| == 0
    ensures |AddLines(s, lines).blocks| == 0
    decreases |lines|
  {
    hide IsHeading;
    if |lines| > 0 { NoBlocksBegun(AddLine(s, lines[0]), lines[1..]); }
  }

  lemma AppendCounts(out: Lines, blocks: seq<Lines>, k: nat, allow: Allowance, mode: Mode)
    requires k < |blocks| && IsBlock(blocks[k]) && IsInline(mode)
    ensures
      var r, s := SplitSections(Append(out, Piece(blocks, k, allow))), SplitSections(out);
      && |r.blocks| <= |s.blocks| + 1
      && Count(r, mode) <= Count(s, mode) + if ModeOf(blocks[k]) == mode && StaysInline(blocks, k, allow) then 1 else 0
  {
    var piece := Piece(blocks, k, allow);
    EmptyStatesNothing();
    hide IsHeading, LineMode, ModeOf, Piece, AddLines, Count, StaysInline, Blank;
    QuietLine(SplitSections(out), "", mode);
    AddLinesConcat(NOTHING, out, [""]);
    AddOneLine(SplitSections(out), "");
    PieceCounts(SplitSections(out), blocks, k, allow, mode);
    PieceCounts(SplitSections(out + [""]), blocks, k, allow, mode);
    AddLinesConcat(NOTHING, out, piece);
    AddLinesConcat(NOTHING, out + [""], piece);
  }

  lemma AddOneLine(s: Sections, line: string)
    ensures AddLines(s, [line]) == AddLine(s, line)
  {
    hide AddLine;
    assert [line][1..] == [];
  }

  /** Stripping the end of a text opens no block and turns none inline. */
  lemma {:induction false} StripEndCounts(lines: Lines, mode: Mode)
    requires IsInline(mode)
    ensures |SplitSections(StripEnd(lines)).blocks| <= |SplitSections(lines).blocks|
    ensures Count(SplitSections(StripEnd(lines)), mode) <= Count(SplitSections(lines), mode)
  {
    if |lines| > 0 {
      var n := |lines| - 1;
      var init, last, stripped := lines[..n], lines[n], RStrip(lines[n]);
      assert init + [last] == lines;
      AddLinesConcat(NOTHING, init, [last]);
      AddLinesConcat(NOTHING, init, [stripped]);
      AddOneLine(SplitSections(init), last);
      AddOneLine(SplitSections(init), stripped);
      RStripKeepsMode(last);
      LastLineCounts(SplitSections(init), last, mode);
      hide AddLine, AddLines, LineMode, IsHeading, RStrip, Count;
      if stripped == "" { StripEndCounts(init, mode); }
    }
  }

  lemma LastLineCounts(s: Sections, line: string, mode: Mode)
    requires IsInline(mode)
    ensures |s.blocks| <= |AddLine(s, line).blocks| && Count(s, mode) <= Count(AddLine(s, line), mode)
    ensures |AddLine(s, RStrip(line)).blocks| <= |AddLine(s, line).blocks|
    ensures Count(AddLine(s, RStrip(line)), mode) <= Count(AddLine(s, line), mode)
  {
    hide IsHeading, RStrip, AddLine, Count, LineMode;
    if IsHeading(line) {
      LastHeadingCounts(s, line, mode);
    } else {
      RStripKeepsMode(line);
      LastOtherCounts(s, line, RStrip(line), mode);
    }
  }

  lemma LastHeadingCounts(s: Sections, line: string, mode: Mode)
    requires IsInline(mode) && IsHeading(line)
    ensures |s.blocks| <= |AddLine(s, line).blocks| && Count(s, mode) <= Count(AddLine(s, line), mode)
    ensures |AddLine(s, RStrip(line)).blocks| <= |AddLine(s, line).blocks|
    ensures Count(AddLine(s, RStrip(line)), mode) <= Count(AddLine(s, line), mode)
  {
    var r := RStrip(line);
    HeadingStripped(line);
    HeadingStatesNothing(line);
    HeadingStatesNothing(r);
    BareHeadingIsQuiet();
    assert [BARE_HEADING][0] == BARE_HEADING;
    hide IsHeading, RStrip, LineMode, ModeOf, Count;
    BlockCounts(s, [line], mode);
    if IsHeading(r) {
      BlockCounts(s, [r], mode);
    } else {
      QuietLine(s, r, mode);
    }
  }

  lemma LastOtherCounts(s: Sections, line: string, r: string, mode: Mode)
    requires !IsHeading(line) && !IsHeading(r) && LineMode(line) == LineMode(r) && IsInline(mode)
    ensures |s.blocks| <= |AddLine(s, line).blocks| && Count(s, mode) <= Count(AddLine(s, line), mode)
    ensures |AddLine(s, r).blocks| <= |AddLine(s, line).blocks|
    ensures Count(AddLine(s, r), mode) <= Count(AddLine(s, line), mode)
  {
    hide IsHeading, LineMode, ModeOf;
    if |s.blocks| > 0 {
      var n := |s.blocks| - 1;
      CountPrefix(s.blocks, AddLine(s, line).blocks, n, mode);
      CountPrefix(s.blocks, AddLine(s, r).blocks, n, mode);
      ModePush(s.blocks[n], line);
      ModePush(s.blocks[n], r);
    }
  }

  lemma HeadingStatesNothing(line: string)
    requires line != "" && line[0] == '#'
    ensures LineMode(line) == Summary && ModeOf([line]) == Summary
  {
    FirstChar(line, FULL_INLINE);
    FirstChar(line, FOCUSED_EXTRACT);
    FirstChar(line, REFERENCE_ONLY);
    assert [line][1..] == [];
  }

  lemma {:induction false} AssembledStartsSolid(s: Sections, n: nat, allow: Allowance)
    requires n <= |s.blocks| && WellSplit(s) && (n > 0 || |s.prelude| > 0)
    requires |s.prelude| > 0 ==> SolidStart(s.prelude)
    ensures SolidStart(Assembled(s, n, allow))
  {
    if n > 0 {
      PieceCounts(NOTHING, s.blocks, n - 1, allow, Full);
      hide SolidStart, Piece, IsHeading, AddLines, Blank;
      if n > 1 || |s.prelude| > 0 { AssembledStartsSolid(s, n - 1, allow); }
      AppendStartsSolid(Assembled(s, n - 1, allow), Piece(s.blocks, n - 1, allow));
    }
  }

  lemma AppendStartsSolid(out: Lines, piece: Lines)
    requires SolidStart(piece) && (|out| > 0 ==> SolidStart(out))
    ensures SolidStart(Append(out, piece))
  {
  }

  lemma SolidNeedsNoStrip(lines: Lines)
    requires SolidStart(lines)
    ensures StripStart(lines) == lines
  {
    assert [lines[0]] + lines[1..] == lines;
  }

  /** Splitting a reduced section again gives at most the allowed blocks, and at most
      the allowed full and focused ones, for every section that starts solid, as a
      stripped text does. */
  lemma ReducedStaysWithin(lines: Lines, allow: Allowance)
    requires |lines| > 0 ==> SolidStart(lines)
    ensures
      var r := SplitSections(Reduced(lines, allow));
      && |r.blocks| <= MaxInt(0, allow.blocks)
      && Count(r, Full) <= MaxInt(0, allow.full)
      && Count(r, Focused) <= MaxInt(0, allow.focused)
  {
    var s := SplitSections(lines);
    SplitLosesNothing(lines);
    if |s.blocks| > 0 && allow.blocks > 0 {
      var n := MinInt(|s.blocks|, allow.blocks);
      var out := Assembled(s, n, allow);
      assert |s.prelude| > 0 ==> s.prelude[0] == lines[0];
      AssembledStaysWithin(s, n, allow);
      AssembledStartsSolid(s, n, allow);
      hide Assembled, Count, AddLines, SolidStart, CountBefore, WellSplit;
      SolidNeedsNoStrip(out);
      StripEndCounts(out, Full);
      StripEndCounts(out, Focused);
    }
  }

  lemma {:induction false} CountIncludes(blocks: seq<Lines>, k: nat, n: nat)
    requires k < n <= |blocks|
    ensures CountBefore(blocks, k, ModeOf(blocks[k])) < CountBefore(blocks, n, ModeOf(blocks[k]))
  {
    hide ModeOf;
    if k < n - 1 { CountIncludes(blocks, k, n - 1); }
  }

  /** With room for every inline block no block is downgraded. */
  lemma EnoughAllowanceKeepsContent(s: Sections, k: nat, allow: Allowance)
    requires k < |s.blocks| && Count(s, Full) <= allow.full && Count(s, Focused) <= allow.focused
    ensures Piece(s.blocks, k, allow) == StripEnd(s.blocks[k])
  {
    CountIncludes(s.blocks, k, |s.blocks|);
    hide ModeOf, StripEnd, Downgraded;
  }
}
