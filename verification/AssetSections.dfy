/** The asset section as a whole: named parts and contents that are dropped first, then
    the reduction of its blocks. */
module AssetSections {
  import opened Prelude
  import opened PyText
  import opened AssetBlocks
  import opened AssetTheorems
  import opened AssetContents
  import opened ReductionLadder

  const MAY_NEED := "May-need assets"
  const PINNED := "Pinned assets"

  function Stripped(lines: Lines): Lines {
    StripEnd(StripStart(lines))
  }

  predicate EndsPart(line: string) {
    line != "" && line[|line| - 1] == ':' && !StartsWith(line, "- ")
  }

  /** The lines from i on without the parts under this name. */
  function WithoutNamed(lines: Lines, i: nat, name: string, skipping: bool): Lines
    requires i <= |lines|
    decreases |lines| - i
  {
    if i == |lines| then []
    else if StartsWith(Strip(lines[i]), name) then WithoutNamed(lines, i + 1, name, true)
    else if skipping && IsHeading(lines[i]) then WithoutNamed(lines, i + 1, name, true)
    else
      var still := skipping && !EndsPart(lines[i]);
      (if still then [] else [lines[i]]) + WithoutNamed(lines, i + 1, name, still)
  }

  lemma WithoutNamedStep(lines: Lines, i: nat, name: string, skipping: bool)
    requires i < |lines|
    ensures
      var named, heading, ends := StartsWith(Strip(lines[i]), name), IsHeading(lines[i]), EndsPart(lines[i]);
      WithoutNamed(lines, i, name, skipping) ==
        if named || (skipping && heading) then WithoutNamed(lines, i + 1, name, true)
        else if skipping && !ends then WithoutNamed(lines, i + 1, name, true)
        else [lines[i]] + WithoutNamed(lines, i + 1, name, false)
  {
    hide StartsWith, Strip, IsHeading, EndsPart;
    assert [] + WithoutNamed(lines, i + 1, name, true) == WithoutNamed(lines, i + 1, name, true);
  }

  lemma WithoutNamedEnd(lines: Lines, name: string, skipping: bool)
    ensures WithoutNamed(lines, |lines|, name, skipping) == []
  {
  }

  /** `_drop_named_section`. */
  method DropNamedSection(lines: Lines, name: string) returns (r: Lines)
    ensures r == Stripped(WithoutNamed(lines, 0, name, false))
  {
    hide *;
    var out: Lines, skipping := [], false;
    ghost var all := WithoutNamed(lines, 0, name, false);
    assert [] + all == all;
    for i := 0 to |lines|
      invariant all == out + WithoutNamed(lines, i, name, skipping)
    {
      var line := lines[i];
      WithoutNamedStep(lines, i, name, skipping);
      if StartsWith(Strip(line), name) {
        skipping := true;
        continue;
      }
      if skipping && IsHeading(line) { continue; }
      if skipping && EndsPart(line) { skipping := false; }
      if !skipping {
        ConcatAssociates(out, [line], WithoutNamed(lines, i + 1, name, false));
        out := out + [line];
      }
    }
    WithoutNamedEnd(lines, name, skipping);
    assert out + [] == out;
    r := Stripped(out);
  }

  /** `_drop_asset_content_blocks` on a whole text. */
  function DropContents(lines: Lines): Lines {
    Stripped(WithoutContent(lines, 0, true))
  }

  /** The text after the named parts a state leaves out are dropped. */
  function Chosen(section: Lines, mayNeed: bool, pinned: bool): Lines {
    var text := Stripped(section);
    var needed := if mayNeed then text else Stripped(WithoutNamed(text, 0, MAY_NEED, false));
    if pinned then needed else Stripped(WithoutNamed(needed, 0, PINNED, false))
  }

  function RStripped(lines: Lines): Lines {
    seq(|lines|, i requires 0 <= i < |lines| => RStrip(lines[i]))
  }

  predicate NoInlineAllowed(allow: Allowance) {
    allow.full <= 0 && allow.focused <= 0
  }

  /** What the blocks are reduced from. */
  function Prepared(section: Lines, mayNeed: bool, pinned: bool, allow: Allowance): Lines {
    var text := Chosen(section, mayNeed, pinned);
    if NoInlineAllowed(allow) then DropContents(text) else text
  }

  function ReducedSection(section: Lines, mayNeed: bool, pinned: bool, allow: Allowance): Lines {
    RStripped(Reduced(Prepared(section, mayNeed, pinned, allow), allow))
  }

  /** `_reduce_relevant_assets_section`. */
  method ReduceSection(section: Lines, mayNeed: bool, pinned: bool, allow: Allowance) returns (r: Lines)
    ensures r == ReducedSection(section, mayNeed, pinned, allow)
  {
    hide Reduced, WithoutContent, WithoutNamed, Stripped, RStrip;
    var text := Stripped(section);
    if |text| == 0 {
      NothingToReduce(mayNeed, pinned, allow);
      return [];
    }
    if !mayNeed { text := DropNamedSection(text, MAY_NEED); }
    if !pinned { text := DropNamedSection(text, PINNED); }
    if allow.full <= 0 && allow.focused <= 0 { text := DropContents(text); }
    var reduced := ReduceBlocks(text, allow);
    r := RStripLines(reduced);
  }

  method RStripLines(lines: Lines) returns (r: Lines)
    ensures r == RStripped(lines)
  {
    hide RStrip;
    r := [];
    for i := 0 to |lines|
      invariant r == RStripped(lines)[..i]
    {
      r := r + [RStrip(lines[i])];
    }
  }

  lemma NothingToReduce(mayNeed: bool, pinned: bool, allow: Allowance)
    ensures Stripped([]) == [] && WithoutNamed([], 0, MAY_NEED, false) == [] && WithoutNamed([], 0, PINNED, false) == []
    ensures DropContents([]) == [] && Reduced([], allow) == [] && RStripped([]) == []
  {
  }

  // -------------------------------------------------------- what is stripped

  /** Empty, or starting with a solid character. */
  predicate Clean(lines: Lines) {
    |lines| > 0 ==> SolidStart(lines)
  }

  lemma {:induction false} StripStartIsClean(lines: Lines)
    ensures Clean(StripStart(lines))
    decreases |lines|
  {
    hide StripStart, LStrip, IsSpace;
    if |lines| == 0 {
      NothingToStrip();
      assert lines == [];
    } else {
      StripStartStep(lines);
      StripStartIsClean(lines[1..]);
    }
  }

  lemma StrippedIsClean(lines: Lines)
    ensures Clean(Stripped(lines))
  {
    var start := StripStart(lines);
    StripStartIsClean(lines);
    hide StripStart, StripEnd, SolidStart;
    if |start| == 0 {
      NothingToStrip();
      assert start == [];
    } else {
      StripEndKeeps(start);
    }
  }

  lemma PreparedIsClean(section: Lines, mayNeed: bool, pinned: bool, allow: Allowance)
    ensures Clean(Chosen(section, mayNeed, pinned)) && Clean(Prepared(section, mayNeed, pinned, allow))
  {
    hide Stripped, Clean, WithoutNamed, WithoutContent;
    var text := Stripped(section);
    var needed := if mayNeed then text else Stripped(WithoutNamed(text, 0, MAY_NEED, false));
    StrippedIsClean(section);
    StrippedIsClean(WithoutNamed(text, 0, MAY_NEED, false));
    StrippedIsClean(WithoutNamed(needed, 0, PINNED, false));
    StrippedIsClean(WithoutContent(Chosen(section, mayNeed, pinned), 0, true));
  }

  // ------------------------------------------------------- staying within

  function LastMode(s: Sections): Mode
    requires |s.blocks| > 0
  {
    ModeOf(s.blocks[|s.blocks| - 1])
  }

  /** No more blocks and no more of this mode; where the last block has no mode yet, the
      other has none either. */
  predicate NoMoreThan(r: Sections, s: Sections, mode: Mode) {
    && |r.blocks| <= |s.blocks| && Count(r, mode) <= Count(s, mode)
    && (|r.blocks| > 0 && LastMode(r) == Summary ==> LastMode(s) == Summary)
  }

  lemma OtherLineCounts(s: Sections, line: string, mode: Mode)
    requires |s.blocks| > 0 && !IsHeading(line) && IsInline(mode)
    ensures
      var r := AddLine(s, line);
      && |r.blocks| == |s.blocks|
      && LastMode(r) == (if LastMode(s) != Summary then LastMode(s) else LineMode(line))
      && Count(r, mode) == Count(s, mode) + if LastMode(s) == Summary && LineMode(line) == mode then 1 else 0
  {
    hide IsHeading, LineMode, ModeOf;
    var r, n := AddLine(s, line), |s.blocks| - 1;
    CountPrefix(s.blocks, r.blocks, n, mode);
    ModePush(s.blocks[n], line);
  }

  lemma HeadingCounts(s: Sections, line: string, mode: Mode)
    requires IsHeading(line) && IsInline(mode)
    ensures
      var r := AddLine(s, line);
      |r.blocks| == |s.blocks| + 1 && LastMode(r) == Summary && Count(r, mode) == Count(s, mode)
  {
    HeadingStartsSolid(line);
    HeadingStatesNothing(line);
    hide IsHeading, LineMode, ModeOf;
    BlockCounts(s, [line], mode);
  }

  lemma RStrippedLineCounts(r: Sections, s: Sections, line: string, mode: Mode)
    requires NoMoreThan(r, s, mode) && IsInline(mode)
    ensures NoMoreThan(AddLine(r, RStrip(line)), AddLine(s, line), mode)
  {
    var stripped := RStrip(line);
    if IsHeading(line) {
      HeadingStripped(line);
      BareHeadingIsQuiet();
      assert [BARE_HEADING][0] == BARE_HEADING;
      hide IsHeading, LineMode, Count, AddLine, RStrip, LastMode;
      HeadingCounts(s, line, mode);
      if IsHeading(stripped) {
        HeadingCounts(r, stripped, mode);
      } else {
        QuietLine(r, stripped, mode);
      }
    } else {
      RStripKeepsMode(line);
      RStrippedOtherCounts(r, s, line, stripped, mode);
    }
  }

  lemma RStrippedOtherCounts(r: Sections, s: Sections, line: string, stripped: string, mode: Mode)
    requires NoMoreThan(r, s, mode) && IsInline(mode)
    requires !IsHeading(line) && !IsHeading(stripped) && LineMode(stripped) == LineMode(line)
    ensures NoMoreThan(AddLine(r, stripped), AddLine(s, line), mode)
  {
    hide IsHeading, LineMode, Count, LastMode;
    if |r.blocks| > 0 { OtherLineCounts(r, stripped, mode); }
    if |s.blocks| > 0 {
      OtherLineCounts(s, line, mode);
    }
    if |r.blocks| == 0 { NoBlocksNoneCounted(AddLine(r, stripped), mode); }
  }

  lemma NoBlocksNoneCounted(s: Sections, mode: Mode)
    requires |s.blocks| == 0
    ensures Count(s, mode) == 0
  {
  }

  lemma {:induction false} RStrippedCounts(lines: Lines, n: nat, mode: Mode)
    requires n <= |lines| && IsInline(mode)
    ensures NoMoreThan(SplitSections(RStripped(lines)[..n]), SplitSections(lines[..n]), mode)
  {
    hide IsHeading, LineMode, Count, AddLine, RStrip, LastMode, SplitSections, NoMoreThan;
    var r := RStripped(lines);
    if n == 0 {
      assert r[..0] == [] && lines[..0] == [];
      NothingSplit(mode);
    } else {
      RStrippedCounts(lines, n - 1, mode);
      SplitPush(lines[..n - 1], lines[n - 1]);
      SplitPush(r[..n - 1], r[n - 1]);
      assert lines[..n] == lines[..n - 1] + [lines[n - 1]] && r[..n] == r[..n - 1] + [r[n - 1]];
      RStrippedLineCounts(SplitSections(r[..n - 1]), SplitSections(lines[..n - 1]), lines[n - 1], mode);
    }
  }

  lemma NothingSplit(mode: Mode)
    ensures NoMoreThan(SplitSections([]), SplitSections([]), mode)
  {
  }

  lemma SplitPush(lines: Lines, line: string)
    ensures SplitSections(lines + [line]) == AddLine(SplitSections(lines), line)
  {
    hide AddLine;
    AddLinesConcat(NOTHING, lines, [line]);
    AddOneLine(AddLines(NOTHING, lines), line);
  }

  /** Splitting what is left of any section gives at most the blocks, and at most the
      full and focused ones, that the state allows. */
  lemma SectionStaysWithin(section: Lines, mayNeed: bool, pinned: bool, allow: Allowance)
    ensures
      var r := SplitSections(ReducedSection(section, mayNeed, pinned, allow));
      && |r.blocks| <= MaxInt(0, allow.blocks)
      && Count(r, Full) <= MaxInt(0, allow.full)
      && Count(r, Focused) <= MaxInt(0, allow.focused)
  {
    var text := Prepared(section, mayNeed, pinned, allow);
    PreparedIsClean(section, mayNeed, pinned, allow);
    var reduced := Reduced(text, allow);
    hide Prepared, Reduced, SplitSections, Count, SolidStart, LastMode;
    ReducedStaysWithin(text, allow);
    RStrippedCounts(reduced, |reduced|, Full);
    RStrippedCounts(reduced, |reduced|, Focused);
    assert reduced[..|reduced|] == reduced && RStripped(reduced)[..|reduced|] == RStripped(reduced);
  }

  // ------------------------------------------------------- inline content

  lemma RStrippedOpens(lines: Lines)
    ensures Opens(RStripped(lines)) <==> Opens(lines)
  {
    hide OpensContent, ClosesContent, LStrip, RStrip;
    var r := RStripped(lines);
    forall i | 0 <= i < |lines| ensures OpensContent(r[i]) <==> OpensContent(lines[i]) {
      StrippedTags(lines[i]);
    }
    if Opens(lines) {
      var i :| 0 <= i < |lines| && OpensContent(lines[i]);
      assert OpensContent(r[i]);
    }
  }

  lemma DroppedIsUnclosed(lines: Lines)
    ensures Unclosed(DropContents(lines)) && (Opens(DropContents(lines)) <==> !AllClosed(lines, 0))
  {
    var left := WithoutContent(lines, 0, true);
    var start := StripStart(left);
    assert DropContents(lines) == StripEnd(start);
    hide *;
    LeftIsUnclosed(lines, 0, true);
    StripStartUnclosed(left);
    StripEndUnclosed(start);
    ContentIsGoneExactlyWhen(lines, 0, true);
    StripStartOpens(left);
    StripEndOpens(start);
  }

  /** With no inline block allowed, content is left only where the text opens one that is
      nowhere closed; and with all blocks shown, exactly then. */
  lemma NoInlineNoContentExactlyWhen(section: Lines, mayNeed: bool, pinned: bool, allow: Allowance)
    requires NoInlineAllowed(allow)
    ensures
      var text := Chosen(section, mayNeed, pinned);
      var shown := SplitSections(DropContents(text));
      var r := ReducedSection(section, mayNeed, pinned, allow);
      && (Opens(r) ==> !AllClosed(text, 0))
      && (|shown.blocks| <= MaxInt(0, allow.blocks) ==> (Opens(r) <==> !AllClosed(text, 0)))
  {
    var text := Chosen(section, mayNeed, pinned);
    var dropped := DropContents(text);
    assert Prepared(section, mayNeed, pinned, allow) == dropped;
    PreparedIsClean(section, mayNeed, pinned, allow);
    hide DropContents, Chosen, Reduced, Opens, AllClosed, SplitSections, Unclosed, SolidStart;
    DroppedIsUnclosed(text);
    UnclosedSectionReduced(dropped, allow);
    RStrippedOpens(Reduced(dropped, allow));
  }

  /** With inline blocks allowed the contents are looked at block by block: content is
      left exactly where a shown block holds some, or the text before the blocks does. */
  lemma SectionHoldsContentExactlyWhen(section: Lines, mayNeed: bool, pinned: bool, allow: Allowance)
    requires !NoInlineAllowed(allow)
    ensures
      var text := Chosen(section, mayNeed, pinned);
      var s := SplitSections(text);
      var n := ShownBlocks(s, allow);
      Opens(ReducedSection(section, mayNeed, pinned, allow)) <==>
        (|s.blocks| == 0 || n > 0)
        && (Opens(s.prelude) || exists k | 0 <= k < n :: HoldsContent(s.blocks, k, allow))
  {
    var text := Chosen(section, mayNeed, pinned);
    assert Prepared(section, mayNeed, pinned, allow) == text;
    PreparedIsClean(section, mayNeed, pinned, allow);
    hide Chosen, Reduced, Opens, HoldsContent, SplitSections, ShownBlocks, SolidStart;
    ReducedHoldsContentExactlyWhen(text, allow);
    RStrippedOpens(Reduced(text, allow));
  }

  // ------------------------------------------- a heading inside a content

  const CLOSING := "</asset_content>"

  /** A full-inline block with a heading inside its content, and a focused block. */
  function NestedHeading(heading: string, tag: string, inner: string, last: string): Lines {
    [heading, FULL_INLINE, tag, inner, CLOSING, last, FOCUSED_EXTRACT]
  }

  predicate Headings(heading: string, inner: string, last: string) {
    IsHeading(heading) && IsHeading(inner) && IsHeading(last)
  }

  lemma ThreeBlocks(first: Lines, second: Lines, third: Lines)
    requires IsBlock(first) && IsBlock(second) && IsBlock(third)
    ensures SplitSections(first + second + third) == Sections([], [first, second, third])
  {
    hide IsBlock, AddLines;
    AddBlock(NOTHING, first);
    AddBlock(Sections([], [first]), second);
    AddBlock(Sections([], [first, second]), third);
    AddLinesConcat(NOTHING, first + second, third);
    AddLinesConcat(NOTHING, first, second);
    assert [] + [first] == [first] && [first] + [second] == [first, second];
    assert [first, second] + [third] == [first, second, third];
  }

  lemma NestedHeadingSplits(heading: string, tag: string, inner: string, last: string)
    requires Headings(heading, inner, last) && OpensContent(tag)
    ensures SplitSections(NestedHeading(heading, tag, inner, last))
         == Sections([], [[heading, FULL_INLINE, tag], [inner, CLOSING], [last, FOCUSED_EXTRACT]])
  {
    hide IsHeading, OpensContent, AddLines;
    LinesAreNoHeadings(tag);
    var first, second, third := [heading, FULL_INLINE, tag], [inner, CLOSING], [last, FOCUSED_EXTRACT];
    ThreeBlocks(first, second, third);
    assert first + second + third == NestedHeading(heading, tag, inner, last);
  }

  lemma LinesAreNoHeadings(tag: string)
    requires OpensContent(tag)
    ensures !IsHeading(tag) && !IsHeading(FULL_INLINE) && !IsHeading(FOCUSED_EXTRACT) && !IsHeading(CLOSING)
  {
    hide OpensContent, IsHeading, StartsWith;
    HeadingStartsSolid(FULL_INLINE);
    HeadingStartsSolid(FOCUSED_EXTRACT);
    HeadingStartsSolid(CLOSING);
    HeadingStartsSolid(tag);
    if IsHeading(tag) { OtherStartIsNoTag(tag); }
  }

  lemma {:induction false} NextCloseBefore(lines: Lines, i: nat, k: nat)
    requires i <= k < |lines| && ClosesContent(lines[k])
    ensures NextClose(lines, i) <= k
    decreases k - i
  {
    hide ClosesContent;
    if i < k { NextCloseBefore(lines, i + 1, k); }
  }

  lemma ClosedOnce(lines: Lines, i: nat, k: nat)
    requires i < k < |lines| && ClosesContent(lines[k]) && forall j | 0 <= j < |lines| && j != i :: !OpensContent(lines[j])
    ensures AllClosed(lines, 0)
  {
    hide ClosesContent, OpensContent, NextClose;
    NextCloseBefore(lines, i + 1, k);
  }

  /** Its content is closed in the section. */
  lemma NestedHeadingIsClosed(heading: string, tag: string, inner: string, last: string)
    requires Headings(heading, inner, last)
    ensures AllClosed(NestedHeading(heading, tag, inner, last), 0)
  {
    hide OpensContent, ClosesContent, IsHeading, AllClosed;
    SolidLinesAreNoTags(heading);
    SolidLinesAreNoTags(inner);
    SolidLinesAreNoTags(last);
    ClosingCloses();
    ClosedOnce(NestedHeading(heading, tag, inner, last), 2, 4);
  }

  lemma SolidLinesAreNoTags(heading: string)
    requires IsHeading(heading)
    ensures !OpensContent(heading) && !ClosesContent(heading)
    ensures !OpensContent(FULL_INLINE) && !OpensContent(FOCUSED_EXTRACT)
  {
    assert FULL_INLINE[0] == '-' && FOCUSED_EXTRACT[0] == '-' && !IsSpace('-');
    hide OpensContent, ClosesContent, IsHeading;
    HeadingStartsSolid(heading);
    OtherStartIsNoTag(heading);
    OtherStartIsNoTag(FULL_INLINE);
    OtherStartIsNoTag(FOCUSED_EXTRACT);
  }

  lemma ClosingCloses()
    ensures ClosesContent(CLOSING) && !OpensContent(CLOSING)
  {
    assert CLOSING[0] == '<' && CLOSING[|CLOSING| - 1] == '>' && !IsSpace('<') && !IsSpace('>');
    TagStart(CLOSING);
    hide LStrip, RStrip, IsSpace, OpensContent;
    StripIs(CLOSING, 0, |CLOSING|);
    assert CLOSING[0..|CLOSING|] == CLOSING;
  }

  /** A name no heading, tag or item starts with. */
  predicate PlainName(name: string) {
    name != "" && name[0] != '#' && name[0] != '<' && name[0] != '-'
  }

  lemma NamesArePlain()
    ensures PlainName(MAY_NEED) && PlainName(PINNED)
  {
  }

  /** Stripping and dropping named parts leave the section alone. */
  lemma NestedHeadingIsChosen(heading: string, tag: string, inner: string, last: string, mayNeed: bool, pinned: bool)
    requires Headings(heading, inner, last) && OpensContent(tag)
    ensures Chosen(NestedHeading(heading, tag, inner, last), mayNeed, pinned) == NestedHeading(heading, tag, inner, last)
  {
    hide OpensContent, IsHeading, RStrip, IsSpace, Stripped, WithoutNamed;
    var section := NestedHeading(heading, tag, inner, last);
    FocusedLineIsSolid();
    NamesArePlain();
    HeadingStartsSolid(heading);
    EndsSolid(section);
    NestedHeadingIsUnnamed(heading, tag, inner, last, MAY_NEED);
    NestedHeadingIsUnnamed(heading, tag, inner, last, PINNED);
  }

  lemma NestedHeadingIsUnnamed(heading: string, tag: string, inner: string, last: string, name: string)
    requires Headings(heading, inner, last) && OpensContent(tag) && PlainName(name)
    ensures
      var section := NestedHeading(heading, tag, inner, last);
      WithoutNamed(section, 0, name, false) == section
  {
    hide OpensContent, IsHeading, StartsWith, Strip, WithoutNamed, PlainName;
    var section := NestedHeading(heading, tag, inner, last);
    HeadingIsNotNamed(heading, name);
    HeadingIsNotNamed(inner, name);
    HeadingIsNotNamed(last, name);
    TagIsNotNamed(tag, name);
    ModeLinesAreNotNamed(name);
    NothingNamed(section, 0, name);
    assert section[0..] == section;
  }

  lemma HeadingIsNotNamed(line: string, name: string)
    requires IsHeading(line) && PlainName(name)
    ensures !StartsWith(Strip(line), name)
  {
    hide Strip, RStrip, IsSpace, IsHeading;
    HeadingStartsSolid(line);
    SolidKeepsStart(line);
    FirstChar(Strip(line), name);
  }

  lemma TagIsNotNamed(tag: string, name: string)
    requires OpensContent(tag) && PlainName(name)
    ensures !StartsWith(Strip(tag), name) && !StartsWith(Strip(CLOSING), name)
  {
    hide Strip, OpensContent, ClosesContent;
    ClosingCloses();
    TagStart(tag);
    TagStart(CLOSING);
    FirstChar(Strip(tag), name);
    FirstChar(Strip(CLOSING), name);
  }

  lemma ModeLinesAreNotNamed(name: string)
    requires PlainName(name)
    ensures !StartsWith(Strip(FULL_INLINE), name) && !StartsWith(Strip(FOCUSED_EXTRACT), name)
  {
    assert FULL_INLINE[0] == '-' && FOCUSED_EXTRACT[0] == '-' && !IsSpace('-');
    hide Strip, RStrip, IsSpace;
    SolidKeepsStart(FULL_INLINE);
    SolidKeepsStart(FOCUSED_EXTRACT);
    FirstChar(Strip(FULL_INLINE), name);
    FirstChar(Strip(FOCUSED_EXTRACT), name);
  }

  lemma FocusedLineIsSolid()
    ensures RStrip(FOCUSED_EXTRACT) == FOCUSED_EXTRACT
  {
    assert FOCUSED_EXTRACT[|FOCUSED_EXTRACT| - 1] == 't' && !IsSpace('t');
    hide RStrip, IsSpace;
    StripFromEnd(FOCUSED_EXTRACT, |FOCUSED_EXTRACT|);
    assert FOCUSED_EXTRACT[..|FOCUSED_EXTRACT|] == FOCUSED_EXTRACT;
  }

  lemma EndsSolid(lines: Lines)
    requires SolidStart(lines) && RStrip(lines[|lines| - 1]) == lines[|lines| - 1] != ""
    ensures Stripped(lines) == lines
  {
    hide RStrip, StripStart, StripEnd;
    SolidNeedsNoStrip(lines);
    StripEndStep(lines);
  }

  lemma {:induction false} NothingNamed(lines: Lines, i: nat, name: string)
    requires i <= |lines| && forall j | i <= j < |lines| :: !StartsWith(Strip(lines[j]), name)
    ensures WithoutNamed(lines, i, name, false) == lines[i..]
    decreases |lines| - i
  {
    hide *;
    if i == |lines| {
      WithoutNamedEnd(lines, name, false);
    } else {
      WithoutNamedStep(lines, i, name, false);
      NothingNamed(lines, i + 1, name);
    }
  }

  lemma OpenBlockHolds(heading: string, tag: string, inner: Lines, last: Lines, allow: Allowance)
    requires IsHeading(heading) && OpensContent(tag) && allow.full <= 0
    ensures HoldsContent([[heading, FULL_INLINE, tag], inner, last], 0, allow)
  {
    hide IsHeading, OpensContent, StripEnd, AllClosed, Opens;
    var block := [heading, FULL_INLINE, tag];
    OpenTagAtEnd(block);
    FullBlock(heading, tag);
    assert [block, inner, last][0] == block;
    hide ModeOf;
  }

  lemma FullBlock(heading: string, tag: string)
    requires IsHeading(heading)
    ensures ModeOf([heading, FULL_INLINE, tag]) == Full
  {
    hide IsHeading;
    HeadingStartsSolid(heading);
    HeadingStatesNothing(heading);
    var block := [heading, FULL_INLINE, tag];
    assert LineMode(FULL_INLINE) == Full;
    hide LineMode;
    assert block[1..][0] == FULL_INLINE;
  }

  /** With no full block allowed but a focused one, the downgraded first block keeps the
      content, although the section closes it. */
  lemma NestedHeadingStays(heading: string, tag: string, inner: string, last: string, allow: Allowance)
    requires Headings(heading, inner, last) && OpensContent(tag)
    requires allow.full <= 0 < allow.focused && allow.blocks > 0
    ensures Opens(ReducedSection(NestedHeading(heading, tag, inner, last), false, true, allow))
  {
    var section := NestedHeading(heading, tag, inner, last);
    var s := Sections([], [[heading, FULL_INLINE, tag], [inner, CLOSING], [last, FOCUSED_EXTRACT]]);
    hide OpensContent, IsHeading, Opens, HoldsContent, NestedHeading, Chosen, ReducedSection, SplitSections;
    NestedHeadingIsChosen(heading, tag, inner, last, false, true);
    NestedHeadingSplits(heading, tag, inner, last);
    OpenBlockHolds(heading, tag, [inner, CLOSING], [last, FOCUSED_EXTRACT], allow);
    SectionHoldsContentExactlyWhen(section, false, true, allow);
    assert 0 < ShownBlocks(s, allow);
  }

  lemma OpenTagAtEnd(lines: Lines)
    requires |lines| > 0 && OpensContent(lines[|lines| - 1])
    ensures !AllClosed(StripEnd(lines), 0)
  {
    var n := |lines| - 1;
    hide OpensContent, RStrip, LStrip, ClosesContent, StripEnd;
    StripEndStep(lines);
    StrippedTags(lines[n]);
    var text := StripEnd(lines);
    assert text[n] == RStrip(lines[n]) && NextClose(text, n + 1) == |text|;
  }

  // ------------------------------------------------------- on the ladder

  function CountLines(lines: Lines, prefix: string): nat {
    if |lines| == 0 then 0 else (if StartsWith(lines[0], prefix) then 1 else 0) + CountLines(lines[1..], prefix)
  }

  /** `_relevant_asset_counts`: blocks, full-inline and focused ones. */
  function AssetCounts(section: Lines): (nat, nat, nat) {
    (CountLines(section, HEADING), CountLines(section, FULL_INLINE), CountLines(section, FOCUSED_EXTRACT))
  }

  /** What a state of the ladder makes of the section. */
  function ReducedIn(section: Lines, state: State): Lines {
    ReducedSection(section, state.mayNeed, state.pinned, Allowance(state.reference, state.full, state.focused))
  }

  const EXAMPLE := NestedHeading("### a", "<asset_content>", "### b", "### c")

  lemma ExampleHeadings()
    ensures Headings("### a", "### b", "### c")
  {
  }

  lemma ExampleTag()
    ensures OpensContent("<asset_content>")
  {
    var tag := "<asset_content>";
    assert tag[0] == '<' && tag[14] == '>' && |tag| == 15 && !IsSpace('<') && !IsSpace('>');
    hide LStrip, RStrip, IsSpace, IsOpeningTag;
    StripIs(tag, 0, 15);
    assert tag[0..15] == tag;
    ExampleTagIsOpening(tag);
  }

  lemma ExampleTagIsOpening(tag: string)
    requires tag == "<asset_content>"
    ensures IsOpeningTag(tag)
  {
    hide Find;
    assert tag[14] == '>' && |tag| == 15;
    assert forall i | 0 <= i < 14 :: tag[i] != '>';
    assert StartsWith(tag, "<asset_content") by { assert tag[..14] == "<asset_content"; }
    FirstFound(tag, '>', 14);
  }

  lemma FirstFound(s: string, c: char, k: nat)
    requires k < |s| && s[k] == c && forall i | 0 <= i < k :: s[i] != c
    ensures Find(s, c) == k
  {
    hide Find;
    assert c in s[..k + 1] by { assert s[..k + 1][k] == c; }
  }

  lemma CountTwo(a: string, b: string, rest: Lines, prefix: string)
    ensures CountLines([a, b] + rest, prefix)
         == (if StartsWith(a, prefix) then 1 else 0) + (if StartsWith(b, prefix) then 1 else 0) + CountLines(rest, prefix)
  {
    hide StartsWith;
    var lines := [a, b] + rest;
    assert lines[1..][1..] == rest && lines[1..][0] == b;
  }

  /** The counts of such a section: three headings, one full and one focused line. */
  lemma NestedHeadingCounts(heading: string, tag: string, inner: string, last: string)
    requires Headings(heading, inner, last) && OpensContent(tag)
    ensures AssetCounts(NestedHeading(heading, tag, inner, last)) == (3, 1, 1)
  {
    hide StartsWith, OpensContent, CountLines;
    LineCounts(heading, tag);
    LineCounts(inner, tag);
    LineCounts(last, tag);
    CountsOf(heading, tag, inner, last, HEADING);
    CountsOf(heading, tag, inner, last, FULL_INLINE);
    CountsOf(heading, tag, inner, last, FOCUSED_EXTRACT);
  }

  function One(line: string, prefix: string): nat {
    if StartsWith(line, prefix) then 1 else 0
  }

  lemma CountsOf(heading: string, tag: string, inner: string, last: string, prefix: string)
    ensures CountLines(NestedHeading(heading, tag, inner, last), prefix)
         == One(heading, prefix) + One(FULL_INLINE, prefix) + One(tag, prefix) + One(inner, prefix)
            + One(CLOSING, prefix) + One(last, prefix) + One(FOCUSED_EXTRACT, prefix)
  {
    hide StartsWith;
    CountTwo(heading, FULL_INLINE, [tag, inner] + ([CLOSING, last] + [FOCUSED_EXTRACT]), prefix);
    CountTwo(tag, inner, [CLOSING, last] + [FOCUSED_EXTRACT], prefix);
    CountTwo(CLOSING, last, [FOCUSED_EXTRACT], prefix);
    assert [FOCUSED_EXTRACT][1..] == [];
    assert [heading, FULL_INLINE] + ([tag, inner] + ([CLOSING, last] + [FOCUSED_EXTRACT]))
        == NestedHeading(heading, tag, inner, last);
  }

  lemma LineCounts(heading: string, tag: string)
    requires IsHeading(heading) && OpensContent(tag)
    ensures !StartsWith(heading, FULL_INLINE) && !StartsWith(heading, FOCUSED_EXTRACT)
    ensures !StartsWith(tag, HEADING) && !StartsWith(tag, FULL_INLINE) && !StartsWith(tag, FOCUSED_EXTRACT)
    ensures !StartsWith(CLOSING, HEADING) && !StartsWith(CLOSING, FULL_INLINE) && !StartsWith(CLOSING, FOCUSED_EXTRACT)
    ensures !StartsWith(FULL_INLINE, HEADING) && !StartsWith(FOCUSED_EXTRACT, HEADING)
    ensures StartsWith(FULL_INLINE, FULL_INLINE) && StartsWith(FOCUSED_EXTRACT, FOCUSED_EXTRACT)
    ensures !StartsWith(FULL_INLINE, FOCUSED_EXTRACT) && !StartsWith(FOCUSED_EXTRACT, FULL_INLINE)
  {
    HeadingStartsSolid(heading);
    StatingLines();
    hide OpensContent, StartsWith, IsSpace;
    FirstChar(heading, FULL_INLINE);
    FirstChar(heading, FOCUSED_EXTRACT);
    FirstChar(CLOSING, HEADING);
    FirstChar(CLOSING, FULL_INLINE);
    FirstChar(CLOSING, FOCUSED_EXTRACT);
    FirstChar(FULL_INLINE, HEADING);
    FirstChar(FOCUSED_EXTRACT, HEADING);
    TagStatesNothing(tag, HEADING);
    TagStatesNothing(tag, FULL_INLINE);
    TagStatesNothing(tag, FOCUSED_EXTRACT);
  }

  lemma StatingLines()
    ensures HEADING[0] == '#' && FULL_INLINE[0] == FOCUSED_EXTRACT[0] == '-' && CLOSING[0] == '<'
    ensures StartsWith(FULL_INLINE, FULL_INLINE) && StartsWith(FOCUSED_EXTRACT, FOCUSED_EXTRACT)
    ensures !StartsWith(FULL_INLINE, FOCUSED_EXTRACT) && !StartsWith(FOCUSED_EXTRACT, FULL_INLINE)
    ensures !IsSpace('#') && !IsSpace('-')
  {
    assert FULL_INLINE[9] == 'u' && FOCUSED_EXTRACT[9] == 'o';
    OtherCharacter(FULL_INLINE, FOCUSED_EXTRACT, 9);
    OtherCharacter(FOCUSED_EXTRACT, FULL_INLINE, 9);
  }

  lemma OtherCharacter(line: string, prefix: string, k: nat)
    requires k < |line| && k < |prefix| && line[k] != prefix[k]
    ensures !StartsWith(line, prefix)
  {
    assert |line| >= |prefix| ==> line[..|prefix|][k] == line[k];
  }

  lemma TagStatesNothing(tag: string, prefix: string)
    requires OpensContent(tag) && prefix != "" && !IsSpace(prefix[0]) && prefix[0] != '<'
    ensures !StartsWith(tag, prefix)
  {
    hide OpensContent, ClosesContent, IsSpace;
    FirstChar(tag, prefix);
    if StartsWith(tag, prefix) { OtherStartIsNoTag(tag); }
  }

  /** The same section with no inline block allowed: the content goes. */
  lemma NestedHeadingGoes(heading: string, tag: string, inner: string, last: string,
                          mayNeed: bool, pinned: bool, allow: Allowance)
    requires Headings(heading, inner, last) && OpensContent(tag) && NoInlineAllowed(allow)
    ensures !Opens(ReducedSection(NestedHeading(heading, tag, inner, last), mayNeed, pinned, allow))
  {
    hide *;
    NestedHeadingIsChosen(heading, tag, inner, last, mayNeed, pinned);
    NestedHeadingIsClosed(heading, tag, inner, last);
    NoInlineNoContentExactlyWhen(NestedHeading(heading, tag, inner, last), mayNeed, pinned, allow);
  }

  lemma LaterStatesInlineNothing(z: Sizes, preferHeadroom: bool, i: nat)
    requires 4 <= i < |Candidates(z, preferHeadroom)|
    ensures Candidates(z, preferHeadroom)[i].full == 0 && Candidates(z, preferHeadroom)[i].focused == 0
  {
    var ladder := Candidates(z, preferHeadroom);
    assert ladder[4].full == 0 && ladder[4].focused == 0;
    hide Candidates;
    if i > 4 { LadderOnlyShrinks(z, preferHeadroom, 4, i); }
  }

  /** Whatever else the pack holds: the fourth state of the ladder for this section allows
      no full block, and still leaves the content of the full one, which the section
      closes. From the fifth state on no content is left. */
  lemma HeadingKeepsContent(z: Sizes, preferHeadroom: bool)
    requires (z.blocks, z.full, z.focused) == AssetCounts(EXAMPLE)
    ensures
      var ladder := Candidates(z, preferHeadroom);
      && AllClosed(EXAMPLE, 0)
      && ladder[3].full == 0 && Opens(ReducedIn(EXAMPLE, ladder[3]))
      && forall i | 4 <= i < |ladder| :: !Opens(ReducedIn(EXAMPLE, ladder[i]))
  {
    var ladder := Candidates(z, preferHeadroom);
    assert ladder[3].full == 0 && ladder[3].focused == z.focused && ladder[3].reference == z.blocks
        && !ladder[3].mayNeed && ladder[3].pinned;
    hide IsHeading, OpensContent, AllClosed, Opens, ReducedSection, AssetCounts, NestedHeading, Candidates;
    ExampleHeadings();
    ExampleTag();
    NestedHeadingIsClosed("### a", "<asset_content>", "### b", "### c");
    NestedHeadingCounts("### a", "<asset_content>", "### b", "### c");
    NestedHeadingStays("### a", "<asset_content>", "### b", "### c", Allowance(3, 0, 1));
    forall i | 4 <= i < |ladder| ensures !Opens(ReducedIn(EXAMPLE, ladder[i])) {
      LaterStatesInlineNothing(z, preferHeadroom, i);
      var state := ladder[i];
      NestedHeadingGoes("### a", "<asset_content>", "### b", "### c", state.mayNeed, state.pinned,
                        Allowance(state.reference, 0, 0));
    }
  }
}
