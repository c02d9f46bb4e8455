/** Reducing the asset section of an execution prompt: splitting it into blocks,
    keeping as many as allowed, and downgrading what may not stay inline. A text is
    its lines, and content tags stand on lines of their own. */
module AssetBlocks {
  import opened Prelude
  import opened PyText

  type Lines = seq<string>

  const HEADING := "### "
  const MODE := "- Mode: "
  const FULL_INLINE := "- Mode: full_inline"
  const FOCUSED_EXTRACT := "- Mode: focused_extract"
  const REFERENCE_ONLY := "- Mode: reference_only"
  const REFERENCE_LINE :=
    REFERENCE_ONLY + " - inline content omitted by budget reduction; consult asset_read if needed"
  const BARE_HEADING := "###"

  datatype Mode = Full | Focused | Reference | Summary

  predicate IsHeading(line: string) {
    StartsWith(line, HEADING)
  }

  /** The mode a line states, Summary for none. */
  function LineMode(line: string): Mode {
    if StartsWith(line, FULL_INLINE) then Full
    else if StartsWith(line, FOCUSED_EXTRACT) then Focused
    else if StartsWith(line, REFERENCE_ONLY) then Reference
    else Summary
  }

  /** The mode of a block is that of its first line that states one. */
  function ModeOf(block: Lines): Mode {
    if |block| == 0 then Summary
    else if LineMode(block[0]) != Summary then LineMode(block[0])
    else ModeOf(block[1..])
  }

  // ---------------------------------------------------------------- splitting

  /** The part before the first heading, and the blocks. */
  datatype Sections = Sections(prelude: Lines, blocks: seq<Lines>)

  function AddLine(s: Sections, line: string): Sections {
    if IsHeading(line) then s.(blocks := s.blocks + [[line]])
    else if |s.blocks| == 0 then s.(prelude := s.prelude + [line])
    else
      var last := |s.blocks| - 1;
      s.(blocks := s.blocks[..last] + [s.blocks[last] + [line]])
  }

  function AddLines(s: Sections, lines: Lines): Sections
    decreases |lines|
  {
    if |lines| == 0 then s else AddLines(AddLine(s, lines[0]), lines[1..])
  }

  const NOTHING := Sections([], [])

  function SplitSections(lines: Lines): Sections {
    AddLines(NOTHING, lines)
  }

  function Flatten(blocks: seq<Lines>): Lines {
    if |blocks| == 0 then [] else Flatten(blocks[..|blocks| - 1]) + blocks[|blocks| - 1]
  }

  predicate IsBlock(block: Lines) {
    |block| > 0 && IsHeading(block[0]) && forall i | 1 <= i < |block| :: !IsHeading(block[i])
  }

  predicate WellSplit(s: Sections) {
    && (forall i | 0 <= i < |s.prelude| :: !IsHeading(s.prelude[i]))
    && (forall k | 0 <= k < |s.blocks| :: IsBlock(s.blocks[k]))
  }

  lemma AddLineKeeps(s: Sections, line: string)
    requires WellSplit(s)
    ensures WellSplit(AddLine(s, line))
    ensures
      var r := AddLine(s, line);
      r.prelude + Flatten(r.blocks) == s.prelude + Flatten(s.blocks) + [line]
  {
    hide IsHeading;
    var r, n := AddLine(s, line), |s.blocks|;
    if IsHeading(line) {
      assert r.blocks[..n] == s.blocks;
      assert IsBlock([line]);
    } else if n > 0 {
      assert r.blocks[..n - 1] == s.blocks[..n - 1] && r.blocks[n - 1] == s.blocks[n - 1] + [line];
      assert IsBlock(s.blocks[n - 1] + [line]);
    }
  }

  lemma {:induction false} AddLinesKeeps(s: Sections, lines: Lines)
    requires WellSplit(s)
    ensures WellSplit(AddLines(s, lines))
    ensures
      var r := AddLines(s, lines);
      r.prelude + Flatten(r.blocks) == s.prelude + Flatten(s.blocks) + lines
    decreases |lines|
  {
    hide IsHeading, WellSplit, Flatten, AddLine;
    if |lines| > 0 {
      AddLineKeeps(s, lines[0]);
      AddLinesKeeps(AddLine(s, lines[0]), lines[1..]);
      assert [lines[0]] + lines[1..] == lines;
    }
  }

  /** Splitting loses no line and keeps their order; every block has its heading first
      and no other, and nothing before the first heading is a block. */
  lemma SplitLosesNothing(lines: Lines)
    ensures
      var s := SplitSections(lines);
      s.prelude + Flatten(s.blocks) == lines && WellSplit(s)
  {
    AddLinesKeeps(NOTHING, lines);
    assert [] + lines == lines;
  }

  lemma {:induction false} AddLinesConcat(s: Sections, a: Lines, b: Lines)
    ensures AddLines(s, a + b) == AddLines(AddLines(s, a), b)
    decreases |a|
  {
    if |a| == 0 {
      assert a + b == b;
    } else {
      hide AddLine;
      AddLinesConcat(AddLine(s, a[0]), a[1..], b);
      assert (a + b)[1..] == a[1..] + b;
    }
  }

  /** `_split_relevant_asset_blocks`. */
  method SplitBlocks(lines: Lines) returns (prelude: Lines, blocks: seq<Lines>)
    ensures Sections(prelude, blocks) == SplitSections(lines)
  {
    hide IsHeading;
    prelude, blocks := [], [];
    var current: Option<Lines> := None;
    assert lines[..0] == [];
    for i := 0 to |lines|
      invariant SplitSections(lines[..i])
             == Sections(prelude, if current.Some? then blocks + [current.value] else blocks)
      invariant current.None? ==> |blocks| == 0
    {
      var line := lines[i];
      AddLinesConcat(NOTHING, lines[..i], [line]);
      assert lines[..i + 1] == lines[..i] + [line];
      if IsHeading(line) {
        if current.Some? { blocks := blocks + [current.value]; }
        current := Some([line]);
        continue;
      }
      if current.None? {
        prelude := prelude + [line];
      } else {
        current := Some(current.value + [line]);
      }
    }
    assert lines[..|lines|] == lines;
    if current.Some? { blocks := blocks + [current.value]; }
  }

  /** `_asset_block_mode`. */
  method AssetBlockMode(block: Lines) returns (mode: Mode)
    ensures mode == ModeOf(block)
  {
    hide LineMode;
    assert block[0..] == block;
    for i := 0 to |block|
      invariant ModeOf(block) == ModeOf(block[i..])
    {
      assert block[i..][0] == block[i] && block[i..][1..] == block[i + 1..];
      if LineMode(block[i]) != Summary { return LineMode(block[i]); }
    }
    mode := Summary;
  }

  // --------------------------------------------------------------- one block

  /** Stripping a text that starts with a solid character: blank lines at the end go,
      and the whitespace after the last line. */
  function StripEnd(lines: Lines): Lines {
    if |lines| == 0 then []
    else
      var last := RStrip(lines[|lines| - 1]);
      if last == "" then StripEnd(lines[..|lines| - 1]) else lines[..|lines| - 1] + [last]
  }

  /** An opening tag, with nothing but blanks around it. */
  predicate OpensContent(line: string) {
    IsOpeningTag(Strip(line))
  }

  predicate IsOpeningTag(tag: string) {
    && StartsWith(tag, "<asset_content") && |tag| > 14 && !IsWordChar(tag[14])
    && Find(tag, '>') == |tag| - 1
  }

  predicate IsWordChar(c: char) {
    'a' <= c <= 'z' || 'A' <= c <= 'Z' || '0' <= c <= '9' || c == '_'
  }

  predicate ClosesContent(line: string) {
    Strip(line) == "</asset_content>"
  }

  /** The blanks before an opening tag and those after a closing one. */
  function LeadOf(line: string): string {
    line[..|line| - |LStrip(line)|]
  }

  function TrailOf(line: string): string {
    line[|RStrip(line)|..]
  }

  /** The first line from i on that closes a content; the length when none does. */
  function NextClose(lines: Lines, i: nat): (k: nat)
    requires i <= |lines|
    ensures i <= k <= |lines|
    decreases |lines| - i
  {
    if i == |lines| || ClosesContent(lines[i]) then i else NextClose(lines, i + 1)
  }

  /** What a removed content leaves behind. The blanks around it stay; the line break
      before it goes along, so that one at the start of the text or right after another
      content (`bare`) leaves an empty line. */
  function LeftOver(opening: string, closing: string, bare: bool): Lines {
    (if LeadOf(opening) != "" then [LeadOf(opening)] else if bare then [""] else [])
    + (if TrailOf(closing) != "" then [TrailOf(closing)] else [])
  }

  /** The lines without their contents; a content that is not closed stays. */
  function WithoutContent(lines: Lines, i: nat, bare: bool): Lines
    requires i <= |lines|
    decreases |lines| - i
  {
    if i == |lines| then []
    else if OpensContent(lines[i]) && NextClose(lines, i + 1) < |lines| then
      var k := NextClose(lines, i + 1);
      LeftOver(lines[i], lines[k], bare) + WithoutContent(lines, k + 1, TrailOf(lines[k]) == "")
    else [lines[i]] + WithoutContent(lines, i + 1, false)
  }

  function ModesReplaced(lines: Lines): Lines {
    seq(|lines|, i requires 0 <= i < |lines| => if StartsWith(lines[i], MODE) then REFERENCE_LINE else lines[i])
  }

  predicate StatesMode(lines: Lines) {
    exists i | 0 <= i < |lines| :: StartsWith(lines[i], MODE)
  }

  /** `_downgrade_asset_block_to_reference`. */
  function Downgraded(block: Lines): Lines {
    var kept := StripEnd(WithoutContent(block, 0, true));
    var lines := ModesReplaced(kept);
    StripEnd(
      if StatesMode(kept) then lines
      else if |lines| > 0 then [lines[0]] + [REFERENCE_LINE] + lines[1..]
      else [REFERENCE_LINE])
  }

  lemma InsertAt(lines: Lines, at: nat)
    requires at == if |lines| > 0 then 1 else 0
    ensures lines[..at] + [REFERENCE_LINE] + lines[at..]
         == if |lines| > 0 then [lines[0]] + [REFERENCE_LINE] + lines[1..] else [REFERENCE_LINE]
  {
    if |lines| > 0 { assert lines[..1] == [lines[0]]; }
  }

  method DowngradeToReference(block: Lines) returns (r: Lines)
    ensures r == Downgraded(block)
  {
    hide StripEnd, WithoutContent, StartsWith;
    var withoutContent := StripEnd(WithoutContent(block, 0, true));
    var lines: Lines, replaced := [], false;
    for i := 0 to |withoutContent|
      invariant |lines| == i
      invariant forall k | 0 <= k < i ::
          lines[k] == if StartsWith(withoutContent[k], MODE) then REFERENCE_LINE else withoutContent[k]
      invariant replaced <==> exists k | 0 <= k < i :: StartsWith(withoutContent[k], MODE)
    {
      if StartsWith(withoutContent[i], MODE) {
        lines := lines + [REFERENCE_LINE];
        replaced := true;
      } else {
        lines := lines + [withoutContent[i]];
      }
    }
    assert lines == ModesReplaced(withoutContent);
    assert replaced <==> StatesMode(withoutContent);
    hide ModesReplaced, StatesMode;
    if !replaced {
      var at := if |lines| > 0 then 1 else 0;
      InsertAt(lines, at);
      lines := lines[..at] + [REFERENCE_LINE] + lines[at..];
    }
    r := StripEnd(lines);
  }

  // -------------------------------------------------------------- reduction

  /** What a reduction state allows: blocks, full-inline and focused ones. */
  datatype Allowance = Allowance(blocks: int, full: int, focused: int)

  function CountBefore(blocks: seq<Lines>, k: nat, mode: Mode): nat
    requires k <= |blocks|
  {
    if k == 0 then 0 else CountBefore(blocks, k - 1, mode) + if ModeOf(blocks[k - 1]) == mode then 1 else 0
  }

  /** Block k may stay inline: fewer of its mode than allowed come before it. */
  predicate StaysInline(blocks: seq<Lines>, k: nat, allow: Allowance)
    requires k < |blocks|
  {
    match ModeOf(blocks[k])
    case Full => CountBefore(blocks, k, Full) < allow.full
    case Focused => CountBefore(blocks, k, Focused) < allow.focused
    case _ => true
  }

  function Piece(blocks: seq<Lines>, k: nat, allow: Allowance): Lines
    requires k < |blocks|
  {
    var text := StripEnd(blocks[k]);
    if StaysInline(blocks, k, allow) then text else Downgraded(text)
  }

  /** Pieces follow each other with a blank line between. */
  function Append(out: Lines, piece: Lines): Lines {
    if |piece| == 0 then out
    else (if |out| > 0 && !Blank(out[|out| - 1]) then out + [""] else out) + piece
  }

  function Assembled(s: Sections, n: nat, allow: Allowance): Lines
    requires n <= |s.blocks|
  {
    if n == 0 then s.prelude else Append(Assembled(s, n - 1, allow), Piece(s.blocks, n - 1, allow))
  }

  function StripStart(lines: Lines): Lines {
    if |lines| == 0 then []
    else
      var first := LStrip(lines[0]);
      if first == "" then StripStart(lines[1..]) else [first] + lines[1..]
  }

  /** `_reduce_relevant_asset_blocks`. */
  function Reduced(lines: Lines, allow: Allowance): Lines {
    var s := SplitSections(lines);
    if |s.blocks| == 0 then lines
    else if allow.blocks <= 0 then []
    else StripEnd(StripStart(Assembled(s, MinInt(|s.blocks|, allow.blocks), allow)))
  }

  method ReduceBlocks(lines: Lines, allow: Allowance) returns (r: Lines)
    ensures r == Reduced(lines, allow)
  {
    hide StripEnd, StripStart, ModeOf, Downgraded, Append;
    var prelude, blocks := SplitBlocks(lines);
    if |blocks| == 0 { return lines; }
    var remainingBlocks := MaxInt(0, allow.blocks);
    if remainingBlocks <= 0 { return []; }
    var remainingFull, remainingFocused := MaxInt(0, allow.full), MaxInt(0, allow.focused);
    var out := prelude;
    ghost var s := Sections(prelude, blocks);
    for k := 0 to |blocks|
      invariant remainingBlocks == MaxInt(0, allow.blocks - k)
      invariant k <= allow.blocks ==>
          && remainingFull == MaxInt(0, allow.full - CountBefore(blocks, k, Full))
          && remainingFocused == MaxInt(0, allow.focused - CountBefore(blocks, k, Focused))
      invariant out == Assembled(s, MinInt(k, allow.blocks), allow)
    {
      if remainingBlocks <= 0 { continue; }
      remainingBlocks := remainingBlocks - 1;
      var mode := AssetBlockMode(blocks[k]);
      var blockText := StripEnd(blocks[k]);
      if mode == Full {
        if remainingFull > 0 {
          remainingFull := remainingFull - 1;
        } else {
          blockText := DowngradeToReference(blockText);
        }
      } else if mode == Focused {
        if remainingFocused > 0 {
          remainingFocused := remainingFocused - 1;
        } else {
          blockText := DowngradeToReference(blockText);
        }
      }
      assert blockText == Piece(blocks, k, allow);
      out := Append(out, blockText);
    }
    r := StripEnd(StripStart(out));
  }
}
