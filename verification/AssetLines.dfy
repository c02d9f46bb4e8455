/** Line by line, what a reduced asset section still shows: everything but the contents,
    the named parts and the blocks that a state leaves out. */
module AssetLines {
  import opened Prelude
  import opened PyText
  import opened AssetBlocks
  import opened AssetTheorems
  import opened AssetContents
  import opened AssetSections

  // -------------------------------------------------------------------- rows

  /** The lines that are not blank. */
  function Rows(lines: Lines): Lines {
    if |lines| == 0 then []
    else
      var last := lines[|lines| - 1];
      Rows(lines[..|lines| - 1]) + if RStrip(last) == "" then [] else [last]
  }

  lemma RowsPush(lines: Lines, line: string)
    ensures Rows(lines + [line]) == Rows(lines) + if RStrip(line) == "" then [] else [line]
  {
    hide RStrip;
    assert (lines + [line])[..|lines|] == lines;
  }

  lemma NoRows()
    ensures Rows([]) == []
  {
  }

  lemma {:induction false} RowsConcat(a: Lines, b: Lines)
    ensures Rows(a + b) == Rows(a) + Rows(b)
  {
    hide RStrip, Rows;
    if |b| == 0 {
      assert a + b == a && b == [];
      NoRows();
    } else {
      var n := |b| - 1;
      var tail := if RStrip(b[n]) == "" then [] else [b[n]];
      RowsConcat(a, b[..n]);
      RowsPush(a + b[..n], b[n]);
      RowsPush(b[..n], b[n]);
      assert a + b[..n] + [b[n]] == a + b && b[..n] + [b[n]] == b;
      ConcatAssociates(Rows(a), Rows(b[..n]), tail);
    }
  }

  lemma RowsOfOne(line: string)
    ensures Rows([line]) == if RStrip(line) == "" then [] else [line]
  {
    hide RStrip;
    assert [line][..0] == [];
  }

  lemma RStripTwice(line: string)
    ensures RStrip(RStrip(line)) == RStrip(line)
  {
  }

  /** The last row without its trailing whitespace. */
  function Ended(rows: Lines): Lines {
    if |rows| == 0 then [] else rows[..|rows| - 1] + [RStrip(rows[|rows| - 1])]
  }

  lemma {:induction false} RowsOfStripEnd(lines: Lines)
    ensures Rows(StripEnd(lines)) == Ended(Rows(lines))
    decreases |lines|
  {
    if |lines| == 0 {
      NothingToStrip();
      assert lines == [];
    } else {
      var n := |lines| - 1;
      assert lines == lines[..n] + [lines[n]];
      hide RStrip, Rows, StripEnd;
      StripEndStep(lines);
      RowsPush(lines[..n], lines[n]);
      if RStrip(lines[n]) == "" {
        RowsOfStripEnd(lines[..n]);
      } else {
        RowsPush(lines[..n], RStrip(lines[n]));
        RStripTwice(lines[n]);
      }
    }
  }

  lemma RStrippedPush(lines: Lines, line: string)
    ensures RStripped(lines + [line]) == RStripped(lines) + [RStrip(line)]
  {
    hide RStrip;
  }

  lemma {:induction false} RowsOfRStripped(lines: Lines)
    ensures Rows(RStripped(lines)) == RStripped(Rows(lines))
  {
    hide RStrip, Rows;
    if |lines| == 0 {
      assert RStripped(lines) == lines == [];
      NoRows();
    } else {
      hide RStripped;
      var init, last := lines[..|lines| - 1], lines[|lines| - 1];
      assert lines == init + [last];
      RowsOfRStripped(init);
      RowsPush(init, last);
      RStrippedPush(init, last);
      RowsPush(RStripped(init), RStrip(last));
      RStripTwice(last);
      if RStrip(last) != "" {
        RStrippedPush(Rows(init), last);
      } else {
        assert Rows(init) + [] == Rows(init) && RStripped(Rows(init)) + [] == RStripped(Rows(init));
      }
    }
  }

  lemma EndedRStripped(rows: Lines)
    ensures RStripped(Ended(rows)) == RStripped(rows)
  {
    hide RStrip;
    if |rows| > 0 { RStripTwice(rows[|rows| - 1]); }
  }

  lemma BlankIsNoRow(line: string)
    requires forall i | 0 <= i < |line| :: IsSpace(line[i])
    ensures Rows([line]) == []
  {
    hide IsSpace, RStrip, Rows;
    BlankStrips(line);
    RowsOfOne(line);
  }

  // ------------------------------------------------------- dropped contents

  /** Line j belongs to a content that opens at line s or later and is closed: some line
      up to j opens it, and no line between the two closes it. */
  ghost predicate InContent(lines: Lines, s: nat, j: nat)
    requires j < |lines|
  {
    exists i | s <= i <= j ::
      OpensContent(lines[i]) && ClosedAfter(lines, i) && forall m | i < m < j :: !ClosesContent(lines[m])
  }

  ghost predicate ClosedAfter(lines: Lines, i: nat) {
    exists k | i < k < |lines| :: ClosesContent(lines[k])
  }

  lemma ClosedAfterIsNext(lines: Lines, i: nat)
    requires i < |lines|
    ensures ClosedAfter(lines, i) <==> NextClose(lines, i + 1) < |lines|
  {
    hide ClosesContent, NextClose;
    NextCloseIsFirst(lines, i + 1);
    NextCloseIsClosing(lines, i + 1);
  }

  /** The lines from i on that belong to no content opening at line s or later. */
  ghost function OutsideFrom(lines: Lines, s: nat, i: nat): Lines
    requires i <= |lines|
    decreases |lines| - i
  {
    if i == |lines| then []
    else (if InContent(lines, s, i) then [] else [lines[i]]) + OutsideFrom(lines, s, i + 1)
  }

  lemma {:induction false} SameOutside(lines: Lines, s: nat, r: nat, i: nat)
    requires i <= |lines|
    requires forall j | i <= j < |lines| :: InContent(lines, s, j) <==> InContent(lines, r, j)
    ensures OutsideFrom(lines, s, i) == OutsideFrom(lines, r, i)
    decreases |lines| - i
  {
    hide InContent;
    if i < |lines| { SameOutside(lines, s, r, i + 1); }
  }

  lemma {:induction false} ContentIsSkipped(lines: Lines, s: nat, i: nat, k: nat)
    requires i <= k <= |lines| && forall j | i <= j < k :: InContent(lines, s, j)
    ensures OutsideFrom(lines, s, i) == OutsideFrom(lines, s, k)
    decreases k - i
  {
    hide InContent;
    if i < k {
      ContentIsSkipped(lines, s, i + 1, k);
      assert [] + OutsideFrom(lines, s, i + 1) == OutsideFrom(lines, s, i + 1);
    }
  }

  /** A content that opens at i and closes at k holds the lines i to k, and what comes
      after does not depend on them. */
  lemma SpanDecided(lines: Lines, i: nat, k: nat, j: nat)
    requires i < |lines| && OpensContent(lines[i]) && k == NextClose(lines, i + 1) < |lines| && i <= j < |lines|
    ensures j <= k ==> InContent(lines, i, j)
    ensures j > k ==> (InContent(lines, i, j) <==> InContent(lines, k + 1, j))
  {
    hide ClosesContent, OpensContent, NextClose;
    NextCloseIsFirst(lines, i + 1);
    NextCloseIsClosing(lines, i + 1);
  }

  lemma OtherLineDecided(lines: Lines, i: nat, j: nat)
    requires i <= j < |lines| && !(OpensContent(lines[i]) && ClosedAfter(lines, i))
    ensures InContent(lines, i, j) <==> j > i && InContent(lines, i + 1, j)
  {
    hide ClosesContent, OpensContent, ClosedAfter;
  }

  lemma LeftOverHasNoRows(opening: string, closing: string, bare: bool)
    ensures Rows(LeftOver(opening, closing, bare)) == []
  {
    hide LStrip, RStrip, IsSpace, Rows;
    LStripDropsSpaces(opening);
    var lead, trail := LeadOf(opening), TrailOf(closing);
    BlankIsNoRow(lead);
    BlankIsNoRow(trail);
    BlankIsNoRow("");
    NoRows();
    hide LeadOf, TrailOf;
    var first: Lines := if lead != "" then [lead] else if bare then [""] else [];
    var second: Lines := if trail != "" then [trail] else [];
    RowsConcat(first, second);
  }

  /** Dropping the contents drops exactly the lines that belong to one. */
  lemma {:induction false} DropsContentsOnly(lines: Lines, i: nat, bare: bool)
    requires i <= |lines|
    ensures Rows(WithoutContent(lines, i, bare)) == Rows(OutsideFrom(lines, i, i))
    decreases |lines| - i
  {
    hide OpensContent, ClosesContent, NextClose, LeftOver, TrailOf, Rows, WithoutContent, OutsideFrom, InContent, ClosedAfter;
    if i == |lines| {
      WithoutContentEnd(lines, bare);
      OutsideEnd(lines, i);
    } else {
      var k := NextClose(lines, i + 1);
      WithoutContentStep(lines, i, bare);
      ClosedAfterIsNext(lines, i);
      if OpensContent(lines[i]) && k < |lines| {
        var rest := WithoutContent(lines, k + 1, TrailOf(lines[k]) == "");
        DropsContentsOnly(lines, k + 1, TrailOf(lines[k]) == "");
        RowsConcat(LeftOver(lines[i], lines[k], bare), rest);
        LeftOverHasNoRows(lines[i], lines[k], bare);
        forall j | i <= j < |lines|
          ensures j <= k ==> InContent(lines, i, j)
          ensures j > k ==> (InContent(lines, i, j) <==> InContent(lines, k + 1, j))
        {
          SpanDecided(lines, i, k, j);
        }
        ContentIsSkipped(lines, i, i, k + 1);
        SameOutside(lines, i, k + 1, k + 1);
      } else {
        DropsContentsOnly(lines, i + 1, false);
        RowsConcat([lines[i]], WithoutContent(lines, i + 1, false));
        RowsConcat([lines[i]], OutsideFrom(lines, i + 1, i + 1));
        forall j | i <= j < |lines| ensures InContent(lines, i, j) <==> j > i && InContent(lines, i + 1, j) {
          OtherLineDecided(lines, i, j);
        }
        SameOutside(lines, i, i + 1, i + 1);
        OutsideStep(lines, i, i);
      }
    }
  }

  lemma OutsideEnd(lines: Lines, s: nat)
    ensures OutsideFrom(lines, s, |lines|) == []
  {
  }

  lemma OutsideStep(lines: Lines, s: nat, i: nat)
    requires i < |lines| && !InContent(lines, s, i)
    ensures OutsideFrom(lines, s, i) == [lines[i]] + OutsideFrom(lines, s, i + 1)
  {
    hide InContent;
  }

  // ------------------------------------------------------------- named parts

  /** Line j belongs to a part of this name: some line up to j starts it, and up to j no
      line ends it, that is, none that ends in a colon, but is neither an item nor a block
      heading nor a start itself. */
  ghost predicate InNamed(lines: Lines, name: string, s: nat, j: nat)
    requires j < |lines|
  {
    exists i | s <= i <= j ::
      StartsWith(Strip(lines[i]), name) && forall m | i < m <= j :: Continues(lines[m], name)
  }

  ghost predicate Continues(line: string, name: string) {
    StartsWith(Strip(line), name) || IsHeading(line) || !EndsPart(line)
  }

  ghost function OutsideNamed(lines: Lines, name: string, i: nat): Lines
    requires i <= |lines|
    decreases |lines| - i
  {
    if i == |lines| then []
    else (if InNamed(lines, name, 0, i) then [] else [lines[i]]) + OutsideNamed(lines, name, i + 1)
  }

  lemma NamedNext(lines: Lines, name: string, j: nat)
    requires j < |lines|
    ensures InNamed(lines, name, 0, j) <==>
      StartsWith(Strip(lines[j]), name) || (j > 0 && InNamed(lines, name, 0, j - 1) && Continues(lines[j], name))
  {
    hide StartsWith, Strip, Continues;
  }

  /** Dropping a named part drops exactly the lines that belong to it. */
  lemma {:induction false} DropsNamedOnly(lines: Lines, i: nat, name: string, skipping: bool)
    requires i <= |lines| && (skipping <==> i > 0 && InNamed(lines, name, 0, i - 1))
    ensures WithoutNamed(lines, i, name, skipping) == OutsideNamed(lines, name, i)
    decreases |lines| - i
  {
    hide StartsWith, Strip, IsHeading, EndsPart, InNamed, WithoutNamed;
    if i == |lines| {
      WithoutNamedEnd(lines, name, skipping);
    } else {
      WithoutNamedStep(lines, i, name, skipping);
      NamedNext(lines, name, i);
      DropsNamedOnly(lines, i + 1, name, InNamed(lines, name, 0, i));
    }
  }

  // ------------------------------------------------------------------ modes

  /** Line i is the first of the block that states a mode. */
  ghost predicate FirstStating(block: Lines, i: nat) {
    && i < |block| && StatesSome(block[i])
    && forall j | 0 <= j < i :: !StatesSome(block[j])
  }

  ghost predicate StatesSome(line: string) {
    || StartsWith(line, "- Mode: full_inline") || StartsWith(line, "- Mode: focused_extract")
    || StartsWith(line, "- Mode: reference_only")
  }

  lemma LineModeDecided(line: string)
    ensures LineMode(line) == Summary <==> !StatesSome(line)
    ensures LineMode(line) == Full <==> StartsWith(line, "- Mode: full_inline")
    ensures LineMode(line) == Focused <==> StartsWith(line, "- Mode: focused_extract")
  {
    assert FULL_INLINE[8] == 'f' && FOCUSED_EXTRACT[8] == 'f' && FULL_INLINE[9] == 'u' && FOCUSED_EXTRACT[9] == 'o';
    assert REFERENCE_ONLY[8] == 'r';
    hide StartsWith;
    StartsAt(line, FULL_INLINE, 9);
    StartsAt(line, FOCUSED_EXTRACT, 9);
  }

  lemma StartsAt(line: string, prefix: string, k: nat)
    requires k < |prefix|
    ensures StartsWith(line, prefix) ==> |line| > k && line[k] == prefix[k]
  {
    if StartsWith(line, prefix) { assert line[..|prefix|][k] == prefix[k]; }
  }

  /** The mode of a block is what its first stating line says; without one it has none. */
  lemma {:induction false} ModeDecided(block: Lines, i: nat)
    ensures FirstStating(block, i) ==> ModeOf(block) == LineMode(block[i]) != Summary
    ensures (forall j | 0 <= j < |block| :: !StatesSome(block[j])) <==> ModeOf(block) == Summary
  {
    hide StatesSome, LineMode;
    if |block| > 0 {
      LineModeDecided(block[0]);
      var rest := block[1..];
      ModeDecided(rest, if i > 0 then i - 1 else 0);
      assert forall j | 0 <= j < |rest| :: rest[j] == block[j + 1];
      assert forall j | 0 < j < |block| :: block[j] == rest[j - 1];
    }
  }

  // -------------------------------------------------------------- downgrades

  /** Replacing puts the note in place of a mode line and leaves other lines alone. */
  lemma NoteReplacesMode(lines: Lines, i: nat)
    requires i < |lines|
    ensures
      |ModesReplaced(lines)| == |lines| &&
      ModesReplaced(lines)[i] ==
        if StartsWith(lines[i], "- Mode: ")
        then "- Mode: reference_only" + " - inline content omitted by budget reduction; consult asset_read if needed"
        else lines[i]
  {
    hide StartsWith;
  }

  lemma NoteIsSolid()
    ensures RStrip(REFERENCE_LINE) == REFERENCE_LINE && REFERENCE_LINE != ""
  {
    hide StartsWith;
    assert REFERENCE_LINE[|REFERENCE_LINE| - 1] == 'd' && !IsSpace('d');
    hide RStrip, IsSpace;
    StripFromEnd(REFERENCE_LINE, |REFERENCE_LINE|);
    assert REFERENCE_LINE[..|REFERENCE_LINE|] == REFERENCE_LINE;
  }

  lemma ModeLineIsNotBlank(line: string)
    requires StartsWith(line, MODE)
    ensures RStrip(line) != ""
  {
    assert line[0] == line[..8][0] == '-' && !IsSpace('-');
    hide IsSpace, RStrip;
    SolidKeepsStart(line);
  }

  function ReplacedLine(line: string): string {
    if StartsWith(line, MODE) then REFERENCE_LINE else line
  }

  lemma ReplacedPush(lines: Lines, line: string)
    ensures ModesReplaced(lines + [line]) == ModesReplaced(lines) + [ReplacedLine(line)]
  {
    hide StartsWith, REFERENCE_LINE, MODE;
  }

  lemma ReplacedIsBlankToo(line: string)
    ensures RStrip(ReplacedLine(line)) == "" <==> RStrip(line) == ""
    ensures RStrip(line) == "" ==> !StartsWith(line, MODE)
  {
    hide RStrip, StartsWith, REFERENCE_LINE, MODE;
    NoteIsSolid();
    if StartsWith(line, MODE) { ModeLineIsNotBlank(line); }
  }

  lemma {:induction false} RowsOfReplaced(lines: Lines)
    ensures Rows(ModesReplaced(lines)) == ModesReplaced(Rows(lines))
    ensures StatesMode(Rows(lines)) <==> StatesMode(lines)
  {
    hide RStrip, StartsWith, Rows, StatesMode, REFERENCE_LINE, MODE;
    if |lines| == 0 {
      assert ModesReplaced(lines) == lines == [];
      NoRows();
    } else {
      hide ModesReplaced, ReplacedLine;
      var n := |lines| - 1;
      var init, last := lines[..n], lines[n];
      assert lines == init + [last];
      RowsOfReplaced(init);
      RowsPush(init, last);
      RowsPush(ModesReplaced(init), ReplacedLine(last));
      ReplacedPush(init, last);
      ReplacedIsBlankToo(last);
      StatesModePush(init, last);
      if RStrip(last) != "" {
        StatesModePush(Rows(init), last);
        ReplacedPush(Rows(init), last);
      } else {
        assert Rows(init) + [] == Rows(init);
        assert ModesReplaced(Rows(init)) + [] == ModesReplaced(Rows(init));
      }
    }
  }

  lemma StatesModePush(lines: Lines, line: string)
    ensures StatesMode(lines + [line]) <==> StatesMode(lines) || StartsWith(line, MODE)
  {
    hide StartsWith;
    assert (lines + [line])[|lines|] == line;
    assert forall i | 0 <= i < |lines| :: (lines + [line])[i] == lines[i];
  }

  // ------------------------------------------------------- a downgraded block

  /** The note that says a block is only referred to. */
  const NOTE := "- Mode: reference_only" + " - inline content omitted by budget reduction; consult asset_read if needed"

  lemma FirstLineStays(block: Lines)
    requires SolidStart(block) && !OpensContent(block[0])
    ensures
      var kept := StripEnd(WithoutContent(block, 0, true));
      && |kept| > 0 && RStrip(kept[0]) == RStrip(block[0]) != ""
      && Rows(kept) == Ended(Rows(OutsideFrom(block, 0, 0)))
  {
    hide *;
    var left := WithoutContent(block, 0, true);
    SolidLine(block);
    WithoutContentStep(block, 0, true);
    assert left == [block[0]] + WithoutContent(block, 1, false);
    StripEndFirst(left);
    RowsOfStripEnd(left);
    DropsContentsOnly(block, 0, true);
  }

  lemma SolidLine(block: Lines)
    requires SolidStart(block)
    ensures |block| > 0 && RStrip(block[0]) != ""
  {
    hide RStrip, IsSpace;
    SolidKeepsStart(block[0]);
  }

  lemma {:induction false} StripEndFirst(lines: Lines)
    requires |lines| > 0 && RStrip(lines[0]) != ""
    ensures |StripEnd(lines)| > 0 && RStrip(StripEnd(lines)[0]) == RStrip(lines[0])
    decreases |lines|
  {
    hide RStrip, StripEnd;
    var n := |lines| - 1;
    StripEndStep(lines);
    if RStrip(lines[n]) == "" {
      StripEndFirst(lines[..n]);
    } else {
      RStripTwice(lines[n]);
    }
  }

  lemma FirstRow(lines: Lines)
    requires |lines| > 0 && RStrip(lines[0]) != ""
    ensures Rows(lines) == [lines[0]] + Rows(lines[1..])
  {
    hide RStrip, Rows;
    RowsConcat([lines[0]], lines[1..]);
    RowsOfOne(lines[0]);
    assert [lines[0]] + lines[1..] == lines;
  }

  lemma EndedTwice(rows: Lines)
    ensures Ended(Ended(rows)) == Ended(rows)
  {
    hide RStrip;
    if |rows| > 0 { RStripTwice(rows[|rows| - 1]); }
  }

  lemma ReplacedIsEnded(rows: Lines)
    requires Ended(rows) == rows
    ensures Ended(ModesReplaced(rows)) == ModesReplaced(rows)
  {
    hide RStrip, StartsWith, REFERENCE_LINE, MODE;
    NoteIsSolid();
    if |rows| > 0 {
      var n := |rows| - 1;
      assert Ended(rows)[n] == RStrip(rows[n]);
      assert ModesReplaced(rows)[..n] + [ModesReplaced(rows)[n]] == ModesReplaced(rows);
    }
  }

  lemma NothingReplaced(lines: Lines)
    requires !StatesMode(lines)
    ensures ModesReplaced(lines) == lines
  {
    hide StartsWith;
  }

  lemma NoteGoesIn(kept: Lines)
    requires |kept| > 0 && RStrip(kept[0]) != "" && Ended(Rows(kept)) == Rows(kept)
    ensures
      var rows := [kept[0], REFERENCE_LINE] + Rows(kept[1..]);
      Rows([kept[0]] + [REFERENCE_LINE] + kept[1..]) == rows == Ended(rows)
  {
    NoteIsSolid();
    hide *;
    FirstRow(kept);
    TwoRows(kept[0], REFERENCE_LINE, kept[1..]);
    EndOfTwo(kept[0], REFERENCE_LINE, Rows(kept[1..]));
  }

  lemma TwoRows(first: string, second: string, rest: Lines)
    requires RStrip(first) != "" && RStrip(second) != ""
    ensures Rows([first] + [second] + rest) == [first, second] + Rows(rest)
  {
    hide RStrip, Rows;
    RowsConcat([first] + [second], rest);
    RowsPush([first], second);
    RowsOfOne(first);
  }

  lemma EndOfTwo(first: string, note: string, rest: Lines)
    requires RStrip(note) == note && Ended([first] + rest) == [first] + rest
    ensures Ended([first, note] + rest) == [first, note] + rest
  {
    hide RStrip;
    var a, b := [first] + rest, [first, note] + rest;
    if |rest| > 0 {
      assert Ended(a)[|a| - 1] == RStrip(a[|a| - 1]) && b[|b| - 1] == a[|a| - 1];
    }
    assert b[..|b| - 1] + [b[|b| - 1]] == b;
  }

  /** A downgraded block shows the rows outside its contents, with the note in place of
      its mode lines, or after its heading when it has none. */
  lemma DowngradedShows(block: Lines)
    requires SolidStart(block) && !OpensContent(block[0])
    ensures
      var rows := Ended(Rows(OutsideFrom(block, 0, 0)));
      && |rows| > 0
      && Rows(Downgraded(block)) ==
           if exists i | 0 <= i < |rows| :: StartsWith(rows[i], "- Mode: ") then ModesReplaced(rows)
           else [rows[0], NOTE] + rows[1..]
  {
    var kept := StripEnd(WithoutContent(block, 0, true));
    FirstLineStays(block);
    assert NOTE == REFERENCE_LINE;
    var rows := Rows(kept);
    assert StatesMode(rows) <==> exists i | 0 <= i < |rows| :: StartsWith(rows[i], "- Mode: ");
    var lines := ModesReplaced(kept);
    assert |lines| == |kept|;
    var shown := if StatesMode(kept) then lines else [lines[0]] + [REFERENCE_LINE] + lines[1..];
    assert Downgraded(block) == StripEnd(shown);
    hide *;
    RowsOfReplaced(kept);
    RowsOfStripEnd(shown);
    FirstRow(kept);
    EndedTwice(Rows(OutsideFrom(block, 0, 0)));
    if StatesMode(kept) {
      ReplacedIsEnded(rows);
    } else {
      NothingReplaced(kept);
      NoteGoesIn(kept);
    }
  }

  /** That holds of every block a section is split into, as it is passed on. */
  lemma BlockCanBeDowngraded(block: Lines)
    requires IsBlock(block)
    ensures SolidStart(StripEnd(block)) && !OpensContent(StripEnd(block)[0])
  {
    hide IsBlock, StripEnd, SolidStart, IsHeading, OpensContent, NoHeadings, NoInline;
    HeadingIsSolid(block);
    StripEndKeeps(block);
    HeadingStaysOrIsBare(block);
  }

  // ------------------------------------------------------- a reduced section

  /** The blocks before k in this mode. */
  ghost function Earlier(blocks: seq<Lines>, k: nat, mode: Mode): set<nat> {
    set i: nat | i < k && i < |blocks| && ModeOf(blocks[i]) == mode
  }

  lemma {:induction false} CountBeforeIsNumber(blocks: seq<Lines>, k: nat, mode: Mode)
    requires k <= |blocks|
    ensures CountBefore(blocks, k, mode) == |Earlier(blocks, k, mode)|
  {
    hide ModeOf, Earlier;
    if k == 0 {
      NoneEarlier(blocks, mode);
    } else {
      CountBeforeIsNumber(blocks, k - 1, mode);
      OneMoreEarlier(blocks, k, mode);
    }
  }

  lemma NoneEarlier(blocks: seq<Lines>, mode: Mode)
    ensures |Earlier(blocks, 0, mode)| == 0
  {
    assert Earlier(blocks, 0, mode) == {};
  }

  lemma OneMoreEarlier(blocks: seq<Lines>, k: nat, mode: Mode)
    requires 0 < k <= |blocks|
    ensures |Earlier(blocks, k, mode)| == |Earlier(blocks, k - 1, mode)| + if ModeOf(blocks[k - 1]) == mode then 1 else 0
  {
    hide ModeOf;
    var before, all := Earlier(blocks, k - 1, mode), Earlier(blocks, k, mode);
    assert forall i | i in all :: i in before || i == k - 1;
    assert k - 1 in all <==> ModeOf(blocks[k - 1]) == mode;
    assert before <= all && k - 1 !in before;
    hide Earlier;
    if k - 1 in all {
      assert all == before + {k - 1};
    } else {
      assert all == before;
    }
  }

  /** A block stays as it is unless it is an inline one and enough of its kind come
      before it. */
  ghost predicate KeptWhole(blocks: seq<Lines>, k: nat, allow: Allowance)
    requires k < |blocks|
  {
    && (ModeOf(blocks[k]) == Full ==> |Earlier(blocks, k, Full)| < allow.full)
    && (ModeOf(blocks[k]) == Focused ==> |Earlier(blocks, k, Focused)| < allow.focused)
  }

  lemma KeptWholeStaysInline(blocks: seq<Lines>, k: nat, allow: Allowance)
    requires k < |blocks|
    ensures KeptWhole(blocks, k, allow) <==> StaysInline(blocks, k, allow)
  {
    hide ModeOf, Earlier;
    CountBeforeIsNumber(blocks, k, Full);
    CountBeforeIsNumber(blocks, k, Focused);
  }

  /** What the first n blocks show. */
  ghost function BlockRows(blocks: seq<Lines>, n: nat, allow: Allowance): Lines
    requires n <= |blocks|
  {
    if n == 0 then []
    else
      BlockRows(blocks, n - 1, allow)
      + if KeptWhole(blocks, n - 1, allow) then Ended(Rows(blocks[n - 1])) else Rows(Downgraded(StripEnd(blocks[n - 1])))
  }

  lemma RowsOfAppend(out: Lines, piece: Lines)
    ensures Rows(Append(out, piece)) == Rows(out) + Rows(piece)
  {
    hide Blank;
    if |piece| > 0 {
      var before := if |out| > 0 && !PyText.Blank(out[|out| - 1]) then out + [""] else out;
      assert Append(out, piece) == before + piece;
      hide Rows, RStrip;
      RowsConcat(before, piece);
      RowsPush(out, "");
      EmptyStripped();
    } else {
      assert piece == [];
      NoRows();
    }
  }

  lemma EmptyStripped()
    ensures RStrip("") == ""
  {
  }

  lemma {:induction false} RowsOfAssembled(s: Sections, n: nat, allow: Allowance)
    requires n <= |s.blocks|
    ensures Rows(Assembled(s, n, allow)) == Rows(s.prelude) + BlockRows(s.blocks, n, allow)
  {
    hide Rows, StripEnd, Downgraded, Append, KeptWhole, StaysInline, Ended;
    if n > 0 {
      RowsOfAssembled(s, n - 1, allow);
      KeptWholeStaysInline(s.blocks, n - 1, allow);
      RowsOfStripEnd(s.blocks[n - 1]);
      RowsOfAppend(Assembled(s, n - 1, allow), Piece(s.blocks, n - 1, allow));
      ConcatAssociates(Rows(s.prelude), BlockRows(s.blocks, n - 1, allow), Rows(Piece(s.blocks, n - 1, allow)));
    }
  }

  /** What is left of a text that starts solid: all of it when it has no blocks, else the
      part before the blocks and the first ones, as many as allowed. */
  lemma ReducedShows(lines: Lines, allow: Allowance)
    requires |lines| > 0 ==> SolidStart(lines)
    ensures
      var s := SplitSections(lines);
      Rows(Reduced(lines, allow)) ==
        if |s.blocks| == 0 then Rows(lines)
        else if allow.blocks <= 0 then []
        else Ended(Rows(s.prelude) + BlockRows(s.blocks, MinInt(|s.blocks|, allow.blocks), allow))
  {
    var s := SplitSections(lines);
    SplitLosesNothing(lines);
    if |s.blocks| > 0 && allow.blocks > 0 {
      var n := MinInt(|s.blocks|, allow.blocks);
      var out := Assembled(s, n, allow);
      assert |s.prelude| > 0 ==> s.prelude[0] == lines[0];
      AssembledStartsSolid(s, n, allow);
      hide Assembled, Rows, AddLines, SolidStart, WellSplit, BlockRows, Ended, StripEnd, StripStart;
      SolidNeedsNoStrip(out);
      RowsOfStripEnd(out);
      RowsOfAssembled(s, n, allow);
    } else {
      NoRows();
    }
  }

  /** Whatever the section is: after the parts and contents that the state leaves out are
      dropped, a reduced section shows every row before the blocks and of the first
      blocks, in order, up to trailing whitespace; the inline blocks that are too many
      are downgraded. */
  lemma SectionShows(section: Lines, mayNeed: bool, pinned: bool, allow: Allowance)
    ensures
      var text := Prepared(section, mayNeed, pinned, allow);
      var s := SplitSections(text);
      Rows(ReducedSection(section, mayNeed, pinned, allow)) ==
        if |s.blocks| == 0 then RStripped(Rows(text))
        else if allow.blocks <= 0 then []
        else RStripped(Rows(s.prelude) + BlockRows(s.blocks, MinInt(|s.blocks|, allow.blocks), allow))
  {
    var text := Prepared(section, mayNeed, pinned, allow);
    var s := SplitSections(text);
    PreparedIsClean(section, mayNeed, pinned, allow);
    assert |text| > 0 ==> SolidStart(text);
    hide Prepared, Reduced, Rows, SplitSections, SolidStart, BlockRows, Ended;
    ReducedShows(text, allow);
    RowsOfRStripped(Reduced(text, allow));
    if |s.blocks| > 0 && allow.blocks > 0 {
      EndedRStripped(Rows(s.prelude) + BlockRows(s.blocks, MinInt(|s.blocks|, allow.blocks), allow));
    }
  }

  // ------------------------------------------------ what is dropped before

  /** The first row without its leading whitespace. */
  function Started(rows: Lines): Lines {
    if |rows| == 0 then [] else [LStrip(rows[0])] + rows[1..]
  }

  lemma {:induction false} RowsOfStripStart(lines: Lines)
    ensures Rows(StripStart(lines)) == Started(Rows(lines))
    decreases |lines|
  {
    hide *;
    if |lines| == 0 {
      NothingToStrip();
      assert lines == [];
      NoRows();
      NothingStarts();
    } else {
      var first, rest := lines[0], lines[1..];
      assert lines == [first] + rest;
      StripStartStep(lines);
      RowsConcat([first], rest);
      RowsOfOne(first);
      BlankBothWays(first);
      if LStrip(first) == "" {
        RowsOfStripStart(rest);
        assert [] + Rows(rest) == Rows(rest);
      } else {
        RowsConcat([LStrip(first)], rest);
        RowsOfOne(LStrip(first));
        StartsWithFirst(first, Rows(rest));
      }
    }
  }

  lemma NothingStarts()
    ensures Started([]) == []
  {
  }

  lemma StartsWithFirst(first: string, rest: Lines)
    ensures Started([first] + rest) == [LStrip(first)] + rest
  {
  }

  lemma BlankBothWays(line: string)
    ensures LStrip(line) == "" <==> RStrip(line) == ""
    ensures RStrip(LStrip(line)) == "" <==> RStrip(line) == ""
  {
    hide LStrip, RStrip, IsSpace;
    LStripDropsSpaces(line);
    if LStrip(line) == "" || RStrip(line) == "" { BlankStrips(line); }
    var left := LStrip(line);
    if left != "" {
      assert !IsSpace(left[0]);
      SolidKeepsStart(left);
    }
  }

  /** Dropping the contents of a whole text leaves the rows outside them. */
  lemma DropContentsShows(lines: Lines)
    ensures Rows(DropContents(lines)) == Ended(Started(Rows(OutsideFrom(lines, 0, 0))))
  {
    var left := WithoutContent(lines, 0, true);
    assert DropContents(lines) == StripEnd(StripStart(left));
    hide *;
    DropsContentsOnly(lines, 0, true);
    RowsOfStripStart(left);
    RowsOfStripEnd(StripStart(left));
  }

  /** Dropping a named part leaves the rows outside it. */
  lemma DropNamedShows(lines: Lines, name: string)
    ensures
      Rows(Stripped(WithoutNamed(lines, 0, name, false))) == Ended(Started(Rows(OutsideNamed(lines, name, 0))))
  {
    var left := WithoutNamed(lines, 0, name, false);
    assert Stripped(left) == StripEnd(StripStart(left));
    hide *;
    DropsNamedOnly(lines, 0, name, false);
    RowsOfStripStart(left);
    RowsOfStripEnd(StripStart(left));
  }
}
