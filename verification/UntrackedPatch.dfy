/** The patch the review engine prints for an untracked file, and what the path
    extractors read back from it. */
module UntrackedPatch {
  import opened Prelude
  import opened PyText
  import opened PatchPaths
  import Utf8

  // ------------------------------------------------------------- printing

  function Replace(s: string, c: char, replacement: string): string {
    if s == [] then [] else (if s[0] == c then replacement else [s[0]]) + Replace(s[1..], c, replacement)
  }

  /** `_git_patch_path`. */
  function GitPatchPath(path: string): string {
    Replace(Replace(path, '\n', "\\n"), '\r', "\\r")
  }

  function Digit(n: nat): char
    requires n < 10
  {
    ('0' as int + n) as char
  }

  function Decimal(n: nat): string {
    if n < 10 then [Digit(n)] else Decimal(n / 10) + [Digit(n % 10)]
  }

  function Added(lines: seq<string>): seq<string> {
    seq(|lines|, i requires 0 <= i < |lines| => "+" + lines[i])
  }

  function Header(path: string): string {
    "diff --git a/" + path + " b/" + path
  }

  function AfterHeader(path: string, content: string): string {
    var lines := SplitLines(content);
    var hunk, plus := "@@ -0,0 +1," + Decimal(|lines|) + " @@", "+++ b/" + path;
    "new file mode 100644" + "\n" + ("--- /dev/null" + "\n" + (plus + "\n" + (hunk + "\n" + Join(Added(lines), '\n'))))
  }

  function FullPatch(path: string, content: string): string {
    var quoted := GitPatchPath(path);
    Header(quoted) + "\n" + AfterHeader(quoted, content)
  }

  /** Truncation of text without lone surrogates. */
  function Truncate(s: string, maxBytes: int): (string, bool) {
    if |Utf8.Encode(Utf8.Lit(s))| <= maxBytes then (s, false)
    else (s[..Utf8.Fitting(Utf8.Lit(s), maxBytes)], true)
  }

  /** `_untracked_patch` for a readable text file with this content. */
  function PatchFor(path: string, content: string, maxBytes: int): (string, bool) {
    Truncate(FullPatch(path, content), maxBytes)
  }

  lemma TruncateIsTruncateUtf8(s: string, maxBytes: int)
    ensures
      var (kept, cut) := Truncate(s, maxBytes);
      Utf8.TruncateUtf8(Utf8.Lit(s), maxBytes) == (Utf8.Lit(kept), cut)
  {
    var text := Utf8.Lit(s);
    if |Utf8.Encode(text)| > maxBytes {
      var k := Utf8.Fitting(text, maxBytes);
      if maxBytes > 0 {
        Utf8.CutDecodesToWholeChars(text, maxBytes);
        assert Utf8.Replaced(text) == text;
        assert Utf8.Lit(s)[..k] == Utf8.Lit(s[..k]);
      } else {
        NothingFits(text, maxBytes);
      }
    }
  }

  lemma NothingFits(t: Utf8.Text, n: int)
    requires n <= 0
    ensures Utf8.Fitting(t, n) == 0
  {
  }

  // ---------------------------------------------------------- line splitting

  lemma SplitAtFirstLine(a: string, b: string)
    requires OneLine(a)
    ensures SplitLines(a + "\n" + b) == [a] + SplitLines(b)
  {
    var s := a + "\n" + b;
    assert s[|a|] == '\n' && forall i | 0 <= i < |a| :: s[i] == a[i];
    assert NextBreak(s) == |a|;
    assert s[..|a|] == a && s[|a| + 1..] == b;
  }

  lemma {:induction false} SplitGivesLines(s: string)
    ensures forall i | 0 <= i < |SplitLines(s)| :: OneLine(SplitLines(s)[i])
    decreases |s|
  {
    if s != [] {
      var k := NextBreak(s);
      if k < |s| {
        SplitGivesLines(s[k + 1..]);
        if k + 1 < |s| { SplitGivesLines(s[k + 2..]); }
      }
    }
  }

  predicate LineStart(t: string, i: nat)
    requires i < |t|
  {
    i == 0 || IsLineBreak(t[i - 1])
  }

  /** No line of t starts with c. */
  predicate NoLineStartsWith(t: string, c: char) {
    forall i | 0 <= i < |t| && LineStart(t, i) :: t[i] != c
  }

  lemma {:induction false} LinesStartOtherwise(t: string, c: char)
    requires NoLineStartsWith(t, c)
    ensures forall i | 0 <= i < |SplitLines(t)| :: SplitLines(t)[i] == "" || SplitLines(t)[i][0] != c
    decreases |t|
  {
    if t != [] {
      var k := NextBreak(t);
      assert LineStart(t, 0) && (k > 0 ==> t[..k][0] == t[0]);
      if k < |t| {
        LaterLinesStartOtherwise(t, k + 1, c);
        LinesStartOtherwise(t[k + 1..], c);
        if k + 1 < |t| && t[k] == '\r' && t[k + 1] == '\n' {
          LaterLinesStartOtherwise(t, k + 2, c);
          LinesStartOtherwise(t[k + 2..], c);
        }
      }
    }
  }

  lemma LaterLinesStartOtherwise(t: string, n: nat, c: char)
    requires NoLineStartsWith(t, c) && 0 < n <= |t| && IsLineBreak(t[n - 1])
    ensures NoLineStartsWith(t[n..], c)
  {
    var rest := t[n..];
    forall i | 0 <= i < |rest| && LineStart(rest, i) ensures rest[i] != c {
      assert rest[i] == t[n + i] && (i > 0 ==> rest[i - 1] == t[n + i - 1]);
      assert LineStart(t, n + i);
    }
  }

  lemma LineThenLines(a: string, b: string, c: char)
    requires OneLine(a) && a != "" && a[0] != c && NoLineStartsWith(b, c)
    ensures NoLineStartsWith(a + "\n" + b, c)
  {
    var t := a + "\n" + b;
    forall i | 0 <= i < |t| && LineStart(t, i) ensures t[i] != c {
      if i == 0 {
        assert t[i] == a[0];
      } else if i <= |a| {
        assert false;
      } else {
        var j := i - |a| - 1;
        assert t[i] == b[j] && (j > 0 ==> t[i - 1] == b[j - 1]);
        assert LineStart(b, j);
      }
    }
  }

  lemma {:induction false} DecimalIsOneLine(n: nat)
    ensures OneLine(Decimal(n))
  {
    if n >= 10 { DecimalIsOneLine(n / 10); }
  }

  lemma {:induction false} AddedLinesStartWithPlus(lines: seq<string>, c: char)
    requires c != '+' && forall i | 0 <= i < |lines| :: OneLine(lines[i])
    ensures NoLineStartsWith(Join(Added(lines), '\n'), c)
  {
    if |lines| == 1 {
      assert Added(lines)[0] == "+" + lines[0];
    } else if |lines| > 1 {
      AddedLinesStartWithPlus(lines[1..], c);
      assert Added(lines)[1..] == Added(lines[1..]) && Added(lines)[0] == "+" + lines[0];
      LineThenLines("+" + lines[0], Join(Added(lines[1..]), '\n'), c);
    }
  }

  /** No line after the header starts like a header, whatever the file contains. */
  lemma OnlyTheHeaderIsAHeader(path: string, content: string)
    requires OneLine(path)
    ensures NoLineStartsWith(AfterHeader(path, content), 'd')
  {
    hide NoLineStartsWith, SplitLines, Decimal, Join, Added;
    var lines := SplitLines(content);
    SplitGivesLines(content);
    AddedLinesStartWithPlus(lines, 'd');
    var body := Join(Added(lines), '\n');
    DecimalIsOneLine(|lines|);
    var hunk, plus := "@@ -0,0 +1," + Decimal(|lines|) + " @@", "+++ b/" + path;
    LineThenLines(hunk, body, 'd');
    LineThenLines(plus, hunk + "\n" + body, 'd');
    LineThenLines("--- /dev/null", plus + "\n" + (hunk + "\n" + body), 'd');
    LineThenLines("new file mode 100644", "--- /dev/null" + "\n" + (plus + "\n" + (hunk + "\n" + body)), 'd');
  }

  // ------------------------------------------------------------- round trip

  /** The paths that survive: no " b/" inside, one line, no whitespace at the end. */
  predicate Survives(path: string) {
    && path != "" && OneLine(path) && !IsSpace(path[|path| - 1])
    && forall i | 0 <= i < |path| :: !SeparatorAt(path, i)
  }

  /** What a repository path is known to be: not empty, relative, without control
      characters. */
  predicate RepoPath(path: string) {
    path != "" && path[0] != '/' && forall i | 0 <= i < |path| :: path[i] as int >= 0x20 && path[i] as int != 0x7F
  }

  lemma {:induction false} ReplaceAbsent(s: string, c: char, replacement: string)
    requires c !in s
    ensures Replace(s, c, replacement) == s
  {
    if s != [] {
      ReplaceAbsent(s[1..], c, replacement);
      assert [s[0]] + s[1..] == s;
    }
  }

  lemma RepoPathIsPrintedAsIs(path: string)
    requires RepoPath(path)
    ensures GitPatchPath(path) == path
  {
    assert '\n' !in path && '\r' !in path;
    ReplaceAbsent(path, '\n', "\\n");
    ReplaceAbsent(path, '\r', "\\r");
  }

  lemma RStripReaches(s: string, i: nat)
    requires i < |s| && !IsSpace(s[i])
    ensures |RStrip(s)| > i && RStrip(s)[i] == s[i]
    ensures !IsSpace(s[|s| - 1]) ==> RStrip(s) == s
  {
  }

  lemma StripFromSolid(s: string)
    requires s != "" && !IsSpace(s[0])
    ensures Strip(s) == RStrip(s) != ""
  {
    RStripReaches(s, 0);
  }

  lemma UnquotePlain(raw: string, shlex: ShellSplit)
    requires raw != "" && !IsSpace(raw[0]) && !IsSpace(raw[|raw| - 1]) && raw[0] != '"'
    ensures Unquote(raw, shlex) == raw
  {
    hide IsSpace, RStrip, Strip;
    StripFromSolid(raw);
    RStripReaches(raw, |raw| - 1);
  }

  lemma SideIsSolid(side: string)
    requires |side| >= 2 && side[0] in {'a', 'b'} && side[1] == '/'
    ensures
      var r := RStrip(side);
      Strip(side) == r && |r| >= 2 && r[0] == side[0] && r[1] == '/' && !IsSpace(r[0]) && !IsSpace(r[|r| - 1])
  {
    assert !IsSpace(side[0]) && !IsSpace(side[1]);
    hide IsSpace, Strip;
    RStripReaches(side, 1);
    StripFromSolid(side);
  }

  lemma SidePrefix(r: string)
    requires |r| >= 2 && r[0] in {'a', 'b'} && r[1] == '/'
    ensures StartsWith(r, "a/") || StartsWith(r, "b/")
  {
    assert r[..2] == [r[0], r[1]];
  }

  /** A side of the header is taken from the third character on, up to trailing
      whitespace. */
  lemma SideOf(side: string, shlex: ShellSplit)
    requires |side| >= 2 && side[0] in {'a', 'b'} && side[1] == '/'
    ensures |RStrip(side)| >= 2 && NormalizeGitPath(side, shlex) == RStrip(side)[2..]
  {
    hide IsSpace, Strip, RStrip, Unquote, StartsWith;
    SideIsSolid(side);
    var r := RStrip(side);
    UnquotePlain(r, shlex);
    SidePrefix(r);
  }

  /** The text after "diff --git ", by position. */
  predicate IsSides(full: string, path: string) {
    var n := |path|;
    && |full| == 2 * n + 5 && full[0] == 'a' && full[1] == '/'
    && full[n + 2] == ' ' && full[n + 3] == 'b' && full[n + 4] == '/'
    && full[2..n + 2] == path && full[n + 5..] == path
  }

  lemma HeaderHasSides(path: string)
    ensures
      var line := Header(path);
      && StartsWith(line, DIFF_GIT) && IsSides(line[|DIFF_GIT|..], path)
  {
    assert Header(path)[|DIFF_GIT|..] == "a/" + path + " b/" + path;
  }

  lemma SeparatorPlace(full: string, path: string, k: int)
    requires path != "" && OneLine(path) && IsSides(full, path)
    requires k == LastSeparator(RStrip(full), |RStrip(full)|)
    ensures |path| + 5 <= |RStrip(full)| && (k == |path| + 2 || |path| + 5 <= k)
    ensures Survives(path) <==> RStrip(full) == full && k == |path| + 2
  {
    var n, payload := |path|, RStrip(full);
    assert !IsSpace(full[n + 4]);
    hide IsSpace, RStrip, OneLine, Survives;
    RStripReaches(full, n + 4);
    assert SeparatorAt(payload, n + 2);
    assert !SeparatorAt(payload, n + 3) && !SeparatorAt(payload, n + 4);
    SurvivesExactlyWhen(full, path, k);
  }

  lemma SurvivesExactlyWhen(full: string, path: string, k: int)
    requires path != "" && OneLine(path) && IsSides(full, path)
    requires k == LastSeparator(RStrip(full), |RStrip(full)|) && (k == |path| + 2 || |path| + 5 <= k)
    ensures Survives(path) <==> RStrip(full) == full && k == |path| + 2
  {
    var n := |path|;
    assert full[2 * n + 4] == path[n - 1];
    hide IsSpace, RStrip, OneLine;
    RStripReaches(full, n + 4);
    if RStrip(full) == full && k == n + 2 {
      forall i | 0 <= i < n ensures !SeparatorAt(path, i) {
        SeparatorMoves(full, path, i);
      }
    } else if RStrip(full) == full {
      SeparatorMoves(full, path, k - n - 5);
    }
  }

  lemma SeparatorMoves(full: string, path: string, i: nat)
    requires IsSides(full, path)
    ensures SeparatorAt(path, i) <==> SeparatorAt(full, |path| + 5 + i)
  {
    if i + 3 <= |path| {
      var second := full[|path| + 5..];
      assert second[i] == full[|path| + 5 + i] && second[i + 1] == full[|path| + 6 + i] && second[i + 2] == full[|path| + 7 + i];
    }
  }

  lemma ReadAtSeparator(line: string, payload: string, k: nat, shlex: ShellSplit)
    requires StartsWith(line, DIFF_GIT) && payload == Strip(line[|DIFF_GIT|..])
    requires StartsWith(payload, "a/") && k == LastSeparator(payload, |payload|)
    ensures ParseDiffGitLine(line, shlex)
         == Some((NormalizeGitPath(payload[..k], shlex), NormalizeGitPath(payload[k + 1..], shlex)))
  {
    hide NormalizeGitPath, Strip;
  }

  /** How the header of any one-line path is read: both sides are the path itself
      exactly when it survives; otherwise neither side is. */
  lemma HeaderIsRead(path: string, shlex: ShellSplit)
    requires path != "" && OneLine(path)
    ensures
      var pair := ParseDiffGitLine(Header(path), shlex);
      && pair.Some?
      && (if Survives(path) then pair.value == (path, path) else |pair.value.1| < |path| && |pair.value.0| != |path|)
  {
    HeaderHasSides(path);
    var full := Header(path)[|DIFF_GIT|..];
    assert IsSides(full, path) && full != "" && !IsSpace(full[0]);
    hide *;
    StripFromSolid(full);
    var payload := RStrip(full);
    var k := LastSeparator(payload, |payload|);
    SeparatorPlace(full, path, k);
    HeaderSides(full, path, payload, k, shlex);
    ReadAtSeparator(Header(path), payload, k, shlex);
  }

  lemma FirstSideLength(full: string, path: string, payload: string, k: nat)
    requires path != "" && IsSides(full, path) && payload == RStrip(full)
    requires |path| + 5 <= |payload| && k < |payload| && (k == |path| + 2 || |path| + 5 <= k)
    ensures payload == full && k == |path| + 2 ==> payload[..k][2..] == path && RStrip(payload[..k]) == payload[..k]
    ensures payload != full || k != |path| + 2 ==> |RStrip(payload[..k])| != |path| + 2
  {
    var n, side := |path|, payload[..k];
    assert full[2 * n + 4] == path[n - 1] == full[n + 1];
    if k == n + 2 {
      hide RStrip;
      assert side[|side| - 1] == path[n - 1];
      RStripReaches(full, n + 4);
      if payload == full { RStripReaches(side, 0); }
    } else {
      assert side[n + 4] == '/' && !IsSpace('/');
      RStripReaches(side, n + 4);
    }
  }

  lemma SecondSideLength(full: string, path: string, payload: string, k: nat)
    requires path != "" && IsSides(full, path) && payload == RStrip(full)
    requires |path| + 2 <= k && SeparatorAt(payload, k)
    ensures RStrip(payload[k + 1..]) == payload[k + 1..] && payload[k + 1..][..2] == "b/"
    ensures payload == full && k == |path| + 2 ==> payload[k + 1..][2..] == path
    ensures payload != full || k != |path| + 2 ==> |payload[k + 1..]| < |path| + 2
  {
    var b := payload[k + 1..];
    hide IsSpace, RStrip;
    assert b[|b| - 1] == payload[|payload| - 1];
    RStripReaches(b, |b| - 1);
  }

  lemma HeaderSides(full: string, path: string, payload: string, k: nat, shlex: ShellSplit)
    requires path != "" && IsSides(full, path) && payload == RStrip(full)
    requires |path| + 5 <= |payload| && SeparatorAt(payload, k)
    requires k == |path| + 2 || |path| + 5 <= k
    requires Survives(path) <==> payload == full && k == |path| + 2
    ensures StartsWith(payload, "a/")
    ensures
      var (a, b) := (NormalizeGitPath(payload[..k], shlex), NormalizeGitPath(payload[k + 1..], shlex));
      if Survives(path) then a == path && b == path else |b| < |path| && |a| != |path|
  {
    hide RStrip, LStrip, IsSpace, NormalizeGitPath, Survives;
    var a, b := payload[..k], payload[k + 1..];
    assert a[0] == 'a' && a[1] == '/' && payload[..2] == "a/";
    FirstSideLength(full, path, payload, k);
    SecondSideLength(full, path, payload, k);
    assert b[0] == b[..2][0] && b[1] == b[..2][1];
    assert StartsWith(payload, "a/");
    hide *;
    SideOf(a, shlex);
    SideOf(b, shlex);
  }

  // -------------------------------------------- the header survives truncation

  lemma {:induction false} FittingReaches(t: Utf8.Text, m: nat, n: int)
    requires m <= |t| && |Utf8.Encode(t[..m])| <= n
    ensures Utf8.Fitting(t, n) >= m
    decreases |t|
  {
    if m > 0 {
      hide Utf8.EncodeChar;
      assert t[..m][1..] == t[1..][..m - 1] && t[..m][0] == t[0];
      FittingReaches(t[1..], m - 1, n - |Utf8.EncodeChar(t[0])|);
    }
  }

  /** A truncated text still starts with anything that fits. */
  lemma TruncatedStillStartsWith(a: string, b: string, maxBytes: int) returns (k: nat)
    requires |Utf8.Encode(Utf8.Lit(a))| <= maxBytes
    ensures k <= |b| && Truncate(a + b, maxBytes).0 == a + b[..k]
  {
    var s := a + b;
    assert b[..|b|] == b;
    k := |b|;
    if Truncate(s, maxBytes).1 {
      assert Utf8.Lit(s)[..|a|] == Utf8.Lit(a);
      FittingReaches(Utf8.Lit(s), |a|, maxBytes);
      k := Utf8.Fitting(Utf8.Lit(s), maxBytes) - |a|;
      assert s[..|a| + k] == a + b[..k];
    }
  }

  lemma StartsOtherwiseIsNoHeader(line: string, shlex: ShellSplit)
    requires line == "" || line[0] != 'd'
    ensures ParseDiffGitLine(line, shlex).None?
  {
    assert DIFF_GIT[0] == 'd';
  }

  lemma PrefixHasNoSuchLine(t: string, k: nat, c: char)
    requires k <= |t| && NoLineStartsWith(t, c)
    ensures NoLineStartsWith(t[..k], c)
  {
    forall i | 0 <= i < k && LineStart(t[..k], i) ensures t[..k][i] != c {
      assert LineStart(t, i);
    }
  }

  /** However the patch of a one-line path is cut, the header is its first line and
      no other line is read as a header. */
  lemma LinesOfPatch(path: string, content: string, maxBytes: int, shlex: ShellSplit) returns (lines: seq<string>)
    requires RepoPath(path) && OneLine(path) && |Utf8.Encode(Utf8.Lit(Header(path)))| <= maxBytes
    ensures lines == SplitLines(PatchFor(path, content, maxBytes).0)
    ensures |lines| > 0 && lines[0] == Header(path)
    ensures forall i | 1 <= i < |lines| :: ParseDiffGitLine(lines[i], shlex).None?
  {
    hide *;
    var header, after := Header(path), AfterHeader(path, content);
    RepoPathIsPrintedAsIs(path);
    OnlyTheHeaderIsAHeader(path, content);
    HeaderIsOneLine(path);
    FullPatchIs(path, content);
    var k := TruncatedStillStartsWith(header, "\n" + after, maxBytes);
    var patch := PatchFor(path, content, maxBytes).0;
    PatchForIs(path, content, maxBytes);
    assert patch == header + ("\n" + after)[..k];
    lines := SplitLines(patch);
    if k == 0 {
      assert patch == header;
      SplitOneLine(header);
    } else {
      var tail := after[..k - 1];
      assert patch == header + "\n" + tail;
      SplitAtFirstLine(header, tail);
      PrefixHasNoSuchLine(after, k - 1, 'd');
      LinesStartOtherwise(tail, 'd');
      forall i | 1 <= i < |lines| ensures ParseDiffGitLine(lines[i], shlex).None? {
        StartsOtherwiseIsNoHeader(lines[i], shlex);
      }
    }
  }

  lemma HeaderIsOneLine(path: string)
    requires OneLine(path)
    ensures OneLine(Header(path)) && Header(path) != ""
  {
  }

  lemma SplitOneLine(s: string)
    requires OneLine(s) && s != ""
    ensures SplitLines(s) == [s]
  {
  }

  lemma FullPatchIs(path: string, content: string)
    requires GitPatchPath(path) == path
    ensures FullPatch(path, content) == Header(path) + ("\n" + AfterHeader(path, content))
  {
    hide Header, AfterHeader;
  }

  lemma PatchForIs(path: string, content: string, maxBytes: int)
    ensures PatchFor(path, content, maxBytes) == Truncate(FullPatch(path, content), maxBytes)
  {
  }

  lemma {:induction false} OneHeaderOnly(lines: seq<string>, n: nat, a: string, b: string, shlex: ShellSplit)
    requires 1 <= n <= |lines| && ParseDiffGitLine(lines[0], shlex) == Some((a, b))
    requires forall i | 1 <= i < |lines| :: ParseDiffGitLine(lines[i], shlex).None?
    ensures HasHeader(lines, n, shlex)
    ensures TargetsOf(lines, n, shlex) == Push([], b)
    ensures BothSidesOf(lines, n, shlex) == PushAll([], [a, b], 2)
  {
    hide ParseDiffGitLine, Push, PushAll;
    if n > 1 {
      OneHeaderOnly(lines, n - 1, a, b, shlex);
    } else {
      assert TargetsOf(lines, 0, shlex) == [] && BothSidesOf(lines, 0, shlex) == [];
    }
  }

  // ------------------------------------------- extracted paths are one line

  /** The words a shell-like splitting gives are made of characters of the text. */
  ghost predicate SplitsText(shlex: ShellSplit) {
    forall s: string, i: nat, j: nat ::
      shlex(s).Some? && i < |shlex(s).value| && j < |shlex(s).value[i]| ==> shlex(s).value[i][j] in s
  }

  lemma WordsAreOneLine(s: string, i: nat, shlex: ShellSplit)
    requires SplitsText(shlex) && OneLine(s) && shlex(s).Some? && i < |shlex(s).value|
    ensures OneLine(shlex(s).value[i])
  {
    var word := shlex(s).value[i];
    forall j | 0 <= j < |word| ensures !IsLineBreak(word[j]) {
      assert word[j] in s;
    }
  }

  lemma PartsAreOneLine(s: string, i: nat)
    requires OneLine(s) && i <= |s|
    ensures OneLine(s[..i]) && OneLine(s[i..])
  {
  }

  lemma StripIsOneLine(s: string)
    requires OneLine(s)
    ensures OneLine(Strip(s))
  {
    assert OneLine(LStrip(s));
  }

  lemma UnquotedIsOneLine(value: string, shlex: ShellSplit)
    requires SplitsText(shlex) && OneLine(value)
    ensures OneLine(Unquote(value, shlex))
  {
    var raw := Strip(value);
    StripIsOneLine(value);
    hide SplitsText, OneLine, Strip;
    if |raw| >= 2 {
      PartsAreOneLine(raw, |raw| - 1);
      PartsAreOneLine(raw[..|raw| - 1], 1);
      assert raw[..|raw| - 1][1..] == raw[1..|raw| - 1];
    }
    if shlex(raw).Some? && |shlex(raw).value| > 0 { WordsAreOneLine(raw, 0, shlex); }
  }

  lemma NormalizedIsOneLine(value: string, shlex: ShellSplit)
    requires SplitsText(shlex) && OneLine(value)
    ensures OneLine(NormalizeGitPath(value, shlex))
  {
    hide SplitsText, OneLine, Strip, Unquote;
    StripIsOneLine(value);
    UnquotedIsOneLine(Strip(value), shlex);
    var raw := Unquote(Strip(value), shlex);
    if |raw| >= 2 { PartsAreOneLine(raw, 2); }
  }

  lemma PayloadSidesAreOneLine(payload: string, shlex: ShellSplit)
    requires SplitsText(shlex) && OneLine(payload) && ParseSides(payload, shlex).Some?
    ensures
      var pair := ParseSides(payload, shlex).value;
      OneLine(pair.0) && OneLine(pair.1)
  {
    hide SplitsText, OneLine, NormalizeGitPath, StartsWith;
    var k := LastSeparator(payload, |payload|);
    if StartsWith(payload, "a/") && k >= 0 {
      PartsAreOneLine(payload, k);
      PartsAreOneLine(payload, k + 1);
      NormalizedIsOneLine(payload[..k], shlex);
      NormalizedIsOneLine(payload[k + 1..], shlex);
    } else {
      var parts := shlex(payload).value;
      WordsAreOneLine(payload, 0, shlex);
      WordsAreOneLine(payload, 1, shlex);
      NormalizedIsOneLine(parts[0], shlex);
      NormalizedIsOneLine(parts[1], shlex);
    }
  }

  lemma ParsedSidesAreOneLine(line: string, shlex: ShellSplit)
    requires SplitsText(shlex) && OneLine(line) && ParseDiffGitLine(line, shlex).Some?
    ensures
      var pair := ParseDiffGitLine(line, shlex).value;
      OneLine(pair.0) && OneLine(pair.1)
  {
    assert |line| >= |DIFF_GIT|;
    hide SplitsText, OneLine, ParseSides, Strip, StartsWith;
    var rest := line[|DIFF_GIT|..];
    PartsAreOneLine(line, |DIFF_GIT|);
    StripIsOneLine(rest);
    PayloadSidesAreOneLine(Strip(rest), shlex);
  }

  lemma HeaderPathIsOneLine(line: string, prefix: string, shlex: ShellSplit)
    requires SplitsText(shlex) && OneLine(line)
    ensures OneLine(HeaderPath(line, prefix, shlex))
  {
    assert OneLine("");
    if StartsWith(line, prefix) {
      hide SplitsText, OneLine, NormalizeGitPath, Strip;
      var rest := line[|prefix|..];
      var name := rest[..Find(rest, '\t')];
      PartsAreOneLine(line, |prefix|);
      PartsAreOneLine(rest, |name|);
      StripIsOneLine(name);
      NormalizedIsOneLine(Strip(name), shlex);
    }
  }

  predicate AllOneLine(paths: seq<string>) {
    forall i | 0 <= i < |paths| :: OneLine(paths[i])
  }

  lemma PushedAreOneLine(paths: seq<string>, path: string)
    requires AllOneLine(paths) && OneLine(path)
    ensures AllOneLine(Push(paths, path))
  {
    hide OneLine;
  }

  lemma {:induction false} AllPushedAreOneLine(files: seq<string>, paths: seq<string>, n: nat)
    requires AllOneLine(files) && n <= |paths| && forall i | 0 <= i < n :: OneLine(paths[i])
    ensures AllOneLine(PushAll(files, paths, n))
  {
    hide OneLine, AllOneLine, Push;
    if n > 0 {
      AllPushedAreOneLine(files, paths, n - 1);
      PushedAreOneLine(PushAll(files, paths, n - 1), paths[n - 1]);
    }
  }

  lemma {:induction false} SidesAreOneLine(lines: seq<string>, n: nat, shlex: ShellSplit)
    requires SplitsText(shlex) && n <= |lines| && AllOneLine(lines)
    ensures AllOneLine(TargetsOf(lines, n, shlex)) && AllOneLine(BothSidesOf(lines, n, shlex))
  {
    hide SplitsText, OneLine, ParseDiffGitLine, Push;
    if n > 0 {
      SidesAreOneLine(lines, n - 1, shlex);
      hide AllOneLine;
      if ParseDiffGitLine(lines[n - 1], shlex).Some? {
        assert OneLine(lines[n - 1]) by { LineIsOneLine(lines, n - 1); }
        ParsedSidesAreOneLine(lines[n - 1], shlex);
        var (a, b) := ParseDiffGitLine(lines[n - 1], shlex).value;
        PushedAreOneLine(TargetsOf(lines, n - 1, shlex), b);
        AllPushedAreOneLine(BothSidesOf(lines, n - 1, shlex), [a, b], 2);
      }
    }
  }

  lemma LineIsOneLine(lines: seq<string>, i: nat)
    requires AllOneLine(lines) && i < |lines|
    ensures OneLine(lines[i])
  {
  }

  lemma {:induction false} PrefixedAreOneLine(lines: seq<string>, n: nat, shlex: ShellSplit)
    requires SplitsText(shlex) && n <= |lines| && AllOneLine(lines)
    ensures AllOneLine(PlusPaths(lines, n, shlex)) && AllOneLine(HeaderPaths(lines, n, shlex))
  {
    hide SplitsText, OneLine, HeaderPath, Push;
    if n > 0 {
      PrefixedAreOneLine(lines, n - 1, shlex);
      hide AllOneLine;
      LineIsOneLine(lines, n - 1);
      HeaderPathIsOneLine(lines[n - 1], "--- ", shlex);
      HeaderPathIsOneLine(lines[n - 1], "+++ ", shlex);
      PushedAreOneLine(PlusPaths(lines, n - 1, shlex), HeaderPath(lines[n - 1], "+++ ", shlex));
      AllPushedAreOneLine(HeaderPaths(lines, n - 1, shlex), PathsAfter(lines[n - 1], ["--- ", "+++ "], shlex), 2);
    }
  }

  /** The patch of an untracked file, however its content looks and however it is cut
      after its header, is read back by both extractors as exactly that path, if and
      only if the path has no " b/" inside, no line separator and no whitespace at the
      end; any other path is not extracted at all. */
  lemma PatchReadsBackExactlyWhen(path: string, content: string, maxBytes: int, shlex: ShellSplit)
    requires RepoPath(path) && SplitsText(shlex)
    requires |Utf8.Encode(Utf8.Lit(Header(path)))| <= maxBytes
    ensures
      var patch := PatchFor(path, content, maxBytes).0;
      && (Survives(path) ==> ChangedFiles(patch, shlex) == [path] && AllPatchPaths(patch, shlex) == [path])
      && (!Survives(path) ==> path !in ChangedFiles(patch, shlex) && path !in AllPatchPaths(patch, shlex))
  {
    if OneLine(path) {
      OneLinePathIsReadBack(path, content, maxBytes, shlex);
    } else {
      BrokenPathIsNotReadBack(path, PatchFor(path, content, maxBytes).0, shlex);
    }
  }

  lemma OneLinePathIsReadBack(path: string, content: string, maxBytes: int, shlex: ShellSplit)
    requires RepoPath(path) && OneLine(path) && |Utf8.Encode(Utf8.Lit(Header(path)))| <= maxBytes
    ensures
      var patch := PatchFor(path, content, maxBytes).0;
      && (Survives(path) ==> ChangedFiles(patch, shlex) == [path] && AllPatchPaths(patch, shlex) == [path])
      && (!Survives(path) ==> path !in ChangedFiles(patch, shlex) && path !in AllPatchPaths(patch, shlex))
  {
    assert path != "" && path != DEV_NULL;
    var lines := LinesOfPatch(path, content, maxBytes, shlex);
    HeaderIsRead(path, shlex);
    var pair := ParseDiffGitLine(lines[0], shlex).value;
    hide Survives, ParseDiffGitLine, PatchFor, RepoPath, OneLine, SplitLines, Header, TargetsOf;
    hide BothSidesOf, PlusPaths, HeaderPaths, HasHeader, Push, PushAll;
    OneHeaderOnly(lines, |lines|, pair.0, pair.1, shlex);
    PushedPair(path, pair.0, pair.1);
  }

  lemma PushedPair(path: string, a: string, b: string)
    requires path != "" && path != DEV_NULL
    ensures a == path && b == path ==> Push([], b) == [path] && PushAll([], [a, b], 2) == [path]
    ensures a != path && b != path ==> path !in Push([], b) && path !in PushAll([], [a, b], 2)
  {
    assert PushAll([], [a, b], 1) == Push([], a);
  }

  lemma BrokenPathIsNotReadBack(path: string, patch: string, shlex: ShellSplit)
    requires !OneLine(path) && SplitsText(shlex)
    ensures !Survives(path) && path !in ChangedFiles(patch, shlex) && path !in AllPatchPaths(patch, shlex)
  {
    var lines := SplitLines(patch);
    SplitGivesLines(patch);
    hide SplitsText, OneLine, SplitLines, TargetsOf, BothSidesOf, PlusPaths, HeaderPaths, HasHeader;
    SidesAreOneLine(lines, |lines|, shlex);
    PrefixedAreOneLine(lines, |lines|, shlex);
  }

  // ------------------------------------------------------- what it shows

  lemma {:induction false} JoinedLinesSplit(lines: seq<string>)
    requires forall i | 0 <= i < |lines| :: OneLine(lines[i]) && lines[i] != ""
    ensures SplitLines(Join(lines, '\n')) == lines
  {
    hide NextBreak, OneLine;
    if |lines| == 0 {
    } else if |lines| == 1 {
      SplitOneLine(lines[0]);
    } else {
      JoinedLinesSplit(lines[1..]);
      assert ['\n'] == "\n";
      SplitAtFirstLine(lines[0], Join(lines[1..], '\n'));
      assert [lines[0]] + lines[1..] == lines;
    }
  }

  lemma AddedAreLines(lines: seq<string>)
    requires forall i | 0 <= i < |lines| :: OneLine(lines[i])
    ensures forall i | 0 <= i < |Added(lines)| :: OneLine(Added(lines)[i]) && Added(lines)[i] != ""
  {
    forall i | 0 <= i < |lines| ensures OneLine("+" + lines[i]) {
      assert forall j | 0 < j < |lines[i]| + 1 :: ("+" + lines[i])[j] == lines[i][j - 1];
    }
  }

  /** The number a row of digits stands for. */
  function ValueOf(digits: string): nat {
    if digits == "" then 0
    else
      var d := digits[|digits| - 1] as int - '0' as int;
      10 * ValueOf(digits[..|digits| - 1]) + MaxInt(0, d)
  }

  lemma {:induction false} DecimalReadsBack(n: nat)
    ensures ValueOf(Decimal(n)) == n
    ensures forall i | 0 <= i < |Decimal(n)| :: '0' <= Decimal(n)[i] <= '9'
  {
    if n >= 10 {
      DecimalReadsBack(n / 10);
      assert Decimal(n)[..|Decimal(n)| - 1] == Decimal(n / 10);
    } else {
      assert Decimal(n)[..0] == "";
    }
  }

  lemma HunkIsOneLine(n: nat)
    ensures OneLine("@@ -0,0 +1," + Decimal(n) + " @@")
  {
    DecimalReadsBack(n);
    hide Decimal;
    var digits := Decimal(n);
    var line := "@@ -0,0 +1," + digits + " @@";
    assert forall i | 11 <= i < 11 + |digits| :: line[i] == digits[i - 11];
    assert line[..11] == "@@ -0,0 +1," && line[11 + |digits|..] == " @@";
    assert forall i | 0 <= i < 11 :: line[i] == line[..11][i];
    assert forall i | 11 + |digits| <= i < |line| :: line[i] == line[11 + |digits|..][i - 11 - |digits|];
  }

  lemma NewFileLines()
    ensures OneLine("new file mode 100644") && OneLine("--- /dev/null")
  {
  }

  lemma PlusIsOneLine(path: string)
    requires OneLine(path)
    ensures OneLine("+++ b/" + path)
  {
    var line := "+++ b/" + path;
    assert forall i | 6 <= i < |line| :: line[i] == path[i - 6];
    assert line[..6] == "+++ b/";
    assert forall i | 0 <= i < 6 :: line[i] == line[..6][i];
  }

  lemma FiveLinesFirst(a: string, b: string, c: string, d: string, e: string, rest: string)
    requires OneLine(a) && OneLine(b) && OneLine(c) && OneLine(d) && OneLine(e)
    ensures SplitLines(a + "\n" + (b + "\n" + (c + "\n" + (d + "\n" + (e + "\n" + rest)))))
         == [a, b, c, d, e] + SplitLines(rest)
  {
    hide *;
    SplitAtFirstLine(e, rest);
    SplitAtFirstLine(d, e + "\n" + rest);
    SplitAtFirstLine(c, d + "\n" + (e + "\n" + rest));
    SplitAtFirstLine(b, c + "\n" + (d + "\n" + (e + "\n" + rest)));
    SplitAtFirstLine(a, b + "\n" + (c + "\n" + (d + "\n" + (e + "\n" + rest))));
  }

  lemma FullPatchReads(path: string, content: string)
    ensures
      var lines, quoted := SplitLines(content), GitPatchPath(path);
      FullPatch(path, content) == Header(quoted) + "\n" + ("new file mode 100644" + "\n" + ("--- /dev/null" + "\n"
        + ("+++ b/" + quoted + "\n" + ("@@ -0,0 +1," + Decimal(|lines|) + " @@" + "\n" + Join(Added(lines), '\n')))))
  {
    hide GitPatchPath, SplitLines, Decimal, Header, Added, Join;
  }

  lemma ContentIsSplit(content: string)
    ensures SplitLines(Join(Added(SplitLines(content)), '\n')) == Added(SplitLines(content))
  {
    hide SplitLines, OneLine, Join;
    SplitGivesLines(content);
    AddedAreLines(SplitLines(content));
    JoinedLinesSplit(Added(SplitLines(content)));
  }

  /** Read back, the patch of a new file is its five headers, with the number of lines
      in the last one, and every line of the content, in order, behind a plus. */
  lemma PatchShowsContent(path: string, content: string)
    requires OneLine(GitPatchPath(path))
    ensures
      var lines, quoted := SplitLines(content), GitPatchPath(path);
      SplitLines(FullPatch(path, content)) ==
        ["diff --git a/" + quoted + " b/" + quoted, "new file mode 100644", "--- /dev/null", "+++ b/" + quoted,
         "@@ -0,0 +1," + Decimal(|lines|) + " @@"]
        + seq(|lines|, i requires 0 <= i < |lines| => "+" + lines[i])
  {
    var lines, quoted := SplitLines(content), GitPatchPath(path);
    assert Added(lines) == seq(|lines|, i requires 0 <= i < |lines| => "+" + lines[i]);
    assert Header(quoted) == "diff --git a/" + quoted + " b/" + quoted;
    hide *;
    NewFileLines();
    HeaderIsOneLine(quoted);
    PlusIsOneLine(quoted);
    HunkIsOneLine(|lines|);
    ContentIsSplit(content);
    FullPatchReads(path, content);
    FiveLinesFirst(Header(quoted), "new file mode 100644", "--- /dev/null", "+++ b/" + quoted,
                   "@@ -0,0 +1," + Decimal(|lines|) + " @@", Join(Added(lines), '\n'));
  }
}
