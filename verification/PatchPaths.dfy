/** The extractors of file paths from a patch, line by line. `shlex` stands for the
    shell-like splitting of quoted words, None for its error. */
module PatchPaths {
  import opened Prelude
  import opened PyText

  type ShellSplit = string -> Option<seq<string>>

  const DIFF_GIT := "diff --git "
  const DEV_NULL := "/dev/null"

  // ----------------------------------------------------------------- lines

  function NextBreak(s: string): (k: nat)
    ensures k <= |s| && forall i | 0 <= i < k :: !IsLineBreak(s[i])
    ensures k < |s| ==> IsLineBreak(s[k])
  {
    if s == [] || IsLineBreak(s[0]) then 0 else 1 + NextBreak(s[1..])
  }

  /** `splitlines`: a carriage return and a line feed break only once. */
  function SplitLines(s: string): seq<string>
    decreases |s|
  {
    if s == [] then []
    else
      var k := NextBreak(s);
      if k == |s| then [s]
      else if s[k] == '\r' && k + 1 < |s| && s[k + 1] == '\n' then [s[..k]] + SplitLines(s[k + 2..])
      else [s[..k]] + SplitLines(s[k + 1..])
  }

  predicate OneLine(s: string) {
    forall i | 0 <= i < |s| :: !IsLineBreak(s[i])
  }

  // ------------------------------------------------------------ one header

  function Unquote(value: string, shlex: ShellSplit): string {
    var raw := Strip(value);
    if raw == "" then ""
    else if raw[0] == raw[|raw| - 1] == '"' && |raw| >= 2 then
      match shlex(raw)
      case Some(parts) => if |parts| > 0 then parts[0] else raw[1..|raw| - 1]
      case None => raw[1..|raw| - 1]
    else raw
  }

  function NormalizeGitPath(value: string, shlex: ShellSplit): string {
    var raw := Unquote(Strip(value), shlex);
    if StartsWith(raw, "a/") || StartsWith(raw, "b/") then raw[2..] else raw
  }

  predicate SeparatorAt(s: string, i: nat) {
    i + 3 <= |s| && s[i] == ' ' && s[i + 1] == 'b' && s[i + 2] == '/'
  }

  /** Where the last " b/" before index n starts; -1 when there is none. */
  function LastSeparator(s: string, n: nat): (k: int)
    ensures -1 <= k < n
    ensures k >= 0 ==> SeparatorAt(s, k)
    ensures forall i | k < i < n :: !SeparatorAt(s, i)
  {
    if n == 0 then -1
    else if SeparatorAt(s, n - 1) then n - 1
    else LastSeparator(s, n - 1)
  }

  /** The two sides after "diff --git "; None when they cannot be told apart. */
  function ParseSides(payload: string, shlex: ShellSplit): Option<(string, string)> {
    var k := LastSeparator(payload, |payload|);
    if StartsWith(payload, "a/") && k >= 0 then
      Some((NormalizeGitPath(payload[..k], shlex), NormalizeGitPath(payload[k + 1..], shlex)))
    else
      match shlex(payload)
      case Some(parts) =>
        if |parts| < 2 then None
        else Some((NormalizeGitPath(parts[0], shlex), NormalizeGitPath(parts[1], shlex)))
      case None => None
  }

  function ParseDiffGitLine(line: string, shlex: ShellSplit): Option<(string, string)> {
    if !StartsWith(line, DIFF_GIT) then None else ParseSides(Strip(line[|DIFF_GIT|..]), shlex)
  }

  /** A path after "--- " or "+++ "; the empty string when there is none. */
  function HeaderPath(line: string, prefix: string, shlex: ShellSplit): string {
    if !StartsWith(line, prefix) then ""
    else
      var rest := line[|prefix|..];
      var raw := Strip(rest[..Find(rest, '\t')]);
      if raw == "" then ""
      else
        var path := NormalizeGitPath(raw, shlex);
        if path == DEV_NULL then "" else path
  }

  // ------------------------------------------------------------ extractors

  /** A path is listed once, and neither the empty nor the null one. */
  function Push(files: seq<string>, path: string): seq<string> {
    if path == "" || path == DEV_NULL || path in files then files else files + [path]
  }

  function PushAll(files: seq<string>, paths: seq<string>, n: nat): seq<string>
    requires n <= |paths|
  {
    if n == 0 then files else Push(PushAll(files, paths, n - 1), paths[n - 1])
  }

  predicate HasHeader(lines: seq<string>, n: nat, shlex: ShellSplit)
    requires n <= |lines|
  {
    exists i | 0 <= i < n :: ParseDiffGitLine(lines[i], shlex).Some?
  }

  function TargetsOf(lines: seq<string>, n: nat, shlex: ShellSplit): seq<string>
    requires n <= |lines|
  {
    if n == 0 then []
    else
      match ParseDiffGitLine(lines[n - 1], shlex)
      case Some(pair) => Push(TargetsOf(lines, n - 1, shlex), pair.1)
      case None => TargetsOf(lines, n - 1, shlex)
  }

  function BothSidesOf(lines: seq<string>, n: nat, shlex: ShellSplit): seq<string>
    requires n <= |lines|
  {
    if n == 0 then []
    else
      match ParseDiffGitLine(lines[n - 1], shlex)
      case Some(pair) => PushAll(BothSidesOf(lines, n - 1, shlex), [pair.0, pair.1], 2)
      case None => BothSidesOf(lines, n - 1, shlex)
  }

  function PlusPaths(lines: seq<string>, n: nat, shlex: ShellSplit): seq<string>
    requires n <= |lines|
  {
    if n == 0 then [] else Push(PlusPaths(lines, n - 1, shlex), HeaderPath(lines[n - 1], "+++ ", shlex))
  }

  function PathsAfter(line: string, prefixes: seq<string>, shlex: ShellSplit): (r: seq<string>)
    ensures |r| == |prefixes|
  {
    seq(|prefixes|, i requires 0 <= i < |prefixes| => HeaderPath(line, prefixes[i], shlex))
  }

  function HeaderPaths(lines: seq<string>, n: nat, shlex: ShellSplit): seq<string>
    requires n <= |lines|
  {
    if n == 0 then []
    else
      PushAll(HeaderPaths(lines, n - 1, shlex), PathsAfter(lines[n - 1], ["--- ", "+++ "], shlex), 2)
  }

  function ChangedFiles(patch: string, shlex: ShellSplit): seq<string> {
    var lines := SplitLines(patch);
    if HasHeader(lines, |lines|, shlex) then TargetsOf(lines, |lines|, shlex) else PlusPaths(lines, |lines|, shlex)
  }

  function AllPatchPaths(patch: string, shlex: ShellSplit): seq<string> {
    var lines := SplitLines(patch);
    if HasHeader(lines, |lines|, shlex) then BothSidesOf(lines, |lines|, shlex) else HeaderPaths(lines, |lines|, shlex)
  }

  /** `parse_patch_changed_files`. */
  method ParsePatchChangedFiles(patch: string, shlex: ShellSplit) returns (files: seq<string>)
    ensures files == ChangedFiles(patch, shlex)
  {
    hide ParseDiffGitLine, HeaderPath, SplitLines;
    var lines := SplitLines(patch);
    var seen: set<string>, sawDiffHeader := {}, false;
    files := [];
    for i := 0 to |lines|
      invariant files == TargetsOf(lines, i, shlex)
      invariant forall p :: p in seen <==> p in files
      invariant sawDiffHeader <==> HasHeader(lines, i, shlex)
    {
      var pair := ParseDiffGitLine(lines[i], shlex);
      if pair.None? { continue; }
      sawDiffHeader := true;
      var path := pair.value.1;
      if path != "" && path != DEV_NULL && path !in seen {
        seen := seen + {path};
        files := files + [path];
      }
    }
    if sawDiffHeader { return; }
    seen, files := {}, [];
    for i := 0 to |lines|
      invariant files == PlusPaths(lines, i, shlex)
      invariant forall p :: p in seen <==> p in files
    {
      var path := HeaderPath(lines[i], "+++ ", shlex);
      if path == "" || path in seen { continue; }
      assert path != DEV_NULL by { HeaderPathIsNoNull(lines[i], "+++ ", shlex); }
      seen := seen + {path};
      files := files + [path];
    }
  }

  lemma HeaderPathIsNoNull(line: string, prefix: string, shlex: ShellSplit)
    ensures HeaderPath(line, prefix, shlex) != DEV_NULL
  {
  }

  /** The inner loops of `iter_patch_paths`: list what is new among these paths. */
  method ListNew(files: seq<string>, seen: set<string>, more: seq<string>)
    returns (listed: seq<string>, seenNow: set<string>)
    requires forall p :: p in seen <==> p in files
    ensures listed == PushAll(files, more, |more|)
    ensures forall p :: p in seenNow <==> p in listed
  {
    listed, seenNow := files, seen;
    for j := 0 to |more|
      invariant listed == PushAll(files, more, j)
      invariant forall p :: p in seenNow <==> p in listed
    {
      var path := more[j];
      if path == "" || path == DEV_NULL || path in seenNow { continue; }
      seenNow := seenNow + {path};
      listed := listed + [path];
    }
  }

  /** `iter_patch_paths`. */
  method IterPatchPaths(patch: string, shlex: ShellSplit) returns (paths: seq<string>)
    ensures paths == AllPatchPaths(patch, shlex)
  {
    hide ParseDiffGitLine, HeaderPath, SplitLines, PushAll, PathsAfter;
    var lines := SplitLines(patch);
    var seen: set<string>, sawDiffHeader := {}, false;
    paths := [];
    for i := 0 to |lines|
      invariant paths == BothSidesOf(lines, i, shlex)
      invariant forall p :: p in seen <==> p in paths
      invariant sawDiffHeader <==> HasHeader(lines, i, shlex)
    {
      var pair := ParseDiffGitLine(lines[i], shlex);
      if pair.None? { continue; }
      sawDiffHeader := true;
      paths, seen := ListNew(paths, seen, [pair.value.0, pair.value.1]);
    }
    if sawDiffHeader { return; }
    seen, paths := {}, [];
    for i := 0 to |lines|
      invariant paths == HeaderPaths(lines, i, shlex)
      invariant forall p :: p in seen <==> p in paths
    {
      paths, seen := ListNew(paths, seen, PathsAfter(lines[i], ["--- ", "+++ "], shlex));
    }
  }

  // ------------------------------------------------------ what is extracted

  /** The header of a change of path x into path y. */
  function HeaderOf(x: string, y: string): string {
    "diff --git a/" + x + " b/" + y
  }

  /** A path that is read back as it stands: it ends solid, and holds no " b/" itself. */
  predicate Plain(path: string) {
    path != "" && !IsSpace(path[|path| - 1]) && forall i | 0 <= i < |path| :: !SeparatorAt(path, i)
  }

  lemma SideIsPath(side: string, path: string, shlex: ShellSplit)
    requires path != "" && !IsSpace(path[|path| - 1]) && (side == "a/" + path || side == "b/" + path)
    ensures NormalizeGitPath(side, shlex) == path
  {
    assert side[0] == 'a' || side[0] == 'b';
    assert side[|side| - 1] == path[|path| - 1] && side[2..] == path;
    assert side[..2] == "a/" || side[..2] == "b/";
    hide LStrip, RStrip, Strip;
    StripOfSolid(side);
    hide IsSpace;
  }

  /** What a header says after its first words. */
  function SidesOf(x: string, y: string): string {
    "a/" + x + " b/" + y
  }

  lemma HeaderParts(x: string, y: string)
    ensures StartsWith(HeaderOf(x, y), DIFF_GIT) && HeaderOf(x, y)[|DIFF_GIT|..] == SidesOf(x, y)
  {
    assert "diff --git a/" == DIFF_GIT + "a/";
    assert HeaderOf(x, y) == DIFF_GIT + SidesOf(x, y);
    PrefixGoes(DIFF_GIT, SidesOf(x, y));
  }

  lemma PrefixGoes(prefix: string, rest: string)
    ensures StartsWith(prefix + rest, prefix) && (prefix + rest)[|prefix|..] == rest
  {
  }

  lemma SidesParts(x: string, y: string)
    ensures
      var payload := SidesOf(x, y);
      && StartsWith(payload, "a/") && payload[..|x| + 2] == "a/" + x && payload[|x| + 3..] == "b/" + y
      && SeparatorAt(payload, |x| + 2) && |payload| == |x| + |y| + 5
      && !SeparatorAt(payload, |x| + 3) && !SeparatorAt(payload, |x| + 4)
      && forall j | 0 <= j < |y| :: payload[|x| + 5 + j] == y[j]
  {
    var payload := SidesOf(x, y);
    assert payload[0] == 'a' && payload[1] == '/';
    assert payload[|x| + 2] == ' ' && payload[|x| + 3] == 'b' && payload[|x| + 4] == '/';
  }

  lemma SidesAreSolid(x: string, y: string)
    requires y != "" && !IsSpace(y[|y| - 1])
    ensures Strip(SidesOf(x, y)) == SidesOf(x, y)
  {
    var payload := SidesOf(x, y);
    assert payload[|payload| - 1] == y[|y| - 1] && payload[0] == 'a';
    hide LStrip, RStrip, Strip;
    StripOfSolid(payload);
  }

  lemma SeparatorMoves(x: string, y: string, j: nat)
    requires j < |y|
    ensures SeparatorAt(SidesOf(x, y), |x| + 5 + j) == SeparatorAt(y, j)
  {
    hide SidesOf;
    SidesParts(x, y);
    var payload, i := SidesOf(x, y), |x| + 5 + j;
    assert payload[i] == y[j];
    assert j + 1 < |y| ==> payload[i + 1] == y[j + 1];
    assert j + 2 < |y| ==> payload[i + 2] == y[j + 2];
  }

  /** The separator the header has between the sides is the last one in it. */
  lemma SeparatorIsBetween(x: string, y: string)
    requires Plain(y)
    ensures LastSeparator(SidesOf(x, y), |SidesOf(x, y)|) == |x| + 2
  {
    hide SidesOf, LastSeparator, IsSpace, SeparatorAt;
    var last := LastSeparator(SidesOf(x, y), |SidesOf(x, y)|);
    SidesParts(x, y);
    forall i | |x| + 5 <= i < |SidesOf(x, y)| ensures !SeparatorAt(SidesOf(x, y), i) {
      SeparatorMoves(x, y, i - |x| - 5);
    }
  }

  /** A header names the old path first and the new one second, also when they differ, as
      in a rename. */
  lemma BothSidesAreRead(x: string, y: string, shlex: ShellSplit)
    requires Plain(x) && Plain(y)
    ensures ParseDiffGitLine(HeaderOf(x, y), shlex) == Some((x, y))
  {
    hide NormalizeGitPath, LastSeparator, Strip, HeaderOf, SidesOf, SeparatorAt, IsSpace;
    var payload := SidesOf(x, y);
    HeaderParts(x, y);
    SidesParts(x, y);
    SidesAreSolid(x, y);
    SeparatorIsBetween(x, y);
    SideIsPath(payload[..|x| + 2], x, shlex);
    SideIsPath(payload[|x| + 3..], y, shlex);
  }

  ghost predicate Targets(line: string, path: string, shlex: ShellSplit) {
    exists source: string :: ParseDiffGitLine(line, shlex) == Some((source, path))
  }

  ghost predicate Distinct(files: seq<string>) {
    forall i, j | 0 <= i < j < |files| :: files[i] != files[j]
  }

  lemma {:induction false} TargetsListed(lines: seq<string>, n: nat, shlex: ShellSplit, path: string)
    requires n <= |lines|
    ensures
      var files := TargetsOf(lines, n, shlex);
      && Distinct(files)
      && (path in files <==>
            path != "" && path != "/dev/null" && exists i | 0 <= i < n :: Targets(lines[i], path, shlex))
  {
    hide ParseDiffGitLine;
    if n > 0 {
      TargetsListed(lines, n - 1, shlex, path);
      var pair := ParseDiffGitLine(lines[n - 1], shlex);
      assert Targets(lines[n - 1], path, shlex) <==> pair.Some? && pair.value.1 == path by {
        if pair.Some? && pair.value.1 == path { assert pair == Some((pair.value.0, path)); }
      }
      hide Targets;
    }
  }

  /** Of a patch with headers, the changed files are exactly the new paths its headers name,
      each once, without the null path. */
  lemma ChangedExactlyWhen(patch: string, shlex: ShellSplit, path: string)
    requires exists i | 0 <= i < |SplitLines(patch)| :: ParseDiffGitLine(SplitLines(patch)[i], shlex).Some?
    ensures
      var lines := SplitLines(patch);
      && Distinct(ChangedFiles(patch, shlex))
      && (path in ChangedFiles(patch, shlex) <==>
            path != "" && path != "/dev/null" && exists i | 0 <= i < |lines| :: Targets(lines[i], path, shlex))
  {
    hide ParseDiffGitLine, SplitLines, TargetsOf, Targets;
    TargetsListed(SplitLines(patch), |SplitLines(patch)|, shlex, path);
  }

  /** A header of the line names this path on one of its sides. */
  ghost predicate Names(line: string, path: string, shlex: ShellSplit) {
    exists other: string ::
      || ParseDiffGitLine(line, shlex) == Some((other, path))
      || ParseDiffGitLine(line, shlex) == Some((path, other))
  }

  lemma NamesDecided(line: string, path: string, shlex: ShellSplit)
    ensures
      var pair := ParseDiffGitLine(line, shlex);
      Names(line, path, shlex) <==> pair.Some? && (pair.value.0 == path || pair.value.1 == path)
  {
    hide ParseDiffGitLine;
    var pair := ParseDiffGitLine(line, shlex);
    if pair.Some? && pair.value.0 == path { assert pair == Some((path, pair.value.1)); }
    if pair.Some? && pair.value.1 == path { assert pair == Some((pair.value.0, path)); }
  }

  lemma PushTwo(files: seq<string>, a: string, b: string)
    ensures PushAll(files, [a, b], 2) == Push(Push(files, a), b)
  {
    assert PushAll(files, [a, b], 1) == Push(files, a);
  }

  lemma PushListed(files: seq<string>, added: string, path: string)
    requires Distinct(files)
    ensures Distinct(Push(files, added))
    ensures path in Push(files, added) <==> path in files || (path == added != "" && path != "/dev/null")
  {
  }

  lemma {:induction false} SidesListed(lines: seq<string>, n: nat, shlex: ShellSplit, path: string)
    requires n <= |lines|
    ensures
      var files := BothSidesOf(lines, n, shlex);
      && Distinct(files)
      && (path in files <==>
            path != "" && path != "/dev/null" && exists i | 0 <= i < n :: Names(lines[i], path, shlex))
  {
    hide ParseDiffGitLine, Push, PushAll, Names, Distinct;
    if n == 0 {
      NothingRepeats();
    } else {
      SidesListed(lines, n - 1, shlex, path);
      var pair := ParseDiffGitLine(lines[n - 1], shlex);
      NamesDecided(lines[n - 1], path, shlex);
      if pair.Some? {
        var before := BothSidesOf(lines, n - 1, shlex);
        PushTwo(before, pair.value.0, pair.value.1);
        PushListed(before, pair.value.0, path);
        PushListed(Push(before, pair.value.0), pair.value.1, path);
      }
    }
  }

  lemma NothingRepeats()
    ensures Distinct([])
  {
  }

  /** Of a patch with headers, all paths are exactly those its headers name on either side,
      each once, without the null path. */
  lemma ListedExactlyWhen(patch: string, shlex: ShellSplit, path: string)
    requires exists i | 0 <= i < |SplitLines(patch)| :: ParseDiffGitLine(SplitLines(patch)[i], shlex).Some?
    ensures
      var lines := SplitLines(patch);
      && Distinct(AllPatchPaths(patch, shlex))
      && (path in AllPatchPaths(patch, shlex) <==>
            path != "" && path != "/dev/null" && exists i | 0 <= i < |lines| :: Names(lines[i], path, shlex))
  {
    hide ParseDiffGitLine, SplitLines, BothSidesOf, Names;
    SidesListed(SplitLines(patch), |SplitLines(patch)|, shlex, path);
  }

  /** Without headers, the changed files are the paths of the lines that start with
      "+++ ", and all paths those of the lines that start with "--- " or "+++ ". */
  lemma {:induction false} HeaderlessListed(lines: seq<string>, n: nat, shlex: ShellSplit, path: string)
    requires n <= |lines| && path != "" && path != "/dev/null"
    ensures Distinct(PlusPaths(lines, n, shlex)) && Distinct(HeaderPaths(lines, n, shlex))
    ensures path in PlusPaths(lines, n, shlex) <==> exists i | 0 <= i < n :: HeaderPath(lines[i], "+++ ", shlex) == path
    ensures path in HeaderPaths(lines, n, shlex) <==>
      exists i | 0 <= i < n :: HeaderPath(lines[i], "--- ", shlex) == path || HeaderPath(lines[i], "+++ ", shlex) == path
  {
    hide HeaderPath, Push, PushAll, Distinct;
    if n == 0 {
      NothingRepeats();
    } else {
      HeaderlessListed(lines, n - 1, shlex, path);
      var minus, plus := HeaderPath(lines[n - 1], "--- ", shlex), HeaderPath(lines[n - 1], "+++ ", shlex);
      assert PathsAfter(lines[n - 1], ["--- ", "+++ "], shlex) == [minus, plus];
      var before := HeaderPaths(lines, n - 1, shlex);
      PushTwo(before, minus, plus);
      PushListed(before, minus, path);
      PushListed(Push(before, minus), plus, path);
      PushListed(PlusPaths(lines, n - 1, shlex), plus, path);
    }
  }

  lemma OneHeaderListed(line: string, x: string, y: string, shlex: ShellSplit)
    requires ParseDiffGitLine(line, shlex) == Some((x, y)) && Listable(x) && Listable(y) && x != y
    ensures HasHeader([line], 1, shlex) && TargetsOf([line], 1, shlex) == [y] && BothSidesOf([line], 1, shlex) == [x, y]
  {
    hide ParseDiffGitLine, PushAll, Push, Listable;
    assert TargetsOf([line], 0, shlex) == [] && BothSidesOf([line], 0, shlex) == [];
    assert [line][0] == line;
    PushTwo([], x, y);
    PushNew([], x);
    PushNew([x], y);
    PushNew([], y);
    assert [] + [x] == [x] && [] + [y] == [y] && [x] + [y] == [x, y];
    assert BothSidesOf([line], 1, shlex) == PushAll([], [x, y], 2);
  }

  predicate Listable(path: string) {
    path != "" && path != "/dev/null"
  }

  lemma PushNew(files: seq<string>, path: string)
    requires Listable(path) && path !in files
    ensures Push(files, path) == files + [path]
  {
  }

  /** A rename alone: its new path has changed, and both are listed, the old one first. */
  lemma RenameIsListed(x: string, y: string, shlex: ShellSplit)
    requires Plain(x) && Plain(y) && x != y && x != "/dev/null" && y != "/dev/null"
    requires forall i | 0 <= i < |HeaderOf(x, y)| :: !IsLineBreak(HeaderOf(x, y)[i])
    ensures ChangedFiles(HeaderOf(x, y), shlex) == [y] && AllPatchPaths(HeaderOf(x, y), shlex) == [x, y]
  {
    var header := HeaderOf(x, y);
    assert header != "" && Listable(x) && Listable(y);
    hide ParseDiffGitLine, HeaderOf, SplitLines, IsLineBreak, HasHeader, TargetsOf, BothSidesOf, Plain, Listable;
    BothSidesAreRead(x, y, shlex);
    WholeLine(header);
    OneHeaderListed(header, x, y, shlex);
  }

  lemma WholeLine(s: string)
    requires s != "" && forall i | 0 <= i < |s| :: !IsLineBreak(s[i])
    ensures SplitLines(s) == [s]
  {
    hide IsLineBreak;
  }
}
