/** The NUL-separated name-status listing of Git and the paths it carries. Bytes
    that are not UTF-8 are taken as already decoded to characters. */
module NameStatus {
  import opened Prelude
  import opened PyText

  const NUL: char := '\0'
  const STATUS_LETTERS := "ACDMRTUXB"
  const MAX_PATH_CHARS := 1024

  datatype PathChange = PathChange(status: string, paths: seq<string>)

  datatype Listing = Listing(changes: seq<PathChange>, dropped: nat, capped: bool)

  // ------------------------------------------------------------ repository paths

  predicate IsControl(c: char) {
    c as int < 0x20 || c as int == 0x7F
  }

  predicate IsLetter(c: char) {
    'A' <= c <= 'Z' || 'a' <= c <= 'z'
  }

  function Parts(path: string): (parts: seq<string>)
    ensures forall p <- parts :: p != "" && p != "." && '/' !in p
  {
    Meaningful(Split(path, '/'))
  }

  function Meaningful(pieces: seq<string>): (parts: seq<string>)
    ensures forall p <- parts :: p in pieces && p != "" && p != "."
  {
    if |pieces| == 0 then []
    else
      var rest := Meaningful(pieces[1..]);
      if pieces[0] == "" || pieces[0] == "." then rest else [pieces[0]] + rest
  }

  predicate Refused(path: string) {
    || path == "" || |path| > MAX_PATH_CHARS || (exists c <- path :: IsControl(c))
    || '\\' in path || '\U{FFFD}' in path || path[0] == '/'
    || (|path| >= 2 && IsLetter(path[0]) && path[1] == ':')
  }

  /** `_normalize_repo_path`; `outside` holds the directories that resolve, through
      links, to a place outside the workspace. The workspace itself is no file path. */
  function NormalizeRepoPath(path: string, outside: set<seq<string>>): Option<string> {
    if Refused(path) then None
    else
      var parts := Parts(path);
      if ".." in parts || |parts| == 0 || parts[..|parts| - 1] in outside then None
      else Some(Join(parts, '/'))
  }

  lemma {:induction false} MeaningfulKeepsAll(pieces: seq<string>)
    requires forall i | 0 <= i < |pieces| :: pieces[i] != "" && pieces[i] != "."
    ensures Meaningful(pieces) == pieces
  {
    if |pieces| > 0 {
      MeaningfulKeepsAll(pieces[1..]);
      assert [pieces[0]] + pieces[1..] == pieces;
    }
  }

  /** Leaving pieces out never adds a character. */
  lemma {:induction false} JoinedShrinks(pieces: seq<string>)
    ensures |Join(Meaningful(pieces), '/')| <= |Join(pieces, '/')|
    ensures forall c <- Join(Meaningful(pieces), '/') :: c in Join(pieces, '/')
  {
    if |pieces| > 0 {
      JoinedShrinks(pieces[1..]);
      if |pieces| == 1 { assert pieces[1..] == []; }
      if pieces[0] != "" && pieces[0] != "." {
        assert Meaningful(pieces)[1..] == Meaningful(pieces[1..]);
      }
    }
  }

  lemma {:induction false} JoinSplit(s: string, sep: char)
    ensures Join(Split(s, sep), sep) == s
  {
    if s != [] {
      JoinSplit(s[1..], sep);
      var rest := Split(s[1..], sep);
      if s[0] != sep {
        assert ([[s[0]] + rest[0]] + rest[1..])[1..] == rest[1..];
      }
    }
  }

  /** An accepted path is relative, has no empty, `.` or `..` part, and normalizing it
      again changes nothing, except when leaving out a leading `./` has brought a
      drive-like prefix to the front: that path is then refused. */
  lemma NormalizedPathIsStable(path: string, outside: set<seq<string>>)
    requires NormalizeRepoPath(path, outside).Some?
    ensures
      var p := NormalizeRepoPath(path, outside).value;
      && p != "" && p[0] != '/' && |p| <= MAX_PATH_CHARS
      && Parts(p) == Split(p, '/') && ".." !in Parts(p)
      && (forall c <- p :: !IsControl(c) && c != '\\')
      && (NormalizeRepoPath(p, outside) == Some(p) <==> !(|p| >= 2 && IsLetter(p[0]) && p[1] == ':'))
  {
    var parts := Parts(path);
    var p := Join(parts, '/');
    JoinSplit(path, '/');
    JoinedShrinks(Split(path, '/'));
    SplitJoin(parts, '/');
    assert forall i | 0 <= i < |parts| :: parts[i] in parts;
    MeaningfulKeepsAll(parts);
  }

  /** A path Git prints for a file inside the workspace is accepted as it stands. */
  lemma PlainPathIsKept(parts: seq<string>, outside: set<seq<string>>)
    requires |parts| > 0 && parts[..|parts| - 1] !in outside
    requires forall i | 0 <= i < |parts| :: parts[i] != "" && parts[i] != "." && parts[i] != ".." && '/' !in parts[i]
    requires
      var path := Join(parts, '/');
      && |path| <= MAX_PATH_CHARS && (forall c <- path :: !IsControl(c) && c != '\\' && c != '\U{FFFD}')
      && !(|path| >= 2 && IsLetter(path[0]) && path[1] == ':')
    ensures NormalizeRepoPath(Join(parts, '/'), outside) == Some(Join(parts, '/'))
  {
    SplitJoin(parts, '/');
    MeaningfulKeepsAll(parts);
    JoinStartsWithFirst(parts);
  }

  lemma JoinStartsWithFirst(parts: seq<string>)
    requires |parts| > 0 && parts[0] != "" && '/' !in parts[0]
    ensures Join(parts, '/') != "" && Join(parts, '/')[0] != '/'
  {
    assert Join(parts, '/')[0] == parts[0][0];
  }

  /** A path that is nothing but text, relative, and not on a drive. */
  ghost predicate Acceptable(path: string) {
    && path != "" && |path| <= 1024 && path[0] != '/'
    && (forall i | 0 <= i < |path| ::
          path[i] as int >= 0x20 && path[i] as int != 0x7F && path[i] as int != 0xFFFD && path[i] != '\\')
    && !(|path| > 1 && path[1] == ':' && ('a' <= path[0] <= 'z' || 'A' <= path[0] <= 'Z'))
  }

  lemma AcceptableIsNotRefused(path: string)
    ensures Acceptable(path) <==> !Refused(path)
  {
    assert forall i | 0 <= i < |path| :: path[i] in path;
    assert '\\' in path <==> exists i | 0 <= i < |path| :: path[i] == '\\';
    assert '\U{FFFD}' in path <==> exists i | 0 <= i < |path| :: path[i] as int == 0xFFFD;
    assert (exists c <- path :: IsControl(c)) <==> exists i | 0 <= i < |path| :: IsControl(path[i]);
  }

  lemma {:induction false} MeaningfulAre(pieces: seq<string>, piece: string)
    ensures piece in Meaningful(pieces) <==> piece in pieces && piece != "" && piece != "."
  {
    if |pieces| > 0 { MeaningfulAre(pieces[1..], piece); }
  }

  lemma {:induction false} MeaningfulConcat(a: seq<string>, b: seq<string>)
    ensures Meaningful(a + b) == Meaningful(a) + Meaningful(b)
  {
    if a == [] {
      assert a + b == b;
    } else {
      MeaningfulConcat(a[1..], b);
      assert (a + b)[1..] == a[1..] + b;
    }
  }

  /** Which paths are accepted: acceptable text with a name between its slashes, none of
      them "..", in a directory that does not resolve to a place outside. The answer leaves
      out empty pieces and ".". */
  lemma PathAcceptedExactlyWhen(path: string, outside: set<seq<string>>)
    ensures
      var pieces, r := Split(path, '/'), NormalizeRepoPath(path, outside);
      && (r.Some? <==>
            && Acceptable(path) && ".." !in pieces
            && (exists piece :: piece in pieces && piece != "" && piece != ".")
            && (|Parts(path)| > 0 ==> Parts(path)[..|Parts(path)| - 1] !in outside))
      && (r.Some? ==> r.value == Join(Parts(path), '/'))
      && (forall piece :: piece in Parts(path) <==> piece in pieces && piece != "" && piece != ".")
  {
    hide Acceptable, Refused, Join;
    AcceptableIsNotRefused(path);
    forall piece ensures piece in Parts(path) <==> piece in Split(path, '/') && piece != "" && piece != "." {
      MeaningfulAre(Split(path, '/'), piece);
    }
    if |Parts(path)| > 0 { assert Parts(path)[0] in Parts(path); }
  }

  // ------------------------------------------------------------ the listing

  predicate IsStatus(status: string) {
    status != "" && status[0] in STATUS_LETTERS
  }

  predicate Renames(status: string) {
    status != "" && (status[0] == 'R' || status[0] == 'C')
  }

  /** The letters of a status, and those that carry a second path. */
  lemma StatusDecided(status: string)
    ensures IsStatus(status) <==>
      status != "" && (status[0] == 'A' || status[0] == 'C' || status[0] == 'D' || status[0] == 'M' || status[0] == 'R'
                       || status[0] == 'T' || status[0] == 'U' || status[0] == 'X' || status[0] == 'B')
    ensures Renames(status) <==> status != "" && (status[0] == 'R' || status[0] == 'C')
  {
    var c := if status != "" then status[0] else ' ';
    assert c in STATUS_LETTERS <==> c == 'A' || c == 'C' || c == 'D' || c == 'M' || c == 'R' || c == 'T' || c == 'U'
                                    || c == 'X' || c == 'B' by {
      assert STATUS_LETTERS == ['A', 'C', 'D', 'M', 'R', 'T', 'U', 'X', 'B'];
    }
  }

  /** One turn of the loop: the entry at `index`, if there is one, and the index
      after the tokens it takes. */
  datatype Turn = Nothing | Entry(status: string, rawPaths: seq<string>)

  function StatusOf(token: string): string {
    Strip(token[..Find(token, '\t')])
  }

  /** The path on the status token itself, after a tab; empty for none. */
  function InlineOf(token: string): string {
    var tab := Find(token, '\t');
    if tab < |token| then token[tab + 1..] else ""
  }

  /** The paths of an entry whose status token stands before index, and the index
      after them. */
  function TakePaths(tokens: seq<string>, index: nat, inline: string, renames: bool): (r: (seq<string>, nat))
    requires index <= |tokens|
    ensures index <= r.1 <= |tokens|
  {
    var (first, next) :=
      if inline != "" then ([inline], index)
      else if index < |tokens| then ([tokens[index]], index + 1)
      else ([], index);
    if renames && next < |tokens| then (first + [tokens[next]], next + 1) else (first, next)
  }

  function TakeTurn(tokens: seq<string>, index: nat): (r: (Turn, nat))
    requires index < |tokens|
    ensures index < r.1 <= |tokens|
  {
    var token := tokens[index];
    var status := StatusOf(token);
    if token == "" || !IsStatus(status) then (Nothing, index + 1)
    else
      var (paths, next) := TakePaths(tokens, index + 1, InlineOf(token), Renames(status));
      (Entry(status, paths), next)
  }

  predicate Safe(paths: seq<string>, outside: set<seq<string>>) {
    forall i | 0 <= i < |paths| :: NormalizeRepoPath(paths[i], outside).Some?
  }

  function Normalized(paths: seq<string>, outside: set<seq<string>>): seq<string>
    requires Safe(paths, outside)
  {
    seq(|paths|, i requires 0 <= i < |paths| => NormalizeRepoPath(paths[i], outside).value)
  }

  /** The loop from `index` on: a change is listed only when all its paths are
      safe, and listing the last allowed one stops the loop. */
  function ParseFrom(tokens: seq<string>, index: nat, listed: seq<PathChange>, dropped: nat,
                     maxChanges: int, outside: set<seq<string>>): Listing
    requires index <= |tokens|
    decreases |tokens| - index
  {
    if index == |tokens| then Listing(listed, dropped, false)
    else
      var (turn, next) := TakeTurn(tokens, index);
      if turn.Nothing? || |turn.rawPaths| == 0 then ParseFrom(tokens, next, listed, dropped, maxChanges, outside)
      else if !Safe(turn.rawPaths, outside) then
        ParseFrom(tokens, next, listed, dropped + 1, maxChanges, outside)
      else
        var listed' := listed + [PathChange(turn.status, Normalized(turn.rawPaths, outside))];
        if |listed'| >= maxChanges then Listing(listed', dropped, next < |tokens| - 1)
        else ParseFrom(tokens, next, listed', dropped, maxChanges, outside)
  }

  method ReadEntry(tokens: seq<string>, index: nat) returns (turn: Turn, next: nat)
    requires index < |tokens|
    ensures (turn, next) == TakeTurn(tokens, index)
  {
    hide StatusOf, InlineOf, IsStatus, Renames, TakePaths;
    var token := tokens[index];
    next := index + 1;
    if token == "" { return Nothing, next; }
    var inline := InlineOf(token);
    var status := StatusOf(token);
    if !IsStatus(status) { return Nothing, next; }
    var rawPaths: seq<string>;
    rawPaths, next := ReadPaths(tokens, next, inline, Renames(status));
    turn := Entry(status, rawPaths);
  }

  /** The part of a turn that takes the paths. */
  method ReadPaths(tokens: seq<string>, index: nat, inline: string, renames: bool)
    returns (rawPaths: seq<string>, next: nat)
    requires index <= |tokens|
    ensures (rawPaths, next) == TakePaths(tokens, index, inline, renames)
  {
    rawPaths, next := [], index;
    if inline != "" {
      rawPaths := [inline];
    } else if next < |tokens| {
      rawPaths := [tokens[next]];
      next := next + 1;
    }
    if renames && next < |tokens| {
      rawPaths := rawPaths + [tokens[next]];
      next := next + 1;
    }
  }

  method ParseNameStatus(raw: string, maxChanges: int, outside: set<seq<string>>)
    returns (r: Listing)
    ensures r == ParseFrom(Split(raw, NUL), 0, [], 0, maxChanges, outside)
  {
    hide TakeTurn, NormalizeRepoPath, Split;
    var tokens := Split(raw, NUL);
    var changes: seq<PathChange> := [];
    var dropped: nat := 0;
    var index := 0;
    while index < |tokens|
      invariant 0 <= index <= |tokens|
      invariant ParseFrom(tokens, 0, [], 0, maxChanges, outside)
             == ParseFrom(tokens, index, changes, dropped, maxChanges, outside)
    {
      var turn, next := ReadEntry(tokens, index);
      index := next;
      if turn.Nothing? { continue; }
      var safePaths, unsafe := NormalizeAll(turn.rawPaths, outside);
      if unsafe {
        dropped := dropped + 1;
      } else if |safePaths| > 0 {
        changes := changes + [PathChange(turn.status, safePaths)];
        if |changes| >= maxChanges {
          return Listing(changes, dropped, index < |tokens| - 1);
        }
      }
    }
    r := Listing(changes, dropped, false);
  }

  /** Normalizes the paths of one entry until one is refused. */
  method NormalizeAll(rawPaths: seq<string>, outside: set<seq<string>>)
    returns (safePaths: seq<string>, unsafe: bool)
    ensures unsafe <==> !Safe(rawPaths, outside)
    ensures !unsafe ==> safePaths == Normalized(rawPaths, outside)
  {
    safePaths, unsafe := [], false;
    for i := 0 to |rawPaths|
      invariant !unsafe && Safe(rawPaths[..i], outside)
      invariant safePaths == Normalized(rawPaths[..i], outside)
    {
      var path := NormalizeRepoPath(rawPaths[i], outside);
      if path.None? { return safePaths, true; }
      safePaths := safePaths + [path.value];
      assert forall j | 0 <= j < i :: rawPaths[..i + 1][j] == rawPaths[..i][j];
    }
    assert rawPaths[..|rawPaths|] == rawPaths;
  }

  // --------------------------------------------------------------- round trip

  datatype ListedEntry = ListedEntry(status: string, paths: seq<string>)

  /** An entry as Git prints it: a status without blanks around it, one path or, for
      a rename or copy, two. Paths are arbitrary text without NUL. */
  predicate WellFormed(e: ListedEntry) {
    && IsStatus(e.status) && Strip(e.status) == e.status
    && NUL !in e.status && '\t' !in e.status
    && |e.paths| == (if Renames(e.status) then 2 else 1)
    && forall i | 0 <= i < |e.paths| :: NUL !in e.paths[i]
  }

  function Terminated(pieces: seq<string>): string {
    if |pieces| == 0 then "" else pieces[0] + [NUL] + Terminated(pieces[1..])
  }

  function Render(entries: seq<ListedEntry>): string {
    if |entries| == 0 then ""
    else Terminated([entries[0].status] + entries[0].paths) + Render(entries[1..])
  }

  /** The tokens of a listing; the last NUL leaves an empty one behind. */
  function TokensOf(entries: seq<ListedEntry>): seq<string> {
    if |entries| == 0 then [""]
    else [entries[0].status] + entries[0].paths + TokensOf(entries[1..])
  }

  lemma {:induction false} RenderedTokens(entries: seq<ListedEntry>)
    requires forall i | 0 <= i < |entries| :: WellFormed(entries[i])
    ensures Split(Render(entries), NUL) == TokensOf(entries)
  {
    if |entries| > 0 {
      var e, rest := entries[0], entries[1..];
      RenderedTokens(rest);
      var pieces := [e.status] + e.paths;
      assert forall i | 0 < i < |pieces| :: pieces[i] == e.paths[i - 1];
      TerminatedTokens(pieces, Render(rest));
    }
  }

  lemma {:induction false} TerminatedTokens(pieces: seq<string>, after: string)
    requires forall i | 0 <= i < |pieces| :: NUL !in pieces[i]
    ensures Split(Terminated(pieces) + after, NUL) == pieces + Split(after, NUL)
  {
    if |pieces| == 0 {
      assert "" + after == after;
    } else {
      TerminatedTokens(pieces[1..], after);
      var tail := Terminated(pieces[1..]) + after;
      assert Terminated(pieces) + after == pieces[0] + [NUL] + tail;
      SplitAtSeparator(pieces[0], NUL, tail);
      assert [pieces[0]] + pieces[1..] == pieces;
    }
  }

  lemma EntryTakesItsTokens(tokens: seq<string>, index: nat, e: ListedEntry, after: seq<string>)
    requires WellFormed(e) && index <= |tokens| && tokens[index..] == [e.status] + e.paths + after
    ensures |e.paths| > 0 && |tokens| - |after| == index + 1 + |e.paths|
    ensures TakeTurn(tokens, index) == (Entry(e.status, e.paths), index + 1 + |e.paths|)
    ensures tokens[index + 1 + |e.paths|..] == after
  {
    var from := tokens[index..];
    assert e.status[..|e.status|] == e.status;
    assert tokens[index] == from[0] == e.status && tokens[index + 1] == from[1] == e.paths[0];
    if Renames(e.status) {
      assert tokens[index + 2] == from[2] == e.paths[1];
      assert [e.paths[0]] + [e.paths[1]] == e.paths;
    } else {
      assert [e.paths[0]] == e.paths;
    }
    assert tokens[index + 1 + |e.paths|..] == from[1 + |e.paths|..] == after;
  }

  predicate Lists(e: ListedEntry, outside: set<seq<string>>) {
    Safe(e.paths, outside)
  }

  /** How many entries are read before the cap stops the loop. */
  function Consumed(entries: seq<ListedEntry>, room: int, outside: set<seq<string>>): (n: nat)
    ensures n <= |entries|
  {
    if |entries| == 0 then 0
    else if !Lists(entries[0], outside) then 1 + Consumed(entries[1..], room, outside)
    else if room <= 1 then 1
    else 1 + Consumed(entries[1..], room - 1, outside)
  }

  function Kept(entries: seq<ListedEntry>, outside: set<seq<string>>): seq<PathChange> {
    if |entries| == 0 then []
    else
      (if Lists(entries[0], outside)
       then [PathChange(entries[0].status, Normalized(entries[0].paths, outside))] else [])
      + Kept(entries[1..], outside)
  }

  function Unsafe(entries: seq<ListedEntry>, outside: set<seq<string>>): nat {
    if |entries| == 0 then 0
    else (if Lists(entries[0], outside) then 0 else 1) + Unsafe(entries[1..], outside)
  }

  lemma ParseOneEntry(tokens: seq<string>, index: nat, e: ListedEntry, after: seq<string>,
                      listed: seq<PathChange>, dropped: nat, maxChanges: int, outside: set<seq<string>>)
    requires WellFormed(e) && index <= |tokens| && tokens[index..] == [e.status] + e.paths + after
    ensures index + 1 + |e.paths| <= |tokens| && tokens[index + 1 + |e.paths|..] == after
    ensures
      var next := index + 1 + |e.paths|;
      var r := ParseFrom(tokens, index, listed, dropped, maxChanges, outside);
      if !Lists(e, outside) then r == ParseFrom(tokens, next, listed, dropped + 1, maxChanges, outside)
      else
        var listed' := listed + [PathChange(e.status, Normalized(e.paths, outside))];
        r == if |listed| + 1 >= maxChanges then Listing(listed', dropped, |after| > 1)
             else ParseFrom(tokens, next, listed', dropped, maxChanges, outside)
  {
    hide WellFormed, TakeTurn, ParseFrom, NormalizeRepoPath;
    EntryTakesItsTokens(tokens, index, e, after);
    ParseOneTurn(tokens, index, e.status, e.paths, listed, dropped, maxChanges, outside);
  }

  lemma ParseOneTurn(tokens: seq<string>, index: nat, status: string, paths: seq<string>,
                     listed: seq<PathChange>, dropped: nat, maxChanges: int, outside: set<seq<string>>)
    requires index < |tokens| && TakeTurn(tokens, index).0 == Entry(status, paths) && |paths| > 0
    ensures
      var next := TakeTurn(tokens, index).1;
      var r := ParseFrom(tokens, index, listed, dropped, maxChanges, outside);
      if !Safe(paths, outside) then r == ParseFrom(tokens, next, listed, dropped + 1, maxChanges, outside)
      else
        var listed' := listed + [PathChange(status, Normalized(paths, outside))];
        r == if |listed| + 1 >= maxChanges then Listing(listed', dropped, next < |tokens| - 1)
             else ParseFrom(tokens, next, listed', dropped, maxChanges, outside)
  {
    hide TakeTurn, Safe, Normalized;
  }

  /** The listing entry by entry. */
  function ListFrom(entries: seq<ListedEntry>, listed: seq<PathChange>, dropped: nat,
                    maxChanges: int, outside: set<seq<string>>): Listing
    decreases |entries|
  {
    if |entries| == 0 then Listing(listed, dropped, false)
    else
      var e, rest := entries[0], entries[1..];
      if !Lists(e, outside) then ListFrom(rest, listed, dropped + 1, maxChanges, outside)
      else
        var listed' := listed + [PathChange(e.status, Normalized(e.paths, outside))];
        if |listed| + 1 >= maxChanges then Listing(listed', dropped, |rest| > 0)
        else ListFrom(rest, listed', dropped, maxChanges, outside)
  }

  lemma {:induction false} ParseFromEntries(tokens: seq<string>, index: nat, entries: seq<ListedEntry>,
                                            listed: seq<PathChange>, dropped: nat,
                                            maxChanges: int, outside: set<seq<string>>)
    requires forall i | 0 <= i < |entries| :: WellFormed(entries[i])
    requires index <= |tokens| && tokens[index..] == TokensOf(entries)
    ensures ParseFrom(tokens, index, listed, dropped, maxChanges, outside)
         == ListFrom(entries, listed, dropped, maxChanges, outside)
    decreases |entries|
  {
    hide *;
    if |entries| == 0 {
      ParseNoEntries(tokens, index, entries, listed, dropped, maxChanges, outside);
    } else {
      var e, rest := entries[0], entries[1..];
      ListOneEntry(entries, listed, dropped, maxChanges, outside);
      ParseOneEntry(tokens, index, e, TokensOf(rest), listed, dropped, maxChanges, outside);
      var next := index + 1 + |e.paths|;
      if !Lists(e, outside) {
        ParseFromEntries(tokens, next, rest, listed, dropped + 1, maxChanges, outside);
      } else if |listed| + 1 < maxChanges {
        var listed' := listed + [PathChange(e.status, Normalized(e.paths, outside))];
        ParseFromEntries(tokens, next, rest, listed', dropped, maxChanges, outside);
      }
    }
  }

  lemma ParseNoEntries(tokens: seq<string>, index: nat, entries: seq<ListedEntry>, listed: seq<PathChange>,
                       dropped: nat, maxChanges: int, outside: set<seq<string>>)
    requires |entries| == 0 && index <= |tokens| && tokens[index..] == TokensOf(entries)
    ensures ParseFrom(tokens, index, listed, dropped, maxChanges, outside)
         == ListFrom(entries, listed, dropped, maxChanges, outside)
  {
    assert tokens[index..][0] == "" && |tokens[index..]| == 1;
  }

  lemma ListOneEntry(entries: seq<ListedEntry>, listed: seq<PathChange>, dropped: nat,
                     maxChanges: int, outside: set<seq<string>>)
    requires |entries| > 0
    ensures
      var e, rest := entries[0], entries[1..];
      && TokensOf(entries) == [e.status] + e.paths + TokensOf(rest)
      && (|TokensOf(rest)| > 1 <==> |rest| > 0)
      && (if !Lists(e, outside) then
            ListFrom(entries, listed, dropped, maxChanges, outside)
            == ListFrom(rest, listed, dropped + 1, maxChanges, outside)
          else
            Safe(e.paths, outside) &&
            var listed' := listed + [PathChange(e.status, Normalized(e.paths, outside))];
            ListFrom(entries, listed, dropped, maxChanges, outside) ==
              if |listed| + 1 >= maxChanges then Listing(listed', dropped, |rest| > 0)
              else ListFrom(rest, listed', dropped, maxChanges, outside))
  {
    hide Safe, Normalized;
  }

  lemma {:induction false} ListedEntries(entries: seq<ListedEntry>, listed: seq<PathChange>, dropped: nat,
                                         maxChanges: int, outside: set<seq<string>>)
    ensures
      var n := Consumed(entries, maxChanges - |listed|, outside);
      ListFrom(entries, listed, dropped, maxChanges, outside)
      == Listing(listed + Kept(entries[..n], outside), dropped + Unsafe(entries[..n], outside), n < |entries|)
    decreases |entries|
  {
    hide NormalizeRepoPath, Safe, Normalized;
    if |entries| == 0 {
      NothingKept(entries, outside);
      assert listed + [] == listed;
    } else {
      var n := Consumed(entries, maxChanges - |listed|, outside);
      var e, rest := entries[0], entries[1..];
      KeptOneMore(entries, n, outside);
      if !Lists(e, outside) {
        ListedEntries(rest, listed, dropped + 1, maxChanges, outside);
      } else if |listed| + 1 < maxChanges {
        var change := PathChange(e.status, Normalized(e.paths, outside));
        ListedEntries(rest, listed + [change], dropped, maxChanges, outside);
        ConcatAssociates(listed, [change], Kept(rest[..n - 1], outside));
      } else {
        NothingKept(rest, outside);
      }
    }
  }

  lemma NothingKept(entries: seq<ListedEntry>, outside: set<seq<string>>)
    ensures Kept(entries[..0], outside) == [] && Unsafe(entries[..0], outside) == 0
  {
  }

  lemma KeptOneMore(entries: seq<ListedEntry>, n: nat, outside: set<seq<string>>)
    requires 0 < n <= |entries|
    ensures
      var e, rest := entries[0], entries[1..][..n - 1];
      && Unsafe(entries[..n], outside) == (if Lists(e, outside) then 0 else 1) + Unsafe(rest, outside)
      && Kept(entries[..n], outside) ==
           if Lists(e, outside)
           then [PathChange(e.status, Normalized(e.paths, outside))] + Kept(rest, outside)
           else Kept(rest, outside)
  {
    assert entries[..n][1..] == entries[1..][..n - 1] && entries[..n][0] == entries[0];
  }

  /** Parsing a listing gives back its entries. Of the n entries read, every one whose
      paths are safe is listed with its paths normalized, in order; an unsafe path
      drops its own entry and nothing else; and the listing is capped exactly when
      entries remain unread. */
  lemma ListingRoundTrip(entries: seq<ListedEntry>, maxChanges: int, outside: set<seq<string>>)
    requires forall i | 0 <= i < |entries| :: WellFormed(entries[i])
    ensures
      var r := ParseFrom(Split(Render(entries), NUL), 0, [], 0, maxChanges, outside);
      var n := Consumed(entries, maxChanges, outside);
      && r.changes == Kept(entries[..n], outside)
      && r.dropped == Unsafe(entries[..n], outside)
      && |r.changes| + r.dropped == n
      && (r.capped <==> n < |entries|)
      && |r.changes| <= MaxInt(1, maxChanges)
      && (r.capped ==> |r.changes| == MaxInt(1, maxChanges))
  {
    hide ParseFrom, ListFrom, Split, Render, TokensOf, Consumed, Kept, Unsafe, WellFormed;
    var n := Consumed(entries, maxChanges, outside);
    RenderedTokens(entries);
    ParseFromEntries(TokensOf(entries), 0, entries, [], 0, maxChanges, outside);
    ListedEntries(entries, [], 0, maxChanges, outside);
    assert [] + Kept(entries[..n], outside) == Kept(entries[..n], outside);
    KeptAndUnsafe(entries[..n], outside);
    ConsumedUpToCap(entries, maxChanges, outside);
  }

  lemma {:induction false} KeptAndUnsafe(entries: seq<ListedEntry>, outside: set<seq<string>>)
    ensures |Kept(entries, outside)| + Unsafe(entries, outside) == |entries|
  {
    if |entries| > 0 { KeptAndUnsafe(entries[1..], outside); }
  }

  lemma {:induction false} ConsumedUpToCap(entries: seq<ListedEntry>, room: int, outside: set<seq<string>>)
    ensures
      var n := Consumed(entries, room, outside);
      && |Kept(entries[..n], outside)| <= MaxInt(1, room)
      && (n < |entries| ==> |Kept(entries[..n], outside)| == MaxInt(1, room))
    decreases |entries|
  {
    hide NormalizeRepoPath, Safe, Normalized;
    var n := Consumed(entries, room, outside);
    if |entries| > 0 {
      assert entries[..n][1..] == entries[1..][..n - 1] && entries[..n][0] == entries[0];
      if !Lists(entries[0], outside) {
        ConsumedUpToCap(entries[1..], room, outside);
      } else if room > 1 {
        ConsumedUpToCap(entries[1..], room - 1, outside);
      } else {
        assert entries[1..][..0] == [];
      }
    }
  }
}
