/** What a review decides, in its caller's terms: which changes reach the prompt and why
    others do not, which answers are accepted, and what the verdict is. */
module ReviewDecisions {
  import opened Prelude
  import opened Utf8
  import opened DiffCollection
  import opened DiffTheorems
  import opened ReviewVerdict
  import opened ReviewTheorems

  // ------------------------------------------------------ what is kept out

  /** A path of the change is classified as sensitive, or its name holds a secret. */
  ghost predicate KeptOut(spec: Spec, leaves: Leaves)
    requires spec.Valid()
  {
    var display := spec.paths[|spec.paths| - 1];
    || (exists path :: path in spec.paths && path in leaves.sensitive)
    || (display in leaves.secret && display != Lit("<redacted path>"))
  }

  lemma KeptOutIsHidden(spec: Spec, leaves: Leaves)
    requires spec.Valid()
    ensures KeptOut(spec, leaves) <==> leaves.Hidden(spec)
  {
    hide Lit;
    if path :| path in spec.paths && path in leaves.sensitive {
      var i :| 0 <= i < |spec.paths| && spec.paths[i] == path;
    }
  }

  /** One more omission, of this path for this reason. */
  ghost predicate Omits(c: Collected, d: Collected, path: Text, reason: Reason) {
    d.omitted == c.omitted + [Omission(path, reason)] && d.parts == c.parts && d.included == c.included
  }

  /** Why a change is left out. The reasons exclude each other, in this order: a sensitive
      path, the file limit, the byte limit, a failed or refused patch, a binary one. A
      blank patch leaves no record. */
  lemma TurnDecided(p: Progress, spec: Spec, limits: Limits, leaves: Leaves)
    requires spec.Valid()
    ensures
      var c, d := p.state, Take(p, spec, limits, leaves).state;
      var display := spec.paths[|spec.paths| - 1];
      var full := display !in p.accepted && |p.accepted| >= limits.maxFiles;
      var spent := c.totalBytes >= limits.maxTotalBytes;
      if KeptOut(spec, leaves) then
        Omits(c, d, if display in leaves.secret then Lit("<redacted path>") else display, SensitivePath)
        && d.truncated == c.truncated
      else if full then Omits(c, d, display, FileCountLimit) && d.truncated
      else if spent then Omits(c, d, display, TotalDiffLimit) && d.truncated
      else match spec.fetched {
        case Failed => Omits(c, d, display, GitDiffFailed) && d.truncated == c.truncated
        case Refused(reason) => Omits(c, d, display, reason) && d.truncated == c.truncated
        case Patch(redacted, cut, binary) =>
          if binary then Omits(c, d, display, BinaryFile) && d.truncated == c.truncated
          else if forall ch <- redacted :: IsSpace(ch) then d == c
          else d.omitted == c.omitted && (cut ==> d.truncated)
      }
  {
    KeptOutIsHidden(spec, leaves);
    if spec.fetched.Patch? { BlankIsAllSpace(spec.fetched.redacted); }
    hide Segment, Fit, Lit, Blank, IsSpace, KeptOut, Leaves.Hidden;
  }

  lemma BlankIsAllSpace(t: Text)
    ensures Blank(t) <==> forall ch <- t :: IsSpace(ch)
  {
    hide IsSpace;
    var r := RStrip(t);
    if r != [] { assert r[|r| - 1] in t; }
  }

  /** The part stands for the change: it shows it, or it is a beginning of what would show
      it, with the marker of the total limit after it as far as there was room. */
  ghost predicate StandsFor(part: Text, spec: Spec)
    requires spec.Valid() && spec.fetched.Patch?
  {
    exists whole: Text, n: nat, m: nat ::
      Shows(whole, spec) && BeginsThen(part, whole, n, m)
  }

  ghost predicate BeginsThen(part: Text, whole: Text, n: nat, m: nat) {
    || part == whole
    || (n <= |whole| && m <= |TOTAL_MARKER| && part == Replaced(whole)[..n] + TOTAL_MARKER[..m])
  }

  /** Part k of the patch is about one of the first n changes, which is not kept out, was
      read and is no binary file. */
  ghost predicate FromOpenChange(c: Collected, k: nat, specs: seq<Spec>, n: nat, leaves: Leaves)
    requires n <= |specs| && AllValid(specs) && k < |c.parts| && k < |c.included|
  {
    exists i | 0 <= i < n ::
      && !KeptOut(specs[i], leaves) && c.included[k] == specs[i].Display()
      && specs[i].fetched.Patch? && !specs[i].fetched.binary
      && StandsFor(c.parts[k], specs[i])
  }

  lemma KeptStandsFor(spec: Spec, remaining: int)
    requires spec.Valid() && spec.fetched.Patch?
    ensures StandsFor(Fit(Segment(spec), remaining).0, spec)
  {
    hide Shows, Fit, Segment, Replaced, TOTAL_MARKER;
    SegmentShows(spec);
    CutSegmentStaysWithinBudget(Segment(spec), remaining);
    var (kept, cut) := Fit(Segment(spec), remaining);
    if cut {
      var n, m :| 0 <= n <= |Segment(spec)| && 0 <= m <= |TOTAL_MARKER|
        && kept == Replaced(Segment(spec))[..n] + TOTAL_MARKER[..m];
      assert BeginsThen(kept, Segment(spec), n, m);
    } else {
      assert BeginsThen(kept, Segment(spec), 0, 0);
    }
  }

  /** A turn adds no part, or one that stands for its change. */
  lemma TurnKeeps(p: Progress, spec: Spec, limits: Limits, leaves: Leaves)
    requires spec.Valid()
    ensures
      var c, d := p.state, Take(p, spec, limits, leaves).state;
      || (d.parts == c.parts && d.included == c.included)
      || (&& |d.parts| == |c.parts| + 1 && d.parts[..|c.parts|] == c.parts
          && d.included == c.included + [spec.Display()]
          && !KeptOut(spec, leaves) && spec.fetched.Patch? && !spec.fetched.binary
          && StandsFor(d.parts[|c.parts|], spec))
  {
    hide KeptOut, Leaves.Hidden, Segment, Fit, Blank, StandsFor;
    KeptOutIsHidden(spec, leaves);
    if Appends(p, spec, limits, leaves) {
      var noted := Noted(p.state, spec.fetched.cut);
      TakeAppends(p, spec, limits, leaves);
      KeptStandsFor(spec, limits.maxTotalBytes - noted.totalBytes - SeparatorBytes(noted.parts));
    }
  }

  /** Whatever is collected, nothing of a change with a sensitive path, a secret in its
      name, a failed or refused patch or a binary one reaches the prompt. */
  lemma {:induction false} NothingKeptOutIsShown(init: Collected, specs: seq<Spec>, n: nat, k: nat,
                                                 limits: Limits, leaves: Leaves)
    requires n <= |specs| && AllValid(specs) && init.Fresh()
    ensures
      var c := Run(init, specs, n, limits, leaves).state;
      |c.parts| == |c.included| && (k < |c.parts| ==> FromOpenChange(c, k, specs, n, leaves))
  {
    hide Take, KeptOut, StandsFor;
    if n > 0 {
      NothingKeptOutIsShown(init, specs, n - 1, k, limits, leaves);
      var p := Run(init, specs, n - 1, limits, leaves);
      if !p.stopped { TurnKeeps(p, specs[n - 1], limits, leaves); }
    }
  }

  // ------------------------------------------------------------- a cut part

  predicate Ascii(t: Text) {
    forall i | 0 <= i < |t| :: t[i] < 0x80
  }

  lemma {:induction false} PlainEncodes(t: Text)
    requires Ascii(t)
    ensures |Encode(t)| == |t|
  {
    if t != [] { PlainEncodes(t[1..]); }
  }

  lemma AsciiIsKept(t: Text)
    requires Ascii(t)
    ensures Replaced(t) == t
  {
  }

  /** Of a plain text, truncation keeps a prefix of that many characters. */
  lemma PlainIsCut(t: Text, maxBytes: int)
    requires Ascii(t)
    ensures TruncateUtf8(t, maxBytes).0 == t[..MinInt(|t|, MaxInt(0, maxBytes))]
  {
    hide TruncateUtf8, Encode;
    var kept := TruncateUtf8(t, maxBytes).0;
    TruncationKeepsWholeChars(t, maxBytes);
    PlainEncodes(t);
    AsciiIsKept(t);
    assert t[..|t|] == t && kept == t[..|kept|];
    PlainEncodes(kept);
    if |kept| < |t| { PlainEncodes(t[..|kept| + 1]); }
  }

  lemma MarkerIsPlain()
    ensures |TOTAL_MARKER| == 38 && Ascii(TOTAL_MARKER)
  {
  }

  lemma PrefixBytes(segment: Text, n: nat)
    requires n <= |segment|
    ensures |Encode(Replaced(segment)[..n])| == |Encode(segment[..n])|
  {
    assert Replaced(segment)[..n] == Replaced(segment[..n]);
    ReplacedEncodesAlike(segment[..n]);
  }

  /** A part that had to be cut ends in the marker, as far as there is room for it, and
      before it shows as many whole characters as the remaining bytes hold. */
  lemma CutKeepsTheMost(segment: Text, remaining: int) returns (n: nat)
    requires segment != [] && |Encode(segment)| > remaining
    ensures n < |segment|
    ensures
      var m := MinInt(38, MaxInt(0, remaining));
      && Fit(segment, remaining) == (Replaced(segment)[..n] + Lit("\n[SYLLIPTOR: total diff limit reached]")[..m], true)
      && |Encode(segment[..n])| <= MaxInt(0, remaining) - m < |Encode(segment[..n + 1])|
  {
    hide TruncateUtf8, Encode, Replaced, Lit;
    MarkerIsPlain();
    PlainIsCut(TOTAL_MARKER, remaining);
    TruncationKeepsWholeChars(segment, remaining);
    var kept := TruncateUtf8(segment, remaining).0;
    var marker := TruncateUtf8(TOTAL_MARKER, remaining).0;
    PlainEncodes(marker);
    var budget := MaxInt(0, remaining - |Encode(marker)|);
    n := CutTwice(segment, |kept|, budget);
    if n == |kept| { FirstCut(segment, n, remaining, budget); }
  }

  lemma FirstCut(segment: Text, n: nat, remaining: int, budget: int)
    requires n < |segment| && |Encode(segment[..n + 1])| > remaining && budget <= MaxInt(0, remaining)
    ensures |Encode(segment[..n + 1])| > budget
  {
  }

  /** A prefix, cut once more, is the longest prefix that fits, unless it fits itself. */
  lemma CutTwice(segment: Text, k: nat, budget: nat) returns (n: nat)
    requires k <= |segment|
    ensures n <= k && TruncateUtf8(Replaced(segment)[..k], budget).0 == Replaced(segment)[..n]
    ensures |Encode(segment[..n])| <= budget
    ensures n < k ==> |Encode(segment[..n + 1])| > budget
  {
    hide TruncateUtf8, Encode, Replaced;
    var text := Replaced(segment)[..k];
    TruncationKeepsWholeChars(text, budget);
    n := |TruncateUtf8(text, budget).0|;
    assert text[..|text|] == text;
    PrefixReplaced(segment, k);
    PrefixBytes(segment, n);
    if n < k {
      assert text[..n + 1] == Replaced(segment)[..n + 1];
      PrefixBytes(segment, n + 1);
    }
  }

  lemma PrefixReplaced(segment: Text, k: nat)
    requires k <= |segment|
    ensures Replaced(Replaced(segment)[..k]) == Replaced(segment)[..k]
  {
  }

  // ---------------------------------------------------------------- words

  /** This letter, in either case. */
  ghost predicate IsLetter(c: CodePoint, letter: char) {
    || c == letter as CodePoint
    || ('a' <= letter <= 'z' && c as int == letter as int - 0x20)
  }

  /** The text is this word in any case, with nothing but whitespace around it. */
  ghost predicate Says(t: Text, word: string) {
    exists a: nat :: WordAt(t, word, a)
  }

  ghost predicate WordAt(t: Text, word: string, a: nat) {
    && a + |word| <= |t|
    && (forall i | 0 <= i < a || a + |word| <= i < |t| :: IsSpace(t[i]))
    && forall i | 0 <= i < |word| :: IsLetter(t[a + i], word[i])
  }

  ghost predicate AWord(word: string) {
    word != "" && forall i | 0 <= i < |word| :: 'a' <= word[i] <= 'z' || word[i] == '_'
  }

  lemma {:induction false} LStripShape(t: Text)
    ensures
      var r := ReviewVerdict.LStrip(t);
      && r == t[|t| - |r|..] && (r != [] ==> !IsSpace(r[0]))
      && forall i | 0 <= i < |t| - |r| :: IsSpace(t[i])
  {
    hide IsSpace;
    if t != [] && IsSpace(t[0]) { LStripShape(t[1..]); }
  }

  lemma StripShape(t: Text) returns (a: nat, b: nat)
    ensures a <= b <= |t| && Strip(t) == t[a..b]
    ensures forall i | 0 <= i < a || b <= i < |t| :: IsSpace(t[i])
    ensures a < b ==> !IsSpace(t[a]) && !IsSpace(t[b - 1])
  {
    hide IsSpace, ReviewVerdict.LStrip, RStrip;
    LStripShape(t);
    var left := ReviewVerdict.LStrip(t);
    var both := RStrip(left);
    a := |t| - |left|;
    b := a + |both|;
    assert both == t[a..b];
    assert forall i | |both| <= i < |left| :: left[i] == t[a + i];
    if a < b { assert left[0] == t[a] && both[|both| - 1] == t[b - 1] && both[0] == left[0]; }
  }

  lemma LetterIsSolid(c: CodePoint, letter: char)
    requires IsLetter(c, letter) && ('a' <= letter <= 'z' || letter == '_')
    ensures !IsSpace(c)
  {
  }

  lemma LetterLowers(c: CodePoint, letter: char)
    requires 'a' <= letter <= 'z' || letter == '_'
    ensures IsLetter(c, letter) <==> Lower([c]) == [letter as CodePoint]
  {
    assert Lower([c])[0] == if 0x41 <= c <= 0x5A then c + 0x20 else c;
  }

  lemma WordDecided(v: Value, word: string)
    requires AWord(word)
    ensures Word(v) == Lit(word) <==> Says(v.OrEmpty(), word)
  {
    hide IsSpace, Strip, Value.OrEmpty;
    var t := v.OrEmpty();
    var a, b := StripShape(t);
    assert |Word(v)| == b - a;
    forall i | 0 <= i < b - a && b - a == |word|
      ensures IsLetter(t[a + i], word[i]) <==> Word(v)[i] == Lit(word)[i]
    {
      LetterLowers(t[a + i], word[i]);
    }
    if Word(v) == Lit(word) {
      assert WordAt(t, word, a);
    }
    if Says(t, word) {
      var k: nat :| WordAt(t, word, k);
      WordStandsAt(t, word, k, a, b);
      assert Word(v) == Lit(word);
    }
  }

  /** A word stands where stripping leaves something. */
  lemma WordStandsAt(t: Text, word: string, k: nat, a: nat, b: nat)
    requires AWord(word) && WordAt(t, word, k) && a <= b <= |t|
    requires forall i | 0 <= i < a || b <= i < |t| :: IsSpace(t[i])
    requires a < b ==> !IsSpace(t[a]) && !IsSpace(t[b - 1])
    ensures k == a && b == a + |word|
  {
    hide IsSpace;
    LetterIsSolid(t[k], word[0]);
    var last := |word| - 1;
    LetterIsSolid(t[k + last], word[last]);
  }

  // -------------------------------------------------------------- findings

  ghost predicate SaysLevel(v: Value, s: Severity) {
    match s
    case Critical => Says(v.OrEmpty(), "critical")
    case High => Says(v.OrEmpty(), "high")
    case Medium => Says(v.OrEmpty(), "medium")
    case Low => Says(v.OrEmpty(), "low")
  }

  ghost predicate SaysVerdict(v: Value, verdict: Verdict) {
    match verdict
    case Approve => Says(v.OrEmpty(), "approve")
    case Comment => Says(v.OrEmpty(), "comment")
    case RequestChanges => Says(v.OrEmpty(), "request_changes")
  }

  lemma LevelDecided(v: Value, s: Severity)
    ensures ParseSeverity(Word(v)) == Some(s) <==> SaysLevel(v, s)
  {
    assert |Lit("critical")| == 8 && |Lit("high")| == 4 && |Lit("medium")| == 6 && |Lit("low")| == 3;
    hide Word, Says, Lit;
    WordDecided(v, "critical");
    WordDecided(v, "high");
    WordDecided(v, "medium");
    WordDecided(v, "low");
  }

  lemma VerdictDecided(v: Value, verdict: Verdict)
    ensures ParseVerdict(Word(v)) == Some(verdict) <==> SaysVerdict(v, verdict)
  {
    assert Lit("approve")[0] == 'a' as CodePoint && Lit("comment")[0] == 'c' as CodePoint;
    assert |Lit("request_changes")| == 15 && |Lit("approve")| == 7 && |Lit("comment")| == 7;
    hide Word, Says, Lit;
    WordDecided(v, "approve");
    WordDecided(v, "comment");
    WordDecided(v, "request_changes");
  }

  /** The text is this path, with slashes for its backslashes and whitespace around it. */
  ghost predicate NamesPath(t: Text, path: Text) {
    && (path != [] ==> !IsSpace(path[0]) && !IsSpace(path[|path| - 1]))
    && exists a: nat :: PathAt(t, path, a)
  }

  ghost predicate PathAt(t: Text, path: Text, a: nat) {
    && a + |path| <= |t|
    && (forall i | 0 <= i < a || a + |path| <= i < |t| :: IsSpace(t[i]))
    && forall i | 0 <= i < |path| :: path[i] == if t[a + i] == '\\' as CodePoint then '/' as CodePoint else t[a + i]
  }

  /** A slash in place of a backslash, anything else as it is. */
  ghost predicate Slashed(slashed: Text, t: Text) {
    && |slashed| == |t|
    && (forall i | 0 <= i < |t| :: slashed[i] == if t[i] == '\\' as CodePoint then '/' as CodePoint else t[i])
    && forall i | 0 <= i < |t| :: IsSpace(slashed[i]) == IsSpace(t[i])
  }

  lemma SlashesStand(t: Text)
    ensures Slashed(WithSlashes(t), t)
  {
  }

  lemma PathDecided(t: Text, path: Text)
    ensures Strip(WithSlashes(t)) == path <==> NamesPath(t, path)
  {
    hide IsSpace, Strip, WithSlashes, Slashed, PathAt;
    var slashed := WithSlashes(t);
    SlashesStand(t);
    var a, b := StripShape(slashed);
    if Strip(slashed) == path {
      PathStands(t, slashed, path, a);
    }
    if NamesPath(t, path) {
      var k: nat :| PathAt(t, path, k);
      PathIsThere(t, slashed, path, k);
      SolidStandsAt(slashed, path, k, a, b);
    }
  }

  lemma PathStands(t: Text, slashed: Text, path: Text, a: nat)
    requires Slashed(slashed, t) && a + |path| <= |slashed| && path == slashed[a..a + |path|]
    requires forall i | 0 <= i < a || a + |path| <= i < |slashed| :: IsSpace(slashed[i])
    ensures PathAt(t, path, a)
  {
    hide IsSpace;
  }

  lemma PathIsThere(t: Text, slashed: Text, path: Text, k: nat)
    requires Slashed(slashed, t) && PathAt(t, path, k)
    requires path != [] ==> !IsSpace(path[0]) && !IsSpace(path[|path| - 1])
    ensures k + |path| <= |slashed| && path == slashed[k..k + |path|]
    ensures forall i | 0 <= i < k || k + |path| <= i < |slashed| :: IsSpace(slashed[i])
    ensures path != [] ==> !IsSpace(slashed[k]) && !IsSpace(slashed[k + |path| - 1])
  {
    hide IsSpace;
    assert forall i | 0 <= i < |path| :: path[i] == slashed[k + i];
  }

  lemma SolidStandsAt(t: Text, path: Text, k: nat, a: nat, b: nat)
    requires k + |path| <= |t| && path == t[k..k + |path|] && a <= b <= |t|
    requires forall i | 0 <= i < k || k + |path| <= i < |t| :: IsSpace(t[i])
    requires path != [] ==> !IsSpace(t[k]) && !IsSpace(t[k + |path| - 1])
    requires forall i | 0 <= i < a || b <= i < |t| :: IsSpace(t[i])
    requires a < b ==> !IsSpace(t[a]) && !IsSpace(t[b - 1])
    ensures t[a..b] == path
  {
    hide IsSpace;
    if path == [] {
      assert a == b;
    } else {
      assert k == a && b == k + |path|;
    }
  }

  ghost predicate IsLine(v: Value) {
    v.Int? && 1 <= v.n <= 10_000_000
  }

  /** The lines of a finding: none, one, or a range of at most 201 lines in order. */
  ghost predicate GivesLines(start: Value, end: Value, from: Option<int>, to: Option<int>) {
    || (start == Null && end == Null && from == None && to == None)
    || (IsLine(start) && end == Null && from == to == Some(start.n))
    || (IsLine(start) && IsLine(end) && start.n <= end.n <= start.n + 200 && from == Some(start.n) && to == Some(end.n))
  }

  /** A string with something in it gives what redaction leaves of it, at most 8000 long. */
  ghost predicate GivesText(v: Value, t: Text) {
    && v.Str? && (exists i | 0 <= i < |v.text| :: !IsSpace(v.text[i]))
    && t <= v.shown && |t| == MinInt(|v.shown|, 8000)
  }

  lemma TextDecided(fields: map<Key, Value>, key: Key, t: Text)
    ensures RequiredText(fields, key) == Some(t) <==> GivesText(Get(fields, key), t)
  {
    hide IsSpace, Blank, Get;
    var v := Get(fields, key);
    if v.Str? {
      BlankIsAllSpace(v.text);
      assert Blank(v.text) <==> forall i | 0 <= i < |v.text| :: IsSpace(v.text[i]);
      var m := MinInt(|v.shown|, 8000);
      assert t <= v.shown && |t| == m <==> t == v.shown[..m];
    }
  }

  /** What has to be said for this finding to come out of these fields. */
  ghost predicate Describes(raw: RawFinding, f: Finding, allowed: set<Text>) {
    && raw.Fields?
    && raw.fields.Keys <= {SeverityKey, TitleKey, ExplanationKey, PathKey, LineStartKey, LineEndKey, EvidenceKey,
                           SuggestedFixKey, ConfidenceKey}
    && SaysLevel(Get(raw.fields, SeverityKey), f.severity)
    && SaysLevel(Get(raw.fields, ConfidenceKey), f.confidence) && f.confidence != Critical
    && NamesPath(Get(raw.fields, PathKey).OrEmpty(), f.path) && f.path in allowed
    && GivesLines(Get(raw.fields, LineStartKey), Get(raw.fields, LineEndKey), f.lineStart, f.lineEnd)
    && GivesText(Get(raw.fields, TitleKey), f.title)
    && GivesText(Get(raw.fields, ExplanationKey), f.explanation)
    && GivesText(Get(raw.fields, EvidenceKey), f.evidence)
    && GivesText(Get(raw.fields, SuggestedFixKey), f.suggestedFix)
  }

  lemma LinesDecided(fields: map<Key, Value>, from: Option<int>, to: Option<int>)
    ensures LineRange(fields) == Some((from, to))
       <==> GivesLines(Get(fields, LineStartKey), Get(fields, LineEndKey), from, to)
  {
    hide Get;
  }

  lemma ConfidenceDecided(v: Value, s: Severity)
    ensures ParseConfidence(Word(v)) == Some(s) <==> SaysLevel(v, s) && s != Critical
  {
    hide Word, SaysLevel, ParseSeverity;
    LevelDecided(v, s);
    LevelDecided(v, Critical);
  }

  /** Part by part, what the fields are read as. */
  ghost predicate ReadAs(fields: map<Key, Value>, f: Finding, allowed: set<Text>) {
    && fields.Keys <= FINDING_KEYS && f.path in allowed
    && Strip(WithSlashes(Get(fields, PathKey).OrEmpty())) == f.path
    && ParseSeverity(Word(Get(fields, SeverityKey))) == Some(f.severity)
    && ParseConfidence(Word(Get(fields, ConfidenceKey))) == Some(f.confidence)
    && LineRange(fields) == Some((f.lineStart, f.lineEnd))
    && RequiredText(fields, TitleKey) == Some(f.title) && RequiredText(fields, ExplanationKey) == Some(f.explanation)
    && RequiredText(fields, EvidenceKey) == Some(f.evidence)
    && RequiredText(fields, SuggestedFixKey) == Some(f.suggestedFix)
  }

  lemma PartsDecided(fields: map<Key, Value>, f: Finding, allowed: set<Text>)
    ensures NormalizeFinding(Fields(fields), allowed) == Some(f) <==> ReadAs(fields, f, allowed)
  {
    hide Strip, WithSlashes, Get, ParseSeverity, ParseConfidence, Word, LineRange, RequiredText;
  }

  /** A finding comes out exactly of the fields that describe it. */
  lemma FindingDecided(raw: RawFinding, f: Finding, allowed: set<Text>)
    ensures NormalizeFinding(raw, allowed) == Some(f) <==> Describes(raw, f, allowed)
  {
    if raw.Fields? {
      var fields := raw.fields;
      hide NormalizeFinding, Strip, WithSlashes, Get, Value.OrEmpty, ParseSeverity, ParseConfidence, Word, LineRange;
      hide RequiredText, SaysLevel, NamesPath, GivesLines, GivesText;
      PartsDecided(fields, f, allowed);
      LevelDecided(Get(fields, SeverityKey), f.severity);
      ConfidenceDecided(Get(fields, ConfidenceKey), f.confidence);
      PathDecided(Get(fields, PathKey).OrEmpty(), f.path);
      LinesDecided(fields, f.lineStart, f.lineEnd);
      TextDecided(fields, TitleKey, f.title);
      TextDecided(fields, ExplanationKey, f.explanation);
      TextDecided(fields, EvidenceKey, f.evidence);
      TextDecided(fields, SuggestedFixKey, f.suggestedFix);
    }
  }

  lemma {:induction false} FindingsDecided(items: seq<RawFinding>, n: nat, findings: seq<Finding>, allowed: set<Text>)
    requires n <= |items|
    ensures NormalizeFindings(items, n, allowed) == Some(findings)
       <==> |findings| == n && forall i | 0 <= i < n :: Describes(items[i], findings[i], allowed)
  {
    hide NormalizeFinding, Describes;
    if n == 0 {
    } else if findings == [] {
    } else {
      var before, last := findings[..|findings| - 1], findings[|findings| - 1];
      FindingsDecided(items, n - 1, before, allowed);
      FindingDecided(items[n - 1], last, allowed);
      assert findings == before + [last];
    }
  }

  /** What a valid answer says, and all it may say: no other field, at most 100 findings,
      each about a shown file, no approval next to a critical or high finding, and no
      request for changes without a finding. */
  ghost predicate Conveys(response: Response, a: Answer, allowed: set<Text>) {
    && response.Object? && response.fields.Keys <= {VerdictKey, OverviewKey}
    && SaysVerdict(Get(response.fields, VerdictKey), a.verdict)
    && GivesText(Get(response.fields, OverviewKey), a.overview)
    && response.findings.Items? && |a.findings| == |response.findings.items| <= 100
    && (forall i | 0 <= i < |a.findings| :: Describes(response.findings.items[i], a.findings[i], allowed))
    && (a.verdict == Approve ==> forall i | 0 <= i < |a.findings| ::
          a.findings[i].severity != Critical && a.findings[i].severity != High)
    && (a.verdict == RequestChanges ==> |a.findings| > 0)
  }

  lemma MildIsNotSevere(findings: seq<Finding>)
    ensures !Severe(findings)
       <==> forall i | 0 <= i < |findings| :: findings[i].severity != Critical && findings[i].severity != High
  {
  }

  lemma AnswerParts(response: Response, a: Answer, allowed: set<Text>)
    requires response.Object?
    ensures Normalize(response, allowed) == Some(a)
       <==> (&& response.fields.Keys <= {VerdictKey, OverviewKey}
             && response.findings.Items? && |response.findings.items| <= 100
             && ParseVerdict(Word(Get(response.fields, VerdictKey))) == Some(a.verdict)
             && RequiredText(response.fields, OverviewKey) == Some(a.overview)
             && NormalizeFindings(response.findings.items, |response.findings.items|, allowed) == Some(a.findings)
             && (a.verdict == Approve ==> !Severe(a.findings))
             && (a.verdict == RequestChanges ==> |a.findings| > 0))
  {
    hide Get, ParseVerdict, Word, RequiredText, NormalizeFindings, Severe;
  }

  /** An answer is accepted as a exactly when it conveys a. */
  lemma AnswerAcceptedExactlyWhen(response: Response, a: Answer, allowed: set<Text>)
    ensures Normalize(response, allowed) == Some(a) <==> Conveys(response, a, allowed)
  {
    hide Get, ParseVerdict, Word, RequiredText, NormalizeFindings, Severe, Describes, SaysVerdict, GivesText;
    if response.Object? {
      hide Normalize;
      AnswerParts(response, a, allowed);
      VerdictDecided(Get(response.fields, VerdictKey), a.verdict);
      TextDecided(response.fields, OverviewKey, a.overview);
      if response.findings.Items? {
        FindingsDecided(response.findings.items, |response.findings.items|, a.findings, allowed);
      }
      MildIsNotSevere(a.findings);
    }
  }

  // ------------------------------------------------------------ the verdict

  /** The findings of one severity. */
  ghost function Rated(findings: seq<Finding>, severity: Severity): set<nat> {
    set i: nat | i < |findings| && findings[i].severity == severity
  }

  lemma {:induction false} CountNext(findings: seq<Finding>, last: Finding, severity: Severity)
    ensures CountOf(findings + [last], severity)
         == CountOf(findings, severity) + if last.severity == severity then 1 else 0
  {
    var all := findings + [last];
    if findings == [] {
      assert all[1..] == [];
    } else {
      CountNext(findings[1..], last, severity);
      assert all[1..] == findings[1..] + [last];
    }
  }

  lemma {:induction false} CountIsNumber(findings: seq<Finding>, severity: Severity)
    ensures CountOf(findings, severity) == |Rated(findings, severity)|
  {
    hide CountOf;
    var n := |findings|;
    if n == 0 {
      assert Rated(findings, severity) == {};
      NothingCounts(severity);
      assert findings == [];
    } else {
      var before, last := findings[..n - 1], findings[n - 1];
      CountIsNumber(before, severity);
      CountNext(before, last, severity);
      assert findings == before + [last];
      RatedNext(before, last, severity);
    }
  }

  lemma RatedNext(findings: seq<Finding>, last: Finding, severity: Severity)
    ensures |Rated(findings + [last], severity)|
         == |Rated(findings, severity)| + if last.severity == severity then 1 else 0
  {
    var all, before := Rated(findings + [last], severity), Rated(findings, severity);
    var more: set<nat> := if last.severity == severity then {|findings|} else {};
    assert forall i: nat | i < |findings| :: (findings + [last])[i] == findings[i];
    assert all == before + more;
  }

  lemma NothingCounts(severity: Severity)
    ensures CountOf([], severity) == 0
  {
  }

  /** The summary counts the findings of each of the four severities. */
  ghost predicate CountsOf(counts: map<Severity, nat>, findings: seq<Finding>) {
    && counts.Keys == {Critical, High, Medium, Low}
    && counts[Critical] == |Rated(findings, Critical)| && counts[High] == |Rated(findings, High)|
    && counts[Medium] == |Rated(findings, Medium)| && counts[Low] == |Rated(findings, Low)|
  }

  lemma CountsDecided(findings: seq<Finding>)
    ensures CountsOf(Counts(findings), findings)
  {
    hide CountOf, Rated;
    CountIsNumber(findings, Critical);
    CountIsNumber(findings, High);
    CountIsNumber(findings, Medium);
    CountIsNumber(findings, Low);
  }

  /** What the review says when the reviewing client answers a: its findings as they are, and
      its verdict, unless it approves a diff of which something was left out. */
  ghost predicate Concludes(r: Review, diff: ReviewDiff, a: Answer) {
    var leftOut := diff.truncated || |diff.omittedFiles| > 0;
    && r.findings == a.findings && CountsOf(r.summary.findingCounts, a.findings)
    && (r.summary.verdict == Approve <==> a.verdict == Approve && !leftOut)
    && (r.summary.verdict == RequestChanges <==> a.verdict == RequestChanges)
    && (a.verdict != Approve || !leftOut ==> r.summary.overview == a.overview)
    && (a.verdict == Approve && leftOut ==>
          r.summary.overview <= RStrip(a.overview) + INCOMPLETE
          && |r.summary.overview| == MinInt(|RStrip(a.overview)| + |INCOMPLETE|, 8000))
  }

  /** Without a shown change there are no findings, and the review approves exactly when
      no file was changed. */
  ghost predicate ConcludesUnasked(r: Review, diff: ReviewDiff) {
    && r.findings == [] && CountsOf(r.summary.findingCounts, [])
    && (r.summary.verdict == Approve <==> diff.changedFiles == [])
    && r.summary.verdict != RequestChanges
  }

  lemma {:induction false} FirstAnswerCounts(answers: seq<Response>, allowed: set<Text>)
    ensures FirstValid(answers, allowed).None?
       <==> forall k, a | 0 <= k < |answers| :: !Conveys(answers[k], a, allowed)
  {
    hide Normalize, Conveys;
    if |answers| > 0 {
      var first := Normalize(answers[0], allowed);
      FirstAnswerCounts(answers[1..], allowed);
      forall a ensures first == Some(a) <==> Conveys(answers[0], a, allowed) {
        AnswerAcceptedExactlyWhen(answers[0], a, allowed);
      }
      if first.Some? {
        assert Conveys(answers[0], first.value, allowed);
      } else {
        assert forall k | 0 < k < |answers| :: answers[k] == answers[1..][k - 1];
      }
    }
  }

  /** What a review of this diff says, in terms of what is left out of the diff and what the
      first valid answer conveys. */
  lemma ReviewDecided(diff: ReviewDiff, answers: seq<Response>)
    ensures
      var r := ReviewOf(diff, answers);
      var shown := Allowed(diff);
      && (r.Raise? <==> diff.includedFiles != [] && forall k, a | 0 <= k < |answers| :: !Conveys(answers[k], a, shown))
      && (r.Ok? ==>
            && r.value.summary.changedFileCount == |diff.changedFiles|
            && r.value.summary.reviewedFileCount == |diff.includedFiles|
            && r.value.summary.omittedFileCount == |diff.omittedFiles|
            && r.value.summary.truncated == diff.truncated
            && (diff.includedFiles == [] ==> ConcludesUnasked(r.value, diff))
            && (diff.includedFiles != [] ==>
                  exists k, a | 0 <= k < |answers| ::
                    && Conveys(answers[k], a, shown) && Concludes(r.value, diff, a)
                    && forall j, b | 0 <= j < k :: !Conveys(answers[j], b, shown)))
  {
    hide Conveys, Normalize, FirstValid, Counts, CountsOf, Clip, RStrip, INCOMPLETE;
    var shown := Allowed(diff);
    FirstAnswerCounts(answers, shown);
    CountsDecided([]);
    if diff.includedFiles != [] && FirstValid(answers, shown).Some? {
      var a := FirstValid(answers, shown).value;
      var k := FirstValidIsValid(answers, shown);
      AnswerAcceptedExactlyWhen(answers[k], a, shown);
      forall j, b | 0 <= j < k ensures !Conveys(answers[j], b, shown) {
        AnswerAcceptedExactlyWhen(answers[j], b, shown);
      }
      CountsDecided(a.findings);
      FinalReviewConcludes(diff, a);
    }
  }

  lemma ClipKeepsPrefix(t: Text)
    ensures Clip(t) <= t && |Clip(t)| == MinInt(|t|, 8000)
  {
  }

  lemma FinalReviewConcludes(diff: ReviewDiff, a: Answer)
    ensures Concludes(FinalReview(diff, a), diff, a)
  {
    hide CountsOf, Counts, RStrip, INCOMPLETE, Clip;
    ClipKeepsPrefix(RStrip(a.overview) + INCOMPLETE);
    CountsDecided(a.findings);
  }
}
