/** Which answers of the reviewing client get through, and what is then known of them. */
module ReviewTheorems {
  import opened Prelude
  import opened Utf8
  import opened DiffCollection
  import opened ReviewVerdict

  predicate SoundFinding(f: Finding, allowed: set<Text>) {
    && f.path in allowed && f.confidence != Critical
    && (f.lineEnd.Some? <==> f.lineStart.Some?)
    && (f.lineStart.Some? ==>
          1 <= f.lineStart.value <= f.lineEnd.value <= MAX_LINE_NUMBER
          && f.lineEnd.value - f.lineStart.value <= MAX_FINDING_LINE_SPAN)
    && |f.title| <= MAX_FINDING_TEXT && |f.explanation| <= MAX_FINDING_TEXT
    && |f.evidence| <= MAX_FINDING_TEXT && |f.suggestedFix| <= MAX_FINDING_TEXT
  }

  predicate SoundFindings(findings: seq<Finding>, allowed: set<Text>) {
    forall i | 0 <= i < |findings| :: SoundFinding(findings[i], allowed)
  }

  lemma LineRangeIsTight(fields: map<Key, Value>)
    requires LineRange(fields).Some?
    ensures
      var (from, to) := LineRange(fields).value;
      && (to.Some? <==> from.Some?)
      && (from.Some? ==>
            1 <= from.value <= to.value <= MAX_LINE_NUMBER && to.value - from.value <= MAX_FINDING_LINE_SPAN)
  {
  }

  lemma AcceptedFindingIsSound(raw: RawFinding, allowed: set<Text>)
    ensures NormalizeFinding(raw, allowed).Some? ==> SoundFinding(NormalizeFinding(raw, allowed).value, allowed)
  {
    hide Word, Strip, WithSlashes, LineRange, Get;
    if raw.Fields? && LineRange(raw.fields).Some? { LineRangeIsTight(raw.fields); }
  }

  lemma {:induction false} AcceptedFindingsAreSound(items: seq<RawFinding>, n: nat, allowed: set<Text>)
    requires n <= |items| && NormalizeFindings(items, n, allowed).Some?
    ensures
      var findings := NormalizeFindings(items, n, allowed).value;
      |findings| == n && SoundFindings(findings, allowed)
  {
    hide NormalizeFinding, SoundFinding;
    if n > 0 {
      AcceptedFindingsAreSound(items, n - 1, allowed);
      AcceptedFindingIsSound(items[n - 1], allowed);
    }
  }

  /** Whatever the reviewing client answers, what gets through is well formed: few findings,
      each citing an included file and a tight line range; no approval with a critical
      or high finding; no request for changes without a finding. */
  lemma AcceptedAnswerIsSound(response: Response, allowed: set<Text>)
    ensures Normalize(response, allowed).Some? ==>
      var answer := Normalize(response, allowed).value;
      && |answer.findings| <= MAX_FINDINGS && SoundFindings(answer.findings, allowed)
      && |answer.overview| <= MAX_FINDING_TEXT
      && (answer.verdict == Approve ==> !Severe(answer.findings))
      && (answer.verdict == RequestChanges ==> |answer.findings| > 0)
  {
    hide NormalizeFindings, Word, ParseVerdict, SoundFindings;
    if Normalize(response, allowed).Some? {
      AcceptedFindingsAreSound(response.findings.items, |response.findings.items|, allowed);
    }
  }

  // ---------------------------------------------- well-formed answers get through

  function SeverityWord(s: Severity): Text {
    match s
    case Critical => Lit("critical")
    case High => Lit("high")
    case Medium => Lit("medium")
    case Low => Lit("low")
  }

  function VerdictWord(v: Verdict): Text {
    match v
    case Approve => Lit("approve")
    case Comment => Lit("comment")
    case RequestChanges => Lit("request_changes")
  }

  /** A string that redaction leaves alone. */
  function Plain(t: Text): Value {
    Str(t, t)
  }

  function RenderLine(line: Option<int>): Value {
    if line.Some? then Int(line.value, []) else Null
  }

  function RenderFinding(f: Finding): RawFinding {
    Fields(map[
      SeverityKey := Plain(SeverityWord(f.severity)), ConfidenceKey := Plain(SeverityWord(f.confidence)),
      PathKey := Plain(f.path), LineStartKey := RenderLine(f.lineStart), LineEndKey := RenderLine(f.lineEnd),
      TitleKey := Plain(f.title), ExplanationKey := Plain(f.explanation), EvidenceKey := Plain(f.evidence),
      SuggestedFixKey := Plain(f.suggestedFix)])
  }

  function RenderFindings(findings: seq<Finding>): seq<RawFinding> {
    seq(|findings|, i requires 0 <= i < |findings| => RenderFinding(findings[i]))
  }

  function RenderAnswer(a: Answer): Response {
    Object(map[VerdictKey := Plain(VerdictWord(a.verdict)), OverviewKey := Plain(a.overview)], Items(RenderFindings(a.findings)))
  }

  /** No blank text, and a path without whitespace around it or a backslash. */
  predicate Printable(f: Finding) {
    && !Blank(f.title) && !Blank(f.explanation) && !Blank(f.evidence) && !Blank(f.suggestedFix)
    && f.path != [] && !IsSpace(f.path[0]) && !IsSpace(f.path[|f.path| - 1])
    && forall i | 0 <= i < |f.path| :: f.path[i] != 0x5C
  }

  lemma StripOfSolid(t: Text)
    requires t != [] && !IsSpace(t[0]) && !IsSpace(t[|t| - 1])
    ensures Strip(t) == t
  {
  }

  /** A lower-case word is read as it stands. */
  lemma WordOfPlain(word: string)
    requires word != "" && forall i | 0 <= i < |word| :: '_' <= word[i] <= 'z'
    ensures Word(Plain(Lit(word))) == Lit(word)
  {
    StripOfSolid(Lit(word));
    hide Strip;
  }

  lemma SeverityIsRead(s: Severity)
    ensures Word(Plain(SeverityWord(s))) == SeverityWord(s)
    ensures ParseSeverity(SeverityWord(s)) == Some(s)
  {
    hide Word, Plain;
    WordOfPlain("critical");
    WordOfPlain("high");
    WordOfPlain("medium");
    WordOfPlain("low");
    assert |Lit("critical")| == 8 && |Lit("high")| == 4 && |Lit("medium")| == 6 && |Lit("low")| == 3;
    hide Lit;
  }

  lemma VerdictIsRead(v: Verdict)
    ensures Word(Plain(VerdictWord(v))) == VerdictWord(v)
    ensures ParseVerdict(VerdictWord(v)) == Some(v)
  {
    hide Word, Plain;
    WordOfPlain("approve");
    WordOfPlain("comment");
    WordOfPlain("request_changes");
    assert Lit("approve")[0] == 'a' as CodePoint && Lit("comment")[0] == 'c' as CodePoint;
    assert |Lit("request_changes")| == 15 && |Lit("approve")| == 7 && |Lit("comment")| == 7;
    hide Lit;
  }

  lemma TextIsKept(fields: map<Key, Value>, key: Key, t: Text)
    requires key in fields && fields[key] == Plain(t) && !Blank(t) && |t| <= MAX_FINDING_TEXT
    ensures RequiredText(fields, key) == Some(t)
  {
    assert t[..|t|] == t;
  }

  lemma PathIsKept(t: Text)
    requires t != [] && !IsSpace(t[0]) && !IsSpace(t[|t| - 1]) && forall i | 0 <= i < |t| :: t[i] != 0x5C
    ensures Strip(WithSlashes(Plain(t).OrEmpty())) == t
  {
    assert WithSlashes(t) == t;
    StripOfSolid(t);
  }

  lemma RenderedFields(f: Finding)
    ensures
      var fields := RenderFinding(f).fields;
      && RenderFinding(f).Fields? && fields.Keys == FINDING_KEYS
      && fields[SeverityKey] == Plain(SeverityWord(f.severity)) && fields[ConfidenceKey] == Plain(SeverityWord(f.confidence))
      && fields[PathKey] == Plain(f.path) && fields[LineStartKey] == RenderLine(f.lineStart)
      && fields[LineEndKey] == RenderLine(f.lineEnd) && fields[TitleKey] == Plain(f.title)
      && fields[ExplanationKey] == Plain(f.explanation) && fields[EvidenceKey] == Plain(f.evidence)
      && fields[SuggestedFixKey] == Plain(f.suggestedFix)
  {
    hide Plain, SeverityWord, RenderLine;
  }

  /** A finding whose parts are read one by one is accepted. */
  lemma AcceptedFromParts(fields: map<Key, Value>, allowed: set<Text>, f: Finding)
    requires fields.Keys <= FINDING_KEYS && f.path in allowed
    requires Strip(WithSlashes(Get(fields, PathKey).OrEmpty())) == f.path
    requires ParseSeverity(Word(Get(fields, SeverityKey))) == Some(f.severity)
    requires ParseConfidence(Word(Get(fields, ConfidenceKey))) == Some(f.confidence)
    requires LineRange(fields) == Some((f.lineStart, f.lineEnd))
    requires RequiredText(fields, TitleKey) == Some(f.title) && RequiredText(fields, EvidenceKey) == Some(f.evidence)
    requires RequiredText(fields, ExplanationKey) == Some(f.explanation)
    requires RequiredText(fields, SuggestedFixKey) == Some(f.suggestedFix)
    ensures NormalizeFinding(Fields(fields), allowed) == Some(f)
  {
    hide Strip, WithSlashes, Get, ParseSeverity, ParseConfidence, Word, LineRange, RequiredText;
  }

  lemma LinesAreRead(fields: map<Key, Value>, f: Finding, allowed: set<Text>)
    requires SoundFinding(f, allowed) && LineStartKey in fields && LineEndKey in fields
    requires fields[LineStartKey] == RenderLine(f.lineStart) && fields[LineEndKey] == RenderLine(f.lineEnd)
    ensures LineRange(fields) == Some((f.lineStart, f.lineEnd))
  {
  }

  lemma RenderedTextsAreKept(f: Finding, allowed: set<Text>)
    requires SoundFinding(f, allowed) && Printable(f)
    ensures
      var fields := RenderFinding(f).fields;
      && RequiredText(fields, TitleKey) == Some(f.title) && RequiredText(fields, EvidenceKey) == Some(f.evidence)
      && RequiredText(fields, ExplanationKey) == Some(f.explanation)
      && RequiredText(fields, SuggestedFixKey) == Some(f.suggestedFix)
  {
    var fields := RenderFinding(f).fields;
    RenderedFields(f);
    hide RenderFinding, Plain, RequiredText, Blank, IsSpace;
    TextIsKept(fields, TitleKey, f.title);
    TextIsKept(fields, ExplanationKey, f.explanation);
    TextIsKept(fields, EvidenceKey, f.evidence);
    TextIsKept(fields, SuggestedFixKey, f.suggestedFix);
  }

  lemma RenderedWordsAreRead(f: Finding, allowed: set<Text>)
    requires SoundFinding(f, allowed) && Printable(f)
    ensures
      var fields := RenderFinding(f).fields;
      && Strip(WithSlashes(Get(fields, PathKey).OrEmpty())) == f.path
      && ParseSeverity(Word(Get(fields, SeverityKey))) == Some(f.severity)
      && ParseConfidence(Word(Get(fields, ConfidenceKey))) == Some(f.confidence)
  {
    RenderedFields(f);
    SeverityIsRead(f.severity);
    SeverityIsRead(f.confidence);
    hide RenderFinding, Plain, SeverityWord, ParseSeverity, Word, Strip, WithSlashes, Blank, IsSpace;
    PathIsKept(f.path);
  }

  lemma RenderedFindingIsAccepted(f: Finding, allowed: set<Text>)
    requires SoundFinding(f, allowed) && Printable(f)
    ensures NormalizeFinding(RenderFinding(f), allowed) == Some(f)
  {
    var fields := RenderFinding(f).fields;
    RenderedFields(f);
    assert f.path in allowed;
    hide *;
    RenderedTextsAreKept(f, allowed);
    RenderedWordsAreRead(f, allowed);
    LinesAreRead(fields, f, allowed);
    AcceptedFromParts(fields, allowed, f);
  }

  lemma {:induction false} RenderedFindingsAreAccepted(findings: seq<Finding>, n: nat, allowed: set<Text>)
    requires n <= |findings| && SoundFindings(findings, allowed)
    requires forall i | 0 <= i < |findings| :: Printable(findings[i])
    ensures NormalizeFindings(RenderFindings(findings), n, allowed) == Some(findings[..n])
  {
    hide NormalizeFinding, RenderFinding, SoundFinding, Printable;
    if n > 0 {
      RenderedFindingsAreAccepted(findings, n - 1, allowed);
      RenderedFindingIsAccepted(findings[n - 1], allowed);
      assert findings[..n] == findings[..n - 1] + [findings[n - 1]];
    }
  }

  /** Every answer that keeps the rules is accepted as it was given: validation drops
      and changes nothing of it. */
  lemma RenderedAnswerIsAccepted(a: Answer, allowed: set<Text>)
    requires |a.findings| <= MAX_FINDINGS && SoundFindings(a.findings, allowed)
    requires forall i | 0 <= i < |a.findings| :: Printable(a.findings[i])
    requires !Blank(a.overview) && |a.overview| <= MAX_FINDING_TEXT
    requires a.verdict == Approve ==> !Severe(a.findings)
    requires a.verdict == RequestChanges ==> |a.findings| > 0
    ensures Normalize(RenderAnswer(a), allowed) == Some(a)
  {
    var fields := RenderAnswer(a).fields;
    VerdictIsRead(a.verdict);
    RenderedAnswerFields(a);
    hide Word, RequiredText, Blank, VerdictWord, ParseVerdict, NormalizeFindings, SoundFindings, Severe, Printable;
    hide Plain, RenderAnswer, RenderFindings, RenderFinding, Normalize;
    TextIsKept(fields, OverviewKey, a.overview);
    RenderedFindingsAreAccepted(a.findings, |a.findings|, allowed);
    assert a.findings[..|a.findings|] == a.findings;
    AnswerFromParts(RenderAnswer(a), a, allowed);
  }

  lemma AnswerFromParts(response: Response, a: Answer, allowed: set<Text>)
    requires response.Object? && response.findings.Items? && |response.findings.items| <= MAX_FINDINGS
    requires response.fields.Keys <= {VerdictKey, OverviewKey}
    requires ParseVerdict(Word(Get(response.fields, VerdictKey))) == Some(a.verdict)
    requires RequiredText(response.fields, OverviewKey) == Some(a.overview)
    requires NormalizeFindings(response.findings.items, |response.findings.items|, allowed) == Some(a.findings)
    requires a.verdict == Approve ==> !Severe(a.findings)
    requires a.verdict == RequestChanges ==> |a.findings| > 0
    ensures Normalize(response, allowed) == Some(a)
  {
    hide Get, ParseVerdict, Word, RequiredText, NormalizeFindings, Severe;
  }

  lemma RenderedAnswerFields(a: Answer)
    ensures
      var r := RenderAnswer(a);
      && r.Object? && r.fields.Keys == {VerdictKey, OverviewKey} && r.findings == Items(RenderFindings(a.findings))
      && |RenderFindings(a.findings)| == |a.findings|
      && r.fields[VerdictKey] == Plain(VerdictWord(a.verdict)) && r.fields[OverviewKey] == Plain(a.overview)
  {
    hide Plain, VerdictWord;
  }

  lemma {:induction false} FirstValidIsValid(answers: seq<Response>, allowed: set<Text>) returns (k: nat)
    requires FirstValid(answers, allowed).Some?
    ensures k < |answers| && Normalize(answers[k], allowed) == FirstValid(answers, allowed)
    ensures forall i | 0 <= i < k :: Normalize(answers[i], allowed).None?
  {
    hide Normalize;
    if Normalize(answers[0], allowed).Some? {
      k := 0;
    } else {
      k := FirstValidIsValid(answers[1..], allowed);
      k := k + 1;
    }
  }

  /** The counts of a summary cover every finding exactly once. */
  lemma {:induction false} CountsAddUp(findings: seq<Finding>)
    ensures CountOf(findings, Critical) + CountOf(findings, High) + CountOf(findings, Medium) + CountOf(findings, Low)
         == |findings|
  {
    if |findings| > 0 { CountsAddUp(findings[1..]); }
  }
}
