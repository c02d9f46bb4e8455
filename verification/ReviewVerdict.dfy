/** From the reviewing client's answer to the verdict of a review: the validation of the
    structured response, the bounded retries and the rule that an incomplete review
    never approves. */
module ReviewVerdict {
  import opened Prelude
  import opened Utf8
  import opened DiffCollection

  const MAX_FINDINGS := 100
  const MAX_FINDING_TEXT := 8000
  const MAX_LINE_NUMBER := 10_000_000
  const MAX_FINDING_LINE_SPAN := 200

  datatype Severity = Critical | High | Medium | Low

  datatype Verdict = Approve | Comment | RequestChanges

  datatype Finding = Finding(
    severity: Severity, title: Text, explanation: Text, path: Text,
    lineStart: Option<int>, lineEnd: Option<int>, evidence: Text, suggestedFix: Text,
    confidence: Severity)

  // -------------------------------------------------------------- responses

  /** A JSON value where a scalar is expected. `shown` is what redaction leaves of the
      stripped text; `repr` is the text `str` gives for a value that is no string. */
  datatype Value =
    | Null
    | Bool(b: bool)
    | Int(n: int, repr: Text)
    | Str(text: Text, shown: Text)
    | Other(truthy: bool, repr: Text)
  {
    predicate Truthy() {
      match this
      case Null => false
      case Bool(b) => b
      case Int(n, _) => n != 0
      case Str(text, _) => |text| > 0
      case Other(truthy, _) => truthy
    }

    /** `str(value or "")`. */
    function OrEmpty(): Text {
      if !Truthy() then []
      else
        match this
        case Bool(_) => Lit("True")
        case Int(_, repr) => repr
        case Str(text, _) => text
        case Other(_, repr) => repr
        case Null => []
    }
  }

  /** The name of a field of a JSON object. */
  datatype Key =
    | VerdictKey | OverviewKey
    | SeverityKey | TitleKey | ExplanationKey | PathKey | LineStartKey | LineEndKey | EvidenceKey | SuggestedFixKey
    | ConfidenceKey
    | OtherKey(name: string)

  datatype RawFinding = NotAnObject | Fields(fields: map<Key, Value>)

  datatype RawFindings = NotAList | Items(items: seq<RawFinding>)

  /** `findings` is the entry of that name; `fields` holds all other entries. */
  datatype Response = NotJsonObject | Object(fields: map<Key, Value>, findings: RawFindings)

  function Get(fields: map<Key, Value>, key: Key): Value {
    if key in fields then fields[key] else Null
  }

  function LStrip(t: Text): (r: Text)
    ensures |r| <= |t|
  {
    if t != [] && IsSpace(t[0]) then LStrip(t[1..]) else t
  }

  function Strip(t: Text): (r: Text)
    ensures |r| <= |t|
  {
    RStrip(LStrip(t))
  }

  function Lower(t: Text): Text {
    seq(|t|, i requires 0 <= i < |t| => if 0x41 <= t[i] <= 0x5A then t[i] + 0x20 else t[i])
  }

  function WithSlashes(t: Text): Text {
    seq(|t|, i requires 0 <= i < |t| => if t[i] == 0x5C then 0x2F else t[i])
  }

  function Word(v: Value): Text {
    Lower(Strip(v.OrEmpty()))
  }

  function ParseSeverity(word: Text): Option<Severity> {
    if word == Lit("critical") then Some(Critical)
    else if word == Lit("high") then Some(High)
    else if word == Lit("medium") then Some(Medium)
    else if word == Lit("low") then Some(Low)
    else None
  }

  function ParseConfidence(word: Text): Option<Severity> {
    var level := ParseSeverity(word);
    if level == Some(Critical) then None else level
  }

  function ParseVerdict(word: Text): Option<Verdict> {
    if word == Lit("approve") then Some(Approve)
    else if word == Lit("comment") then Some(Comment)
    else if word == Lit("request_changes") then Some(RequestChanges)
    else None
  }

  function Clip(t: Text): (r: Text)
    ensures r <= t && |r| <= MAX_FINDING_TEXT
  {
    t[..MinInt(|t|, MAX_FINDING_TEXT)]
  }

  /** `_bounded_required_text`. */
  function RequiredText(fields: map<Key, Value>, key: Key): Option<Text> {
    match Get(fields, key)
    case Str(text, shown) => if Blank(text) then None else Some(Clip(shown))
    case _ => None
  }

  /** `_optional_line`: no line, or a line number, or an error. */
  function OptionalLine(v: Value): Option<Option<int>> {
    match v
    case Null => Some(None)
    case Int(n, _) => if 1 <= n <= MAX_LINE_NUMBER then Some(Some(n)) else None
    case _ => None
  }

  /** The line range of a finding, or None for an error. */
  function LineRange(fields: map<Key, Value>): Option<(Option<int>, Option<int>)> {
    match (OptionalLine(Get(fields, LineStartKey)), OptionalLine(Get(fields, LineEndKey)))
    case (Some(None), Some(None)) => Some((None, None))
    case (Some(Some(from)), Some(None)) => Some((Some(from), Some(from)))
    case (Some(Some(from)), Some(Some(to))) =>
      if to < from || to - from > MAX_FINDING_LINE_SPAN then None else Some((Some(from), Some(to)))
    case _ => None
  }

  const FINDING_KEYS := {
    SeverityKey, TitleKey, ExplanationKey, PathKey, LineStartKey, LineEndKey, EvidenceKey, SuggestedFixKey, ConfidenceKey
  }

  /** One finding as the loop accepts it; None stands for the error it raises. */
  function NormalizeFinding(raw: RawFinding, allowed: set<Text>): Option<Finding> {
    match raw
    case NotAnObject => None
    case Fields(fields) =>
      var path := Strip(WithSlashes(Get(fields, PathKey).OrEmpty()));
      if !(fields.Keys <= FINDING_KEYS) || path !in allowed then None
      else
        match (ParseSeverity(Word(Get(fields, SeverityKey))), ParseConfidence(Word(Get(fields, ConfidenceKey))),
               LineRange(fields), RequiredText(fields, TitleKey), RequiredText(fields, ExplanationKey),
               RequiredText(fields, EvidenceKey), RequiredText(fields, SuggestedFixKey))
        case (Some(severity), Some(confidence), Some(lines), Some(title), Some(explanation), Some(evidence), Some(fix)) =>
          Some(Finding(severity, title, explanation, path, lines.0, lines.1, evidence, fix, confidence))
        case _ => None
  }

  function NormalizeFindings(items: seq<RawFinding>, n: nat, allowed: set<Text>): Option<seq<Finding>>
    requires n <= |items|
  {
    if n == 0 then Some([])
    else
      match (NormalizeFindings(items, n - 1, allowed), NormalizeFinding(items[n - 1], allowed))
      case (Some(before), Some(finding)) => Some(before + [finding])
      case _ => None
  }

  datatype Answer = Answer(findings: seq<Finding>, verdict: Verdict, overview: Text)

  predicate Severe(findings: seq<Finding>) {
    exists i | 0 <= i < |findings| :: findings[i].severity in {Critical, High}
  }

  function Normalize(response: Response, allowed: set<Text>): Option<Answer> {
    match response
    case NotJsonObject => None
    case Object(fields, raw) =>
      if !(fields.Keys <= {VerdictKey, OverviewKey}) || raw.NotAList? || |raw.items| > MAX_FINDINGS then None
      else
        match (ParseVerdict(Word(Get(fields, VerdictKey))), RequiredText(fields, OverviewKey),
               NormalizeFindings(raw.items, |raw.items|, allowed))
        case (Some(verdict), Some(overview), Some(findings)) =>
          if verdict == Approve && Severe(findings) then None
          else if verdict == RequestChanges && |findings| == 0 then None
          else Some(Answer(findings, verdict, overview))
        case _ => None
  }

  /** `_normalize_response`, with None for a raised error. */
  method NormalizeResponse(response: Response, allowed: set<Text>) returns (r: Option<Answer>)
    ensures r == Normalize(response, allowed)
  {
    hide NormalizeFinding, Word, ParseVerdict, RequiredText;
    if response.NotJsonObject? { return None; }
    if !(response.fields.Keys <= {VerdictKey, OverviewKey}) { return None; }
    var verdict := ParseVerdict(Word(Get(response.fields, VerdictKey)));
    if verdict.None? { return None; }
    var overview := RequiredText(response.fields, OverviewKey);
    if overview.None? { return None; }
    if response.findings.NotAList? { return None; }
    var items := response.findings.items;
    if |items| > MAX_FINDINGS { return None; }
    var findings: seq<Finding>, severe := [], false;
    for i := 0 to |items|
      invariant NormalizeFindings(items, i, allowed) == Some(findings)
      invariant severe <==> Severe(findings)
    {
      var finding := NormalizeFinding(items[i], allowed);
      if finding.None? {
        OneErrorRejectsAll(items, i + 1, |items|, allowed);
        return None;
      }
      SeverePush(findings, finding.value);
      severe := severe || finding.value.severity in {Critical, High};
      findings := findings + [finding.value];
    }
    if verdict.value == Approve && severe { return None; }
    if verdict.value == RequestChanges && |findings| == 0 { return None; }
    r := Some(Answer(findings, verdict.value, overview.value));
  }

  lemma {:induction false} OneErrorRejectsAll(items: seq<RawFinding>, k: nat, n: nat, allowed: set<Text>)
    requires k <= n <= |items| && NormalizeFindings(items, k, allowed).None?
    ensures NormalizeFindings(items, n, allowed).None?
  {
    hide NormalizeFinding;
    if k < n { OneErrorRejectsAll(items, k, n - 1, allowed); }
  }

  lemma SeverePush(findings: seq<Finding>, finding: Finding)
    ensures Severe(findings + [finding]) <==> Severe(findings) || finding.severity in {Critical, High}
  {
    assert (findings + [finding])[|findings|] == finding;
    assert forall i | 0 <= i < |findings| :: (findings + [finding])[i] == findings[i];
  }

  // ------------------------------------------------------------- the review

  datatype ReviewDiff = ReviewDiff(
    patch: seq<Text>, changedFiles: seq<Text>, includedFiles: seq<Text>, omittedFiles: seq<Omission>, truncated: bool)

  datatype Summary = Summary(
    verdict: Verdict, overview: Text, findingCounts: map<Severity, nat>,
    changedFileCount: nat, reviewedFileCount: nat, omittedFileCount: nat, truncated: bool)

  datatype Review = Review(findings: seq<Finding>, summary: Summary)

  const NO_CHANGES: Text := Lit("No reviewable changes were found.")
  const NO_SAFE_CHANGES: Text := Lit("No safe reviewable changes were available after applying exclusions.")
  const INCOMPLETE: Text :=
    Lit(" The review was incomplete because some changes were truncated or excluded.")

  function CountOf(findings: seq<Finding>, severity: Severity): nat {
    if |findings| == 0 then 0
    else CountOf(findings[1..], severity) + if findings[0].severity == severity then 1 else 0
  }

  function Counts(findings: seq<Finding>): map<Severity, nat> {
    map severity | severity in {Critical, High, Medium, Low} :: CountOf(findings, severity)
  }

  predicate Incomplete(diff: ReviewDiff) {
    diff.truncated || |diff.omittedFiles| > 0
  }

  /** The review of a diff with nothing included. */
  function EmptyReview(diff: ReviewDiff): Review {
    Review([], Summary(
      if |diff.changedFiles| > 0 then Comment else Approve,
      if |diff.omittedFiles| > 0 then NO_SAFE_CHANGES else NO_CHANGES,
      Counts([]), |diff.changedFiles|, 0, |diff.omittedFiles|, diff.truncated))
  }

  function FinalReview(diff: ReviewDiff, answer: Answer): Review {
    var downgraded := answer.verdict == Approve && Incomplete(diff);
    Review(answer.findings, Summary(
      if downgraded then Comment else answer.verdict,
      if downgraded then Clip(RStrip(answer.overview) + INCOMPLETE) else answer.overview,
      Counts(answer.findings), |diff.changedFiles|, |diff.includedFiles|, |diff.omittedFiles|, diff.truncated))
  }

  function Allowed(diff: ReviewDiff): set<Text> {
    set i | 0 <= i < |diff.includedFiles| :: diff.includedFiles[i]
  }

  /** The first of these answers that is valid. */
  function FirstValid(answers: seq<Response>, allowed: set<Text>): Option<Answer> {
    if |answers| == 0 then None
    else
      var first := Normalize(answers[0], allowed);
      if first.Some? then first else FirstValid(answers[1..], allowed)
  }

  function ReviewOf(diff: ReviewDiff, answers: seq<Response>): Result<Review, ReviewError> {
    if |diff.includedFiles| == 0 then Ok(EmptyReview(diff))
    else
      var first := FirstValid(answers, Allowed(diff));
      if first.Some? then Ok(FinalReview(diff, first.value)) else Raise(ReviewResponseError)
  }

  /** `review` after the diff is collected; answers[k] is what the reviewing client says to
      attempt k + 1. Only as many answers are asked for as needed. */
  method ReviewCollected(diff: ReviewDiff, answers: seq<Response>, maxAttempts: nat)
    returns (r: Result<Review, ReviewError>, asked: nat)
    requires 1 <= maxAttempts <= |answers|
    ensures r == ReviewOf(diff, answers[..maxAttempts])
    ensures asked <= maxAttempts && (asked == 0 <==> |diff.includedFiles| == 0)
    ensures forall i | 0 <= i < asked - 1 :: Normalize(answers[i], Allowed(diff)).None?
    ensures asked > 0 && r.Ok? ==> Normalize(answers[asked - 1], Allowed(diff)).Some?
    ensures r.Raise? ==> asked == maxAttempts
  {
    hide Normalize, Clip;
    if |diff.includedFiles| == 0 { return Ok(EmptyReview(diff)), 0; }
    var allowed := Allowed(diff);
    ghost var all := answers[..maxAttempts];
    asked := 0;
    assert all[0..] == all;
    while asked < maxAttempts
      invariant asked <= maxAttempts && |all| == maxAttempts
      invariant forall i | 0 <= i < asked :: Normalize(answers[i], allowed).None?
      invariant FirstValid(all, allowed) == FirstValid(all[asked..], allowed)
    {
      var answer := NormalizeResponse(answers[asked], allowed);
      assert all[asked..][1..] == all[asked + 1..] && all[asked..][0] == answers[asked];
      asked := asked + 1;
      if answer.Some? {
        var verdict, overview := answer.value.verdict, answer.value.overview;
        if verdict == Approve && (diff.truncated || |diff.omittedFiles| > 0) {
          verdict := Comment;
          overview := Clip(RStrip(overview) + INCOMPLETE);
        }
        var summary := Summary(verdict, overview, Counts(answer.value.findings), |diff.changedFiles|,
                               |diff.includedFiles|, |diff.omittedFiles|, diff.truncated);
        return Ok(Review(answer.value.findings, summary)), asked;
      }
    }
    r := Raise(ReviewResponseError);
  }
}
