/** UTF-8 as in section 3 of RFC 3629, with the two error policies the review
    engine uses: encoding replaces a lone surrogate by '?', decoding ignores what
    is not a whole valid sequence. */
module Utf8 {
  import opened Prelude

  newtype CodePoint = c: int | 0 <= c < 0x110000
  newtype Byte = b: int | 0 <= b < 0x100

  type Text = seq<CodePoint>
  type Bytes = seq<Byte>

  const QUESTION_MARK: CodePoint := 0x3F

  function Lit(s: string): (t: Text)
    ensures |t| == |s|
  {
    seq(|s|, i requires 0 <= i < |s| => s[i] as CodePoint)
  }

  predicate IsSurrogate(c: CodePoint) {
    0xD800 <= c < 0xE000
  }

  function Replaced(t: Text): (r: Text)
    ensures |r| == |t|
  {
    seq(|t|, i requires 0 <= i < |t| => if IsSurrogate(t[i]) then QUESTION_MARK else t[i])
  }

  function Continuation(c: int): Byte
    requires 0 <= c
  {
    (0x80 + c % 0x40) as Byte
  }

  function EncodeChar(c: CodePoint): (b: Bytes)
    ensures 1 <= |b| <= 4
  {
    var n := c as int;
    if IsSurrogate(c) then [0x3F]
    else if n < 0x80 then [n as Byte]
    else if n < 0x800 then [(0xC0 + n / 0x40) as Byte, Continuation(n)]
    else if n < 0x10000 then [(0xE0 + n / 0x1000) as Byte, Continuation(n / 0x40), Continuation(n)]
    else [(0xF0 + n / 0x40000) as Byte, Continuation(n / 0x1000), Continuation(n / 0x40), Continuation(n)]
  }

  function Encode(t: Text): (b: Bytes)
    ensures |b| >= |t|
  {
    if t == [] then [] else EncodeChar(t[0]) + Encode(t[1..])
  }

  predicate IsContinuation(b: Byte) {
    0x80 <= b < 0xC0
  }

  /** The second byte a lead byte admits: no overlong form, no surrogate, nothing
      above U+10FFFF. */
  predicate AdmitsSecond(lead: Byte, b: Byte) {
    IsContinuation(b)
    && (lead == 0xE0 ==> b >= 0xA0) && (lead == 0xED ==> b < 0xA0)
    && (lead == 0xF0 ==> b >= 0x90) && (lead == 0xF4 ==> b < 0x90)
  }

  /** How many bytes a sequence with this lead has; 0 when none starts with it. */
  function SequenceLength(lead: Byte): nat {
    if lead < 0x80 then 1
    else if 0xC2 <= lead < 0xE0 then 2
    else if 0xE0 <= lead < 0xF0 then 3
    else if 0xF0 <= lead < 0xF5 then 4
    else 0
  }

  /** The leading bytes of b that can begin one sequence of n bytes. */
  function ValidPart(b: Bytes, n: nat): (k: nat)
    requires b != [] && 1 <= n <= 4
    ensures 1 <= k <= n && k <= |b|
  {
    if n == 1 || |b| < 2 || !AdmitsSecond(b[0], b[1]) then 1
    else if n == 2 || |b| < 3 || !IsContinuation(b[2]) then 2
    else if n == 3 || |b| < 4 || !IsContinuation(b[3]) then 3
    else 4
  }

  function Bits(b: Byte): int {
    b as int % 0x40
  }

  function DecodeSequence(b: Bytes, n: nat): int
    requires 1 <= n <= 4 && |b| >= n
  {
    match n
    case 1 => b[0] as int
    case 2 => (b[0] as int - 0xC0) * 0x40 + Bits(b[1])
    case 3 => (b[0] as int - 0xE0) * 0x1000 + Bits(b[1]) * 0x40 + Bits(b[2])
    case _ => (b[0] as int - 0xF0) * 0x40000 + Bits(b[1]) * 0x1000 + Bits(b[2]) * 0x40 + Bits(b[3])
  }

  lemma SequenceIsCodePoint(b: Bytes, n: nat)
    requires b != [] && n == SequenceLength(b[0]) && n >= 1 && ValidPart(b, n) == n
    ensures 0 <= DecodeSequence(b, n) < 0x110000
  {
  }

  /** Decoding with errors ignored: a broken sequence is skipped up to the first
      byte that cannot continue it; one cut off by the end of input is dropped. */
  function DecodeIgnore(b: Bytes): Text {
    if b == [] then []
    else
      var n := SequenceLength(b[0]);
      if n == 0 then DecodeIgnore(b[1..])
      else
        var k := ValidPart(b, n);
        if k == n then
          SequenceIsCodePoint(b, n);
          [DecodeSequence(b, n) as CodePoint] + DecodeIgnore(b[n..])
        else DecodeIgnore(b[k..])
  }

  /** `_truncate_utf8`: the text and whether it was cut. */
  function TruncateUtf8(text: Text, maxBytes: int): (Text, bool) {
    var raw := Encode(text);
    if |raw| <= maxBytes then (text, false)
    else if maxBytes <= 0 then ([], true)
    else (DecodeIgnore(raw[..maxBytes]), true)
  }

  // ------------------------------------------------------------------ facts

  /** How many leading characters fit in n bytes whole. */
  function Fitting(t: Text, n: int): (k: nat)
    ensures k <= |t|
  {
    if t == [] || |EncodeChar(t[0])| > n then 0
    else 1 + Fitting(t[1..], n - |EncodeChar(t[0])|)
  }

  lemma EncodedCharIsValid(c: CodePoint)
    ensures
      var e := EncodeChar(c);
      && SequenceLength(e[0]) == |e| && ValidPart(e, |e|) == |e|
      && DecodeSequence(e, |e|) == Replaced([c])[0] as int
  {
    if |EncodeChar(c)| == 3 {
      ThreeByteCharIsValid(c);
    } else if |EncodeChar(c)| == 4 {
      FourByteCharIsValid(c);
    } else {
      assert c as int / 0x40 * 0x40 + c as int % 0x40 == c as int;
    }
  }

  lemma ThreeByteCharIsValid(c: CodePoint)
    requires |EncodeChar(c)| == 3
    ensures
      var e := EncodeChar(c);
      && SequenceLength(e[0]) == 3 && ValidPart(e, 3) == 3 && DecodeSequence(e, 3) == c as int
      && Replaced([c])[0] == c
  {
    ThreeDigits(c as int);
    assert 0xE0 + c as int / 0x1000 < 0xF0;
  }

  lemma FourByteCharIsValid(c: CodePoint)
    requires |EncodeChar(c)| == 4
    ensures
      var e := EncodeChar(c);
      && SequenceLength(e[0]) == 4 && ValidPart(e, 4) == 4 && DecodeSequence(e, 4) == c as int
      && Replaced([c])[0] == c
  {
    FourDigits(c as int);
    assert 0xF0 + c as int / 0x40000 < 0xF5;
  }

  lemma ThreeDigits(n: int)
    requires 0 <= n < 0x10000
    ensures n == n / 0x1000 * 0x1000 + n / 0x40 % 0x40 * 0x40 + n % 0x40
  {
  }

  lemma FourDigits(n: int)
    requires 0 <= n < 0x110000
    ensures n == n / 0x40000 * 0x40000 + n / 0x1000 % 0x40 * 0x1000 + n / 0x40 % 0x40 * 0x40 + n % 0x40
  {
  }

  lemma EncodedCharDecodes(c: CodePoint, rest: Bytes)
    ensures DecodeIgnore(EncodeChar(c) + rest) == Replaced([c]) + DecodeIgnore(rest)
  {
    var e := EncodeChar(c);
    var b := e + rest;
    EncodedCharIsValid(c);
    assert b[|e|..] == rest && forall i | 0 <= i < |e| :: b[i] == e[i];
    assert ValidPart(b, |e|) == ValidPart(e, |e|);
    assert DecodeSequence(b, |e|) == DecodeSequence(e, |e|);
    assert Replaced([c]) == [Replaced([c])[0]];
  }

  lemma PartialCharIsValid(e: Bytes, n: nat)
    requires 1 <= n < |e| == SequenceLength(e[0]) && ValidPart(e, |e|) == |e|
    ensures ValidPart(e[..n], |e|) == n
  {
  }

  lemma PartialCharIsDropped(c: CodePoint, n: nat)
    requires n < |EncodeChar(c)|
    ensures DecodeIgnore(EncodeChar(c)[..n]) == []
  {
    if n > 0 {
      var e := EncodeChar(c);
      EncodedCharIsValid(c);
      hide EncodeChar, SequenceLength, ValidPart;
      PartialCharIsValid(e, n);
      assert e[..n][0] == e[0] && e[..n][n..] == [];
    }
  }

  lemma EncodedCut(t: Text, n: nat)
    requires |t| > 0 && n <= |Encode(t)|
    ensures
      var e, rest := EncodeChar(t[0]), Encode(t[1..]);
      Encode(t)[..n] == if |e| > n then e[..n] else e + rest[..n - |e|]
  {
    hide EncodeChar;
  }

  lemma ReplacedHead(t: Text, k: nat)
    requires |t| > 0 && k <= |t[1..]|
    ensures Replaced(t)[..k + 1] == Replaced([t[0]]) + Replaced(t[1..])[..k]
  {
  }

  /** Cutting encoded text anywhere and decoding what is left gives back exactly the
      characters that fit whole. */
  lemma {:induction false} CutDecodesToWholeChars(t: Text, n: nat)
    requires n <= |Encode(t)|
    ensures DecodeIgnore(Encode(t)[..n]) == Replaced(t)[..Fitting(t, n)]
  {
    if t != [] {
      hide EncodeChar, DecodeIgnore, Replaced;
      var e, rest := EncodeChar(t[0]), Encode(t[1..]);
      EncodedCut(t, n);
      if |e| > n {
        PartialCharIsDropped(t[0], n);
      } else {
        EncodedCharDecodes(t[0], rest[..n - |e|]);
        CutDecodesToWholeChars(t[1..], n - |e|);
        ReplacedHead(t, Fitting(t[1..], n - |e|));
      }
    }
  }

  lemma {:induction false} FittingIsLargest(t: Text, n: nat)
    ensures |Encode(t[..Fitting(t, n)])| <= n
    ensures Fitting(t, n) < |t| ==> |Encode(t[..Fitting(t, n) + 1])| > n
    decreases |t|
  {
    if t != [] {
      var e := EncodeChar(t[0]);
      if |e| > n {
        assert t[..1][1..] == [];
      } else {
        var m := n - |e|;
        FittingIsLargest(t[1..], m);
        var k := Fitting(t[1..], m);
        assert t[..k + 1][1..] == t[1..][..k];
        if k < |t[1..]| { assert t[..k + 2][1..] == t[1..][..k + 1]; }
      }
    }
  }

  lemma EncodeCons(c: CodePoint, t: Text)
    ensures Encode([c] + t) == EncodeChar(c) + Encode(t)
  {
    assert ([c] + t)[1..] == t;
  }

  lemma EncodeConsConcat(c: CodePoint, a: Text, b: Text)
    requires Encode(a + b) == Encode(a) + Encode(b)
    ensures Encode(([c] + a) + b) == Encode([c] + a) + Encode(b)
  {
    hide Encode, EncodeChar;
    EncodeCons(c, a);
    EncodeCons(c, a + b);
    ConcatAssociates([c], a, b);
    ConcatAssociates(EncodeChar(c), Encode(a), Encode(b));
  }

  lemma {:induction false} EncodeConcat(a: Text, b: Text)
    ensures Encode(a + b) == Encode(a) + Encode(b)
  {
    if a == [] {
      assert a + b == b;
    } else {
      hide Encode, EncodeChar;
      EncodeConcat(a[1..], b);
      EncodeConsConcat(a[0], a[1..], b);
      assert [a[0]] + a[1..] == a;
    }
  }

  lemma {:induction false} ReplacedEncodesAlike(t: Text)
    ensures Encode(Replaced(t)) == Encode(t)
  {
    if t != [] {
      ReplacedEncodesAlike(t[1..]);
      assert Replaced(t)[1..] == Replaced(t[1..]);
    }
  }

  /** What truncation keeps: nothing is cut when everything fits; otherwise the
      longest prefix of whole characters, lone surrogates replaced, whose encoding
      stays within the limit. */
  lemma TruncationKeepsWholeChars(text: Text, maxBytes: int)
    ensures
      var (kept, cut) := TruncateUtf8(text, maxBytes);
      && (cut <==> |Encode(text)| > maxBytes)
      && (!cut ==> kept == text)
      && |Encode(kept)| <= MaxInt(0, maxBytes)
      && (cut ==> |kept| <= |text| && kept == Replaced(text)[..|kept|])
      && (cut && text != [] ==> |kept| < |text| && |Encode(text[..|kept| + 1])| > maxBytes)
  {
    if |Encode(text)| > maxBytes && maxBytes > 0 {
      var k := Fitting(text, maxBytes);
      CutDecodesToWholeChars(text, maxBytes);
      FittingIsLargest(text, maxBytes);
      assert Replaced(text)[..k] == Replaced(text[..k]);
      ReplacedEncodesAlike(text[..k]);
      assert text[..|text|] == text;
    } else if |Encode(text)| > maxBytes {
      assert Replaced(text)[..0] == [];
    }
  }

  /** Examples of section 7 of RFC 3629, and a lone surrogate. */
  lemma KnownEncodings()
    ensures EncodeChar(0x41) == [0x41] && EncodeChar(0x2262) == [0xE2, 0x89, 0xA2] && EncodeChar(0x391) == [0xCE, 0x91]
    ensures EncodeChar(0x2E) == [0x2E] && EncodeChar(0xD55C) == [0xED, 0x95, 0x9C]
    ensures EncodeChar(0x233B4) == [0xF0, 0xA3, 0x8E, 0xB4] && EncodeChar(0xD800) == [0x3F]
  {
  }
}
