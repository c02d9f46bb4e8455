/** Python string operations the models need, on sequences of characters. */
module PyText {
  predicate IsSpace(c: char) {
    var n := c as int;
    || 9 <= n <= 13 || 28 <= n <= 32 || n == 0x85 || n == 0xA0 || n == 0x1680
    || 0x2000 <= n <= 0x200A || n == 0x2028 || n == 0x2029 || n == 0x202F || n == 0x205F || n == 0x3000
  }

  /** Characters at which `splitlines` breaks. */
  predicate IsLineBreak(c: char) {
    var n := c as int;
    10 <= n <= 13 || 28 <= n <= 30 || n == 0x85 || n == 0x2028 || n == 0x2029
  }

  function LStrip(s: string): (r: string)
    ensures |r| <= |s| && r == s[|s| - |r|..]
    ensures forall i | 0 <= i < |s| - |r| :: IsSpace(s[i])
    ensures r == [] || !IsSpace(r[0])
  {
    if s != [] && IsSpace(s[0]) then LStrip(s[1..]) else s
  }

  function RStrip(s: string): (r: string)
    ensures r <= s
    ensures r == [] || !IsSpace(r[|r| - 1])
    ensures forall i | |r| <= i < |s| :: IsSpace(s[i])
  {
    if s != [] && IsSpace(s[|s| - 1]) then RStrip(s[..|s| - 1]) else s
  }

  function Strip(s: string): string {
    RStrip(LStrip(s))
  }

  lemma StripOfSolid(s: string)
    requires s != "" && !IsSpace(s[0]) && !IsSpace(s[|s| - 1])
    ensures Strip(s) == s
  {
  }

  lemma {:induction false} LStripDropsSpaces(s: string)
    ensures forall i | 0 <= i < |s| - |LStrip(s)| :: IsSpace(s[i])
  {
    hide IsSpace;
    if s != [] && IsSpace(s[0]) { LStripDropsSpaces(s[1..]); }
  }

  lemma StripFromFront(s: string, a: nat)
    requires a < |s| && !IsSpace(s[a]) && forall i | 0 <= i < a :: IsSpace(s[i])
    ensures LStrip(s) == s[a..]
  {
    hide LStrip, IsSpace;
    LStripDropsSpaces(s);
  }

  lemma StripFromEnd(s: string, b: nat)
    requires 0 < b <= |s| && !IsSpace(s[b - 1]) && forall i | b <= i < |s| :: IsSpace(s[i])
    ensures RStrip(s) == s[..b]
  {
    hide RStrip, IsSpace;
    var r := RStrip(s);
  }

  /** Stripping in two steps is stripping. */
  lemma StripOfLeft(s: string)
    ensures Strip(LStrip(s)) == Strip(s)
  {
    hide IsSpace;
  }

  lemma StripIs(s: string, a: nat, b: nat)
    requires a < b <= |s| && !IsSpace(s[a]) && !IsSpace(s[b - 1])
    requires forall i | 0 <= i < a || b <= i < |s| :: IsSpace(s[i])
    ensures Strip(s) == s[a..b]
  {
    hide LStrip, RStrip, IsSpace;
    StripFromFront(s, a);
    StripFromEnd(s[a..], b - a);
    assert s[a..][..b - a] == s[a..b];
  }

  lemma StripOfRight(s: string)
    ensures Strip(RStrip(s)) == Strip(s)
  {
    hide *;
    var r := RStrip(s);
    if r == "" {
      assert forall i | 0 <= i < |s| :: IsSpace(s[i]);
      BlankStrips(s);
      BlankStrips("");
    } else {
      var a, b := |s| - |LStrip(s)|, |r|;
      LStripDropsSpaces(s);
      assert r == s[..b] && r[b - 1] == s[b - 1];
      assert a < b;
      LStripStartsSolid(s, a);
      StripIs(s, a, b);
      StripIs(r, a, b);
    }
  }

  lemma LStripStartsSolid(s: string, a: nat)
    requires a == |s| - |LStrip(s)| && a < |s|
    ensures !IsSpace(s[a])
  {
    hide LStrip, IsSpace;
    assert LStrip(s)[0] == s[a];
  }

  lemma BlankStrips(s: string)
    requires forall i | 0 <= i < |s| :: IsSpace(s[i])
    ensures Strip(s) == "" && RStrip(s) == ""
  {
    hide IsSpace, LStrip, RStrip;
    assert LStrip(s) == "" by { if LStrip(s) != "" { assert false; } }
  }

  predicate Contains(text: string, part: string) {
    exists i {:trigger text[i..]} :: 0 <= i <= |text| && part <= text[i..]
  }

  predicate StartsWith(s: string, prefix: string) {
    |s| >= |prefix| && s[..|prefix|] == prefix
  }

  predicate Blank(s: string) {
    Strip(s) == []
  }

  /** `s.split(sep)` for a one-character separator: always at least one piece. */
  function Split(s: string, sep: char): (pieces: seq<string>)
    ensures |pieces| > 0
    ensures forall p <- pieces :: sep !in p
  {
    if s == [] then [[]]
    else
      var rest := Split(s[1..], sep);
      if s[0] == sep then [[]] + rest
      else [[s[0]] + rest[0]] + rest[1..]
  }

  /** Where c first stands in s; |s| when it does not. */
  function Find(s: string, c: char): (k: nat)
    ensures k <= |s| && c !in s[..k]
    ensures k < |s| ==> s[k] == c
    ensures c !in s ==> k == |s|
  {
    if s == [] || s[0] == c then 0 else 1 + Find(s[1..], c)
  }

  function Join(pieces: seq<string>, sep: char): string {
    if |pieces| == 0 then []
    else if |pieces| == 1 then pieces[0]
    else pieces[0] + [sep] + Join(pieces[1..], sep)
  }

  lemma {:induction false} SplitAtSeparator(a: string, sep: char, b: string)
    requires sep !in a
    ensures Split(a + [sep] + b, sep) == [a] + Split(b, sep)
  {
    var s := a + [sep] + b;
    if a == [] {
      assert s[1..] == b;
    } else {
      SplitAtSeparator(a[1..], sep, b);
      assert s[1..] == a[1..] + [sep] + b;
      assert [a[0]] + a[1..] == a;
    }
  }

  lemma {:induction false} SplitWhole(a: string, sep: char)
    requires sep !in a
    ensures Split(a, sep) == [a]
  {
    if a != [] {
      SplitWhole(a[1..], sep);
      assert [a[0]] + a[1..] == a;
    }
  }

  lemma {:induction false} SplitJoin(pieces: seq<string>, sep: char)
    requires |pieces| > 0 && forall p <- pieces :: sep !in p
    ensures Split(Join(pieces, sep), sep) == pieces
  {
    if |pieces| == 1 {
      SplitWhole(pieces[0], sep);
    } else {
      SplitJoin(pieces[1..], sep);
      SplitAtSeparator(pieces[0], sep, Join(pieces[1..], sep));
      assert [pieces[0]] + pieces[1..] == pieces;
    }
  }
}
