/** Redaction of JSON artifacts for a support bundle: provider reasoning is dropped
    at every depth, strings are sanitized, all else is kept. */
module Redaction {
  import opened Prelude
  import opened PyText

  datatype Json =
    | Null
    | Bool(b: bool)
    | Num(text: string, zero: bool)
    | Str(s: string)
    | Arr(items: seq<Json>)
    | Obj(entries: seq<Entry>)

  /** One entry of a mapping, in insertion order. */
  datatype Entry = Entry(key: string, value: Json)

  /** Leaf behaviour of the library: case folding of one character, sanitizing a
      string under its key, and the text of a container. */
  datatype Leaves = Leaves(
    fold: char -> string, sanitize: (Option<string>, string) -> string, repr: Json -> string)

  // ------------------------------------------------------------ names and types

  const CONTAINER_KEYS := {"providermetadata", "sylliptorprovidermetadata"}

  const BLOCK_TYPES := {
    "reasoning", "reasoningencrypted", "reasoningsummary", "reasoningtext",
    "redactedthinking", "thinking", "thinkchunk", "thought"
  }

  const FAMILIES := ["reasoning", "thinking", "thought"]

  const SENSITIVE_MARKERS := [
    "block", "chunk", "content", "detail", "encrypted", "monologue",
    "raw", "redacted", "signature", "summary", "text"
  ]

  const DIAGNOSTIC_MARKERS := [
    "active", "adapter", "available", "availability", "budget", "capability", "confidence", "config",
    "count", "display", "effort", "enabled", "format", "include", "kind", "level", "mode", "policy",
    "requested", "source", "support", "token", "trace", "type"
  ]

  const OPAQUE_KEYS := {
    "cachedcontent", "continuation", "continuationdata", "continuationpayload", "continuationstate",
    "continuationtoken", "encryptedcontent", "encryptedreasoning", "encryptedthinking", "opaquecontinuation",
    "opaquepayload", "opaquestate", "previousresponseid", "redactedcontent", "redactedthinking"
  }

  const BLOCK_ENDINGS := ["block", "chunk", "delta", "item", "part"]

  predicate ContainsAny(s: string, words: seq<string>) {
    exists i | 0 <= i < |words| :: Contains(s, words[i])
  }

  predicate EndsWithAny(s: string, words: seq<string>) {
    exists i | 0 <= i < |words| :: |words[i]| <= |s| && s[|s| - |words[i]|..] == words[i]
  }

  predicate IsAlnum(c: char) {
    'a' <= c <= 'z' || '0' <= c <= '9'
  }

  function OnlyAlnum(s: string): string {
    if s == [] then [] else (if IsAlnum(s[0]) then [s[0]] else []) + OnlyAlnum(s[1..])
  }

  function Fold(s: string, leaves: Leaves): string {
    if s == [] then [] else leaves.fold(s[0]) + Fold(s[1..], leaves)
  }

  /** `_normalize_export_key`. */
  function NormalizeKey(s: string, leaves: Leaves): string {
    OnlyAlnum(Fold(s, leaves))
  }

  /** `_is_reasoning_payload_key`. */
  predicate IsPayloadKey(key: string, leaves: Leaves) {
    var name := NormalizeKey(key, leaves);
    if name == "" then false
    else if name in CONTAINER_KEYS || name in OPAQUE_KEYS then true
    else if Contains(name, "chainofthought") || Contains(name, "internalmonologue") then true
    else if !ContainsAny(name, FAMILIES) then false
    else if ContainsAny(name, SENSITIVE_MARKERS) then true
    else if name in {"reasoning", "thinking", "thought", "thoughts"} then true
    else !ContainsAny(name, DIAGNOSTIC_MARKERS)
  }

  predicate IsBlockType(name: string) {
    || name in BLOCK_TYPES
    || name == "signaturedelta"
    || (ContainsAny(name, FAMILIES) && (ContainsAny(name, SENSITIVE_MARKERS) || EndsWithAny(name, BLOCK_ENDINGS)))
  }

  function Get(entries: seq<Entry>, key: string): Option<Json> {
    if |entries| == 0 then None
    else if entries[0].key == key then Some(entries[0].value)
    else Get(entries[1..], key)
  }

  /** `str(value or "")`. */
  function TextOf(v: Option<Json>, leaves: Leaves): string {
    match v
    case None => ""
    case Some(Null) => ""
    case Some(Bool(b)) => if b then "True" else ""
    case Some(Num(text, zero)) => if zero then "" else text
    case Some(Str(s)) => s
    case Some(Arr(items)) => if |items| == 0 then "" else leaves.repr(v.value)
    case Some(Obj(entries)) => if |entries| == 0 then "" else leaves.repr(v.value)
  }

  /** `_is_provider_reasoning_block`. */
  predicate IsBlock(v: Json, leaves: Leaves) {
    v.Obj? && (
      || IsBlockType(NormalizeKey(TextOf(Get(v.entries, "type"), leaves), leaves))
      || Get(v.entries, "thought") == Some(Bool(true)))
  }

  // ------------------------------------------------------------- key policy

  lemma {:induction false} FoldConcat(a: string, b: string, leaves: Leaves)
    ensures Fold(a + b, leaves) == Fold(a, leaves) + Fold(b, leaves)
  {
    if a == [] {
      assert a + b == b;
    } else {
      FoldConcat(a[1..], b, leaves);
      assert (a + b)[1..] == a[1..] + b && (a + b)[0] == a[0];
      ConcatAssociates(leaves.fold(a[0]), Fold(a[1..], leaves), Fold(b, leaves));
    }
  }

  lemma {:induction false} OnlyAlnumConcat(a: string, b: string)
    ensures OnlyAlnum(a + b) == OnlyAlnum(a) + OnlyAlnum(b)
  {
    if a == [] {
      assert a + b == b;
    } else {
      hide IsAlnum;
      OnlyAlnumConcat(a[1..], b);
      assert (a + b)[1..] == a[1..] + b && (a + b)[0] == a[0];
      ConcatAssociates(if IsAlnum(a[0]) then [a[0]] else [], OnlyAlnum(a[1..]), OnlyAlnum(b));
    }
  }

  lemma NormalizeConcat(a: string, b: string, leaves: Leaves)
    ensures NormalizeKey(a + b, leaves) == NormalizeKey(a, leaves) + NormalizeKey(b, leaves)
  {
    FoldConcat(a, b, leaves);
    OnlyAlnumConcat(Fold(a, leaves), Fold(b, leaves));
  }

  lemma ContainsExtends(before: string, text: string, after: string, words: seq<string>)
    requires ContainsAny(text, words)
    ensures ContainsAny(before + text + after, words)
  {
    var w :| 0 <= w < |words| && Contains(text, words[w]);
    var i :| 0 <= i <= |text| && words[w] <= text[i..];
    var longer := before + text + after;
    assert longer[|before| + i..] == text[i..] + after;
  }

  /** A key with a content marker of the reasoning family is dropped, and no text
      around it, diagnostic or not, brings it back. */
  lemma ContentMarkersWin(before: string, key: string, after: string, leaves: Leaves)
    requires
      var name := NormalizeKey(key, leaves);
      ContainsAny(name, FAMILIES) && ContainsAny(name, SENSITIVE_MARKERS)
    ensures IsPayloadKey(key, leaves) && IsPayloadKey(before + key + after, leaves)
  {
    var a, name, b := NormalizeKey(before, leaves), NormalizeKey(key, leaves), NormalizeKey(after, leaves);
    NormalizeConcat(before, key, leaves);
    NormalizeConcat(before + key, after, leaves);
    ContainsExtends(a, name, b, FAMILIES);
    ContainsExtends(a, name, b, SENSITIVE_MARKERS);
    FamilyIsNotEmpty(name);
    FamilyIsNotEmpty(a + name + b);
    hide NormalizeKey, ContainsAny, Contains;
  }

  lemma FamilyIsNotEmpty(name: string)
    requires ContainsAny(name, FAMILIES)
    ensures name != ""
  {
  }

  // ---------------------------------------------------------------- redaction

  /** `_redact_jsonable` on parsed JSON. */
  function Redact(v: Json, key: Option<string>, leaves: Leaves): Json
    decreases v
  {
    match v
    case Null => v
    case Bool(_) => v
    case Num(_, _) => v
    case Str(s) => Str(leaves.sanitize(key, s))
    case Arr(items) => Arr(RedactItems(items, key, leaves))
    case Obj(entries) => if IsBlock(v, leaves) then Obj([]) else Obj(RedactEntries(entries, leaves))
  }

  function RedactItems(items: seq<Json>, key: Option<string>, leaves: Leaves): seq<Json>
    decreases items
  {
    if |items| == 0 then []
    else
      var rest := RedactItems(items[1..], key, leaves);
      if IsBlock(items[0], leaves) then rest else [Redact(items[0], key, leaves)] + rest
  }

  predicate Drops(e: Entry, leaves: Leaves) {
    IsPayloadKey(e.key, leaves) || IsBlock(e.value, leaves)
  }

  function RedactEntries(entries: seq<Entry>, leaves: Leaves): seq<Entry>
    decreases entries
  {
    if |entries| == 0 then []
    else
      var rest, e := RedactEntries(entries[1..], leaves), entries[0];
      if Drops(e, leaves) then rest
      else [Entry(e.key, Redact(e.value, Some(e.key), leaves))] + rest
  }

  // ------------------------------------------------------ about the leaves

  ghost predicate AsciiFolds(leaves: Leaves) {
    forall c: char | 'a' <= c <= 'z' :: leaves.fold(c) == [c]
  }

  ghost predicate SanitizesOnce(leaves: Leaves) {
    forall k, s :: leaves.sanitize(k, leaves.sanitize(k, s)) == leaves.sanitize(k, s)
  }

  /** Sanitizing does not turn the name of a type into a flagged one. */
  ghost predicate KeepsTypeNames(leaves: Leaves) {
    forall s ::
      IsBlockType(NormalizeKey(leaves.sanitize(Some("type"), s), leaves)) ==> IsBlockType(NormalizeKey(s, leaves))
  }

  // ------------------------------------------------------- nothing flagged is left

  /** No flagged key and no reasoning block at any depth. */
  predicate Clean(v: Json, leaves: Leaves)
    decreases v
  {
    match v
    case Arr(items) => AllClean(items, leaves)
    case Obj(entries) => !IsBlock(v, leaves) && EntriesClean(entries, leaves)
    case _ => true
  }

  predicate AllClean(items: seq<Json>, leaves: Leaves)
    decreases items
  {
    |items| == 0 || (Clean(items[0], leaves) && AllClean(items[1..], leaves))
  }

  predicate EntriesClean(entries: seq<Entry>, leaves: Leaves)
    decreases entries
  {
    |entries| == 0
    || (!IsPayloadKey(entries[0].key, leaves) && Clean(entries[0].value, leaves) && EntriesClean(entries[1..], leaves))
  }

  /** The `type` of a mapping, unless it is a reasoning block and is dropped. */
  function KeptType(entries: seq<Entry>, leaves: Leaves): Option<Json> {
    if |entries| == 0 then None
    else if entries[0].key == "type" && !IsBlock(entries[0].value, leaves) then Some(entries[0].value)
    else KeptType(entries[1..], leaves)
  }

  predicate NamesBlock(text: string, leaves: Leaves) {
    IsBlockType(NormalizeKey(text, leaves))
  }

  /** The type of a mapping does not turn it into a reasoning block: it has none that is
      kept; or it is a string whose sanitized text is unflagged; or it is a list or
      mapping whose own redaction has an unflagged text; or it is another scalar. */
  predicate TypeStays(entries: seq<Entry>, leaves: Leaves) {
    match KeptType(entries, leaves)
    case None => true
    case Some(Str(s)) => !NamesBlock(leaves.sanitize(Some("type"), s), leaves)
    case Some(Arr(items)) => !NamesBlock(TextOf(Some(Arr(RedactItems(items, Some("type"), leaves))), leaves), leaves)
    case Some(Obj(inner)) => !NamesBlock(TextOf(Some(Obj(RedactEntries(inner, leaves))), leaves), leaves)
    case Some(t) => !NamesBlock(TextOf(Some(t), leaves), leaves)
  }

  /** So for every mapping that is kept. */
  predicate TypesStay(v: Json, leaves: Leaves)
    decreases v
  {
    match v
    case Arr(items) => ItemTypesStay(items, leaves)
    case Obj(entries) => IsBlock(v, leaves) || (TypeStays(entries, leaves) && EntryTypesStay(entries, leaves))
    case _ => true
  }

  predicate ItemTypesStay(items: seq<Json>, leaves: Leaves)
    decreases items
  {
    |items| == 0
    || ((IsBlock(items[0], leaves) || TypesStay(items[0], leaves)) && ItemTypesStay(items[1..], leaves))
  }

  predicate EntryTypesStay(entries: seq<Entry>, leaves: Leaves)
    decreases entries
  {
    |entries| == 0
    || ((Drops(entries[0], leaves) || TypesStay(entries[0].value, leaves)) && EntryTypesStay(entries[1..], leaves))
  }

  lemma TypeIsKept(leaves: Leaves)
    requires AsciiFolds(leaves)
    ensures !IsPayloadKey("type", leaves) && IsPayloadKey("thought", leaves)
  {
    FoldKeepsLower("type", leaves);
    FoldKeepsLower("thought", leaves);
    assert "thought" <= "thought"[0..] && FAMILIES[2] == "thought";
  }

  lemma {:induction false} FoldKeepsLower(s: string, leaves: Leaves)
    requires AsciiFolds(leaves) && forall i | 0 <= i < |s| :: 'a' <= s[i] <= 'z'
    ensures NormalizeKey(s, leaves) == s
  {
    if s != [] {
      FoldKeepsLower(s[1..], leaves);
      assert [s[0]] + s[1..] == s;
      assert leaves.fold(s[0]) == [s[0]];
      assert ([s[0]] + Fold(s[1..], leaves))[1..] == Fold(s[1..], leaves);
    }
  }

  lemma {:induction false} RedactedGet(entries: seq<Entry>, key: string, leaves: Leaves)
    ensures IsPayloadKey(key, leaves) ==> Get(RedactEntries(entries, leaves), key) == None
    ensures
      !IsPayloadKey(key, leaves) && Get(entries, key).Some? && !IsBlock(Get(entries, key).value, leaves) ==>
        Get(RedactEntries(entries, leaves), key) == Some(Redact(Get(entries, key).value, Some(key), leaves))
    ensures Get(entries, key).None? ==> Get(RedactEntries(entries, leaves), key).None?
  {
    hide IsPayloadKey, IsBlock, Redact;
    if |entries| > 0 {
      RedactedGet(entries[1..], key, leaves);
      var e, rest := entries[0], RedactEntries(entries[1..], leaves);
      if !Drops(e, leaves) {
        assert ([Entry(e.key, Redact(e.value, Some(e.key), leaves))] + rest)[1..] == rest;
      }
    }
  }

  lemma {:induction false} KeptTypeIsLeft(entries: seq<Entry>, leaves: Leaves)
    requires !IsPayloadKey("type", leaves)
    ensures
      Get(RedactEntries(entries, leaves), "type") ==
        match KeptType(entries, leaves)
        case None => None
        case Some(t) => Some(Redact(t, Some("type"), leaves))
    ensures KeptType(entries, leaves).Some? ==> !IsBlock(KeptType(entries, leaves).value, leaves)
  {
    hide IsPayloadKey, IsBlock, Redact;
    if |entries| > 0 {
      KeptTypeIsLeft(entries[1..], leaves);
      var e, rest := entries[0], RedactEntries(entries[1..], leaves);
      if !Drops(e, leaves) {
        assert ([Entry(e.key, Redact(e.value, Some(e.key), leaves))] + rest)[1..] == rest;
      }
    }
  }

  /** The condition on the input says what type text the output has. */
  lemma TypeStaysExactlyWhen(entries: seq<Entry>, leaves: Leaves)
    requires !IsPayloadKey("type", leaves)
    ensures TypeStays(entries, leaves) <==>
            !NamesBlock(TextOf(Get(RedactEntries(entries, leaves), "type"), leaves), leaves)
  {
    NoTypeIsNoBlockType(leaves);
    KeptTypeIsLeft(entries, leaves);
    hide IsPayloadKey, IsBlock, RedactEntries, RedactItems, Get, IsBlockType, NormalizeKey;
  }

  lemma NoTypeIsNoBlockType(leaves: Leaves)
    ensures !IsBlockType(NormalizeKey("", leaves))
  {
  }

  /** What redaction returns is a reasoning block exactly when it kept a mapping whose
      type turned into a flagged one. */
  lemma RedactedIsBlockExactlyWhen(v: Json, key: Option<string>, leaves: Leaves)
    requires AsciiFolds(leaves)
    ensures
      IsBlock(Redact(v, key, leaves), leaves) <==> v.Obj? && !IsBlock(v, leaves) && !TypeStays(v.entries, leaves)
    ensures IsBlock(Redact(v, key, leaves), leaves) ==> |Redact(v, key, leaves).entries| > 0
  {
    NoTypeIsNoBlockType(leaves);
    if v.Obj? && !IsBlock(v, leaves) {
      TypeIsKept(leaves);
      RedactedGet(v.entries, "thought", leaves);
      TypeStaysExactlyWhen(v.entries, leaves);
    }
    hide IsBlockType, NormalizeKey, IsPayloadKey, RedactEntries, TypeStays;
  }

  /** The output is clean exactly when the types that stay do. */
  lemma {:induction false} CleanExactlyWhen(v: Json, key: Option<string>, leaves: Leaves)
    requires AsciiFolds(leaves)
    ensures Clean(Redact(v, key, leaves), leaves) <==> TypesStay(v, leaves)
    decreases v
  {
    hide IsBlock, IsPayloadKey, AsciiFolds, TypeStays;
    match v {
      case Arr(items) => ItemsCleanExactlyWhen(items, key, leaves);
      case Obj(entries) =>
        RedactedIsBlockExactlyWhen(v, key, leaves);
        if !IsBlock(v, leaves) { EntriesCleanExactlyWhen(entries, leaves); }
      case _ =>
    }
  }

  lemma {:induction false} ItemsCleanExactlyWhen(items: seq<Json>, key: Option<string>, leaves: Leaves)
    requires AsciiFolds(leaves)
    ensures AllClean(RedactItems(items, key, leaves), leaves) <==> ItemTypesStay(items, leaves)
    decreases items
  {
    hide IsBlock, IsPayloadKey, AsciiFolds, Redact, TypesStay;
    if |items| > 0 {
      CleanExactlyWhen(items[0], key, leaves);
      ItemsCleanExactlyWhen(items[1..], key, leaves);
      var rest := RedactItems(items[1..], key, leaves);
      assert ([Redact(items[0], key, leaves)] + rest)[1..] == rest;
    }
  }

  lemma {:induction false} EntriesCleanExactlyWhen(entries: seq<Entry>, leaves: Leaves)
    requires AsciiFolds(leaves)
    ensures EntriesClean(RedactEntries(entries, leaves), leaves) <==> EntryTypesStay(entries, leaves)
    decreases entries
  {
    hide IsBlock, IsPayloadKey, AsciiFolds, Redact, TypesStay;
    if |entries| > 0 {
      CleanExactlyWhen(entries[0].value, Some(entries[0].key), leaves);
      EntriesCleanExactlyWhen(entries[1..], leaves);
      var e, rest := entries[0], RedactEntries(entries[1..], leaves);
      assert ([Entry(e.key, Redact(e.value, Some(e.key), leaves))] + rest)[1..] == rest;
    }
  }

  // ------------------------------------------------------------- idempotence

  lemma {:induction false} RedactionShortens(items: seq<Json>, entries: seq<Entry>, key: Option<string>, leaves: Leaves)
    ensures |RedactItems(items, key, leaves)| <= |items| && |RedactEntries(entries, leaves)| <= |entries|
    decreases |items| + |entries|
  {
    hide IsBlock, IsPayloadKey, Redact;
    if |items| > 0 { RedactionShortens(items[1..], entries, key, leaves); }
    if |entries| > 0 { RedactionShortens(items, entries[1..], key, leaves); }
  }

  /** Redacting twice is redacting once exactly when the types that stay do. */
  lemma {:induction false} TwiceIsOnceExactlyWhen(v: Json, key: Option<string>, leaves: Leaves)
    requires AsciiFolds(leaves) && SanitizesOnce(leaves)
    ensures Redact(Redact(v, key, leaves), key, leaves) == Redact(v, key, leaves) <==> TypesStay(v, leaves)
    decreases v
  {
    hide IsBlock, IsPayloadKey, AsciiFolds, TypeStays;
    match v {
      case Arr(items) => ItemsTwice(items, key, leaves);
      case Obj(entries) =>
        RedactedIsBlockExactlyWhen(v, key, leaves);
        if !IsBlock(v, leaves) { EntriesTwice(entries, leaves); }
      case _ =>
    }
  }

  lemma {:induction false} ItemsTwice(items: seq<Json>, key: Option<string>, leaves: Leaves)
    requires AsciiFolds(leaves) && SanitizesOnce(leaves)
    ensures RedactItems(RedactItems(items, key, leaves), key, leaves) == RedactItems(items, key, leaves)
            <==> ItemTypesStay(items, leaves)
    decreases items
  {
    hide IsBlock, IsPayloadKey, AsciiFolds, SanitizesOnce, Redact, TypeStays;
    if |items| > 0 {
      var rest := RedactItems(items[1..], key, leaves);
      ItemsTwice(items[1..], key, leaves);
      if !IsBlock(items[0], leaves) {
        var first := Redact(items[0], key, leaves);
        TwiceIsOnceExactlyWhen(items[0], key, leaves);
        RedactedIsBlockExactlyWhen(items[0], key, leaves);
        RedactionShortens(rest, [], key, leaves);
        assert ([first] + rest)[1..] == rest;
        SameHeadSameTail(first, rest, Redact(first, key, leaves), RedactItems(rest, key, leaves));
      }
    }
  }

  lemma SameHeadSameTail<T>(a: T, s: seq<T>, b: T, t: seq<T>)
    ensures [b] + t == [a] + s <==> a == b && s == t
  {
    if [b] + t == [a] + s { assert ([b] + t)[0] == b && ([b] + t)[1..] == t && ([a] + s)[1..] == s; }
  }

  lemma {:induction false} EntriesTwice(entries: seq<Entry>, leaves: Leaves)
    requires AsciiFolds(leaves) && SanitizesOnce(leaves)
    ensures RedactEntries(RedactEntries(entries, leaves), leaves) == RedactEntries(entries, leaves)
            <==> EntryTypesStay(entries, leaves)
    decreases entries
  {
    hide IsBlock, IsPayloadKey, AsciiFolds, SanitizesOnce, Redact, TypeStays;
    if |entries| > 0 {
      var e, rest := entries[0], RedactEntries(entries[1..], leaves);
      EntriesTwice(entries[1..], leaves);
      if !Drops(e, leaves) {
        var value := Redact(e.value, Some(e.key), leaves);
        var first, again := Entry(e.key, value), Entry(e.key, Redact(value, Some(e.key), leaves));
        TwiceIsOnceExactlyWhen(e.value, Some(e.key), leaves);
        RedactedIsBlockExactlyWhen(e.value, Some(e.key), leaves);
        RedactionShortens([], rest, None, leaves);
        assert ([first] + rest)[1..] == rest;
        SameHeadSameTail(first, rest, again, RedactEntries(rest, leaves));
      }
    }
  }

  // ----------------------------------------------------------- scalar types

  predicate ScalarType(v: Json) {
    v.Obj? ==> match Get(v.entries, "type") case Some(Arr(_)) => false case Some(Obj(_)) => false case _ => true
  }

  /** Every `type` field is a scalar. */
  predicate TypesAreScalar(v: Json)
    decreases v
  {
    match v
    case Arr(items) => forall i | 0 <= i < |items| :: TypesAreScalar(items[i])
    case Obj(entries) => ScalarType(v) && forall i | 0 <= i < |entries| :: TypesAreScalar(entries[i].value)
    case _ => true
  }

  lemma {:induction false} ScalarIsKeptType(entries: seq<Entry>, leaves: Leaves)
    requires match Get(entries, "type") case Some(Arr(_)) => false case Some(Obj(_)) => false case _ => true
    ensures KeptType(entries, leaves) == Get(entries, "type")
  {
    if |entries| > 0 && entries[0].key != "type" { ScalarIsKeptType(entries[1..], leaves); }
  }

  lemma ScalarTypeStays(v: Json, leaves: Leaves)
    requires AsciiFolds(leaves) && KeepsTypeNames(leaves)
    requires v.Obj? && ScalarType(v) && !IsBlock(v, leaves)
    ensures TypeStays(v.entries, leaves)
  {
    NoTypeIsNoBlockType(leaves);
    TypeIsKept(leaves);
    ScalarIsKeptType(v.entries, leaves);
    hide IsBlockType, NormalizeKey, IsPayloadKey, Get, RedactEntries, KeptType;
  }

  /** With scalar types and sanitizing that keeps type names all types stay, so the
      output is clean and redacting it again changes nothing. */
  lemma {:induction false} ScalarTypesStay(v: Json, leaves: Leaves)
    requires AsciiFolds(leaves) && KeepsTypeNames(leaves) && TypesAreScalar(v)
    ensures TypesStay(v, leaves)
    decreases v
  {
    hide IsBlock, AsciiFolds, KeepsTypeNames, ScalarType, TypeStays;
    match v {
      case Arr(items) => ScalarItemTypesStay(items, leaves);
      case Obj(entries) =>
        if !IsBlock(v, leaves) {
          ScalarTypeStays(v, leaves);
          ScalarEntryTypesStay(entries, leaves);
        }
      case _ =>
    }
  }

  lemma {:induction false} ScalarItemTypesStay(items: seq<Json>, leaves: Leaves)
    requires AsciiFolds(leaves) && KeepsTypeNames(leaves) && forall i | 0 <= i < |items| :: TypesAreScalar(items[i])
    ensures ItemTypesStay(items, leaves)
    decreases items
  {
    hide IsBlock, AsciiFolds, KeepsTypeNames;
    if |items| > 0 {
      ScalarTypesStay(items[0], leaves);
      ScalarItemTypesStay(items[1..], leaves);
    }
  }

  lemma {:induction false} ScalarEntryTypesStay(entries: seq<Entry>, leaves: Leaves)
    requires AsciiFolds(leaves) && KeepsTypeNames(leaves)
    requires forall i | 0 <= i < |entries| :: TypesAreScalar(entries[i].value)
    ensures EntryTypesStay(entries, leaves)
    decreases entries
  {
    hide IsBlock, IsPayloadKey, AsciiFolds, KeepsTypeNames;
    if |entries| > 0 {
      ScalarTypesStay(entries[0].value, leaves);
      ScalarEntryTypesStay(entries[1..], leaves);
    }
  }

  lemma ContainedCharacter(text: string, word: string, c: char)
    requires Contains(text, word) && c in word
    ensures c in text
  {
    var i :| 0 <= i <= |text| && word <= text[i..];
    var k :| 0 <= k < |word| && word[k] == c;
    assert text[i + k] == text[i..][k] == c;
  }

  /** The text of a list with the two names in it is no flagged type. */
  lemma TwoNamesAreNoBlockType()
    ensures !IsBlockType("reasoningtypethinking")
  {
    var text := "reasoningtypethinking";
    var telling := ['b', 'c', 'c', 'd', 'c', 'm', 'w', 'd', 'u', 'u', 'x'];
    forall i | 0 <= i < |SENSITIVE_MARKERS| ensures !Contains(text, SENSITIVE_MARKERS[i]) {
      assert telling[i] in SENSITIVE_MARKERS[i] && telling[i] !in text;
      if Contains(text, SENSITIVE_MARKERS[i]) { ContainedCharacter(text, SENSITIVE_MARKERS[i], telling[i]); }
    }
    assert text[20] == 'g';
  }

  /** A list as type can lose a block inside and thereby become a flagged type: then a
      reasoning block is left, and redacting again removes more. */
  lemma ListedTypeBecomesFlagged(leaves: Leaves)
    requires AsciiFolds(leaves) && SanitizesOnce(leaves)
    requires leaves.sanitize(Some("type"), "reasoning") == "reasoning"
    requires
      var inner := Obj([Entry("type", Str("thinking"))]);
      && NormalizeKey(leaves.repr(Arr([Str("reasoning"), inner])), leaves) == "reasoningtypethinking"
      && NormalizeKey(leaves.repr(Arr([Str("reasoning")])), leaves) == "reasoning"
    ensures
      var inner := Obj([Entry("type", Str("thinking"))]);
      var v := Obj([Entry("type", Arr([Str("reasoning"), inner]))]);
      && !IsBlock(v, leaves) && Redact(v, None, leaves) == Obj([Entry("type", Arr([Str("reasoning")]))])
      && !Clean(Redact(v, None, leaves), leaves)
      && Redact(Redact(v, None, leaves), None, leaves) == Obj([])
  {
    var inner := Obj([Entry("type", Str("thinking"))]);
    var items := [Str("reasoning"), inner];
    TypeIsKept(leaves);
    TwoNamesAreNoBlockType();
    ListLosesBlock(leaves);
    assert IsBlockType("reasoning");
    hide IsBlockType, NormalizeKey, IsPayloadKey, RedactItems;
    OneTypeEntry(Arr(items), leaves);
    OneTypeEntry(Arr([Str("reasoning")]), leaves);
    hide IsBlock, TextOf;
    RedactOneEntry(Arr(items), leaves);
  }

  /** A mapping with a type and nothing else is a block exactly for a flagged type. */
  lemma OneTypeEntry(t: Json, leaves: Leaves)
    ensures IsBlock(Obj([Entry("type", t)]), leaves) <==> IsBlockType(NormalizeKey(TextOf(Some(t), leaves), leaves))
  {
    hide IsBlockType, NormalizeKey, TextOf;
    var entries := [Entry("type", t)];
    assert entries[1..] == [] && Get(entries[1..], "thought").None?;
    assert Get(entries, "type") == Some(t) && |"type"| != |"thought"| && Get(entries, "thought").None?;
  }

  lemma RedactOneEntry(t: Json, leaves: Leaves)
    requires !IsPayloadKey("type", leaves) && !IsBlock(t, leaves) && !IsBlock(Obj([Entry("type", t)]), leaves)
    ensures Redact(Obj([Entry("type", t)]), None, leaves) == Obj([Entry("type", Redact(t, Some("type"), leaves))])
  {
    hide IsBlock, IsPayloadKey;
    var entries := [Entry("type", t)];
    assert entries[1..] == [] && RedactEntries(entries[1..], leaves) == [];
    assert RedactEntries(entries, leaves) == [Entry("type", Redact(t, Some("type"), leaves))];
  }

  lemma ListLosesBlock(leaves: Leaves)
    requires AsciiFolds(leaves) && leaves.sanitize(Some("type"), "reasoning") == "reasoning"
    ensures
      var inner := Obj([Entry("type", Str("thinking"))]);
      RedactItems([Str("reasoning"), inner], Some("type"), leaves) == [Str("reasoning")]
  {
    var inner := Obj([Entry("type", Str("thinking"))]);
    FoldKeepsLower("thinking", leaves);
    OneTypeEntry(Str("thinking"), leaves);
    assert IsBlockType("thinking");
    hide IsBlockType, NormalizeKey, IsPayloadKey;
    assert IsBlock(inner, leaves);
    hide IsBlock;
    var items, last := [Str("reasoning"), inner], [inner];
    assert items[1..] == last && last[1..] == [] && RedactItems(last[1..], Some("type"), leaves) == [];
    assert RedactItems(last, Some("type"), leaves) == [];
    assert !IsBlock(items[0], leaves) by { StringIsNoBlock("reasoning", leaves); }
  }

  lemma StringIsNoBlock(s: string, leaves: Leaves)
    ensures !IsBlock(Str(s), leaves)
  {
  }

  // ----------------------------------------------------- what is not flagged stays

  datatype Step = Key(name: string) | Index(i: nat)

  function At(v: Json, path: seq<Step>): Option<Json>
    decreases |path|
  {
    if |path| == 0 then Some(v)
    else
      match (path[0], v)
      case (Key(name), Obj(entries)) =>
        (match Get(entries, name) case Some(w) => At(w, path[1..]) case None => None)
      case (Index(i), Arr(items)) => if i < |items| then At(items[i], path[1..]) else None
      case _ => None
  }

  /** The path leads through no reasoning block and over no flagged key. */
  predicate Open(v: Json, path: seq<Step>, leaves: Leaves)
    decreases |path|
  {
    && !IsBlock(v, leaves)
    && (|path| > 0 ==>
          match (path[0], v)
          case (Key(name), Obj(entries)) =>
            !IsPayloadKey(name, leaves)
            && (match Get(entries, name) case Some(w) => Open(w, path[1..], leaves) case None => false)
          case (Index(i), Arr(items)) => i < |items| && Open(items[i], path[1..], leaves)
          case _ => false)
  }

  /** How many of the first n items stay. */
  function Staying(items: seq<Json>, n: nat, leaves: Leaves): nat
    requires n <= |items|
  {
    if n == 0 then 0 else Staying(items, n - 1, leaves) + if IsBlock(items[n - 1], leaves) then 0 else 1
  }

  /** The same place after redaction: dropped items shift the ones behind them. */
  function Shifted(v: Json, path: seq<Step>, leaves: Leaves): seq<Step>
    requires Open(v, path, leaves)
    decreases |path|
  {
    if |path| == 0 then []
    else
      match path[0]
      case Key(name) => [path[0]] + Shifted(Get(v.entries, name).value, path[1..], leaves)
      case Index(i) => [Index(Staying(v.items, i, leaves))] + Shifted(v.items[i], path[1..], leaves)
  }

  /** The key strings are sanitized under at the end of the path. */
  function KeyAfter(key: Option<string>, path: seq<Step>): Option<string>
    decreases |path|
  {
    if |path| == 0 then key
    else
      var next := match path[0] case Key(name) => Some(name) case Index(_) => key;
      KeyAfter(next, path[1..])
  }

  lemma {:induction false} StayingFromFront(items: seq<Json>, n: nat, leaves: Leaves)
    requires 0 < n <= |items|
    ensures Staying(items, n, leaves) == (if IsBlock(items[0], leaves) then 0 else 1) + Staying(items[1..], n - 1, leaves)
  {
    hide IsBlock;
    if n > 1 { StayingFromFront(items, n - 1, leaves); }
  }

  lemma {:induction false} RedactedItemAt(items: seq<Json>, i: nat, key: Option<string>, leaves: Leaves)
    requires i < |items| && !IsBlock(items[i], leaves)
    ensures
      var r, k := RedactItems(items, key, leaves), Staying(items, i, leaves);
      k < |r| && r[k] == Redact(items[i], key, leaves)
    decreases items
  {
    hide IsBlock, Redact;
    if i > 0 {
      RedactedItemAt(items[1..], i - 1, key, leaves);
      StayingFromFront(items, i, leaves);
    }
  }

  /** A value whose enclosing keys and mappings are all unflagged is still there, at
      its shifted place, redacted in itself only. */
  lemma {:induction false} OpenValueIsKept(v: Json, path: seq<Step>, key: Option<string>, leaves: Leaves)
    requires Open(v, path, leaves)
    ensures At(v, path).Some?
    ensures At(Redact(v, key, leaves), Shifted(v, path, leaves))
         == Some(Redact(At(v, path).value, KeyAfter(key, path), leaves))
    decreases |path|
  {
    hide IsBlock, IsPayloadKey, RedactItems, RedactEntries;
    if |path| > 0 {
      match path[0] {
        case Key(name) =>
          var w := Get(v.entries, name).value;
          OpenValueIsKept(w, path[1..], Some(name), leaves);
          RedactedGet(v.entries, name, leaves);
          assert Shifted(v, path, leaves)[1..] == Shifted(w, path[1..], leaves);
        case Index(i) =>
          OpenValueIsKept(v.items[i], path[1..], key, leaves);
          RedactedItemAt(v.items, i, key, leaves);
          assert Shifted(v, path, leaves)[1..] == Shifted(v.items[i], path[1..], leaves);
      }
    }
  }
}
