/** Which keys and mappings an export may hold, name by name, and that no others are left at
    any depth. */
module RedactionPolicy {
  import opened Prelude
  import opened PyText
  import opened Redaction

  // ------------------------------------------------------------------- names

  /** State a provider wants back: containers of it and opaque values. */
  ghost predicate Continues(name: string) {
    || name == "providermetadata" || name == "sylliptorprovidermetadata"
    || name == "cachedcontent" || name == "continuation" || name == "continuationdata"
    || name == "continuationpayload" || name == "continuationstate" || name == "continuationtoken"
    || name == "encryptedcontent" || name == "encryptedreasoning" || name == "encryptedthinking"
    || name == "opaquecontinuation" || name == "opaquepayload" || name == "opaquestate"
    || name == "previousresponseid" || name == "redactedcontent" || name == "redactedthinking"
  }

  ghost predicate InFamily(name: string) {
    Contains(name, "reasoning") || Contains(name, "thinking") || Contains(name, "thought")
  }

  ghost predicate MarksContent(name: string) {
    || Contains(name, "block") || Contains(name, "chunk") || Contains(name, "content") || Contains(name, "detail")
    || Contains(name, "encrypted") || Contains(name, "monologue") || Contains(name, "raw") || Contains(name, "redacted")
    || Contains(name, "signature") || Contains(name, "summary") || Contains(name, "text")
  }

  ghost predicate MarksDiagnostic(name: string) {
    || Contains(name, "active") || Contains(name, "adapter") || Contains(name, "available") || Contains(name, "availability")
    || Contains(name, "budget") || Contains(name, "capability") || Contains(name, "confidence") || Contains(name, "config")
    || Contains(name, "count") || Contains(name, "display") || Contains(name, "effort") || Contains(name, "enabled")
    || Contains(name, "format") || Contains(name, "include") || Contains(name, "kind") || Contains(name, "level")
    || Contains(name, "mode") || Contains(name, "policy") || Contains(name, "requested") || Contains(name, "source")
    || Contains(name, "support") || Contains(name, "token") || Contains(name, "trace") || Contains(name, "type")
  }

  /** A name that may not be exported: continuation state, hidden reasoning, and all of the
      reasoning family but diagnostics that mark no content. */
  ghost predicate Forbidden(name: string) {
    || Continues(name) || Contains(name, "chainofthought") || Contains(name, "internalmonologue")
    || name == "reasoning" || name == "thinking" || name == "thought" || name == "thoughts"
    || (InFamily(name) && (MarksContent(name) || !MarksDiagnostic(name)))
  }

  lemma OneOfWords(name: string, words: seq<string>, k: nat)
    requires k < |words|
    ensures Contains(name, words[k]) ==> ContainsAny(name, words)
  {
    hide Contains;
  }

  lemma FamilyDecided(name: string)
    ensures ContainsAny(name, FAMILIES) <==> InFamily(name)
  {
    hide Contains;
    OneOfWords(name, FAMILIES, 0);
    OneOfWords(name, FAMILIES, 1);
    OneOfWords(name, FAMILIES, 2);
  }

  lemma ContentDecided(name: string)
    ensures ContainsAny(name, SENSITIVE_MARKERS) <==> MarksContent(name)
  {
    hide Contains;
    forall k: nat | k < |SENSITIVE_MARKERS| { OneOfWords(name, SENSITIVE_MARKERS, k); }
    assert SENSITIVE_MARKERS[0] == "block" && SENSITIVE_MARKERS[1] == "chunk" && SENSITIVE_MARKERS[2] == "content"
        && SENSITIVE_MARKERS[3] == "detail" && SENSITIVE_MARKERS[4] == "encrypted" && SENSITIVE_MARKERS[5] == "monologue"
        && SENSITIVE_MARKERS[6] == "raw" && SENSITIVE_MARKERS[7] == "redacted" && SENSITIVE_MARKERS[8] == "signature"
        && SENSITIVE_MARKERS[9] == "summary" && SENSITIVE_MARKERS[10] == "text";
  }

  lemma DiagnosticDecided(name: string)
    ensures ContainsAny(name, DIAGNOSTIC_MARKERS) <==> MarksDiagnostic(name)
  {
    hide Contains;
    var words := DIAGNOSTIC_MARKERS;
    forall k: nat | k < |words| { OneOfWords(name, words, k); }
    assert words[0] == "active" && words[1] == "adapter" && words[2] == "available" && words[3] == "availability"
        && words[4] == "budget" && words[5] == "capability" && words[6] == "confidence" && words[7] == "config";
    assert words[8] == "count" && words[9] == "display" && words[10] == "effort" && words[11] == "enabled"
        && words[12] == "format" && words[13] == "include" && words[14] == "kind" && words[15] == "level";
    assert words[16] == "mode" && words[17] == "policy" && words[18] == "requested" && words[19] == "source"
        && words[20] == "support" && words[21] == "token" && words[22] == "trace" && words[23] == "type";
  }

  /** The names of types that mark a mapping as provider reasoning. */
  ghost predicate ForbiddenType(name: string) {
    || name == "reasoning" || name == "reasoningencrypted" || name == "reasoningsummary" || name == "reasoningtext"
    || name == "redactedthinking" || name == "thinking" || name == "thinkchunk" || name == "thought"
    || name == "signaturedelta"
    || (InFamily(name) && (MarksContent(name) || Ends(name, "block") || Ends(name, "chunk") || Ends(name, "delta")
                           || Ends(name, "item") || Ends(name, "part")))
  }

  ghost predicate Ends(name: string, word: string) {
    |word| <= |name| && name[|name| - |word|..] == word
  }

  lemma EndingDecided(name: string)
    ensures EndsWithAny(name, BLOCK_ENDINGS) <==>
      Ends(name, "block") || Ends(name, "chunk") || Ends(name, "delta") || Ends(name, "item") || Ends(name, "part")
  {
    var words := BLOCK_ENDINGS;
    assert words[0] == "block" && words[1] == "chunk" && words[2] == "delta" && words[3] == "item" && words[4] == "part";
    forall k: nat | k < |words| ensures Ends(name, words[k]) ==> EndsWithAny(name, words) {}
  }

  lemma ContinuationDecided(name: string)
    ensures name in CONTAINER_KEYS || name in OPAQUE_KEYS <==> Continues(name)
  {
  }

  lemma EmptyIsAllowed()
    ensures !Continues("") && !InFamily("") && !Contains("", "chainofthought") && !Contains("", "internalmonologue")
  {
  }

  /** A key is dropped exactly when its normalized name is forbidden. */
  lemma PayloadKeyDecided(key: string, leaves: Leaves)
    ensures IsPayloadKey(key, leaves) <==> Forbidden(NormalizeKey(key, leaves))
  {
    var name := NormalizeKey(key, leaves);
    FamilyDecided(name);
    ContentDecided(name);
    DiagnosticDecided(name);
    ContinuationDecided(name);
    EmptyIsAllowed();
    hide Contains, ContainsAny, NormalizeKey, Continues, InFamily, MarksContent, MarksDiagnostic, CONTAINER_KEYS, OPAQUE_KEYS;
    NamesAreInFamily(name);
  }

  lemma NamesAreInFamily(name: string)
    ensures name == "reasoning" || name == "thinking" || name == "thought" || name == "thoughts" ==> InFamily(name)
  {
    assert "reasoning" <= "reasoning"[0..] && "thinking" <= "thinking"[0..] && "thought" <= "thought"[0..];
    assert "thought" <= "thoughts"[0..];
  }

  lemma BlockTypeDecided(name: string)
    ensures IsBlockType(name) <==> ForbiddenType(name)
  {
    FamilyDecided(name);
    ContentDecided(name);
    EndingDecided(name);
    hide Contains, ContainsAny, EndsWithAny, Ends, InFamily, MarksContent;
  }

  /** A mapping is dropped exactly when its type is forbidden or it says it is a thought. */
  ghost predicate ForbiddenMapping(v: Json, leaves: Leaves) {
    v.Obj? && (
      || ForbiddenType(NormalizeKey(TextOf(Get(v.entries, "type"), leaves), leaves))
      || Get(v.entries, "thought") == Some(Bool(true)))
  }

  lemma MappingDecided(v: Json, leaves: Leaves)
    ensures IsBlock(v, leaves) <==> ForbiddenMapping(v, leaves)
  {
    if v.Obj? { BlockTypeDecided(NormalizeKey(TextOf(Get(v.entries, "type"), leaves), leaves)); }
    hide IsBlockType, ForbiddenType, NormalizeKey, TextOf;
  }

  // ------------------------------------------------------------ normalization

  /** Letters of both cases fold to the lower one, digits to themselves, and all other
      printable ASCII characters to something that holds no letter or digit. */
  ghost predicate FoldsAscii(leaves: Leaves) {
    && (forall c: char | 'a' <= c <= 'z' || '0' <= c <= '9' :: leaves.fold(c) == [c])
    && (forall c: char | 'A' <= c <= 'Z' :: leaves.fold(c) == [(c as int + 32) as char])
    && (forall c: char | ' ' <= c <= '~' && !IsAlnum(c) && !('A' <= c <= 'Z') :: leaves.fold(c) == [c])
  }

  /** The name of an ASCII key: its letters in lower case and its digits, in order. */
  ghost function AsciiName(key: string): string {
    if key == "" then ""
    else
      var c := key[0];
      var rest := AsciiName(key[1..]);
      if 'a' <= c <= 'z' || '0' <= c <= '9' then [c] + rest
      else if 'A' <= c <= 'Z' then [(c as int + 32) as char] + rest
      else rest
  }

  lemma {:induction false} AsciiKeyNormalized(key: string, leaves: Leaves)
    requires FoldsAscii(leaves) && forall i | 0 <= i < |key| :: ' ' <= key[i] <= '~'
    ensures NormalizeKey(key, leaves) == AsciiName(key)
  {
    if key != "" {
      AsciiKeyNormalized(key[1..], leaves);
      NormalizeConcat(key[..1], key[1..], leaves);
      assert key[..1] + key[1..] == key;
      OneCharacter(key[0], leaves);
      assert key[..1] == [key[0]];
    }
  }

  lemma OneCharacter(c: char, leaves: Leaves)
    requires FoldsAscii(leaves) && ' ' <= c <= '~'
    ensures NormalizeKey([c], leaves) == AsciiName([c])
  {
    assert [c][1..] == "" && AsciiName("") == "";
    var folded := leaves.fold(c);
    assert Fold([c], leaves) == folded by { assert folded + [] == folded; }
    if 'A' <= c <= 'Z' {
      OneAlnum((c as int + 32) as char);
    } else {
      OneAlnum(c);
    }
  }

  lemma OneAlnum(c: char)
    ensures OnlyAlnum([c]) == if IsAlnum(c) then [c] else []
  {
    assert [c][1..] == "" && OnlyAlnum("") == "";
  }

  lemma {:induction false} AsciiNameConcat(a: string, b: string)
    ensures AsciiName(a + b) == AsciiName(a) + AsciiName(b)
  {
    if a == "" {
      assert a + b == b;
    } else {
      var all := a + b;
      AsciiNameConcat(a[1..], b);
      AsciiStep(all);
      AsciiStep(a);
      assert all[1..] == a[1..] + b && all[0] == a[0];
      hide AsciiName;
      ConcatAssociates(AsciiName([a[0]]), AsciiName(a[1..]), AsciiName(b));
    }
  }

  lemma AsciiStep(s: string)
    requires s != ""
    ensures AsciiName(s) == AsciiName([s[0]]) + AsciiName(s[1..])
  {
    assert [s[0]][1..] == "" && AsciiName("") == "";
  }

  lemma {:induction false} LowerIsItsName(word: string)
    requires forall i | 0 <= i < |word| :: 'a' <= word[i] <= 'z'
    ensures AsciiName(word) == word
  {
    if word != "" { LowerIsItsName(word[1..]); }
  }

  // --------------------------------------------------------- at every depth

  /** u is v or stands somewhere in it. */
  ghost predicate Inside(u: Json, v: Json)
    decreases v
  {
    || u == v
    || (v.Arr? && exists i | 0 <= i < |v.items| :: Inside(u, v.items[i]))
    || (v.Obj? && exists i | 0 <= i < |v.entries| :: Inside(u, v.entries[i].value))
  }

  ghost predicate AllowedMapping(u: Json, leaves: Leaves) {
    u.Obj? ==> !ForbiddenMapping(u, leaves) && forall i | 0 <= i < |u.entries| :: !Forbidden(NormalizeKey(u.entries[i].key, leaves))
  }

  /** No mapping in the output, at any depth, has an entry under a forbidden key: whatever
      the tree, its types and the key it stands under. */
  lemma {:induction false} NoForbiddenKeyIsLeft(v: Json, key: Option<string>, leaves: Leaves, u: Json, i: nat)
    requires Inside(u, Redact(v, key, leaves)) && u.Obj? && i < |u.entries|
    ensures !Forbidden(NormalizeKey(u.entries[i].key, leaves))
    decreases v
  {
    hide IsBlock, IsPayloadKey, Forbidden, NormalizeKey;
    match v {
      case Arr(items) =>
        var k :| 0 <= k < |RedactItems(items, key, leaves)| && Inside(u, RedactItems(items, key, leaves)[k]);
        var j := RedactedItemSource(items, key, leaves, k);
        NoForbiddenKeyIsLeft(items[j], key, leaves, u, i);
      case Obj(entries) =>
        var r := RedactEntries(entries, leaves);
        if u == Redact(v, key, leaves) {
          var j := RedactedEntrySource(entries, leaves, i);
          PayloadKeyDecided(entries[j].key, leaves);
        } else {
          var k :| 0 <= k < |r| && Inside(u, r[k].value);
          var j := RedactedEntrySource(entries, leaves, k);
          NoForbiddenKeyIsLeft(entries[j].value, Some(entries[j].key), leaves, u, i);
        }
      case _ =>
    }
  }

  lemma {:induction false} RedactedItemSource(items: seq<Json>, key: Option<string>, leaves: Leaves, k: nat) returns (j: nat)
    requires k < |RedactItems(items, key, leaves)|
    ensures j < |items| && !IsBlock(items[j], leaves) && RedactItems(items, key, leaves)[k] == Redact(items[j], key, leaves)
    decreases items
  {
    hide IsBlock, Redact;
    if IsBlock(items[0], leaves) {
      j := RedactedItemSource(items[1..], key, leaves, k);
      j := j + 1;
    } else if k == 0 {
      j := 0;
    } else {
      j := RedactedItemSource(items[1..], key, leaves, k - 1);
      j := j + 1;
    }
  }

  lemma {:induction false} RedactedEntrySource(entries: seq<Entry>, leaves: Leaves, k: nat) returns (j: nat)
    requires k < |RedactEntries(entries, leaves)|
    ensures j < |entries| && !Drops(entries[j], leaves)
    ensures RedactEntries(entries, leaves)[k] == Entry(entries[j].key, Redact(entries[j].value, Some(entries[j].key), leaves))
    decreases entries
  {
    hide Drops, Redact;
    if Drops(entries[0], leaves) {
      j := RedactedEntrySource(entries[1..], leaves, k);
      j := j + 1;
    } else if k == 0 {
      j := 0;
    } else {
      j := RedactedEntrySource(entries[1..], leaves, k - 1);
      j := j + 1;
    }
  }

  ghost predicate AllAllowed(v: Json, leaves: Leaves) {
    forall u | Inside(u, v) :: AllowedMapping(u, leaves)
  }

  lemma ArrayAllowed(v: Json, leaves: Leaves)
    requires v.Arr?
    ensures AllAllowed(v, leaves) <==> forall i | 0 <= i < |v.items| :: AllAllowed(v.items[i], leaves)
  {
    hide ForbiddenMapping, Forbidden, NormalizeKey;
    forall u, i | 0 <= i < |v.items| && Inside(u, v.items[i]) ensures Inside(u, v) {}
  }

  lemma MappingAllowed(v: Json, leaves: Leaves)
    requires v.Obj?
    ensures AllAllowed(v, leaves) <==>
      AllowedMapping(v, leaves) && forall i | 0 <= i < |v.entries| :: AllAllowed(v.entries[i].value, leaves)
  {
    hide AllowedMapping;
    assert Inside(v, v);
    forall u, i | 0 <= i < |v.entries| && Inside(u, v.entries[i].value) ensures Inside(u, v) {}
  }

  /** Clean is: every mapping at every depth is allowed. */
  lemma {:induction false} CleanDecided(v: Json, leaves: Leaves)
    ensures Clean(v, leaves) <==> AllAllowed(v, leaves)
    decreases v
  {
    hide IsBlock, IsPayloadKey, Forbidden, ForbiddenMapping, NormalizeKey;
    match v {
      case Arr(items) =>
        forall i | 0 <= i < |items| ensures Clean(items[i], leaves) <==> AllAllowed(items[i], leaves) {
          CleanDecided(items[i], leaves);
        }
        hide AllAllowed;
        AllCleanDecided(items, leaves);
        ArrayAllowed(v, leaves);
      case Obj(entries) =>
        MappingDecided(v, leaves);
        forall i | 0 <= i < |entries| ensures Clean(entries[i].value, leaves) <==> AllAllowed(entries[i].value, leaves) {
          CleanDecided(entries[i].value, leaves);
        }
        hide AllAllowed;
        EntriesCleanDecided(entries, leaves);
        MappingAllowed(v, leaves);
      case _ =>
    }
  }

  lemma {:induction false} AllCleanDecided(items: seq<Json>, leaves: Leaves)
    ensures AllClean(items, leaves) <==> forall i | 0 <= i < |items| :: Clean(items[i], leaves)
    decreases |items|
  {
    hide Clean;
    if |items| > 0 {
      AllCleanDecided(items[1..], leaves);
      assert forall i | 0 < i < |items| :: items[i] == items[1..][i - 1];
      assert forall i | 0 <= i < |items[1..]| :: items[1..][i] == items[i + 1];
    }
  }

  lemma {:induction false} EntriesCleanDecided(entries: seq<Entry>, leaves: Leaves)
    ensures EntriesClean(entries, leaves) <==>
      forall i | 0 <= i < |entries| :: Clean(entries[i].value, leaves) && !Forbidden(NormalizeKey(entries[i].key, leaves))
    decreases |entries|
  {
    hide Clean, Forbidden, NormalizeKey, IsPayloadKey;
    if |entries| > 0 {
      PayloadKeyDecided(entries[0].key, leaves);
      EntriesCleanDecided(entries[1..], leaves);
      assert forall i | 0 < i < |entries| :: entries[i] == entries[1..][i - 1];
      assert forall i | 0 <= i < |entries[1..]| :: entries[1..][i] == entries[i + 1];
    }
  }

  /** Every mapping at every depth of the output is allowed exactly when the types that
      stay do. */
  lemma OnlyAllowedIsLeftExactlyWhen(v: Json, key: Option<string>, leaves: Leaves)
    requires AsciiFolds(leaves)
    ensures AllAllowed(Redact(v, key, leaves), leaves) <==> TypesStay(v, leaves)
  {
    CleanDecided(Redact(v, key, leaves), leaves);
    CleanExactlyWhen(v, key, leaves);
    hide AllAllowed, Redact, TypesStay, Clean, AsciiFolds;
  }

  // ------------------------------------------------------------ on both sides

  /** A key of lower-case words with underscores between, or capitals at the joints. */
  lemma TwoWords(first: string, joint: string, second: string, leaves: Leaves)
    requires FoldsAscii(leaves) && joint == "_"
    requires forall i | 0 <= i < |first| :: 'a' <= first[i] <= 'z'
    requires forall i | 0 <= i < |second| :: 'a' <= second[i] <= 'z'
    ensures NormalizeKey(first + joint + second, leaves) == first + second
  {
    hide *;
    LowerIsItsName(first);
    LowerIsItsName(second);
    AsciiNameConcat(first + joint, second);
    AsciiNameConcat(first, joint);
    JointHasNoName(joint);
    AsciiKeyNormalized(first + joint + second, leaves);
    assert first + "" == first;
  }

  lemma JointHasNoName(joint: string)
    requires joint == "_"
    ensures AsciiName(joint) == ""
  {
    assert joint[1..] == "";
  }

  /** Encrypted content goes under any key that spells it. */
  lemma EncryptedContentGoes(leaves: Leaves)
    requires FoldsAscii(leaves)
    ensures IsPayloadKey("encrypted_content", leaves)
  {
    assert "encrypted" + "_" + "content" == "encrypted_content" && "encrypted" + "content" == "encryptedcontent";
    TwoWords("encrypted", "_", "content", leaves);
    PayloadKeyDecided("encrypted_content", leaves);
    hide NormalizeKey, IsPayloadKey;
  }

  lemma LacksCharacter(text: string, word: string, k: nat)
    requires k < |word| && word[k] !in text
    ensures !Contains(text, word)
  {
    if Contains(text, word) { ContainedCharacter(text, word, word[k]); }
  }

  lemma ReasoningTokensAllowed(name: string)
    requires name == "reasoningtokens"
    ensures !Forbidden(name)
  {
    LacksLetters(name);
    assert Contains(name, "token") by { assert "token" <= name[9..]; }
    hide Contains;
  }

  lemma MissingLetters(name: string)
    requires name == "reasoningtokens"
    ensures forall c: char | c in ['b', 'c', 'd', 'm', 'u', 'w', 'x'] :: c !in name
  {
  }

  lemma LacksLetters(name: string)
    requires name == "reasoningtokens"
    ensures !MarksContent(name) && !Contains(name, "chainofthought") && !Contains(name, "internalmonologue")
  {
    MissingLetters(name);
    LacksWords(name);
  }

  lemma LacksWords(name: string)
    requires 'b' !in name && 'c' !in name && 'd' !in name && 'm' !in name && 'u' !in name && 'w' !in name && 'x' !in name
    ensures !MarksContent(name) && !Contains(name, "chainofthought") && !Contains(name, "internalmonologue")
  {
    hide Contains;
    LacksCharacter(name, "block", 0);
    LacksCharacter(name, "chunk", 0);
    LacksCharacter(name, "content", 0);
    LacksCharacter(name, "detail", 0);
    LacksCharacter(name, "encrypted", 2);
    LacksCharacter(name, "monologue", 0);
    LacksCharacter(name, "raw", 2);
    LacksCharacter(name, "redacted", 2);
    LacksCharacter(name, "signature", 6);
    LacksCharacter(name, "summary", 1);
    LacksCharacter(name, "text", 2);
    LacksCharacter(name, "chainofthought", 0);
    LacksCharacter(name, "internalmonologue", 8);
  }

  /** The count of reasoning tokens stays. */
  lemma ReasoningTokensStay(leaves: Leaves)
    requires FoldsAscii(leaves)
    ensures !IsPayloadKey("reasoning_tokens", leaves)
  {
    assert "reasoning" + "_" + "tokens" == "reasoning_tokens" && "reasoning" + "tokens" == "reasoningtokens";
    TwoWords("reasoning", "_", "tokens", leaves);
    PayloadKeyDecided("reasoning_tokens", leaves);
    ReasoningTokensAllowed("reasoningtokens");
    hide NormalizeKey, IsPayloadKey, Forbidden;
  }
}
