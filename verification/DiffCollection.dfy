/** The bounded collection of a review diff: which patches are included, what is
    recorded about the others, and how many bytes are used. The leaf decisions
    (secret patterns, sensitive paths, the output of Git) are data of each run. */
module DiffCollection {
  import opened Prelude
  import opened Utf8
  import PyText

  datatype Limits = Limits(maxFiles: nat, maxFileBytes: nat, maxTotalBytes: nat) {
    predicate Valid() {
      1 <= maxFiles <= 2000 && maxFileBytes >= 256 && maxTotalBytes >= 256
    }
  }

  datatype Reason =
    | SensitivePath | FileCountLimit | TotalDiffLimit | GitDiffFailed | BinaryFile | UnsafePath
    | NotCollected(why: string)

  datatype Omission = Omission(path: Text, reason: Reason)

  datatype Warning =
    | FileDiffsFailed | FileDiffsTruncated | TotalDiffTruncated
    | ListTruncated | UntrackedListTruncated | DiscoveryTruncated | UnsafePathsOmitted

  datatype ReviewError = GitReviewError | ReviewResponseError

  /** What fetching the patch of one change yields. `redacted` is its text after
      secrets were taken out, `binary` whether it was a binary-files notice. */
  datatype Fetched =
    | Refused(reason: Reason)
    | Failed
    | Patch(redacted: Text, cut: bool, binary: bool)

  datatype Spec = Spec(section: Text, paths: seq<Text>, fetched: Fetched) {
    predicate Valid() {
      |paths| > 0
    }

    function Display(): Text
      requires Valid()
    {
      paths[|paths| - 1]
    }
  }

  const REDACTED_PATH: Text := Lit("<redacted path>")
  const FILE_MARKER: Text := Lit("\n[SYLLIPTOR: file diff truncated]")
  const TOTAL_MARKER: Text := Lit("\n[SYLLIPTOR: total diff limit reached]")
  const SEPARATOR: Text := Lit("\n\n")

  /** The paths classified as sensitive and those whose text the redaction changes. */
  datatype Leaves = Leaves(sensitive: set<Text>, secret: set<Text>) {
    function PublicPath(path: Text): Text {
      if path in secret then REDACTED_PATH else path
    }

    predicate Hidden(spec: Spec)
      requires spec.Valid()
    {
      || (exists i | 0 <= i < |spec.paths| :: spec.paths[i] in sensitive)
      || PublicPath(spec.Display()) != spec.Display()
    }
  }

  predicate IsSpace(c: CodePoint) {
    !IsSurrogate(c) && PyText.IsSpace(c as char)
  }

  function RStrip(t: Text): (r: Text)
    ensures r <= t && forall i | |r| <= i < |t| :: IsSpace(t[i])
    ensures r == [] || !IsSpace(r[|r| - 1])
  {
    if t != [] && IsSpace(t[|t| - 1]) then RStrip(t[..|t| - 1]) else t
  }

  predicate Blank(t: Text) {
    RStrip(t) == []
  }

  // ------------------------------------------------------------ the state

  datatype Collected = Collected(
    included: seq<Text>, omitted: seq<Omission>, warnings: seq<Warning>,
    parts: seq<Text>, totalBytes: nat, truncated: bool)
  {
    function Omit(path: Text, reason: Reason): Collected {
      this.(omitted := omitted + [Omission(path, reason)])
    }

    function Warn(warning: Warning): Collected {
      this.(warnings := warnings + [warning])
    }

    function Truncated(): Collected {
      this.(truncated := true)
    }

    predicate Fresh() {
      included == [] && parts == [] && totalBytes == 0
    }

    predicate Complete() {
      !truncated && |omitted| == 0
    }
  }

  datatype Progress = Progress(state: Collected, accepted: set<Text>, stopped: bool)

  /** The text that stands for one change, before the total limit is applied. */
  function Segment(spec: Spec): Text
    requires spec.Valid() && spec.fetched.Patch?
  {
    Lit("### ") + spec.section + Lit(": ") + spec.Display() + Lit("\n") + RStrip(spec.fetched.redacted)
    + if spec.fetched.cut then FILE_MARKER else []
  }

  /** What fits of a segment: all of it, or a cut version ending in the marker. */
  function Fit(segment: Text, remaining: int): (Text, bool) {
    var (kept, cut) := TruncateUtf8(segment, remaining);
    if !cut then (kept, false)
    else
      var marker := TruncateUtf8(TOTAL_MARKER, remaining).0;
      (TruncateUtf8(kept, MaxInt(0, remaining - |Encode(marker)|)).0 + marker, true)
  }

  function SeparatorBytes(parts: seq<Text>): nat {
    if |parts| > 0 then 2 else 0
  }

  function Append(p: Progress, path: Text, segment: Text, limits: Limits): Progress {
    var c := p.state;
    var separator := SeparatorBytes(c.parts);
    var (kept, cut) := Fit(segment, limits.maxTotalBytes - c.totalBytes - separator);
    var noted := if cut then c.Truncated().Warn(TotalDiffTruncated) else c;
    if |kept| == 0 then Progress(noted, p.accepted, cut)
    else
      Progress(noted.(parts := c.parts + [kept], included := c.included + [path],
                      totalBytes := c.totalBytes + separator + |Encode(kept)|),
               p.accepted + {path}, cut)
  }

  /** One turn of the loop for a spec. */
  function Take(p: Progress, spec: Spec, limits: Limits, leaves: Leaves): Progress
    requires spec.Valid()
  {
    var c, path := p.state, spec.Display();
    if leaves.Hidden(spec) then p.(state := c.Omit(leaves.PublicPath(path), SensitivePath))
    else if path !in p.accepted && |p.accepted| >= limits.maxFiles then
      p.(state := c.Omit(path, FileCountLimit).Truncated())
    else if c.totalBytes >= limits.maxTotalBytes then
      p.(state := c.Omit(path, TotalDiffLimit).Truncated())
    else
      match spec.fetched
      case Refused(reason) => p.(state := c.Omit(path, reason))
      case Failed => p.(state := c.Omit(path, GitDiffFailed).Warn(FileDiffsFailed))
      case Patch(redacted, cut, binary) =>
        if binary then p.(state := c.Omit(path, BinaryFile))
        else if Blank(redacted) then p
        else
          var noted := if cut then c.Truncated().Warn(FileDiffsTruncated) else c;
          Append(p.(state := noted), path, Segment(spec), limits)
  }

  predicate AllValid(specs: seq<Spec>) {
    forall i | 0 <= i < |specs| :: specs[i].Valid()
  }

  /** The loop over the first n specs. */
  function Run(init: Collected, specs: seq<Spec>, n: nat, limits: Limits, leaves: Leaves): Progress
    requires n <= |specs| && AllValid(specs)
  {
    if n == 0 then Progress(init, {}, false)
    else
      var p := Run(init, specs, n - 1, limits, leaves);
      if p.stopped then p else Take(p, specs[n - 1], limits, leaves)
  }

  lemma {:induction false} StoppedForGood(init: Collected, specs: seq<Spec>, k: nat, n: nat, limits: Limits, leaves: Leaves)
    requires k <= n <= |specs| && AllValid(specs)
    requires Run(init, specs, k, limits, leaves).stopped
    ensures Run(init, specs, n, limits, leaves) == Run(init, specs, k, limits, leaves)
  {
    hide Take;
    if k < n { StoppedForGood(init, specs, k, n - 1, limits, leaves); }
  }

  // ------------------------------------------------- the collector itself

  function FirstOccurrences<T(==)>(s: seq<T>): (r: seq<T>) {
    if |s| == 0 then []
    else
      var rest, last := FirstOccurrences(s[..|s| - 1]), s[|s| - 1];
      if last in rest then rest else rest + [last]
  }

  /** Deduplication loses no element, keeps none twice and is empty only for nothing. */
  lemma {:induction false} DeduplicationKeepsElements<T>(s: seq<T>)
    ensures
      var r := FirstOccurrences(s);
      && (forall x :: x in r <==> x in s)
      && (forall i, j | 0 <= i < j < |r| :: r[i] != r[j])
      && (|r| == 0 <==> |s| == 0)
  {
    if |s| > 0 {
      var rest, last := s[..|s| - 1], s[|s| - 1];
      DeduplicationKeepsElements(rest);
      assert forall x :: x in s <==> x in rest || x == last;
    }
  }

  /** What a beginning of the list keeps comes first, so elements stand in the order in
      which they first occur. */
  lemma {:induction false} DeduplicationKeepsOrder<T>(s: seq<T>, n: nat)
    requires n <= |s|
    ensures FirstOccurrences(s[..n]) <= FirstOccurrences(s)
  {
    if n == |s| {
      assert s[..n] == s;
    } else {
      DeduplicationKeepsOrder(s[..|s| - 1], n);
      assert s[..|s| - 1][..n] == s[..n];
    }
  }

  /** `_deduplicate_omissions`. */
  method DeduplicateOmissions(omissions: seq<Omission>) returns (result: seq<Omission>)
    ensures result == FirstOccurrences(omissions)
  {
    var seen: set<Omission> := {};
    result := [];
    for i := 0 to |omissions|
      invariant result == FirstOccurrences(omissions[..i])
      invariant forall x :: x in seen <==> x in result
    {
      assert omissions[..i + 1][..i] == omissions[..i];
      if omissions[i] !in seen {
        result := result + [omissions[i]];
        seen := seen + {omissions[i]};
      }
    }
    assert omissions[..|omissions|] == omissions;
  }

  function Publics(paths: seq<Text>, leaves: Leaves): seq<Text> {
    seq(|paths|, i requires 0 <= i < |paths| => leaves.PublicPath(paths[i]))
  }

  lemma FirstOccurrencesNext(before: seq<Text>, paths: seq<Text>, j: nat)
    requires j < |paths|
    ensures
      var listed := FirstOccurrences(before + paths[..j]);
      FirstOccurrences(before + paths[..j + 1]) == if paths[j] in listed then listed else listed + [paths[j]]
  {
    var seen := before + paths[..j + 1];
    assert seen[..|seen| - 1] == before + paths[..j] && seen[|seen| - 1] == paths[j];
  }

  lemma NoPublics(leaves: Leaves)
    ensures FirstOccurrences<Text>([]) == [] && Publics([], leaves) == []
  {
  }

  lemma PublicsPush(paths: seq<Text>, path: Text, leaves: Leaves)
    ensures Publics(paths + [path], leaves) == Publics(paths, leaves) + [leaves.PublicPath(path)]
  {
  }

  function AllPaths(specs: seq<Spec>, n: nat): seq<Text>
    requires n <= |specs|
  {
    if n == 0 then [] else AllPaths(specs, n - 1) + specs[n - 1].paths
  }

  class DiffCollector {
    const limits: Limits
    const leaves: Leaves
    var changedFiles: seq<Text>
    var includedFiles: seq<Text>
    var omittedFiles: seq<Omission>
    var warnings: seq<Warning>
    var patchParts: seq<Text>
    var totalBytes: nat
    var truncated: bool

    constructor (limits: Limits, leaves: Leaves)
      ensures this.limits == limits && this.leaves == leaves && changedFiles == []
      ensures View() == Collected([], [], [], [], 0, false)
    {
      this.limits, this.leaves := limits, leaves;
      changedFiles, includedFiles, omittedFiles, warnings, patchParts := [], [], [], [], [];
      totalBytes, truncated := 0, false;
    }

    function View(): Collected
      reads this
    {
      Collected(includedFiles, omittedFiles, warnings, patchParts, totalBytes, truncated)
    }

    /** The first loop of `_collect_patches`. */
    method ListChangedFiles(specs: seq<Spec>)
      modifies this`changedFiles
      ensures changedFiles == old(changedFiles) + Publics(FirstOccurrences(AllPaths(specs, |specs|)), leaves)
    {
      hide FirstOccurrences, Publics;
      var unique: set<Text> := {};
      ghost var listed := FirstOccurrences<Text>([]);
      NoPublics(leaves);
      for i := 0 to |specs|
        invariant listed == FirstOccurrences(AllPaths(specs, i))
        invariant forall p :: p in unique <==> p in listed
        invariant changedFiles == old(changedFiles) + Publics(listed, leaves)
      {
        var paths := specs[i].paths;
        ghost var before := AllPaths(specs, i);
        assert before + paths[..0] == before;
        for j := 0 to |paths|
          invariant listed == FirstOccurrences(before + paths[..j])
          invariant forall p :: p in unique <==> p in listed
          invariant changedFiles == old(changedFiles) + Publics(listed, leaves)
        {
          FirstOccurrencesNext(before, paths, j);
          if paths[j] !in unique {
            changedFiles := changedFiles + [leaves.PublicPath(paths[j])];
            unique := unique + {paths[j]};
            PublicsPush(listed, paths[j], leaves);
            listed := listed + [paths[j]];
          }
        }
        assert paths[..|paths|] == paths;
      }
    }

    /** The second loop of `_collect_patches`. */
    method CollectPatches(specs: seq<Spec>)
      requires AllValid(specs) && View().Fresh()
      modifies this
      ensures View() == Run(old(View()), specs, |specs|, limits, leaves).state
      ensures changedFiles == old(changedFiles)
    {
      hide Take;
      ghost var init := View();
      var accepted: set<Text> := {};
      for i := 0 to |specs|
        invariant changedFiles == old(changedFiles)
        invariant Run(init, specs, i, limits, leaves) == Progress(View(), accepted, false)
      {
        var segmentTruncated: bool;
        accepted, segmentTruncated := TakeSpec(specs[i], accepted);
        if segmentTruncated {
          StoppedForGood(init, specs, i + 1, |specs|, limits, leaves);
          break;
        }
      }
    }

    /** One turn of that loop; each early return is a `continue` there. */
    method TakeSpec(spec: Spec, accepted: set<Text>) returns (acceptedNow: set<Text>, segmentTruncated: bool)
      requires spec.Valid()
      modifies this
      ensures changedFiles == old(changedFiles)
      ensures Progress(View(), acceptedNow, segmentTruncated)
           == Take(Progress(old(View()), accepted, false), spec, limits, leaves)
    {
      hide Segment, Leaves.Hidden, Blank, Append;
      acceptedNow, segmentTruncated := accepted, false;
      var path := spec.Display();
      if leaves.Hidden(spec) {
        omittedFiles := omittedFiles + [Omission(leaves.PublicPath(path), SensitivePath)];
        return;
      }
      if path !in accepted && |accepted| >= limits.maxFiles {
        omittedFiles := omittedFiles + [Omission(path, FileCountLimit)];
        truncated := true;
        return;
      }
      if totalBytes >= limits.maxTotalBytes {
        omittedFiles := omittedFiles + [Omission(path, TotalDiffLimit)];
        truncated := true;
        return;
      }
      match spec.fetched {
        case Refused(reason) =>
          omittedFiles := omittedFiles + [Omission(path, reason)];
        case Failed =>
          omittedFiles := omittedFiles + [Omission(path, GitDiffFailed)];
          warnings := warnings + [FileDiffsFailed];
        case Patch(redacted, cut, binary) =>
          if binary {
            omittedFiles := omittedFiles + [Omission(path, BinaryFile)];
            return;
          }
          if Blank(redacted) { return; }
          if cut {
            truncated := true;
            warnings := warnings + [FileDiffsTruncated];
          }
          acceptedNow, segmentTruncated := AppendSegment(path, Segment(spec), accepted);
      }
    }

    /** The end of one turn: cut the segment to what remains and keep it. */
    method AppendSegment(path: Text, fullSegment: Text, accepted: set<Text>)
      returns (acceptedNow: set<Text>, segmentTruncated: bool)
      modifies this
      ensures changedFiles == old(changedFiles)
      ensures Progress(View(), acceptedNow, segmentTruncated)
           == Append(Progress(old(View()), accepted, false), path, fullSegment, limits)
    {
      hide TruncateUtf8, Encode;
      var separatorBytes := if |patchParts| > 0 then 2 else 0;
      var remaining := limits.maxTotalBytes - totalBytes - separatorBytes;
      var (segment, cut) := TruncateUtf8(fullSegment, remaining);
      segmentTruncated, acceptedNow := cut, accepted;
      if segmentTruncated {
        var marker := TruncateUtf8(TOTAL_MARKER, remaining).0;
        var prefixBudget := MaxInt(0, remaining - |Encode(marker)|);
        segment := TruncateUtf8(segment, prefixBudget).0 + marker;
        truncated := true;
        warnings := warnings + [TotalDiffTruncated];
      }
      if |segment| > 0 {
        patchParts := patchParts + [segment];
        totalBytes := totalBytes + separatorBytes + |Encode(segment)|;
        includedFiles := includedFiles + [path];
        acceptedNow := accepted + {path};
      }
    }
  }
}
