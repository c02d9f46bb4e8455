/** The two bounded readers of the review engine: one drains a pipe to its end and
    keeps the beginning, the other stops reading a file at its limit. */
module BoundedRead {
  import opened Prelude
  import opened Utf8

  const CHUNK := 65536

  /** A pipe or an open file: what it will deliver and how much was taken so far. A
      read may return fewer bytes than asked for, but none only at the end. */
  class ByteSource {
    const content: Bytes
    var position: nat
    var open: bool

    ghost predicate Valid()
      reads this
    {
      position <= |content|
    }

    constructor (content: Bytes)
      ensures Valid() && this.content == content && position == 0 && open
    {
      this.content := content;
      position, open := 0, true;
    }

    method Read(size: nat) returns (chunk: Bytes)
      requires Valid() && size > 0
      modifies this`position
      ensures Valid() && old(position) <= position
      ensures chunk == content[old(position)..position] && |chunk| <= size
      ensures chunk == [] <==> old(position) == |content|
    {
      if position == |content| { return []; }
      var taken: nat :| 1 <= taken <= size && position + taken <= |content|;
      chunk := content[position..position + taken];
      position := position + taken;
    }

    method Close()
      modifies this`open
      ensures !open
    {
      open := false;
    }
  }

  function Concat(parts: seq<Bytes>): (b: Bytes) {
    if |parts| == 0 then [] else Concat(parts[..|parts| - 1]) + parts[|parts| - 1]
  }

  lemma ConcatPush(parts: seq<Bytes>, part: Bytes)
    ensures Concat(parts + [part]) == Concat(parts) + part
  {
    assert (parts + [part])[..|parts|] == parts;
  }

  /** The first bytes of b, at most limit of them. */
  function Head(b: Bytes, limit: int): (h: Bytes)
    ensures h <= b && |h| == MinInt(|b|, MaxInt(0, limit))
  {
    b[..MinInt(|b|, MaxInt(0, limit))]
  }

  lemma HeadGrows(content: Bytes, from: nat, before: nat, after: nat, limit: int)
    requires from <= before <= after <= |content|
    ensures
      var stored := Head(content[from..before], limit);
      var remaining := MaxInt(0, limit - |stored|);
      var chunk := content[before..after];
      Head(content[from..after], limit) == stored + chunk[..MinInt(remaining, |chunk|)]
  {
  }

  /** `_drain_bounded`: whatever the chunks, the parts together are the longest
      prefix of the stream within the limit, the flag is set exactly when the stream
      is longer, and the stream is read to its end, so its writer never blocks. */
  method DrainBounded(pipe: ByteSource, limit: int)
    returns (parts: seq<Bytes>, stored: nat, truncated: bool)
    requires pipe.Valid()
    modifies pipe
    ensures Concat(parts) == Head(pipe.content[old(pipe.position)..], limit)
    ensures stored == |Concat(parts)|
    ensures truncated <==> |pipe.content| - old(pipe.position) > MaxInt(0, limit)
    ensures pipe.position == |pipe.content| && !pipe.open
    ensures forall i | 0 <= i < |parts| :: parts[i] != []
  {
    ghost var start := pipe.position;
    parts, stored, truncated := [], 0, false;
    while true
      invariant pipe.Valid() && start <= pipe.position
      invariant Concat(parts) == Head(pipe.content[start..pipe.position], limit)
      invariant stored == |Concat(parts)|
      invariant truncated <==> pipe.position - start > MaxInt(0, limit)
      invariant forall i | 0 <= i < |parts| :: parts[i] != []
      decreases |pipe.content| - pipe.position
    {
      ghost var before := pipe.position;
      var chunk := pipe.Read(CHUNK);
      if chunk == [] { break; }
      HeadGrows(pipe.content, start, before, pipe.position, limit);
      var remaining := MaxInt(0, limit - stored);
      if remaining != 0 {
        var kept := chunk[..MinInt(remaining, |chunk|)];
        ConcatPush(parts, kept);
        parts := parts + [kept];
        stored := stored + |kept|;
      }
      if |chunk| > remaining {
        truncated := true;
      }
    }
    assert pipe.content[start..pipe.position] == pipe.content[start..];
    pipe.Close();
  }

  /** `_read_fd_bounded`: the same prefix, reading not one byte past the limit. */
  method ReadBounded(descriptor: ByteSource, limit: int) returns (raw: Bytes)
    requires descriptor.Valid()
    modifies descriptor`position
    ensures raw == Head(descriptor.content[old(descriptor.position)..], limit)
    ensures descriptor.position == old(descriptor.position) + |raw|
  {
    ghost var start := descriptor.position;
    var chunks: seq<Bytes>, remaining := [], limit;
    while remaining > 0
      invariant descriptor.Valid() && start <= descriptor.position
      invariant Concat(chunks) == descriptor.content[start..descriptor.position]
      invariant remaining == limit - (descriptor.position - start)
      invariant remaining < 0 ==> chunks == []
      decreases |descriptor.content| - descriptor.position
    {
      ghost var before := descriptor.position;
      var chunk := descriptor.Read(MinInt(CHUNK, remaining));
      if chunk == [] { break; }
      ConcatPush(chunks, chunk);
      assert descriptor.content[start..descriptor.position] == descriptor.content[start..before] + chunk;
      chunks := chunks + [chunk];
      remaining := remaining - |chunk|;
    }
    raw := Concat(chunks);
  }

  /** How `_untracked_patch` uses it: asking for one byte more than allowed tells
      whether the file was cut, and what is kept is its longest allowed prefix. */
  method ReadForPatch(descriptor: ByteSource, maxFileBytes: nat) returns (raw: Bytes, truncated: bool)
    requires descriptor.Valid() && descriptor.position == 0
    modifies descriptor
    ensures raw == Head(descriptor.content, maxFileBytes)
    ensures truncated <==> |descriptor.content| > maxFileBytes
    ensures !descriptor.open
  {
    raw := ReadBounded(descriptor, maxFileBytes + 1);
    descriptor.Close();
    assert descriptor.content[0..] == descriptor.content;
    truncated := |raw| > maxFileBytes;
    raw := raw[..MinInt(|raw|, maxFileBytes)];
  }
}
