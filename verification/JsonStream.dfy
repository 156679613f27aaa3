/**
  Reading a JSON file in sequence, with a replay cache for streams that cannot seek.

  While the schema is sampled, what is read from the stream is kept in cached buffers; after a
  reset the cached bytes are read again before the stream goes on.
 */
module JsonStream {
  import opened Basics

  function Flatten(buffers: seq<seq<Byte>>): seq<Byte> {
    if buffers == [] then [] else Flatten(buffers[..|buffers| - 1]) + buffers[|buffers| - 1]
  }

  lemma {:induction false} FlattenSnoc(buffers: seq<seq<Byte>>, b: seq<Byte>)
    ensures Flatten(buffers + [b]) == Flatten(buffers) + b
  {
    assert (buffers + [b])[..|buffers|] == buffers;
  }

  lemma {:induction false} FlattenPrefix(buffers: seq<seq<Byte>>, i: nat)
    requires i <= |buffers|
    ensures |Flatten(buffers[..i])| <= |Flatten(buffers)|
    ensures Flatten(buffers[..i]) == Flatten(buffers)[..|Flatten(buffers[..i])|]
    decreases |buffers| - i
  {
    if i < |buffers| {
      FlattenPrefix(buffers, i + 1);
      assert buffers[..i + 1] == buffers[..i] + [buffers[i]];
      FlattenSnoc(buffers[..i], buffers[i]);
    } else {
      assert buffers[..i] == buffers;
    }
  }

  /** Buffer `i` lies in the flattened buffers after those before it. */
  lemma {:induction false} FlattenAt(buffers: seq<seq<Byte>>, i: nat)
    requires i < |buffers|
    ensures var o := |Flatten(buffers[..i])|;
      && Flatten(buffers[..i + 1]) == Flatten(buffers[..i]) + buffers[i]
      && o + |buffers[i]| <= |Flatten(buffers)| && Flatten(buffers)[o..o + |buffers[i]|] == buffers[i]
  {
    assert buffers[..i + 1] == buffers[..i] + [buffers[i]];
    FlattenSnoc(buffers[..i], buffers[i]);
    FlattenPrefix(buffers, i + 1);
  }

  lemma {:induction false} CachedAt(stream: seq<Byte>, cachedSize: nat, buffers: seq<seq<Byte>>, i: nat)
    requires i < |buffers| && cachedSize <= |stream| && Flatten(buffers) == stream[..cachedSize]
    ensures var o := |Flatten(buffers[..i])|;
      && |Flatten(buffers[..i + 1])| == o + |buffers[i]| <= cachedSize
      && forall k :: 0 <= k < |buffers[i]| ==> buffers[i][k] == stream[o + k]
  {
    hide Flatten;
    FlattenAt(buffers, i);
    var o, b := |Flatten(buffers[..i])|, buffers[i];
    assert forall k :: 0 <= k < |b| ==> b[k] == Flatten(buffers)[o..o + |b|][k];
  }

  lemma FlattenNone()
    ensures Flatten([]) == []
  {
  }

  /** Of cached bytes and the rest of the stream, `n` come first: `a` cached ones, and then `b` more. */
  lemma {:induction false} RestSplit(cached: seq<Byte>, later: seq<Byte>, n: nat, a: nat, b: nat)
    requires a == Min(n, |cached|) && b == Min(n - a, |later|)
    ensures a + b == Min(n, |cached + later|)
    ensures (cached + later)[..a + b] == cached[..a] + later[..b]
    ensures (cached + later)[a + b..] == cached[a..] + later[b..]
  {
  }

  /**
    What is left to deliver: of a file what it has not given, of a stream what is cached from the position on
    and then what it has not given.
   */
  function RestOf(stream: seq<Byte>, canSeek: bool, position: nat, cachedSize: nat, taken: nat): seq<Byte>
    requires cachedSize <= taken <= |stream| && (!canSeek ==> position <= cachedSize)
  {
    if canSeek then stream[taken..] else stream[position..cachedSize] + stream[taken..]
  }

  lemma MinBelow(a: int, b: int)
    ensures Min(a, b) <= a && Min(a, b) <= b && (Min(a, b) == a || Min(a, b) == b)
  {
  }

  /** `out` is the first `n` bytes of what was left, or all of it, and `rest` is left. */
  predicate Delivers(before: seq<Byte>, n: nat, out: seq<Byte>, rest: seq<Byte>) {
    |out| == Min(n, |before|) && out == before[..|out|] && rest == before[|out|..]
  }

  lemma {:induction false} ReplayedIs(stream: seq<Byte>, p: nat, t: nat, a: nat, b: nat, out: seq<Byte>)
    requires p + a <= |stream| && t + b <= |stream| && |out| == a + b
    requires forall k :: 0 <= k < a ==> out[k] == stream[p + k]
    requires forall k :: a <= k < a + b ==> out[k] == stream[t + k - a]
    ensures out == stream[p..p + a] + stream[t..t + b]
  {
    assert out[..a] == stream[p..p + a];
    assert out[a..] == stream[t..t + b];
    assert out == out[..a] + out[a..];
  }

  lemma SliceParts(s: seq<Byte>, i: nat, j: nat, n: nat)
    requires i + n <= j <= |s|
    ensures s[i..j][..n] == s[i..i + n] && s[i..j][n..] == s[i + n..j]
  {
  }

  lemma {:induction false} ReplayParts(stream: seq<Byte>, p: nat, c: nat, t: nat, n: nat, a: nat, b: nat,
                                       out: seq<Byte>)
    requires p <= c <= t <= |stream| && a == Min(n, c - p) && b == Min(n - a, |stream| - t)
    requires out == stream[p..p + a] + stream[t..t + b]
    ensures Delivers(RestOf(stream, false, p, c, t), n, out, RestOf(stream, false, p + a, c, t + b))
  {
    var m := |stream|;
    RestSplit(stream[p..c], stream[t..m], n, a, b);
    SliceParts(stream, p, c, a);
    SliceParts(stream, t, m, b);
    assert stream[t..] == stream[t..m] && stream[t + b..] == stream[t + b..m];
  }

  lemma {:induction false} ReplayDelivers(stream: seq<Byte>, p: nat, c: nat, t: nat, n: nat, a: nat, b: nat,
                                          out: seq<Byte>)
    requires p <= c <= t <= |stream| && a == Min(n, c - p) && b == Min(n - a, |stream| - t) && |out| == a + b
    requires forall k :: 0 <= k < a ==> out[k] == stream[p + k]
    requires forall k :: a <= k < a + b ==> out[k] == stream[t + k - a]
    ensures Delivers(RestOf(stream, false, p, c, t), n, out, RestOf(stream, false, p + a, c, t + b))
  {
    ReplayedIs(stream, p, t, a, b, out);
    ReplayParts(stream, p, c, t, n, a, b, out);
  }

  /** Nothing is left in the cache, or there is none. */
  lemma {:induction false} StreamDelivers(stream: seq<Byte>, canSeek: bool, p: nat, c: nat, t: nat, n: nat,
                                          out: seq<Byte>)
    requires c <= t <= |stream| && (canSeek || p == c == t) && |out| == Min(n, |stream| - t)
    requires forall k :: 0 <= k < |out| ==> out[k] == stream[t + k]
    ensures canSeek ==> Delivers(RestOf(stream, true, p, c, t), n, out, RestOf(stream, true, p + |out|, c, t + |out|))
    ensures !canSeek ==>
      var c' := c + |out|; Delivers(RestOf(stream, false, p, c, t), n, out, RestOf(stream, false, c', c', c'))
  {
    var later := stream[t..];
    assert out == later[..|out|] && later[|out|..] == stream[t + |out|..];
    assert !canSeek ==> RestOf(stream, false, p, c, t) == later;
  }

  class JsonFileHandle {
    const stream: seq<Byte>
    const canSeek: bool
    /** Bytes that the file or the stream has given. */
    var taken: nat
    var readPosition: nat
    var lastReadRequested: bool
    var cachedBuffers: seq<seq<Byte>>
    var cachedSize: nat

    ghost predicate Valid()
      reads this
    {
      && cachedSize <= taken <= |stream| && Flatten(cachedBuffers) == stream[..cachedSize]
      && (canSeek ==> cachedBuffers == [] && readPosition == taken)
      && (!canSeek ==> readPosition <= cachedSize)
    }

    /** What is left to deliver. */
    ghost function Rest(): seq<Byte>
      requires Valid()
      reads this
    {
      RestOf(stream, canSeek, readPosition, cachedSize, taken)
    }

    /** Everything delivered has been cached. */
    ghost predicate Sampling()
      reads this
    {
      canSeek || readPosition == cachedSize == taken
    }

    constructor (stream: seq<Byte>, canSeek: bool)
      ensures Valid() && Sampling() && Rest() == stream && !lastReadRequested
      ensures this.stream == stream && this.canSeek == canSeek
    {
      this.stream, this.canSeek := stream, canSeek;
      taken, readPosition, lastReadRequested, cachedBuffers, cachedSize := 0, 0, false, [], 0;
    }

    /** One read of the file: any number of bytes up to `n`, none only at the end. */
    method ReadSome(out: array<Byte>, at: nat, n: nat) returns (size: nat)
      requires at + n <= out.Length && 0 < n && taken <= |stream|
      modifies `taken, out
      ensures size <= n && taken == old(taken) + size <= |stream| && (size == 0 <==> old(taken) == |stream|)
      ensures forall k :: at <= k < at + size ==> out[k] == stream[old(taken) + k - at]
      ensures forall k :: 0 <= k < out.Length && !(at <= k < at + size) ==> out[k] == old(out[k])
    {
      var left := |stream| - taken;
      if left == 0 { return 0; }
      var some: nat :| 0 < some && some <= n && some <= left;
      size := some;
      CopyBytes(stream[taken..taken + size], out, at);
      taken := taken + size;
    }

    /** Reads until there is enough or the stream ends. */
    method ReadInternal(out: array<Byte>, at: nat, n: nat) returns (total: nat)
      requires at + n <= out.Length && taken <= |stream|
      modifies `taken, out
      ensures total == Min(n, |stream| - old(taken)) && taken == old(taken) + total
      ensures forall k :: at <= k < at + total ==> out[k] == stream[old(taken) + k - at]
      ensures forall k :: 0 <= k < out.Length && !(at <= k < at + total) ==> out[k] == old(out[k])
    {
      total := 0;
      while total < n
        invariant total <= n && taken == old(taken) + total <= |stream|
        invariant forall k :: at <= k < at + total ==> out[k] == stream[old(taken) + k - at]
        invariant forall k :: 0 <= k < out.Length && !(at <= k < at + total) ==> out[k] == old(out[k])
      {
        var size := ReadSome(out, at + total, n - total);
        if size == 0 { break; }
        total := total + size;
      }
    }

    /** Copies cached bytes from position `position0` on; what was read, and the position after it. */
    method ReadFromCache(out: array<Byte>, n: nat, position0: nat) returns (size: nat, position: nat)
      requires Valid() && !canSeek && n <= out.Length && position0 <= cachedSize
      modifies out
      ensures size == Min(n, cachedSize - position0) && position == position0 + size
      ensures forall k :: 0 <= k < size ==> out[k] == stream[position0 + k]
      ensures forall k :: size <= k < out.Length ==> out[k] == old(out[k])
    {
      hide Flatten;
      size, position := 0, position0;
      var totalOffset: nat, left: nat := 0, n;
      FlattenNone();
      for i := 0 to |cachedBuffers|
        invariant cachedBuffers[..0] == []
        invariant totalOffset == |Flatten(cachedBuffers[..i])| <= cachedSize
        invariant size + left == n && position == position0 + size <= cachedSize
        invariant left == 0 || position >= totalOffset
        invariant size > 0 ==> position <= totalOffset
        invariant left > 0 && position0 < totalOffset ==> position == totalOffset
        invariant forall k :: 0 <= k < size ==> out[k] == stream[position0 + k]
        invariant forall k :: size <= k < out.Length ==> out[k] == old(out[k])
      {
        if left == 0 { break; }
        var buffer := cachedBuffers[i];
        CachedAt(stream, cachedSize, cachedBuffers, i);
        if position < totalOffset + |buffer| {
          var within := position - totalOffset;
          var copySize := Min(left, |buffer| - within);
          CopyBytes(buffer[within..within + copySize], out, size);
          size, left, position := size + copySize, left - copySize, position + copySize;
        }
        totalOffset := totalOffset + |buffer|;
      }
      assert cachedBuffers[..|cachedBuffers|] == cachedBuffers;
    }

    /** The part of Read that caches what it reads. */
    method ReadSample(out: array<Byte>, requested: nat) returns (size: nat)
      requires Valid() && !canSeek && Sampling() && requested <= out.Length
      modifies out, `taken, `readPosition, `cachedBuffers, `cachedSize
      ensures Valid() && Sampling()
      ensures size == Min(requested, |stream| - old(taken)) && taken == old(taken) + size
      ensures forall k :: 0 <= k < size ==> out[k] == stream[old(taken) + k]
    {
      hide Flatten;
      size := ReadInternal(out, 0, requested);
      if size > 0 {
        FlattenSnoc(cachedBuffers, out[..size]);
        assert stream[..cachedSize + size] == stream[..cachedSize] + out[..size];
        cachedBuffers := cachedBuffers + [out[..size]];
      }
      cachedSize := cachedSize + size;
      readPosition := readPosition + size;
    }

    /** The part of Read that replays the cache and goes on with the stream; `cached` bytes are from the cache. */
    method ReadReplay(out: array<Byte>, requested: nat) returns (size: nat, ghost cached: nat)
      requires Valid() && !canSeek && requested <= out.Length
      modifies out, `taken, `readPosition
      ensures Valid() && cached <= size <= requested
      ensures cached == Min(requested, cachedSize - old(readPosition)) && readPosition == old(readPosition) + cached
      ensures size - cached == Min(requested - cached, |stream| - old(taken)) && taken == old(taken) + size - cached
      ensures forall k :: 0 <= k < cached ==> out[k] == stream[old(readPosition) + k]
      ensures forall k :: cached <= k < size ==> out[k] == stream[old(taken) + k - cached]
    {
      hide Flatten;
      size, cached := 0, 0;
      if cachedBuffers != [] || readPosition < cachedSize {
        var position;
        size, position := ReadFromCache(out, requested, readPosition);
        readPosition := position;
        cached := size;
      }
      if requested - size != 0 {
        var more := ReadInternal(out, size, requested - size);
        size := size + more;
      }
    }

    /** What Read reads. */
    method ReadNext(out: array<Byte>, requested: nat, sampleRun: bool) returns (size: nat)
      requires Valid() && requested <= out.Length && (sampleRun ==> Sampling())
      modifies out, `taken, `readPosition, `cachedBuffers, `cachedSize
      ensures Valid() && (sampleRun ==> Sampling())
      ensures size <= requested && Delivers(old(Rest()), requested, out[..size], Rest())
      ensures !sampleRun || canSeek ==> cachedSize == old(cachedSize)
    {
      hide Flatten, RestOf, Delivers, Min;
      ghost var from, given, kept := readPosition, taken, cachedSize;
      MinBelow(requested, |stream| - taken);
      if canSeek {
        size := ReadInternal(out, 0, requested);
        readPosition := readPosition + size;
        StreamDelivers(stream, true, from, kept, given, requested, out[..size]);
      } else if sampleRun {
        size := ReadSample(out, requested);
        StreamDelivers(stream, false, from, kept, given, requested, out[..size]);
      } else {
        ghost var cached;
        size, cached := ReadReplay(out, requested);
        ReplayDelivers(stream, from, kept, given, requested, cached, size - cached, out[..size]);
      }
    }

    /** Read: the next bytes, from the cache and from the stream. */
    method Read(out: array<Byte>, requested: nat, sampleRun: bool) returns (ok: bool, size: nat, fileDone: bool)
      requires Valid() && 0 < requested <= out.Length && (sampleRun ==> Sampling())
      modifies this, out
      ensures Valid() && (sampleRun ==> Sampling())
      ensures ok <==> !old(lastReadRequested)
      ensures ok ==> size <= requested && Delivers(old(Rest()), requested, out[..size], Rest())
      ensures ok ==> (fileDone <==> size == 0) && (lastReadRequested <==> size == 0)
      ensures !ok ==> lastReadRequested && Rest() == old(Rest()) && size == 0
      ensures !sampleRun || canSeek ==> cachedSize == old(cachedSize)
    {
      hide Flatten, RestOf, Delivers;
      size, fileDone := 0, false;
      if lastReadRequested { return false, 0, false; }
      size := ReadNext(out, requested, sampleRun);
      if size == 0 {
        lastReadRequested := true;
        fileDone := true;
      }
      return true, size, fileDone;
    }

    /** Reset: on a stream that cannot seek, what was read after the cache was filled is lost. */
    method Reset()
      requires Valid()
      modifies this
      ensures Valid() && !lastReadRequested && cachedSize == old(cachedSize) && (!canSeek ==> taken == old(taken))
      ensures Rest() == if canSeek then stream else stream[..cachedSize] + stream[old(taken)..]
      ensures Rest() == stream <==> canSeek || old(taken) == cachedSize
    {
      readPosition, lastReadRequested := 0, false;
      if canSeek { taken := 0; }
    }
  }

  // ---------------------------------------------------------------- whole sessions

  function Sum(sizes: seq<nat>): nat {
    if sizes == [] then 0 else Sum(sizes[..|sizes| - 1]) + sizes[|sizes| - 1]
  }

  lemma SumIs(sizes: seq<nat>, i: nat)
    requires i <= |sizes|
    ensures Sum(sizes[..0]) == 0 && Min(0, 0) == 0
    ensures i < |sizes| ==> Sum(sizes[..i + 1]) == Sum(sizes[..i]) + sizes[i]
    ensures forall n: nat :: Min(0, n) == 0
  {
    if i < |sizes| { assert sizes[..i + 1][..i] == sizes[..i]; }
  }

  lemma MinIs(a: int, b: int)
    ensures Min(a, b) == if a < b then a else b
  {
  }

  lemma Joined(data: seq<Byte>, chunk: seq<Byte>, before: seq<Byte>, after: seq<Byte>, n: nat)
    requires Delivers(before, n, chunk, after)
    ensures (data + chunk) + after == data + before && |chunk| == (if n < |before| then n else |before|)
  {
    assert chunk + after == before;
    assert (data + chunk) + after == data + (chunk + after);
  }

  /** Reads of the given sizes deliver what is left without a gap or a repetition. */
  method ReadMany(h: JsonFileHandle, sizes: seq<nat>, sampleRun: bool) returns (data: seq<Byte>)
    requires h.Valid() && (sampleRun ==> h.Sampling()) && !h.lastReadRequested
    requires forall i :: 0 <= i < |sizes| ==> sizes[i] > 0
    modifies h
    ensures h.Valid() && (sampleRun ==> h.Sampling())
    ensures |data| == Min(Sum(sizes), |old(h.Rest())|) && data + h.Rest() == old(h.Rest())
    ensures !sampleRun || h.canSeek ==> h.cachedSize == old(h.cachedSize)
  {
    hide *;
    data := [];
    ghost var rest := h.Rest();
    SumIs(sizes, 0);
    for i := 0 to |sizes|
      invariant h.Valid() && (sampleRun ==> h.Sampling())
      invariant |data| == Min(Sum(sizes[..i]), |rest|) && data + h.Rest() == rest
      invariant h.lastReadRequested ==> |data| == |rest|
      invariant !sampleRun || h.canSeek ==> h.cachedSize == old(h.cachedSize)
    {
      SumIs(sizes, i);
      ghost var before := h.Rest();
      var out := new Byte[sizes[i]];
      var ok, size, done := h.Read(out, sizes[i], sampleRun);
      MinIs(Sum(sizes[..i]), |rest|);
      MinIs(Sum(sizes[..i + 1]), |rest|);
      if ok {
        Joined(data, out[..size], before, h.Rest(), sizes[i]);
        data := data + out[..size];
      }
    }
    assert sizes[..|sizes|] == sizes;
  }

  /** After sampling with any sizes and a reset, reading with any sizes starts at the first byte again. */
  method SampleThenReplay(h: JsonFileHandle, sampleSizes: seq<nat>, replaySizes: seq<nat>)
    returns (sampled: seq<Byte>, replayed: seq<Byte>)
    requires h.Valid() && h.Sampling() && h.Rest() == h.stream && !h.lastReadRequested
    requires forall i :: 0 <= i < |sampleSizes| ==> sampleSizes[i] > 0
    requires forall i :: 0 <= i < |replaySizes| ==> replaySizes[i] > 0
    modifies h
    ensures h.Valid()
    ensures sampled == h.stream[..Min(Sum(sampleSizes), |h.stream|)]
    ensures replayed == h.stream[..Min(Sum(replaySizes), |h.stream|)]
  {
    sampled := ReadMany(h, sampleSizes, true);
    h.Reset();
    replayed := ReadMany(h, replaySizes, false);
  }
}
