/**
  The buffered reader of a remote file.

  A handle keeps a window of the file in its read buffer; a read takes what it can from the
  window and asks the server for the rest, either into the window or past it. The server is the
  file: a range inside it is answered with its bytes, any other range request fails.
 */
module HttpReader {
  import opened Basics

  const READ_BUFFER_LEN: nat := 1000000

  /** idx_t */
  const INDEX_RANGE: nat := 0x1_0000_0000_0000_0000

  /** `PastEnd`: a read of the cached file past its end, where nothing checks the range. */
  datatype Outcome = Done | RequestFailed | PastEnd

  /** Unsigned subtraction. */
  function Minus(a: nat, b: nat): (r: nat)
    ensures b <= a < INDEX_RANGE ==> r == a - b
    ensures a < b <= INDEX_RANGE ==> r == a - b + INDEX_RANGE
  {
    (a - b) % INDEX_RANGE
  }

  /** How the file was opened: downloaded whole, direct I/O or parallel access, or buffered. */
  datatype Mode = CachedFile | SkipBuffer | Buffered

  class Handle {
    const file: seq<Byte>
    const mode: Mode
    const readBuffer: array<Byte>
    var fileOffset: nat
    var bufferStart: nat
    var bufferEnd: nat
    var bufferIdx: nat
    var bufferAvailable: nat
    /** Number of range requests made. */
    var getCount: nat

    ghost predicate Valid()
      reads this, readBuffer
    {
      && |file| < INDEX_RANGE / 2
      && readBuffer.Length == READ_BUFFER_LEN
      && bufferStart <= bufferEnd <= |file| && bufferEnd - bufferStart <= READ_BUFFER_LEN
      && forall k :: 0 <= k < bufferEnd - bufferStart ==> readBuffer[k] == file[bufferStart + k]
    }

    constructor (file: seq<Byte>, mode: Mode)
      requires |file| < INDEX_RANGE / 2
      ensures Valid() && this.file == file && this.mode == mode && fileOffset == 0 && getCount == 0 && fresh(readBuffer)
    {
      this.file, this.mode := file, mode;
      readBuffer := new Byte[READ_BUFFER_LEN];
      fileOffset, bufferStart, bufferEnd, bufferIdx, bufferAvailable, getCount := 0, 0, 0, 0, 0, 0;
    }

    /** A range request of `n` bytes at `offset` of the file, into `out` at `at`. */
    method GetRange(offset: nat, out: array<Byte>, at: nat, n: nat) returns (ok: bool)
      requires at + n <= out.Length
      modifies this`getCount, out
      ensures ok <==> offset + n <= |file|
      ensures getCount == old(getCount) + 1
      ensures ok ==> forall k :: at <= k < at + n ==> out[k] == file[offset + k - at]
      ensures forall k :: 0 <= k < out.Length && !(at <= k < at + n) ==> out[k] == old(out[k])
    {
      getCount := getCount + 1;
      ok := offset + n <= |file|;
      if !ok { return; }
      CopyBytes(file[offset..offset + n], out, at);
    }

    /** The window holds what is left of the file at the current offset. */
    ghost predicate Positioned()
      reads this
    {
      bufferAvailable == 0
      || (bufferStart + bufferIdx == fileOffset && fileOffset + bufferAvailable == bufferEnd)
    }

    /** Point the window at `location`, if it holds it. */
    method Reposition(location: nat)
      requires Valid()
      modifies `fileOffset, `bufferIdx, `bufferAvailable
      ensures Valid() && Positioned() && fileOffset == location
      ensures bufferAvailable == if bufferStart <= location < bufferEnd then bufferEnd - location else 0
    {
      fileOffset := location;
      if location >= bufferStart && location < bufferEnd {
        bufferIdx := location - bufferStart;
        bufferAvailable := (bufferEnd - bufferStart) - bufferIdx;
      } else {
        bufferAvailable := 0;
        bufferIdx := 0;
      }
    }

    /** Copy `n` bytes out of the window. */
    method Take(buffer: array<Byte>, at: nat, n: nat)
      requires Valid() && Positioned() && 0 < n <= bufferAvailable && at + n <= buffer.Length && buffer != readBuffer
      modifies buffer, `fileOffset, `bufferIdx, `bufferAvailable
      ensures Valid() && Positioned() && fileOffset == old(fileOffset) + n <= |file|
      ensures bufferAvailable == old(bufferAvailable) - n
      ensures forall k :: at <= k < at + n ==> buffer[k] == file[old(fileOffset) + k - at]
      ensures forall k :: 0 <= k < buffer.Length && !(at <= k < at + n) ==> buffer[k] == old(buffer[k])
    {
      assert bufferStart + bufferIdx + n <= bufferEnd;
      CopyBytes(readBuffer[bufferIdx..bufferIdx + n], buffer, at);
      bufferIdx := bufferIdx + n;
      bufferAvailable := bufferAvailable - n;
      fileOffset := fileOffset + n;
    }

    /** Load the window with `n` bytes at the current offset. */
    method Refill(n: nat) returns (ok: bool)
      requires Valid() && n <= READ_BUFFER_LEN
      modifies `getCount, readBuffer, `bufferAvailable, `bufferIdx, `bufferStart, `bufferEnd
      ensures ok <==> fileOffset + n <= |file|
      ensures getCount == old(getCount) + 1
      ensures ok ==> Valid() && Positioned() && bufferAvailable == n
    {
      ok := GetRange(fileOffset, readBuffer, 0, n);
      if ok {
        bufferAvailable := n;
        bufferIdx := 0;
        bufferStart := fileOffset;
        bufferEnd := bufferStart + n;
      }
    }

    /** Get `n` more bytes from the server: past the window if they are more than it takes. */
    method Fetch(buffer: array<Byte>, at: nat, n: nat, position: nat) returns (ok: bool, done: bool)
      requires position == fileOffset
      requires Valid() && 0 < n && at + n <= buffer.Length && buffer != readBuffer && fileOffset < INDEX_RANGE
      modifies `getCount, readBuffer, buffer, `fileOffset, `bufferAvailable, `bufferIdx, `bufferStart, `bufferEnd
      ensures getCount == old(getCount) + 1
      ensures ok <==> old(fileOffset) + n <= |file|
      ensures ok && done ==> Valid() && fileOffset == old(fileOffset) + n
      ensures ok && done ==> forall k :: at <= k < at + n ==> buffer[k] == file[old(fileOffset) + k - at]
      ensures ok && !done ==> Valid() && Positioned() && fileOffset == old(fileOffset) && n <= bufferAvailable
      ensures forall k :: 0 <= k < buffer.Length && !(at <= k < at + n) ==> buffer[k] == old(buffer[k])
    {
      var available := Min(READ_BUFFER_LEN, Minus(|file|, fileOffset));
      if n > available {
        ok := GetRange(position, buffer, at, n);
        if !ok { return false, false; }
        bufferAvailable := 0;
        bufferIdx := 0;
        fileOffset := fileOffset + n;
        return true, true;
      }
      ok := Refill(available);
      done := false;
    }

    /** The refill loop of a buffered read. */
    method ReadLoop(buffer: array<Byte>, n: nat, location: nat) returns (ok: bool)
      requires Valid() && Positioned() && n <= buffer.Length && buffer != readBuffer
      requires location < INDEX_RANGE && fileOffset == location
      modifies this, readBuffer, buffer
      ensures ok <==> n == 0 || location + n <= |file|
      ensures ok ==> Valid() && fileOffset == location + n
      ensures ok ==> forall k :: 0 <= k < n ==> buffer[k] == file[location + k]
      ensures forall k :: n <= k < buffer.Length ==> buffer[k] == old(buffer[k])
      ensures getCount <= old(getCount) + 1
      ensures n <= old(bufferAvailable) ==> getCount == old(getCount)
    {
      var toRead: nat, offset: nat := n, 0;
      while toRead > 0
        invariant offset + toRead == n && fileOffset == location + offset
        invariant Valid() && Positioned()
        invariant offset > 0 ==> location + offset <= |file|
        invariant forall k :: 0 <= k < offset ==> buffer[k] == file[location + k]
        invariant forall k :: n <= k < buffer.Length ==> buffer[k] == old(buffer[k])
        invariant getCount == old(getCount) || (getCount == old(getCount) + 1 && toRead <= bufferAvailable)
        invariant n <= old(bufferAvailable) ==> getCount == old(getCount) && toRead <= bufferAvailable
        decreases toRead, if bufferAvailable == 0 then 1 else 0
      {
        var length := Min(bufferAvailable, toRead);
        if length > 0 {
          Take(buffer, offset, length);
          offset := offset + length;
          toRead := toRead - length;
        }
        if toRead > 0 && bufferAvailable == 0 {
          var done;
          ok, done := Fetch(buffer, offset, toRead, location + offset);
          if !ok || done { return; }
        }
      }
      return true;
    }

    /** A read of `n` bytes at `location`. */
    method ReadAt(buffer: array<Byte>, n: nat, location: nat) returns (r: Outcome)
      requires Valid() && n <= buffer.Length && buffer != readBuffer && location < INDEX_RANGE
      modifies this, readBuffer, buffer
      ensures r == Done <==> n == 0 || location + n <= |file|
      ensures r == PastEnd ==> mode == CachedFile
      ensures r == Done ==> Valid() && fileOffset == location + n
      ensures r == Done ==> forall k :: 0 <= k < n ==> buffer[k] == file[location + k]
      ensures forall k :: n <= k < buffer.Length ==> buffer[k] == old(buffer[k])
      ensures getCount <= old(getCount) + 1
      ensures mode == CachedFile || n == 0 ==> getCount == old(getCount)
      ensures mode == Buffered && old(bufferStart) <= location < old(bufferEnd) && location + n <= old(bufferEnd)
              ==> getCount == old(getCount)
    {
      if mode == CachedFile {
        if n > 0 && location + n > |file| { return PastEnd; }
        if n > 0 { CopyBytes(file[location..location + n], buffer, 0); }
        fileOffset := location + n;
        return Done;
      }
      if mode == SkipBuffer && n > 0 {
        var served := GetRange(location, buffer, 0, n);
        if !served { return RequestFailed; }
        bufferAvailable := 0;
        bufferIdx := 0;
        fileOffset := location + n;
        return Done;
      }
      Reposition(location);
      var ok := ReadLoop(buffer, n, location);
      return if ok then Done else RequestFailed;
    }

    /** A read of up to `n` bytes at the current offset. */
    method Read(buffer: array<Byte>, n: nat) returns (r: Outcome, count: nat)
      requires Valid() && n <= buffer.Length && buffer != readBuffer && fileOffset < INDEX_RANGE
      modifies this, readBuffer, buffer
      ensures r == Done <==> n == 0 || old(fileOffset) <= |file|
      ensures r == Done && n > 0 ==> count == Min(|file| - old(fileOffset), n)
      ensures n == 0 ==> count == 0
      ensures r == Done ==> Valid() && count <= n && fileOffset == old(fileOffset) + count
      ensures r == Done ==> forall k :: 0 <= k < count ==> buffer[k] == file[old(fileOffset) + k]
      ensures r == Done ==> forall k :: count <= k < buffer.Length ==> buffer[k] == old(buffer[k])
    {
      count := Min(Minus(|file|, fileOffset), n);
      r := ReadAt(buffer, count, fileOffset);
    }

    method Seek(location: nat)
      requires Valid()
      modifies `fileOffset
      ensures Valid() && fileOffset == location
    {
      fileOffset := location;
    }
  }

  // ---------------------------------------------------------------- whole runs

  datatype Op = At(location: nat, n: nat) | Next(n: nat) | Jump(location: nat)

  /** What a run returns: the bytes of each read, up to the first that fails. */
  datatype Run = Run(chunks: seq<seq<Byte>>, failed: bool)

  function Slice(file: seq<Byte>, location: nat, n: nat): (s: seq<Byte>)
    requires n == 0 || location + n <= |file|
    ensures |s| == n
  {
    if n == 0 then [] else file[location..location + n]
  }

  function Then(read: seq<Byte>, rest: Run): Run { Run([read] + rest.chunks, rest.failed) }

  /** A plain file with a cursor and no window. */
  function Play(file: seq<Byte>, position: nat, ops: seq<Op>): Run
    decreases |ops|
  {
    if ops == [] then Run([], false)
    else
      var rest := ops[1..];
      match ops[0]
      case Jump(location) => Play(file, location, rest)
      case At(location, n) =>
        if n == 0 || location + n <= |file| then Then(Slice(file, location, n), Play(file, location + n, rest))
        else Run([], true)
      case Next(n) =>
        if n > 0 && position > |file| then Run([], true)
        else
          var count := if n == 0 then 0 else Min(|file| - position, n);
          Then(Slice(file, position, count), Play(file, position + count, rest))
  }

  predicate Indexes(ops: seq<Op>) {
    forall i :: 0 <= i < |ops| ==> !ops[i].Next? ==> ops[i].location < INDEX_RANGE
  }

  function After(chunks: seq<seq<Byte>>, rest: Run): Run { Run(chunks + rest.chunks, rest.failed) }

  lemma AfterThen(chunks: seq<seq<Byte>>, read: seq<Byte>, rest: Run)
    ensures After(chunks, Then(read, rest)) == After(chunks + [read], rest)
  {
    assert chunks + ([read] + rest.chunks) == chunks + [read] + rest.chunks;
  }

  lemma SliceIs(file: seq<Byte>, location: nat, n: nat, read: seq<Byte>)
    requires n == 0 || location + n <= |file|
    requires |read| == n && forall k :: 0 <= k < n ==> read[k] == file[location + k]
    ensures read == Slice(file, location, n)
  {
  }

  /** In every mode a run of reads and seeks returns what a plain file returns. */
  method Replay(h: Handle, ops: seq<Op>) returns (run: Run)
    requires h.Valid() && h.fileOffset < INDEX_RANGE && Indexes(ops)
    modifies h, h.readBuffer
    ensures run == Play(h.file, old(h.fileOffset), ops)
  {
    hide Slice;
    var chunks: seq<seq<Byte>> := [];
    for i := 0 to |ops|
      invariant h.Valid() && h.fileOffset < INDEX_RANGE
      invariant Play(h.file, old(h.fileOffset), ops) == After(chunks, Play(h.file, h.fileOffset, ops[i..]))
    {
      ghost var rest := ops[i..];
      assert rest[1..] == ops[i + 1..];
      match ops[i]
      case Jump(location) =>
        h.Seek(location);
      case At(location, n) =>
        var buffer := new Byte[n];
        var r := h.ReadAt(buffer, n, location);
        if r != Done { return Run(chunks, true); }
        SliceIs(h.file, location, n, buffer[..]);
        AfterThen(chunks, buffer[..], Play(h.file, h.fileOffset, ops[i + 1..]));
        chunks := chunks + [buffer[..]];
      case Next(n) =>
        var buffer := new Byte[n];
        ghost var position := h.fileOffset;
        var r, count := h.Read(buffer, n);
        if r != Done { return Run(chunks, true); }
        SliceIs(h.file, position, count, buffer[..count]);
        AfterThen(chunks, buffer[..count], Play(h.file, h.fileOffset, ops[i + 1..]));
        chunks := chunks + [buffer[..count]];
    }
    return Run(chunks, false);
  }
}
