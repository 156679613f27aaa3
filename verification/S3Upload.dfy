/**
  The S3 multipart upload of one file handle: a sequential writer that fills part
  buffers, detached upload threads limited by a slot counter, and a final flush that
  waits for every thread and then sends the completion request.

  The protocol is a step system. An action is one step of the writer or of one upload
  thread; a run is any sequence of enabled actions, so every interleaving is covered.
 */
module S3Upload {
  import opened Basics

  datatype Config = Config(partSize: nat, maxThreads: nat)

  /** One part buffer: `mem` is the allocated memory, `idx` the number of bytes counted as written. */
  datatype Buffer = Buffer(partNo: nat, mem: seq<Byte>, idx: nat, uploading: bool)

  /** Progress of a thread that holds a slot. `Flagged`: it set the error flag and has its exception still to store. */
  datatype Stage = Putting | Tagged | Counted | Flagged | Failed

  datatype Upload = Upload(buf: Buffer, stage: Stage)

  /** What a thread that gave its slot back still has to signal. */
  datatype Signal = SlotSignal | FlushSignal

  /** Who called FlushBuffer, and what is left to do when it returns. */
  datatype Caller =
    | FromWrite(data: seq<Byte>, location: nat, done: nat, chunk: nat)
    | FromFlushAll(pending: set<nat>, sync: bool)

  /** The writer's program counter. */
  datatype Writer =
    | Idle
    | Writing(data: seq<Byte>, location: nat, done: nat)
    | Entering(part: nat, from: Caller)     // FlushBuffer called
    | Claimed(part: nat, from: Caller)      // `uploading` exchanged
    | Checked(part: nat, from: Caller)      // no upload error seen
    | SlotCheck(buf: Buffer, from: Caller)  // erased from the map, testing the slot counter
    | SlotAsleep(buf: Buffer, from: Caller)
    | Spawning(buf: Buffer, from: Caller)   // slot taken
    | Returned(from: Caller)                // FlushBuffer is done
    | FlushingAll(pending: set<nat>, sync: bool)
    | DrainCheck(sync: bool)
    | DrainAsleep(sync: bool)
    | Drained(sync: bool)
    | Finalizing

  /**
    The handle's fields, the writer and the threads. `stored` says whether there is an exception
    to rethrow. The last five fields are history:
    the bytes written, the parts taken out of the buffer map, the parts counted, the
    successful PUT requests and the completion requests sent.
   */
  datatype State = State(
    cfg: Config,
    pc: Writer,
    offset: nat,
    buffers: map<nat, Buffer>,
    active: map<nat, Upload>,
    signalling: map<nat, Signal>,
    inProgress: nat,
    etags: map<nat, seq<Byte>>,
    partsUploaded: nat,
    hasError: bool,
    stored: bool,
    flushStarted: bool,
    finalized: bool,
    written: seq<Byte>,
    taken: set<nat>,
    counted: set<nat>,
    puts: multiset<nat>,
    completions: seq<seq<seq<Byte>>>)

  // The branches of the code are separate actions; `Enabled` holds their conditions.

  /** S3FileSystem::Write */
  datatype WriteAction =
    | CallWrite(bytes: seq<Byte>, at: nat)
    | WriteEnd                // the call returns, or throws on a non-sequential position
    | WriteCopy               // the chunk leaves room in the buffer
    | WriteFill               // the chunk fills the buffer: FlushBuffer is called

  /** S3FileSystem::FlushBuffer */
  datatype FlushAction =
    | FlushSkip               // empty, or already uploading
    | FlushClaim
    | FlushThrow
    | FlushCheck
    | FlushErase
    | SlotTake
    | SlotWait
    | SlotWake                // spurious
    | Spawn
    | ReturnToWrite
    | ReturnToFlush

  /** Close, FileSync, FlushAllBuffers and FinalizeMultipartUpload */
  datatype FinishAction =
    | CallFlush(syncCall: bool)
    | FlushNext(k: nat)
    | FlushPass(k: nat)       // already uploading
    | FlushLast
    | DrainPass
    | DrainWait
    | DrainWake               // spurious
    | FinalEnd                // throws the upload error, or there is nothing to complete
    | FinalPass
    | Finalize

  /** UploadBuffer and NotifyUploadsInProgress, in a thread of their own */
  datatype ThreadAction =
    | PutOk
    | PutFail                 // the first failure: the error flag is exchanged
    | PutFailAgain
    | StoreError
    | CountPart
    | Release
    | NotifySlot              // no writer sleeps on the slot condition
    | NotifySlotWake
    | NotifyFlush             // no writer sleeps on the flush condition
    | NotifyFlushWake

  datatype Action =
    | Write(write: WriteAction)
    | Flush(flush: FlushAction)
    | Finish(finish: FinishAction)
    | Thread(part: nat, thread: ThreadAction)

  /** Part indexes are narrowed to 16 bits, so a file has at most this many parts. */
  const MAX_PARTS: nat := 65535

  function Init(cfg: Config): State {
    State(cfg, Idle, 0, map[], map[], map[], 0, map[], 0, false, false, false, false, [], {}, {}, multiset{}, [])
  }

  // ---------------------------------------------------------------- positions and parts

  /** First file position of part `k`: k * ps, by repeated addition. */
  function Start(ps: nat, k: nat): nat { if k == 0 then 0 else Start(ps, k - 1) + ps }

  /** The part a file position falls in: at / ps, by repeated subtraction. */
  function PartIndex(ps: nat, at: nat): (k: nat)
    ensures Start(ps, k) <= at && (ps > 0 ==> at < Start(ps, k) + ps)
  {
    if ps == 0 || at < ps then 0 else PartIndex(ps, at - ps) + 1
  }

  lemma {:induction false} StartStep(ps: nat, j: nat, k: nat)
    requires j < k
    ensures Start(ps, j) + ps <= Start(ps, k)
  {
    if j + 1 < k { StartStep(ps, j, k - 1); }
  }

  /** Two parts that both contain a position are the same part. */
  lemma StartUnique(ps: nat, j: nat, k: nat, at: nat)
    requires Start(ps, j) <= at < Start(ps, j) + ps
    requires Start(ps, k) <= at < Start(ps, k) + ps
    ensures j == k
  {
    if j < k { StartStep(ps, j, k); } else if k < j { StartStep(ps, k, j); }
  }

  lemma {:induction false} StartIsProduct(ps: nat, k: nat)
    ensures Start(ps, k) == k * ps
  {
    if k > 0 { StartIsProduct(ps, k - 1); }
  }

  /** `PartIndex` is the quotient that Write computes. */
  lemma {:induction false} PartIndexIsQuotient(ps: nat, at: nat)
    requires ps > 0
    ensures PartIndex(ps, at) == at / ps
  {
    var k := PartIndex(ps, at);
    StartIsProduct(ps, k);
    QuotientIs(at, ps, k, at - k * ps);
  }

  // ---------------------------------------------------------------- the writer's steps

  /** The writer is between erasing a buffer and handing it to a thread. */
  predicate Holding(pc: Writer) { pc.SlotCheck? || pc.SlotAsleep? || pc.Spawning? }

  datatype Hand = Empty | Full(buf: Buffer)

  /** The buffer in the writer's hand. */
  function Held(pc: Writer): Hand { if Holding(pc) then Full(pc.buf) else Empty }

  /** FlushBuffer has the buffer, still in the map. */
  predicate Flushing(pc: Writer) { pc.Entering? || pc.Claimed? || pc.Checked? }

  /** The writer is inside a call of FlushBuffer. */
  predicate InFlush(pc: Writer) { Flushing(pc) || Holding(pc) || pc.Returned? }

  /** The part under the file position, and how far into it the position is. */
  function Under(s: State): nat { PartIndex(s.cfg.partSize, s.offset) }

  function Filled(s: State): nat { s.offset - Start(s.cfg.partSize, Under(s)) }

  /** GetBuffer, without the insertion. */
  function BufferAt(s: State, k: nat): Buffer {
    if k in s.buffers then s.buffers[k] else Buffer(k, seq(s.cfg.partSize, _ => 0 as Byte), 0, false)
  }

  predicate AtChunk(s: State) {
    && s.cfg.partSize > 0
    && s.pc.Writing? && s.pc.done < |s.pc.data| && s.pc.location + s.pc.done == s.offset
    && |BufferAt(s, Under(s)).mem| == s.cfg.partSize
  }

  /** Bytes copied in one turn of the write loop. */
  function Chunk(s: State): (n: nat)
    requires AtChunk(s)
    ensures 1 <= n <= |s.pc.data| - s.pc.done
    ensures Filled(s) + n <= s.cfg.partSize
  {
    Min(|s.pc.data| - s.pc.done, s.cfg.partSize - Filled(s))
  }

  /** memcpy of `src` over `mem` from `at`. */
  function Splice(mem: seq<Byte>, at: nat, src: seq<Byte>): (r: seq<Byte>)
    requires at + |src| <= |mem|
    ensures |r| == |mem|
  {
    mem[..at] + src + mem[at + |src|..]
  }

  /** The buffer of the current position after the copy. */
  function Copied(s: State): Buffer
    requires AtChunk(s)
  {
    var buf := BufferAt(s, Under(s));
    var src := s.pc.data[s.pc.done..s.pc.done + Chunk(s)];
    buf.(mem := Splice(buf.mem, Filled(s), src), idx := buf.idx + |src|)
  }

  /** One turn of the write loop, up to the test whether the buffer is full. */
  function Copy(s: State): State
    requires AtChunk(s)
  {
    s.(buffers := s.buffers[Under(s) := Copied(s)],
       written := s.written + s.pc.data[s.pc.done..s.pc.done + Chunk(s)])
  }

  // ---------------------------------------------------------------- steps

  predicate BuffersFit(buffers: map<nat, Buffer>, ps: nat) {
    forall k :: k in buffers ==> buffers[k].partNo == k && |buffers[k].mem| == ps
  }

  predicate ActiveFit(active: map<nat, Upload>) {
    forall k :: k in active ==> active[k].buf.partNo == k && active[k].buf.idx <= |active[k].buf.mem|
  }

  predicate ControlFits(pc: Writer, open: set<nat>) {
    && (Flushing(pc) ==> pc.part in open)
    && (pc.FlushingAll? ==> pc.pending <= open)
    && (InFlush(pc) && pc.from.FromFlushAll? ==> pc.from.pending <= open)
    && (Flushing(pc) && pc.from.FromFlushAll? ==> pc.part !in pc.from.pending)
    && (Holding(pc) ==> pc.buf.idx <= |pc.buf.mem|)
  }

  /** What the step functions rely on; part of the invariant. */
  predicate Shape(s: State) {
    && s.cfg.partSize > 0
    && BuffersFit(s.buffers, s.cfg.partSize)
    && ControlFits(s.pc, s.buffers.Keys)
    && ActiveFit(s.active)
  }

  predicate CanWrite(s: State, a: WriteAction)
    requires Shape(s)
  {
    match a
    case CallWrite(bytes, at) =>
      s.pc.Idle? && !s.flushStarted && s.offset + |bytes| <= MAX_PARTS * s.cfg.partSize
    case WriteEnd =>
      s.pc.Writing? && (s.pc.done >= |s.pc.data| || s.pc.location + s.pc.done != s.offset)
    case WriteCopy => AtChunk(s) && Copied(s).idx < s.cfg.partSize
    case WriteFill => AtChunk(s) && Copied(s).idx >= s.cfg.partSize
  }

  function DoWrite(s: State, a: WriteAction): State
    requires Shape(s) && CanWrite(s, a)
  {
    match a
    case CallWrite(bytes, at) => s.(pc := Writing(bytes, at, 0))
    case WriteEnd => s.(pc := Idle)
    case WriteCopy =>
      Copy(s).(offset := s.offset + Chunk(s), pc := Writing(s.pc.data, s.pc.location, s.pc.done + Chunk(s)))
    case WriteFill =>
      Copy(s).(pc := Entering(Under(s),
                              FromWrite(s.pc.data, s.pc.location, s.pc.done, Chunk(s))))
  }

  predicate CanFlush(s: State, a: FlushAction)
    requires Shape(s)
  {
    match a
    case FlushSkip => s.pc.Entering? && (s.buffers[s.pc.part].idx == 0 || s.buffers[s.pc.part].uploading)
    case FlushClaim => s.pc.Entering? && s.buffers[s.pc.part].idx > 0 && !s.buffers[s.pc.part].uploading
    case FlushThrow => s.pc.Claimed? && s.hasError
    case FlushCheck => s.pc.Claimed? && !s.hasError
    case FlushErase => s.pc.Checked? && s.buffers[s.pc.part].idx <= s.cfg.partSize
    case SlotTake => s.pc.SlotCheck? && s.inProgress < s.cfg.maxThreads
    case SlotWait => s.pc.SlotCheck? && s.inProgress >= s.cfg.maxThreads
    case SlotWake => s.pc.SlotAsleep?
    case Spawn => s.pc.Spawning?
    case ReturnToWrite => s.pc.Returned? && s.pc.from.FromWrite?
    case ReturnToFlush => s.pc.Returned? && s.pc.from.FromFlushAll?
  }

  function DoFlush(s: State, a: FlushAction): State
    requires Shape(s) && CanFlush(s, a)
  {
    match a
    case FlushSkip => s.(pc := Returned(s.pc.from))
    case FlushClaim =>
      s.(buffers := s.buffers[s.pc.part := s.buffers[s.pc.part].(uploading := true)],
         pc := Claimed(s.pc.part, s.pc.from))
    case FlushThrow => s.(pc := Idle)
    case FlushCheck => s.(pc := Checked(s.pc.part, s.pc.from))
    case FlushErase =>
      s.(pc := SlotCheck(s.buffers[s.pc.part], s.pc.from),
         buffers := s.buffers - {s.pc.part}, taken := s.taken + {s.pc.part})
    case SlotTake => s.(inProgress := s.inProgress + 1, pc := Spawning(s.pc.buf, s.pc.from))
    case SlotWait => s.(pc := SlotAsleep(s.pc.buf, s.pc.from))
    case SlotWake => s.(pc := SlotCheck(s.pc.buf, s.pc.from))
    case Spawn =>
      s.(active := s.active[s.pc.buf.partNo := Upload(s.pc.buf, Putting)], pc := Returned(s.pc.from))
    case ReturnToWrite =>
      s.(offset := s.offset + s.pc.from.chunk,
         pc := Writing(s.pc.from.data, s.pc.from.location, s.pc.from.done + s.pc.from.chunk))
    case ReturnToFlush => s.(pc := FlushingAll(s.pc.from.pending, s.pc.from.sync))
  }

  predicate CanFinish(s: State, a: FinishAction)
    requires Shape(s)
  {
    match a
    case CallFlush(_) => s.pc.Idle? && !s.finalized
    case FlushNext(k) => s.pc.FlushingAll? && k in s.pc.pending && !s.buffers[k].uploading
    case FlushPass(k) => s.pc.FlushingAll? && k in s.pc.pending && s.buffers[k].uploading
    case FlushLast => s.pc.FlushingAll? && s.pc.pending == {}
    case DrainPass => s.pc.DrainCheck? && s.inProgress == 0
    case DrainWait => s.pc.DrainCheck? && s.inProgress > 0
    case DrainWake => s.pc.DrainAsleep?
    case FinalEnd => s.pc.Drained? && (s.hasError || (!s.pc.sync && s.partsUploaded == 0))
    case FinalPass => s.pc.Drained? && !s.hasError && (s.pc.sync || s.partsUploaded > 0)
    case Finalize => s.pc.Finalizing?
  }

  /** The completion request FinalizeMultipartUpload sends; none when a part number is unknown. */
  function Request(s: State): seq<seq<seq<Byte>>> {
    if forall i :: 0 <= i < s.partsUploaded ==> i in s.etags then
      [seq(s.partsUploaded, i requires 0 <= i < s.partsUploaded => s.etags[i])]
    else []
  }

  function DoFinish(s: State, a: FinishAction): State
    requires Shape(s) && CanFinish(s, a)
  {
    match a
    case CallFlush(sync) => s.(flushStarted := true, pc := FlushingAll(s.buffers.Keys, sync))
    case FlushNext(k) => s.(pc := Entering(k, FromFlushAll(s.pc.pending - {k}, s.pc.sync)))
    case FlushPass(k) => s.(pc := FlushingAll(s.pc.pending - {k}, s.pc.sync))
    case FlushLast => s.(pc := DrainCheck(s.pc.sync))
    case DrainPass => s.(pc := Drained(s.pc.sync))
    case DrainWait => s.(pc := DrainAsleep(s.pc.sync))
    case DrainWake => s.(pc := DrainCheck(s.pc.sync))
    case FinalEnd => s.(pc := Idle)
    case FinalPass => s.(pc := Finalizing)
    case Finalize => s.(finalized := true, pc := Idle, completions := s.completions + Request(s))
  }

  predicate CanThread(s: State, k: nat, a: ThreadAction)
    requires Shape(s)
  {
    match a
    case PutOk => k in s.active && s.active[k].stage.Putting?
    case PutFail => k in s.active && s.active[k].stage.Putting? && !s.hasError
    case PutFailAgain => k in s.active && s.active[k].stage.Putting? && s.hasError
    case StoreError => k in s.active && s.active[k].stage.Flagged?
    case CountPart => k in s.active && s.active[k].stage.Tagged?
    case Release => k in s.active && (s.active[k].stage.Counted? || s.active[k].stage.Failed?) && s.inProgress > 0
    case NotifySlot => k in s.signalling && s.signalling[k].SlotSignal? && !s.pc.SlotAsleep?
    case NotifySlotWake => k in s.signalling && s.signalling[k].SlotSignal? && s.pc.SlotAsleep?
    case NotifyFlush => k in s.signalling && s.signalling[k].FlushSignal? && !s.pc.DrainAsleep?
    case NotifyFlushWake => k in s.signalling && s.signalling[k].FlushSignal? && s.pc.DrainAsleep?
  }

  function DoThread(s: State, k: nat, a: ThreadAction): State
    requires Shape(s) && CanThread(s, k, a)
  {
    match a
    case PutOk =>
      s.(active := s.active[k := s.active[k].(stage := Tagged)],
         etags := s.etags[k := s.active[k].buf.mem[..s.active[k].buf.idx]], puts := s.puts + multiset{k})
    case PutFail => s.(active := s.active[k := s.active[k].(stage := Flagged)], hasError := true)
    case PutFailAgain => s.(active := s.active[k := s.active[k].(stage := Failed)])
    case StoreError => s.(active := s.active[k := s.active[k].(stage := Failed)], stored := true)
    case CountPart =>
      s.(active := s.active[k := s.active[k].(stage := Counted)], partsUploaded := s.partsUploaded + 1,
         counted := s.counted + {k})
    case Release =>
      s.(active := s.active - {k}, inProgress := s.inProgress - 1, signalling := s.signalling[k := SlotSignal])
    case NotifySlot => s.(signalling := s.signalling[k := FlushSignal])
    case NotifySlotWake =>
      s.(signalling := s.signalling[k := FlushSignal], pc := SlotCheck(s.pc.buf, s.pc.from))
    case NotifyFlush => s.(signalling := s.signalling - {k})
    case NotifyFlushWake => s.(signalling := s.signalling - {k}, pc := DrainCheck(s.pc.sync))
  }

  predicate Enabled(s: State, a: Action)
    requires Shape(s)
  {
    match a
    case Write(w) => CanWrite(s, w)
    case Flush(f) => CanFlush(s, f)
    case Finish(f) => CanFinish(s, f)
    case Thread(k, t) => CanThread(s, k, t)
  }

  function Step(s: State, a: Action): State
    requires Shape(s) && Enabled(s, a)
  {
    match a
    case Write(w) => DoWrite(s, w)
    case Flush(f) => DoFlush(s, f)
    case Finish(f) => DoFinish(s, f)
    case Thread(k, t) => DoThread(s, k, t)
  }

  // ---------------------------------------------------------------- the parts of a file

  /** The bytes of part `k` among `w`. */
  function Part(w: seq<Byte>, ps: nat, k: nat): seq<Byte> {
    w[Min(Start(ps, k), |w|)..Min(Start(ps, k + 1), |w|)]
  }

  /** The object the server assembles. */
  function Join(c: seq<seq<Byte>>): seq<Byte> { if c == [] then [] else Join(c[..|c| - 1]) + c[|c| - 1] }
}
