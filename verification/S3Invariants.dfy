/** The invariant of the upload protocol, and that every step keeps it. */
module S3Invariants {
  import opened Basics
  import opened S3Upload

  /** File position just after the last byte copied into a buffer. */
  function End(pc: Writer, offset: nat): nat {
    offset + if InFlush(pc) && pc.from.FromWrite? then pc.from.chunk else 0
  }

  /** `uploads_in_progress` counts the slots taken and not given back. */
  ghost predicate Slots(active: map<nat, Upload>, spawning: bool, inProgress: nat, max: nat) {
    && inProgress == |active| + (if spawning then 1 else 0)
    && inProgress <= max
  }

  /** A sleeping writer is owed a signal, or its wait condition is still false. */
  ghost predicate Wakeups(pc: Writer, signalling: map<nat, Signal>, inProgress: nat, max: nat) {
    && (pc.SlotAsleep? ==> inProgress >= max || exists k :: k in signalling && signalling[k].SlotSignal?)
    && (pc.DrainAsleep? ==> inProgress > 0 || exists k :: k in signalling)
  }

  /** A part is taken out of the map once, uploaded at most once, and never comes back. */
  ghost predicate Places(hand: Hand, open: set<nat>, taken: set<nat>, active: map<nat, Upload>, tagged: set<nat>,
                         puts: multiset<nat>)
  {
    && open !! taken
    && active.Keys <= taken
    && tagged <= taken
    && (forall k :: k in active ==> (k in tagged <==> active[k].stage.Tagged? || active[k].stage.Counted?))
    && (hand.Full? ==> hand.buf.partNo in taken && hand.buf.partNo !in active && hand.buf.partNo !in tagged)
    && (forall k :: puts[k] == if k in tagged then 1 else 0)
  }

  ghost predicate Counters(active: map<nat, Upload>, tagged: set<nat>, counted: set<nat>, partsUploaded: nat) {
    && partsUploaded == |counted|
    && counted <= tagged
    && (forall k :: k in tagged && k !in counted ==> k in active && active[k].stage.Tagged?)
    && (forall k :: k in active && active[k].stage.Tagged? ==> k !in counted)
  }

  /** Taken parts end before the file position; the part under it is in the map. */
  ghost predicate Behind(end: nat, taken: set<nat>, open: set<nat>, ps: nat) {
    && (forall k :: k in taken ==> Start(ps, k + 1) <= end)
    && (forall k: nat {:trigger k in open} :: Start(ps, k) < end < Start(ps, k) + ps ==> k in open)
  }

  /** A buffer not yet claimed is the one under the file position, and is full only while being flushed. */
  ghost predicate Unclaimed(pc: Writer, end: nat, buffers: map<nat, Buffer>, ps: nat) {
    forall k :: k in buffers && !buffers[k].uploading ==>
      && 1 <= buffers[k].idx <= ps && Start(ps, k) + buffers[k].idx == end
      && (buffers[k].idx == ps ==> pc.Entering? && pc.part == k)
  }

  /** The buffer being flushed ends at the file position. */
  ghost predicate Flushed(pc: Writer, end: nat, buffers: map<nat, Buffer>, ps: nat)
    requires Flushing(pc) ==> pc.part in buffers
  {
    && (pc.Claimed? || pc.Checked? ==>
          && buffers[pc.part].uploading && 1 <= buffers[pc.part].idx <= ps
          && Start(ps, pc.part) + buffers[pc.part].idx == end)
    && (InFlush(pc) && pc.from.FromWrite? ==> 1 <= pc.from.chunk <= ps)
    && (pc.Entering? && pc.from.FromWrite? ==> buffers[pc.part].idx >= ps)
    && ((pc.Claimed? || pc.Checked?) && pc.from.FromWrite? ==> buffers[pc.part].idx == ps)
    && (Holding(pc) && pc.from.FromWrite? ==> Start(ps, pc.buf.partNo + 1) == end)
  }

  /** Writes come before the flush, and nothing but the flush after it. */
  ghost predicate Phases(pc: Writer, flushStarted: bool) {
    && (pc.Writing? || (InFlush(pc) && pc.from.FromWrite?) ==> !flushStarted)
    && ((pc.FlushingAll? || pc.DrainCheck? || pc.DrainAsleep? || pc.Drained? || pc.Finalizing?) ==> flushStarted)
    && (InFlush(pc) && pc.from.FromFlushAll? ==> flushStarted)
  }

  ghost predicate Positions(s: State)
    requires Shape(s)
  {
    var end := End(s.pc, s.offset);
    && Phases(s.pc, s.flushStarted)
    && (!s.flushStarted ==> Behind(end, s.taken, s.buffers.Keys, s.cfg.partSize))
    && Unclaimed(s.pc, end, s.buffers, s.cfg.partSize)
    && Flushed(s.pc, end, s.buffers, s.cfg.partSize)
  }

  predicate Holds(buf: Buffer, w: seq<Byte>, ps: nat) {
    buf.idx <= |buf.mem| && buf.mem[..buf.idx] == Part(w, ps, buf.partNo)
  }

  /** Wherever a part is, its bytes are the bytes written. */
  ghost predicate Contents(w: seq<Byte>, ps: nat, hand: Hand, buffers: map<nat, Buffer>, active: map<nat, Upload>,
                           etags: map<nat, seq<Byte>>)
  {
    && (forall k :: k in buffers ==> Holds(buffers[k], w, ps))
    && (hand.Full? ==> Holds(hand.buf, w, ps))
    && (forall k :: k in active ==>
          !active[k].stage.Failed? && !active[k].stage.Flagged? && Holds(active[k].buf, w, ps))
    && (forall k :: k in etags ==> etags[k] == Part(w, ps, k))
  }

  /** Every part of the bytes written is somewhere, and nothing else is. */
  ghost predicate Located(w: seq<Byte>, ps: nat, hand: Hand, open: set<nat>, taken: set<nat>, flying: set<nat>,
                          tagged: set<nat>)
  {
    && (forall k: nat {:trigger k in taken} :: Start(ps, k) < |w| <==> k in open || k in taken)
    && (forall k :: k in taken ==> k in flying || k in tagged || (hand.Full? && hand.buf.partNo == k))
  }

  /** Only the buffer being flushed is claimed, and a finished flush leaves the map empty. */
  ghost predicate Emptied(pc: Writer, buffers: map<nat, Buffer>) {
    && (forall k :: k in buffers && buffers[k].uploading ==> (pc.Claimed? || pc.Checked?) && pc.part == k)
    && (pc.FlushingAll? ==> pc.pending == buffers.Keys)
    && (InFlush(pc) && pc.from.FromFlushAll? ==>
          buffers.Keys == pc.from.pending + if Flushing(pc) then {pc.part} else {})
    && ((pc.DrainCheck? || pc.DrainAsleep? || pc.Drained? || pc.Finalizing?) ==> buffers == map[])
  }

  /** `c` lists the parts of `w`, all of them, in order. */
  ghost predicate Complete(c: seq<seq<Byte>>, w: seq<Byte>, ps: nat) {
    && (forall i :: 0 <= i < |c| ==> c[i] == Part(w, ps, i))
    && (forall k: nat :: k < |c| <==> Start(ps, k) < |w|)
  }

  function Range(n: nat): (r: set<nat>)
    ensures |r| == n && forall i: nat :: i in r <==> i < n
  {
    if n == 0 then {} else Range(n - 1) + {n - 1}
  }

  /** The completion request is sent once, for the whole file, and never after an error. */
  ghost predicate Final(s: State) {
    && (s.pc.Drained? || s.pc.Finalizing? ==> s.active == map[])
    && (s.pc.Finalizing? ==> !s.hasError)
    && (!s.finalized ==> s.completions == [])
    && (s.finalized ==>
          && s.pc.Idle? && s.flushStarted && !s.hasError && s.active == map[]
          && |s.completions| == 1 && Complete(s.completions[0], s.written, s.cfg.partSize)
          && s.etags.Keys == Range(|s.completions[0]|))
  }

  /** Part numbers fit the 16-bit index. */
  ghost predicate Narrow(s: State) {
    && (s.pc.Writing? ==> s.offset + |s.pc.data| <= MAX_PARTS * s.cfg.partSize + s.pc.done)
    && (InFlush(s.pc) && s.pc.from.FromWrite? ==>
          && s.pc.from.done + s.pc.from.chunk <= |s.pc.from.data|
          && s.offset + |s.pc.from.data| <= MAX_PARTS * s.cfg.partSize + s.pc.from.done)
    && (forall k :: k in s.buffers || k in s.taken ==> k < MAX_PARTS)
  }

  /** A thread that signals has left the slots. */
  ghost predicate Signals(hand: Hand, taken: set<nat>, flying: set<nat>, signalling: set<nat>) {
    signalling <= taken && signalling !! flying && (hand.Full? ==> hand.buf.partNo !in signalling)
  }

  /** The exception is stored by the one thread that set the error flag. */
  ghost predicate Errors(active: map<nat, Upload>, hasError: bool, stored: bool) {
    && (stored ==> hasError)
    && (hasError && !stored <==> exists k :: k in active && active[k].stage.Flagged?)
    && (forall j, k :: j in active && k in active && active[j].stage.Flagged? && active[k].stage.Flagged? ==> j == k)
  }

  ghost predicate ErrorsOk(s: State) { Errors(s.active, s.hasError, s.stored) }

  ghost predicate SlotsOk(s: State) { Slots(s.active, s.pc.Spawning?, s.inProgress, s.cfg.maxThreads) }

  ghost predicate WakeupsOk(s: State) { Wakeups(s.pc, s.signalling, s.inProgress, s.cfg.maxThreads) }

  ghost predicate PlacesOk(s: State) { Places(Held(s.pc), s.buffers.Keys, s.taken, s.active, s.etags.Keys, s.puts) }

  ghost predicate CountersOk(s: State) { Counters(s.active, s.etags.Keys, s.counted, s.partsUploaded) }

  ghost predicate SignalsOk(s: State) { Signals(Held(s.pc), s.taken, s.active.Keys, s.signalling.Keys) }

  ghost predicate ContentsOk(s: State) { Contents(s.written, s.cfg.partSize, Held(s.pc), s.buffers, s.active, s.etags) }

  ghost predicate LocatedOk(s: State) {
    Located(s.written, s.cfg.partSize, Held(s.pc), s.buffers.Keys, s.taken, s.active.Keys, s.etags.Keys)
  }

  ghost predicate Data(s: State) {
    |s.written| == End(s.pc, s.offset) && ContentsOk(s) && LocatedOk(s) && Emptied(s.pc, s.buffers)
  }

  ghost predicate Inv(s: State) {
    && Shape(s) && SlotsOk(s) && WakeupsOk(s) && PlacesOk(s) && CountersOk(s) && SignalsOk(s)
    && ErrorsOk(s) && Positions(s) && Final(s) && Narrow(s)
    && (!s.hasError ==> Data(s))
  }

  // ---------------------------------------------------------------- what threads and the final flush leave alone

  /** All that a thread does to the writer is to wake it. */
  predicate Woken(pc: Writer, pc': Writer) {
    || pc' == pc
    || (pc.SlotAsleep? && pc' == SlotCheck(pc.buf, pc.from))
    || (pc.DrainAsleep? && pc' == DrainCheck(pc.sync))
  }

  lemma {:induction false} ThreadWakes(s: State, k: nat, a: ThreadAction)
    requires Shape(s) && CanThread(s, k, a)
    ensures var s' := DoThread(s, k, a);
      s' == s.(pc := s'.pc, active := s'.active, signalling := s'.signalling, inProgress := s'.inProgress,
               etags := s'.etags, partsUploaded := s'.partsUploaded, hasError := s'.hasError, stored := s'.stored,
               counted := s'.counted, puts := s'.puts)
    ensures Woken(s.pc, DoThread(s, k, a).pc)
  {
    hide ControlFits, BuffersFit, ActiveFit;
  }

  lemma WokenHolds(pc: Writer, pc': Writer)
    requires Woken(pc, pc')
    ensures Held(pc') == Held(pc) && (pc'.Spawning? <==> pc.Spawning?)
    ensures forall offset :: End(pc', offset) == End(pc, offset)
  {
  }

  lemma {:induction false} FinishStays(s: State, a: FinishAction)
    requires Shape(s) && CanFinish(s, a)
    ensures var s' := DoFinish(s, a);
      s' == s.(pc := s'.pc, flushStarted := s'.flushStarted, finalized := s'.finalized, completions := s'.completions)
  {
    hide Copied, PartIndex, Start, Part, ControlFits, BuffersFit, ActiveFit, Request;
  }

  lemma {:induction false} FinishMoves(s: State, a: FinishAction)
    requires Shape(s) && CanFinish(s, a)
    ensures var pc := DoFinish(s, a).pc;
      !pc.Writing? && !s.pc.Writing? && !InFlush(s.pc) && (InFlush(pc) ==> pc.Entering? && pc.from.FromFlushAll?)
  {
    hide Copied, PartIndex, Start, Part, ControlFits, BuffersFit, ActiveFit, Request;
  }

  lemma FinishHolds(s: State, a: FinishAction)
    requires Shape(s) && CanFinish(s, a)
    ensures var s' := DoFinish(s, a);
      && Held(s'.pc) == Held(s.pc) == Empty && !s'.pc.Spawning? && !s.pc.Spawning?
      && End(s'.pc, s'.offset) == End(s.pc, s.offset)
  {
    hide CanFinish, DoFinish, Shape;
    FinishStays(s, a);
    FinishMoves(s, a);
  }

  // ---------------------------------------------------------------- the shape

  lemma {:induction false} WriteShape(s: State, a: WriteAction)
    requires Shape(s) && CanWrite(s, a)
    ensures Shape(DoWrite(s, a))
  {
    hide PartIndex, Start;
  }

  lemma {:induction false} FlushBuffersFit(s: State, a: FlushAction)
    requires Shape(s) && CanFlush(s, a)
    ensures BuffersFit(DoFlush(s, a).buffers, s.cfg.partSize) && DoFlush(s, a).cfg == s.cfg
  {
    hide Copied, PartIndex, Start, ActiveFit;
  }

  lemma {:induction false} FlushActiveFit(s: State, a: FlushAction)
    requires Shape(s) && CanFlush(s, a)
    ensures ActiveFit(DoFlush(s, a).active)
  {
    hide Copied, PartIndex, Start, BuffersFit;
  }

  lemma {:induction false} FlushControlFits(s: State, a: FlushAction)
    requires Shape(s) && CanFlush(s, a)
    ensures ControlFits(DoFlush(s, a).pc, DoFlush(s, a).buffers.Keys)
  {
    hide Copied, PartIndex, Start, ActiveFit;
    if a.FlushErase? { assert DoFlush(s, a).buffers.Keys == s.buffers.Keys - {s.pc.part}; }
    else { assert DoFlush(s, a).buffers.Keys == s.buffers.Keys; }
  }

  lemma {:induction false} FlushShape(s: State, a: FlushAction)
    requires Shape(s) && CanFlush(s, a)
    ensures Shape(DoFlush(s, a))
  {
    hide CanFlush, DoFlush, ControlFits, BuffersFit, ActiveFit;
    FlushBuffersFit(s, a);
    FlushActiveFit(s, a);
    FlushControlFits(s, a);
  }

  lemma {:induction false} FinishShape(s: State, a: FinishAction)
    requires Shape(s) && CanFinish(s, a)
    ensures Shape(DoFinish(s, a))
  {
    hide Copied, PartIndex, Start;
  }

  lemma {:induction false} ThreadShape(s: State, k: nat, a: ThreadAction)
    requires Shape(s) && CanThread(s, k, a)
    ensures Shape(DoThread(s, k, a))
  {
    hide Copied, PartIndex, Start;
  }

  // ---------------------------------------------------------------- slots and signals

  lemma {:induction false} WriteSlots(s: State, a: WriteAction)
    requires Shape(s) && SlotsOk(s) && WakeupsOk(s) && PlacesOk(s) && CanWrite(s, a)
    ensures SlotsOk(DoWrite(s, a)) && WakeupsOk(DoWrite(s, a))
  {
    hide Copied, PartIndex, Start, Part, ControlFits, BuffersFit;
  }

  lemma {:induction false} SlotsSpawned(active: map<nat, Upload>, inProgress: nat, max: nat, k: nat, u: Upload)
    requires Slots(active, true, inProgress, max) && k !in active
    ensures Slots(active[k := u], false, inProgress, max)
  {
    assert active[k := u].Keys == active.Keys + {k};
    assert |active.Keys| == |active| && |active[k := u].Keys| == |active[k := u]|;
  }

  lemma SlotsTaken(active: map<nat, Upload>, inProgress: nat, max: nat)
    requires Slots(active, false, inProgress, max) && inProgress < max
    ensures Slots(active, true, inProgress + 1, max)
  {
  }

  lemma {:induction false} FlushSlots(s: State, a: FlushAction)
    requires Shape(s) && SlotsOk(s) && PlacesOk(s) && CanFlush(s, a)
    ensures SlotsOk(DoFlush(s, a))
  {
    hide Copied, PartIndex, Start, Part, ControlFits, BuffersFit, ActiveFit, Slots;
    if a.Spawn? {
      SlotsSpawned(s.active, s.inProgress, s.cfg.maxThreads, s.pc.buf.partNo, Upload(s.pc.buf, Putting));
    } else if a.SlotTake? {
      SlotsTaken(s.active, s.inProgress, s.cfg.maxThreads);
    }
  }

  lemma {:induction false} FlushWakeups(s: State, a: FlushAction)
    requires Shape(s) && WakeupsOk(s) && CanFlush(s, a)
    ensures WakeupsOk(DoFlush(s, a))
  {
    hide Copied, PartIndex, Start, Part, ControlFits, BuffersFit, ActiveFit;
  }

  lemma {:induction false} FinishSlots(s: State, a: FinishAction)
    requires Shape(s) && SlotsOk(s) && CanFinish(s, a)
    ensures SlotsOk(DoFinish(s, a))
  {
    hide CanFinish, DoFinish, Shape, Slots;
    FinishStays(s, a);
    FinishHolds(s, a);
  }

  lemma {:induction false} FinishWakeups(s: State, a: FinishAction)
    requires Shape(s) && WakeupsOk(s) && CanFinish(s, a)
    ensures WakeupsOk(DoFinish(s, a))
  {
    hide Copied, PartIndex, Start, Part, ControlFits, BuffersFit, ActiveFit, Request;
  }

  lemma {:induction false} SlotsReleased(active: map<nat, Upload>, spawning: bool, inProgress: nat, max: nat, k: nat)
    requires Slots(active, spawning, inProgress, max) && k in active && inProgress > 0
    ensures Slots(active - {k}, spawning, inProgress - 1, max)
  {
    assert active.Keys == (active - {k}).Keys + {k};
    assert |active.Keys| == |active| && |(active - {k}).Keys| == |active - {k}|;
  }

  lemma {:induction false} SlotsStaged(active: map<nat, Upload>, spawning: bool, inProgress: nat, max: nat, k: nat,
                                       u: Upload)
    requires Slots(active, spawning, inProgress, max) && k in active
    ensures Slots(active[k := u], spawning, inProgress, max)
  {
    assert active[k := u].Keys == active.Keys;
    assert |active.Keys| == |active| && |active[k := u].Keys| == |active[k := u]|;
  }

  lemma {:induction false} ThreadSlots(s: State, k: nat, a: ThreadAction)
    requires Shape(s) && SlotsOk(s) && CanThread(s, k, a)
    ensures SlotsOk(DoThread(s, k, a))
  {
    hide Copied, PartIndex, Start, Part, ControlFits, BuffersFit, ActiveFit, Slots, Woken;
    var spawning, n, max := s.pc.Spawning?, s.inProgress, s.cfg.maxThreads;
    ThreadWakes(s, k, a);
    WokenHolds(s.pc, DoThread(s, k, a).pc);
    match a
    case Release => SlotsReleased(s.active, spawning, n, max, k);
    case PutOk => SlotsStaged(s.active, spawning, n, max, k, s.active[k].(stage := Tagged));
    case PutFail => SlotsStaged(s.active, spawning, n, max, k, s.active[k].(stage := Flagged));
    case PutFailAgain => SlotsStaged(s.active, spawning, n, max, k, s.active[k].(stage := Failed));
    case StoreError => SlotsStaged(s.active, spawning, n, max, k, s.active[k].(stage := Failed));
    case CountPart => SlotsStaged(s.active, spawning, n, max, k, s.active[k].(stage := Counted));
    case _ =>
  }

  lemma {:induction false} ThreadWakeups(s: State, k: nat, a: ThreadAction)
    requires Shape(s) && WakeupsOk(s) && CanThread(s, k, a)
    ensures WakeupsOk(DoThread(s, k, a))
  {
    hide Copied, PartIndex, Start, Part, ControlFits, BuffersFit, ActiveFit;
    var s' := DoThread(s, k, a);
    if a.Release? {
      assert s'.signalling[k].SlotSignal?;
    } else if s.pc.DrainAsleep? && s'.pc.DrainAsleep? && s.inProgress == 0 {
      var j :| j in s.signalling;
      assert j in s'.signalling;
    } else if s.pc.SlotAsleep? && s'.pc.SlotAsleep? && s.inProgress < s.cfg.maxThreads {
      var j :| j in s.signalling && s.signalling[j].SlotSignal?;
      assert j in s'.signalling && s'.signalling[j].SlotSignal?;
    }
  }

  // ---------------------------------------------------------------- places and counters

  lemma {:induction false} WritePlaces(s: State, a: WriteAction)
    requires Shape(s) && PlacesOk(s) && CountersOk(s) && SignalsOk(s) && CanWrite(s, a)
    requires AtChunk(s) ==> Under(s) !in s.taken
    ensures PlacesOk(DoWrite(s, a)) && CountersOk(DoWrite(s, a)) && SignalsOk(DoWrite(s, a))
  {
    hide PartIndex, Start, Part;
  }

  lemma {:induction false} PlacesErased(open: set<nat>, taken: set<nat>, active: map<nat, Upload>, tagged: set<nat>,
                                        puts: multiset<nat>, buf: Buffer)
    requires Places(Empty, open, taken, active, tagged, puts) && buf.partNo in open
    ensures Places(Full(buf), open - {buf.partNo}, taken + {buf.partNo}, active, tagged, puts)
  {
  }

  lemma {:induction false} PlacesSpawned(open: set<nat>, taken: set<nat>, active: map<nat, Upload>, tagged: set<nat>,
                                         puts: multiset<nat>, buf: Buffer)
    requires Places(Full(buf), open, taken, active, tagged, puts)
    ensures Places(Empty, open, taken, active[buf.partNo := Upload(buf, Putting)], tagged, puts)
  {
  }

  lemma {:induction false} FlushPlaces(s: State, a: FlushAction)
    requires Shape(s) && PlacesOk(s) && CanFlush(s, a)
    ensures PlacesOk(DoFlush(s, a))
  {
    hide Copied, PartIndex, Start, Part, ActiveFit, Places;
    var s', open, tagged := DoFlush(s, a), s.buffers.Keys, s.etags.Keys;
    if a.FlushErase? {
      PlacesErased(open, s.taken, s.active, tagged, s.puts, s.buffers[s.pc.part]);
      assert s'.buffers.Keys == open - {s.pc.part};
    } else if a.Spawn? {
      PlacesSpawned(open, s.taken, s.active, tagged, s.puts, s.pc.buf);
    } else {
      assert s'.buffers.Keys == open && Held(s'.pc) == Held(s.pc);
    }
  }

  lemma {:induction false} CountersSpawned(active: map<nat, Upload>, tagged: set<nat>, counted: set<nat>, n: nat,
                                           k: nat, buf: Buffer)
    requires Counters(active, tagged, counted, n) && k !in active
    ensures Counters(active[k := Upload(buf, Putting)], tagged, counted, n)
  {
  }

  lemma {:induction false} FlushCounters(s: State, a: FlushAction)
    requires Shape(s) && PlacesOk(s) && CountersOk(s) && CanFlush(s, a)
    ensures CountersOk(DoFlush(s, a))
  {
    hide Copied, PartIndex, Start, Part, ControlFits, BuffersFit, ActiveFit, Counters;
    if a.Spawn? { CountersSpawned(s.active, s.etags.Keys, s.counted, s.partsUploaded, s.pc.buf.partNo, s.pc.buf); }
  }

  lemma {:induction false} SignalsErased(taken: set<nat>, flying: set<nat>, signalling: set<nat>, buf: Buffer)
    requires Signals(Empty, taken, flying, signalling) && buf.partNo !in taken
    ensures Signals(Full(buf), taken + {buf.partNo}, flying, signalling)
  {
  }

  lemma {:induction false} SignalsSpawned(taken: set<nat>, flying: set<nat>, signalling: set<nat>, buf: Buffer)
    requires Signals(Full(buf), taken, flying, signalling)
    ensures Signals(Empty, taken, flying + {buf.partNo}, signalling)
  {
  }

  lemma {:induction false} FlushSignals(s: State, a: FlushAction)
    requires Shape(s) && PlacesOk(s) && SignalsOk(s) && CanFlush(s, a)
    ensures SignalsOk(DoFlush(s, a))
  {
    hide Copied, PartIndex, Start, Part, ActiveFit, Signals;
    var s' := DoFlush(s, a);
    if a.FlushErase? {
      SignalsErased(s.taken, s.active.Keys, s.signalling.Keys, s.buffers[s.pc.part]);
    } else if a.Spawn? {
      SignalsSpawned(s.taken, s.active.Keys, s.signalling.Keys, s.pc.buf);
      assert s'.active.Keys == s.active.Keys + {s.pc.buf.partNo};
    } else {
      assert Held(s'.pc) == Held(s.pc);
    }
  }

  lemma {:induction false} FinishPlaces(s: State, a: FinishAction)
    requires Shape(s) && PlacesOk(s) && CountersOk(s) && SignalsOk(s) && CanFinish(s, a)
    ensures PlacesOk(DoFinish(s, a)) && CountersOk(DoFinish(s, a)) && SignalsOk(DoFinish(s, a))
  {
    hide CanFinish, DoFinish, Shape, Places, Counters, Signals, Held;
    FinishStays(s, a);
    FinishHolds(s, a);
  }

  lemma {:induction false} PlacesTagged(hand: Hand, open: set<nat>, taken: set<nat>, active: map<nat, Upload>,
                                        tagged: set<nat>, puts: multiset<nat>, k: nat)
    requires Places(hand, open, taken, active, tagged, puts) && k in active && active[k].stage.Putting?
    ensures Places(hand, open, taken, active[k := active[k].(stage := Tagged)], tagged + {k}, puts + multiset{k})
  {
  }

  lemma {:induction false} PlacesStaged(hand: Hand, open: set<nat>, taken: set<nat>, active: map<nat, Upload>,
                                        tagged: set<nat>, puts: multiset<nat>, k: nat, stage: Stage)
    requires Places(hand, open, taken, active, tagged, puts) && k in active
    requires stage.Tagged? || stage.Counted? <==> active[k].stage.Tagged? || active[k].stage.Counted?
    ensures Places(hand, open, taken, active[k := active[k].(stage := stage)], tagged, puts)
  {
  }

  lemma {:induction false} PlacesReleased(hand: Hand, open: set<nat>, taken: set<nat>, active: map<nat, Upload>,
                                          tagged: set<nat>, puts: multiset<nat>, k: nat)
    requires Places(hand, open, taken, active, tagged, puts)
    ensures Places(hand, open, taken, active - {k}, tagged, puts)
  {
  }

  lemma {:induction false} ThreadPlaces(s: State, k: nat, a: ThreadAction)
    requires Shape(s) && PlacesOk(s) && CanThread(s, k, a)
    ensures PlacesOk(DoThread(s, k, a))
  {
    hide Copied, PartIndex, Start, Part, ControlFits, BuffersFit, Places;
    var hand, open, tagged := Held(s.pc), s.buffers.Keys, s.etags.Keys;
    match a
    case PutOk =>
      PlacesTagged(hand, open, s.taken, s.active, tagged, s.puts, k);
      assert DoThread(s, k, a).etags.Keys == tagged + {k};
    case PutFail => PlacesStaged(hand, open, s.taken, s.active, tagged, s.puts, k, Flagged);
    case PutFailAgain => PlacesStaged(hand, open, s.taken, s.active, tagged, s.puts, k, Failed);
    case StoreError => PlacesStaged(hand, open, s.taken, s.active, tagged, s.puts, k, Failed);
    case CountPart => PlacesStaged(hand, open, s.taken, s.active, tagged, s.puts, k, Counted);
    case Release => PlacesReleased(hand, open, s.taken, s.active, tagged, s.puts, k);
    case _ =>
  }

  lemma {:induction false} SignalsReleased(hand: Hand, taken: set<nat>, flying: set<nat>, signalling: set<nat>, k: nat)
    requires Signals(hand, taken, flying, signalling) && k in taken && (hand.Full? ==> hand.buf.partNo != k)
    ensures Signals(hand, taken, flying - {k}, signalling + {k})
  {
  }

  lemma SignalsFewer(hand: Hand, taken: set<nat>, flying: set<nat>, signalling: set<nat>, k: nat)
    requires Signals(hand, taken, flying, signalling)
    ensures Signals(hand, taken, flying, signalling - {k})
  {
  }

  lemma {:induction false} ThreadSignals(s: State, k: nat, a: ThreadAction)
    requires Shape(s) && PlacesOk(s) && SignalsOk(s) && CanThread(s, k, a)
    ensures SignalsOk(DoThread(s, k, a))
  {
    hide Copied, PartIndex, Start, Part, ControlFits, BuffersFit, ActiveFit, Signals;
    var s' := DoThread(s, k, a);
    ThreadWakes(s, k, a);
    WokenHolds(s.pc, s'.pc);
    if a.Release? {
      SignalsReleased(Held(s.pc), s.taken, s.active.Keys, s.signalling.Keys, k);
      assert s'.active.Keys == s.active.Keys - {k} && s'.signalling.Keys == s.signalling.Keys + {k};
    } else if a.NotifyFlush? || a.NotifyFlushWake? {
      SignalsFewer(Held(s.pc), s.taken, s.active.Keys, s.signalling.Keys, k);
      assert s'.signalling.Keys == s.signalling.Keys - {k};
    } else {
      assert s'.active.Keys == s.active.Keys && s'.signalling.Keys == s.signalling.Keys;
    }
  }

  lemma {:induction false} CountersTagged(active: map<nat, Upload>, tagged: set<nat>, counted: set<nat>, n: nat, k: nat)
    requires Counters(active, tagged, counted, n) && k in active && k !in tagged
    ensures Counters(active[k := active[k].(stage := Tagged)], tagged + {k}, counted, n)
  {
  }

  lemma {:induction false} CountersCounted(active: map<nat, Upload>, tagged: set<nat>, counted: set<nat>, n: nat,
                                           k: nat)
    requires Counters(active, tagged, counted, n) && k in active && k in tagged && active[k].stage.Tagged?
    ensures Counters(active[k := active[k].(stage := Counted)], tagged, counted + {k}, n + 1)
  {
    assert k !in counted && |counted + {k}| == |counted| + 1;
  }

  lemma {:induction false} CountersStaged(active: map<nat, Upload>, tagged: set<nat>, counted: set<nat>, n: nat, k: nat,
                                          stage: Stage)
    requires Counters(active, tagged, counted, n) && k in active && !active[k].stage.Tagged? && !stage.Tagged?
    ensures Counters(active[k := active[k].(stage := stage)], tagged, counted, n)
  {
  }

  lemma {:induction false} CountersReleased(active: map<nat, Upload>, tagged: set<nat>, counted: set<nat>, n: nat,
                                            k: nat)
    requires Counters(active, tagged, counted, n) && k in active && !active[k].stage.Tagged?
    ensures Counters(active - {k}, tagged, counted, n)
  {
  }

  lemma {:induction false} ThreadCounters(s: State, k: nat, a: ThreadAction)
    requires Shape(s) && PlacesOk(s) && CountersOk(s) && CanThread(s, k, a)
    ensures CountersOk(DoThread(s, k, a))
  {
    hide Copied, PartIndex, Start, Part, ControlFits, BuffersFit, ActiveFit, Counters;
    var tagged := s.etags.Keys;
    match a
    case PutOk =>
      CountersTagged(s.active, tagged, s.counted, s.partsUploaded, k);
      assert DoThread(s, k, a).etags.Keys == tagged + {k};
    case PutFail => CountersStaged(s.active, tagged, s.counted, s.partsUploaded, k, Flagged);
    case PutFailAgain => CountersStaged(s.active, tagged, s.counted, s.partsUploaded, k, Failed);
    case StoreError => CountersStaged(s.active, tagged, s.counted, s.partsUploaded, k, Failed);
    case CountPart => CountersCounted(s.active, tagged, s.counted, s.partsUploaded, k);
    case Release => CountersReleased(s.active, tagged, s.counted, s.partsUploaded, k);
    case _ =>
  }

  // ---------------------------------------------------------------- errors

  lemma {:induction false} WriteErrors(s: State, a: WriteAction)
    requires Shape(s) && ErrorsOk(s) && CanWrite(s, a)
    ensures ErrorsOk(DoWrite(s, a))
  {
    hide Copied, PartIndex, Start, Part, ControlFits, BuffersFit, ActiveFit, Errors;
  }

  lemma {:induction false} ErrorsSpawn(active: map<nat, Upload>, hasError: bool, stored: bool, k: nat, buf: Buffer)
    requires Errors(active, hasError, stored) && k !in active
    ensures Errors(active[k := Upload(buf, Putting)], hasError, stored)
  {
    var active' := active[k := Upload(buf, Putting)];
    forall j | j in active && active[j].stage.Flagged? ensures j in active' && active'[j].stage.Flagged? { }
  }

  lemma {:induction false} FlushErrors(s: State, a: FlushAction)
    requires Shape(s) && ErrorsOk(s) && PlacesOk(s) && CanFlush(s, a)
    ensures ErrorsOk(DoFlush(s, a))
  {
    hide Copied, PartIndex, Start, Part, ControlFits, BuffersFit, ActiveFit, Errors;
    if a.Spawn? { ErrorsSpawn(s.active, s.hasError, s.stored, s.pc.buf.partNo, s.pc.buf); }
  }

  lemma {:induction false} FinishErrors(s: State, a: FinishAction)
    requires Shape(s) && ErrorsOk(s) && CanFinish(s, a)
    ensures ErrorsOk(DoFinish(s, a))
  {
    hide CanFinish, DoFinish, Shape, Errors;
    FinishStays(s, a);
  }

  lemma {:induction false} ErrorsStaged(active: map<nat, Upload>, hasError: bool, stored: bool, k: nat, stage: Stage)
    requires Errors(active, hasError, stored) && k in active && !active[k].stage.Flagged? && !stage.Flagged?
    ensures Errors(active[k := active[k].(stage := stage)], hasError, stored)
  {
    var active' := active[k := active[k].(stage := stage)];
    forall j | j in active && active[j].stage.Flagged? ensures j in active' && active'[j].stage.Flagged? { }
  }

  lemma {:induction false} ErrorsFlagged(active: map<nat, Upload>, k: nat)
    requires Errors(active, false, false) && k in active
    ensures Errors(active[k := active[k].(stage := Flagged)], true, false)
  {
    var active' := active[k := active[k].(stage := Flagged)];
    assert k in active' && active'[k].stage.Flagged?;
  }

  lemma {:induction false} ErrorsStored(active: map<nat, Upload>, hasError: bool, stored: bool, k: nat)
    requires Errors(active, hasError, stored) && k in active && active[k].stage.Flagged?
    ensures Errors(active[k := active[k].(stage := Failed)], hasError, true)
  {
  }

  lemma {:induction false} ErrorsReleased(active: map<nat, Upload>, hasError: bool, stored: bool, k: nat)
    requires Errors(active, hasError, stored) && k in active && !active[k].stage.Flagged?
    ensures Errors(active - {k}, hasError, stored)
  {
    forall j | j in active && active[j].stage.Flagged? ensures j in active - {k} && (active - {k})[j].stage.Flagged? { }
  }

  lemma NoErrorStored(s: State)
    requires ErrorsOk(s) && !s.hasError
    ensures !s.stored
  {
  }

  lemma {:induction false} ThreadErrors(s: State, k: nat, a: ThreadAction)
    requires Shape(s) && ErrorsOk(s) && CanThread(s, k, a)
    ensures ErrorsOk(DoThread(s, k, a))
  {
    hide Copied, PartIndex, Start, Part, ControlFits, BuffersFit, ActiveFit, Errors;
    match a
    case PutOk => ErrorsStaged(s.active, s.hasError, s.stored, k, Tagged);
    case PutFail =>
      NoErrorStored(s);
      ErrorsFlagged(s.active, k);
    case PutFailAgain => ErrorsStaged(s.active, s.hasError, s.stored, k, Failed);
    case StoreError => ErrorsStored(s.active, s.hasError, s.stored, k);
    case CountPart => ErrorsStaged(s.active, s.hasError, s.stored, k, Counted);
    case Release => ErrorsReleased(s.active, s.hasError, s.stored, k);
    case _ =>
  }

  // ---------------------------------------------------------------- positions

  lemma {:induction false} FinishPhases(s: State, a: FinishAction)
    requires Shape(s) && Phases(s.pc, s.flushStarted) && CanFinish(s, a)
    ensures Phases(DoFinish(s, a).pc, DoFinish(s, a).flushStarted)
    ensures !DoFinish(s, a).flushStarted ==> !s.flushStarted
  {
    hide Copied, PartIndex, Start, Part, ControlFits, BuffersFit, ActiveFit, Request;
  }

  lemma {:induction false} FinishUnclaimed(pc: Writer, pc': Writer, end: nat, buffers: map<nat, Buffer>, ps: nat)
    requires !InFlush(pc) && Unclaimed(pc, end, buffers, ps)
    requires InFlush(pc') ==> pc'.Entering? && pc'.from.FromFlushAll?
    requires Flushing(pc') ==> pc'.part in buffers
    ensures Unclaimed(pc', end, buffers, ps) && Flushed(pc', end, buffers, ps)
  {
    hide Start;
  }

  lemma {:induction false} FinishPositions(s: State, a: FinishAction)
    requires Shape(s) && Positions(s) && CanFinish(s, a)
    ensures Shape(DoFinish(s, a)) ==> Positions(DoFinish(s, a))
  {
    hide CanFinish, DoFinish, Phases, Behind, Unclaimed, Flushed, End, BuffersFit, ActiveFit, InFlush;
    var s' := DoFinish(s, a);
    FinishStays(s, a);
    FinishMoves(s, a);
    FinishHolds(s, a);
    FinishPhases(s, a);
    if Shape(s') { FinishUnclaimed(s.pc, s'.pc, End(s.pc, s.offset), s.buffers, s.cfg.partSize); }
  }

  lemma {:induction false} WokenPositions(pc: Writer, pc': Writer, end: nat, buffers: map<nat, Buffer>, ps: nat)
    requires Woken(pc, pc') && (Flushing(pc) ==> pc.part in buffers) && Flushed(pc, end, buffers, ps)
    ensures (Flushing(pc') ==> pc'.part in buffers) && Flushed(pc', end, buffers, ps)
    ensures Unclaimed(pc, end, buffers, ps) ==> Unclaimed(pc', end, buffers, ps)
    ensures forall started :: Phases(pc, started) ==> Phases(pc', started)
  {
    hide Start;
  }

  lemma {:induction false} ThreadPositions(s: State, k: nat, a: ThreadAction)
    requires Shape(s) && Positions(s) && CanThread(s, k, a)
    ensures Shape(DoThread(s, k, a)) ==> Positions(DoThread(s, k, a))
  {
    hide CanThread, DoThread, Phases, Behind, Unclaimed, Flushed, End, Woken, BuffersFit, ActiveFit;
    ThreadWakes(s, k, a);
    WokenHolds(s.pc, DoThread(s, k, a).pc);
    WokenPositions(s.pc, DoThread(s, k, a).pc, End(s.pc, s.offset), s.buffers, s.cfg.partSize);
  }

  lemma {:induction false} FlushBehind(s: State, a: FlushAction)
    requires Shape(s) && Positions(s) && !a.FlushThrow? && CanFlush(s, a)
    ensures Phases(DoFlush(s, a).pc, DoFlush(s, a).flushStarted)
    ensures var s' := DoFlush(s, a);
      !s'.flushStarted ==> Behind(End(s'.pc, s'.offset), s'.taken, s'.buffers.Keys, s.cfg.partSize)
  {
    hide Copied, PartIndex, Part, ActiveFit, BuffersFit;
  }

  lemma {:induction false} FlushUnclaimed(s: State, a: FlushAction)
    requires Shape(s) && Positions(s) && !a.FlushThrow? && CanFlush(s, a)
    ensures var s' := DoFlush(s, a); Unclaimed(s'.pc, End(s'.pc, s'.offset), s'.buffers, s.cfg.partSize)
  {
    hide Copied, PartIndex, Part, ActiveFit, Behind, Start;
    var s' := DoFlush(s, a);
    if a.FlushErase? { assert Unclaimed(s'.pc, End(s'.pc, s'.offset), s'.buffers, s.cfg.partSize); }
    else if a.FlushClaim? { assert Unclaimed(s'.pc, End(s'.pc, s'.offset), s'.buffers, s.cfg.partSize); }
    else { assert Unclaimed(s'.pc, End(s'.pc, s'.offset), s'.buffers, s.cfg.partSize); }
  }

  lemma {:induction false} FlushFlushed(s: State, a: FlushAction)
    requires Shape(s) && Positions(s) && !a.FlushThrow? && CanFlush(s, a)
    ensures var s' := DoFlush(s, a);
      Shape(s') ==> Flushed(s'.pc, End(s'.pc, s'.offset), s'.buffers, s.cfg.partSize)
  {
    hide Copied, PartIndex, Part, ActiveFit, Behind;
  }

  lemma {:induction false} FlushOnPositions(s: State, a: FlushAction)
    requires Shape(s) && Positions(s) && !a.FlushThrow? && CanFlush(s, a)
    ensures Shape(DoFlush(s, a)) ==> Positions(DoFlush(s, a))
  {
    hide Copied, PartIndex, Part, ActiveFit, Behind, Unclaimed, Flushed, Phases, End;
    FlushBehind(s, a);
    FlushUnclaimed(s, a);
    FlushFlushed(s, a);
  }

  /** With a buffer claimed up to the position, there is no unclaimed one. */
  lemma {:induction false} AllClaimed(pc: Writer, end: nat, buffers: map<nat, Buffer>, ps: nat, part: nat)
    requires Unclaimed(pc, end, buffers, ps) && !pc.Entering? && part in buffers && buffers[part].uploading
    requires 1 <= buffers[part].idx <= ps && Start(ps, part) + buffers[part].idx == end
    ensures forall k :: k in buffers ==> buffers[k].uploading
  {
    forall k | k in buffers ensures buffers[k].uploading {
      if !buffers[k].uploading { StartUnique(ps, k, part, end - 1); }
    }
  }

  /** Going back to a position in the last part, which is still in the map. */
  lemma {:induction false} BehindBack(end: nat, at: nat, taken: set<nat>, open: set<nat>, ps: nat, part: nat)
    requires Behind(end, taken, open, ps) && part in open && open !! taken
    requires Start(ps, part) + ps == end && Start(ps, part) <= at < end
    ensures Behind(at, taken, open, ps)
  {
    forall k | k in taken ensures Start(ps, k + 1) <= at {
      if k > part { StartStep(ps, part, k); } else { StartStep(ps, k, part); }
    }
    forall k: nat | Start(ps, k) < at < Start(ps, k) + ps ensures k in open {
      StartUnique(ps, k, part, at);
    }
  }

  lemma {:induction false} FlushThrowPositions(s: State)
    requires Shape(s) && Positions(s) && PlacesOk(s) && CanFlush(s, FlushThrow)
    ensures Shape(DoFlush(s, FlushThrow)) ==> Positions(DoFlush(s, FlushThrow))
  {
    hide Copied, PartIndex, Part, Start, ActiveFit, BuffersFit, Behind;
    var ps, part, end := s.cfg.partSize, s.pc.part, End(s.pc, s.offset);
    AllClaimed(s.pc, end, s.buffers, ps, part);
    if s.pc.from.FromWrite? { BehindBack(end, s.offset, s.taken, s.buffers.Keys, ps, part); }
  }

  lemma {:induction false} FlushPositions(s: State, a: FlushAction)
    requires Shape(s) && Positions(s) && PlacesOk(s) && CanFlush(s, a)
    ensures Shape(DoFlush(s, a)) ==> Positions(DoFlush(s, a))
  {
    hide Copied, PartIndex, Part, Positions, Shape, DoFlush;
    if a.FlushThrow? { FlushThrowPositions(s); } else { FlushOnPositions(s, a); }
  }

  /** The part under the file position has not been taken, and its buffer is filled up to the position. */
  lemma {:induction false} PositionIsOpen(s: State)
    requires Shape(s) && Positions(s) && AtChunk(s)
    ensures var ps, k := s.cfg.partSize, Under(s);
            && k !in s.taken && Start(ps, k) + Filled(s) == s.offset
            && (k !in s.buffers ==> Filled(s) == 0)
            && (k in s.buffers && !s.buffers[k].uploading ==> s.buffers[k].idx == Filled(s))
            && (forall j :: j in s.buffers && j != k ==> s.buffers[j].uploading)
  {
    var ps, k := s.cfg.partSize, Under(s);
    assert Start(ps, k + 1) == Start(ps, k) + ps;
    forall j | j in s.buffers && j != k ensures s.buffers[j].uploading {
      if !s.buffers[j].uploading {
        if j < k { StartStep(ps, j, k); } else { StartStep(ps, k, j); }
      }
    }
  }

  /** Copying a chunk moves the position and leaves one unclaimed buffer, filled up to it. */
  lemma {:induction false} AfterCopy(s: State)
    requires Shape(s) && Positions(s) && AtChunk(s)
    ensures var ps, at, end := s.cfg.partSize, Under(s), s.offset + Chunk(s);
            && Behind(end, s.taken, s.buffers.Keys + {at}, ps)
            && Start(ps, at) < end <= Start(ps, at) + ps
            && (!Copied(s).uploading ==> Start(ps, at) + Copied(s).idx == end)
            && (forall k :: k in s.buffers && k != at ==> s.buffers[k].uploading)
  {
    PositionIsOpen(s);
    var ps, at, end := s.cfg.partSize, Under(s), s.offset + Chunk(s);
    forall k: nat | Start(ps, k) < end < Start(ps, k) + ps ensures k == at {
      StartUnique(ps, k, at, end - 1);
    }
  }

  lemma UnclaimedAlone(pc: Writer, end: nat, buffers: map<nat, Buffer>, ps: nat, at: nat)
    requires at in buffers && forall k :: k in buffers && k != at ==> buffers[k].uploading
    requires Start(ps, at) < end <= Start(ps, at) + ps
    requires !buffers[at].uploading ==> Start(ps, at) + buffers[at].idx == end
    requires buffers[at].idx >= ps ==> pc.Entering? && pc.part == at
    ensures Unclaimed(pc, end, buffers, ps)
  {
  }

  lemma {:induction false} WriteCallPositions(s: State, a: WriteAction)
    requires Shape(s) && Positions(s) && (a.CallWrite? || a.WriteEnd?) && CanWrite(s, a)
    ensures Shape(DoWrite(s, a)) ==> Positions(DoWrite(s, a))
  {
    hide PartIndex, Start, Part, ActiveFit;
  }

  lemma {:induction false} CopyPhases(s: State, a: WriteAction)
    requires Shape(s) && Phases(s.pc, s.flushStarted) && (a.WriteCopy? || a.WriteFill?) && CanWrite(s, a)
    ensures Phases(DoWrite(s, a).pc, s.flushStarted) && !s.flushStarted
  {
    hide PartIndex, Start, Part, BuffersFit, ActiveFit;
  }

  lemma {:induction false} WritePositions(s: State, a: WriteAction)
    requires Shape(s) && Positions(s) && CanWrite(s, a)
    ensures Shape(DoWrite(s, a)) ==> Positions(DoWrite(s, a))
  {
    hide PartIndex, Start, Part, ActiveFit, BuffersFit, Behind, Unclaimed, Phases;
    if a.WriteCopy? || a.WriteFill? {
      AfterCopy(s);
      var s', at := DoWrite(s, a), Under(s);
      assert s'.buffers.Keys == s.buffers.Keys + {at};
      UnclaimedAlone(s'.pc, s.offset + Chunk(s), s'.buffers, s.cfg.partSize, at);
      CopyPhases(s, a);
    } else {
      WriteCallPositions(s, a);
    }
  }

  // ---------------------------------------------------------------- the bytes

  lemma {:induction false} ContentsTagged(w: seq<Byte>, ps: nat, hand: Hand, buffers: map<nat, Buffer>,
                                          active: map<nat, Upload>, etags: map<nat, seq<Byte>>, k: nat)
    requires Contents(w, ps, hand, buffers, active, etags) && k in active && active[k].buf.partNo == k
    ensures active[k].buf.idx <= |active[k].buf.mem|
    ensures Contents(w, ps, hand, buffers, active[k := active[k].(stage := Tagged)],
                     etags[k := active[k].buf.mem[..active[k].buf.idx]])
  {
    hide Part;
    assert Holds(active[k].buf, w, ps);
  }

  lemma {:induction false} ContentsCounted(w: seq<Byte>, ps: nat, hand: Hand, buffers: map<nat, Buffer>,
                                           active: map<nat, Upload>, etags: map<nat, seq<Byte>>, k: nat)
    requires Contents(w, ps, hand, buffers, active, etags) && k in active
    ensures Contents(w, ps, hand, buffers, active[k := active[k].(stage := Counted)], etags)
  {
    hide Part, Holds;
  }

  lemma {:induction false} ContentsReleased(w: seq<Byte>, ps: nat, hand: Hand, buffers: map<nat, Buffer>,
                                            active: map<nat, Upload>, etags: map<nat, seq<Byte>>, k: nat)
    requires Contents(w, ps, hand, buffers, active, etags)
    ensures Contents(w, ps, hand, buffers, active - {k}, etags)
  {
    hide Part, Holds;
  }

  lemma ContentsUnbroken(w: seq<Byte>, ps: nat, hand: Hand, buffers: map<nat, Buffer>, active: map<nat, Upload>,
                         etags: map<nat, seq<Byte>>)
    requires Contents(w, ps, hand, buffers, active, etags)
    ensures forall k :: k in active ==> !active[k].stage.Failed? && !active[k].stage.Flagged?
  {
  }

  lemma {:induction false} ThreadContents(s: State, k: nat, a: ThreadAction)
    requires Shape(s) && ContentsOk(s) && !s.hasError && !a.PutFail? && CanThread(s, k, a)
    ensures ContentsOk(DoThread(s, k, a))
  {
    hide Copied, PartIndex, Start, Part, ControlFits, BuffersFit, Contents, Holds;
    var ps, hand := s.cfg.partSize, Held(s.pc);
    ContentsUnbroken(s.written, ps, hand, s.buffers, s.active, s.etags);
    ThreadWakes(s, k, a);
    WokenHolds(s.pc, DoThread(s, k, a).pc);
    match a
    case PutOk => ContentsTagged(s.written, ps, hand, s.buffers, s.active, s.etags, k);
    case CountPart => ContentsCounted(s.written, ps, hand, s.buffers, s.active, s.etags, k);
    case Release => ContentsReleased(s.written, ps, hand, s.buffers, s.active, s.etags, k);
    case _ =>
  }

  lemma {:induction false} LocatedTagged(w: seq<Byte>, ps: nat, hand: Hand, open: set<nat>, taken: set<nat>,
                                         flying: set<nat>, tagged: set<nat>, k: nat)
    requires Located(w, ps, hand, open, taken, flying, tagged)
    ensures Located(w, ps, hand, open, taken, flying, tagged + {k})
  {
    hide Start;
  }

  lemma {:induction false} LocatedReleased(w: seq<Byte>, ps: nat, hand: Hand, open: set<nat>, taken: set<nat>,
                                           flying: set<nat>, tagged: set<nat>, k: nat)
    requires Located(w, ps, hand, open, taken, flying, tagged) && k in tagged
    ensures Located(w, ps, hand, open, taken, flying - {k}, tagged)
  {
    hide Start;
  }

  lemma {:induction false} ThreadLocated(s: State, k: nat, a: ThreadAction)
    requires Shape(s) && PlacesOk(s) && LocatedOk(s) && CanThread(s, k, a)
    requires forall j :: j in s.active ==> !s.active[j].stage.Failed? && !s.active[j].stage.Flagged?
    ensures LocatedOk(DoThread(s, k, a))
  {
    hide Copied, PartIndex, Start, Part, ControlFits, BuffersFit, ActiveFit, Located;
    var s', ps, hand, open := DoThread(s, k, a), s.cfg.partSize, Held(s.pc), s.buffers.Keys;
    ThreadWakes(s, k, a);
    WokenHolds(s.pc, s'.pc);
    if a.PutOk? {
      LocatedTagged(s.written, ps, hand, open, s.taken, s.active.Keys, s.etags.Keys, k);
      assert s'.active.Keys == s.active.Keys && s'.etags.Keys == s.etags.Keys + {k};
    } else if a.Release? {
      LocatedReleased(s.written, ps, hand, open, s.taken, s.active.Keys, s.etags.Keys, k);
      assert s'.active.Keys == s.active.Keys - {k};
    } else {
      assert s'.active.Keys == s.active.Keys;
    }
  }

  lemma {:induction false} EmptiedWoken(pc: Writer, pc': Writer, buffers: map<nat, Buffer>)
    requires Emptied(pc, buffers) && Woken(pc, pc')
    ensures Emptied(pc', buffers)
  {
  }

  lemma {:induction false} ThreadEmptied(s: State, k: nat, a: ThreadAction)
    requires Shape(s) && CanThread(s, k, a) && Emptied(s.pc, s.buffers)
    ensures Emptied(DoThread(s, k, a).pc, DoThread(s, k, a).buffers)
    ensures var s' := DoThread(s, k, a); s'.written == s.written && End(s'.pc, s'.offset) == End(s.pc, s.offset)
  {
    hide *;
    var s' := DoThread(s, k, a);
    ThreadWakes(s, k, a);
    WokenHolds(s.pc, s'.pc);
    EmptiedWoken(s.pc, s'.pc, s.buffers);
  }

  lemma {:induction false} ThreadData(s: State, k: nat, a: ThreadAction)
    requires Shape(s) && PlacesOk(s) && Data(s) && !s.hasError && !a.PutFail? && CanThread(s, k, a)
    ensures Data(DoThread(s, k, a))
  {
    hide Copied, PartIndex, Start, Part, BuffersFit, ControlFits, Contents, Located, ActiveFit, Places;
    ContentsUnbroken(s.written, s.cfg.partSize, Held(s.pc), s.buffers, s.active, s.etags);
    ThreadContents(s, k, a);
    ThreadLocated(s, k, a);
    ThreadEmptied(s, k, a);
  }

  lemma EmptiedCalled(buffers: map<nat, Buffer>, sync: bool)
    requires Emptied(Idle, buffers)
    ensures Emptied(FlushingAll(buffers.Keys, sync), buffers)
  {
  }

  lemma {:induction false} EmptiedNext(pending: set<nat>, sync: bool, buffers: map<nat, Buffer>, k: nat)
    requires Emptied(FlushingAll(pending, sync), buffers) && k in pending
    ensures k in buffers && !buffers[k].uploading && Emptied(Entering(k, FromFlushAll(pending - {k}, sync)), buffers)
  {
    assert pending - {k} + {k} == pending;
  }

  lemma EmptiedLast(sync: bool, buffers: map<nat, Buffer>)
    requires Emptied(FlushingAll({}, sync), buffers)
    ensures Emptied(DrainCheck(sync), buffers)
  {
    assert buffers.Keys == {};
  }

  /** The writer goes on after the last buffer. */
  predicate Draining(pc: Writer) { pc.DrainCheck? || pc.DrainAsleep? || pc.Drained? || pc.Finalizing? }

  lemma EmptiedDrain(pc: Writer, pc': Writer, buffers: map<nat, Buffer>)
    requires Emptied(pc, buffers) && Draining(pc) && (Draining(pc') || pc'.Idle?)
    ensures Emptied(pc', buffers)
  {
  }

  lemma {:induction false} FinishEmptied(s: State, a: FinishAction)
    requires Shape(s) && Emptied(s.pc, s.buffers) && CanFinish(s, a)
    ensures Emptied(DoFinish(s, a).pc, DoFinish(s, a).buffers)
  {
    hide Copied, PartIndex, Start, Part, ControlFits, BuffersFit, ActiveFit, Emptied;
    match a
    case CallFlush(sync) => EmptiedCalled(s.buffers, sync);
    case FlushNext(k) => EmptiedNext(s.pc.pending, s.pc.sync, s.buffers, k);
    case FlushPass(k) => EmptiedNext(s.pc.pending, s.pc.sync, s.buffers, k);
    case FlushLast => EmptiedLast(s.pc.sync, s.buffers);
    case _ => EmptiedDrain(s.pc, DoFinish(s, a).pc, s.buffers);
  }

  lemma {:induction false} FinishData(s: State, a: FinishAction)
    requires Shape(s) && Data(s) && CanFinish(s, a)
    ensures Data(DoFinish(s, a))
  {
    hide CanFinish, DoFinish, Shape, Contents, Located, Emptied, End, Held;
    FinishStays(s, a);
    FinishHolds(s, a);
    FinishEmptied(s, a);
  }

  /** FlushBuffer only skips a buffer after an upload error. */
  lemma {:induction false} NothingSkipped(s: State)
    requires Shape(s) && Data(s) && Positions(s) && s.pc.Entering?
    ensures !CanFlush(s, FlushSkip)
  {
  }

  lemma {:induction false} ContentsErased(w: seq<Byte>, ps: nat, buffers: map<nat, Buffer>, active: map<nat, Upload>,
                                          etags: map<nat, seq<Byte>>, k: nat)
    requires Contents(w, ps, Empty, buffers, active, etags) && k in buffers
    ensures Contents(w, ps, Full(buffers[k]), buffers - {k}, active, etags)
  {
    hide Holds, Part;
  }

  lemma {:induction false} ContentsClaimed(w: seq<Byte>, ps: nat, buffers: map<nat, Buffer>, active: map<nat, Upload>,
                                           etags: map<nat, seq<Byte>>, k: nat)
    requires Contents(w, ps, Empty, buffers, active, etags) && k in buffers
    ensures Contents(w, ps, Empty, buffers[k := buffers[k].(uploading := true)], active, etags)
  {
    hide Part;
    assert Holds(buffers[k], w, ps);
  }

  lemma {:induction false} ContentsSpawned(w: seq<Byte>, ps: nat, buffers: map<nat, Buffer>, active: map<nat, Upload>,
                                           etags: map<nat, seq<Byte>>, buf: Buffer)
    requires Contents(w, ps, Full(buf), buffers, active, etags)
    ensures Contents(w, ps, Empty, buffers, active[buf.partNo := Upload(buf, Putting)], etags)
  {
    hide Holds, Part;
  }

  lemma {:induction false} FlushContents(s: State, a: FlushAction)
    requires Shape(s) && ContentsOk(s) && !a.FlushSkip? && CanFlush(s, a)
    ensures ContentsOk(DoFlush(s, a))
  {
    hide Copied, PartIndex, Start, Part, ActiveFit, BuffersFit, Contents, Holds;
    var ps := s.cfg.partSize;
    if a.FlushErase? { ContentsErased(s.written, ps, s.buffers, s.active, s.etags, s.pc.part); }
    else if a.FlushClaim? { ContentsClaimed(s.written, ps, s.buffers, s.active, s.etags, s.pc.part); }
    else if a.Spawn? { ContentsSpawned(s.written, ps, s.buffers, s.active, s.etags, s.pc.buf); }
    else { assert Held(DoFlush(s, a).pc) == Held(s.pc); }
  }

  lemma {:induction false} LocatedErased(w: seq<Byte>, ps: nat, open: set<nat>, taken: set<nat>, flying: set<nat>,
                                         tagged: set<nat>, buf: Buffer)
    requires Located(w, ps, Empty, open, taken, flying, tagged) && buf.partNo in open
    ensures Located(w, ps, Full(buf), open - {buf.partNo}, taken + {buf.partNo}, flying, tagged)
  {
    hide Start;
    forall k: nat ensures Start(ps, k) < |w| <==> k in open - {buf.partNo} || k in taken + {buf.partNo} {
      assert k in taken || k !in taken;
    }
  }

  lemma {:induction false} LocatedSpawned(w: seq<Byte>, ps: nat, open: set<nat>, taken: set<nat>, flying: set<nat>,
                                          tagged: set<nat>, buf: Buffer)
    requires Located(w, ps, Full(buf), open, taken, flying, tagged)
    ensures Located(w, ps, Empty, open, taken, flying + {buf.partNo}, tagged)
  {
    hide Start;
  }

  lemma {:induction false} FlushLocated(s: State, a: FlushAction)
    requires Shape(s) && LocatedOk(s) && !a.FlushSkip? && !a.FlushThrow? && CanFlush(s, a)
    ensures LocatedOk(DoFlush(s, a))
  {
    hide Copied, PartIndex, Start, Part, ActiveFit, Located;
    var s', ps, open := DoFlush(s, a), s.cfg.partSize, s.buffers.Keys;
    if a.FlushErase? {
      LocatedErased(s.written, ps, open, s.taken, s.active.Keys, s.etags.Keys, s.buffers[s.pc.part]);
      assert s'.buffers.Keys == open - {s.pc.part};
    } else if a.Spawn? {
      LocatedSpawned(s.written, ps, open, s.taken, s.active.Keys, s.etags.Keys, s.pc.buf);
      assert s'.active.Keys == s.active.Keys + {s.pc.buf.partNo};
    } else {
      assert s'.buffers.Keys == open && Held(s'.pc) == Held(s.pc);
    }
  }

  lemma {:induction false} EmptiedErased(part: nat, from: Caller, buffers: map<nat, Buffer>, pc': Writer)
    requires Emptied(Checked(part, from), buffers) && part in buffers
    requires from.FromFlushAll? ==> part !in from.pending
    requires pc' == SlotCheck(buffers[part], from)
    ensures Emptied(pc', buffers - {part})
  {
    assert (buffers - {part}).Keys == buffers.Keys - {part};
  }

  lemma FlushFits(s: State)
    requires Shape(s) && Flushing(s.pc)
    ensures s.pc.part in s.buffers && (s.pc.from.FromFlushAll? ==> s.pc.part !in s.pc.from.pending)
  {
  }

  lemma {:induction false} EmptiedClaimed(part: nat, from: Caller, buffers: map<nat, Buffer>)
    requires Emptied(Entering(part, from), buffers) && part in buffers
    ensures Emptied(Claimed(part, from), buffers[part := buffers[part].(uploading := true)])
  {
    assert buffers[part := buffers[part].(uploading := true)].Keys == buffers.Keys;
  }

  lemma EmptiedOn(pc: Writer, pc': Writer, buffers: map<nat, Buffer>)
    requires Emptied(pc, buffers) && InFlush(pc)
    requires || (InFlush(pc') && pc'.from == pc.from && !pc.Entering? && !pc'.Entering?
                 && (Flushing(pc) <==> Flushing(pc')) && (Flushing(pc) ==> pc'.part == pc.part))
             || (pc.Returned? && pc.from.FromFlushAll? && pc' == FlushingAll(pc.from.pending, pc.from.sync))
             || (pc.Returned? && pc.from.FromWrite? && pc'.Writing?)
    ensures Emptied(pc', buffers)
  {
  }

  lemma {:induction false} FlushEmptied(s: State, a: FlushAction)
    requires Shape(s) && Emptied(s.pc, s.buffers) && !a.FlushSkip? && !a.FlushThrow? && CanFlush(s, a)
    ensures Emptied(DoFlush(s, a).pc, DoFlush(s, a).buffers)
  {
    hide Copied, PartIndex, Start, Part, ControlFits, BuffersFit, ActiveFit, Emptied;
    if Flushing(s.pc) { FlushFits(s); }
    if a.FlushErase? { EmptiedErased(s.pc.part, s.pc.from, s.buffers, DoFlush(s, a).pc); }
    else if a.FlushClaim? { EmptiedClaimed(s.pc.part, s.pc.from, s.buffers); }
    else { EmptiedOn(s.pc, DoFlush(s, a).pc, s.buffers); }
  }

  lemma {:induction false} FlushData(s: State, a: FlushAction)
    requires Shape(s) && Positions(s) && Data(s) && !s.hasError && CanFlush(s, a)
    ensures Data(DoFlush(s, a))
  {
    hide Copied, PartIndex, Start, Part, Contents, Located, Emptied, Positions;
    if s.pc.Entering? { NothingSkipped(s); }
    FlushContents(s, a);
    FlushLocated(s, a);
    FlushEmptied(s, a);
  }

  /** Appending to `w` changes no part that ends within `w`. */
  lemma PartKept(w: seq<Byte>, src: seq<Byte>, ps: nat, k: nat)
    requires Start(ps, k + 1) <= |w|
    ensures Part(w + src, ps, k) == Part(w, ps, k)
  {
  }

  lemma PartGrown(w: seq<Byte>, src: seq<Byte>, ps: nat, k: nat)
    requires Start(ps, k) <= |w| && |w| + |src| <= Start(ps, k + 1)
    ensures Part(w + src, ps, k) == Part(w, ps, k) + src
  {
    assert Part(w, ps, k) == w[Start(ps, k)..];
    assert Part(w + src, ps, k) == (w + src)[Start(ps, k)..];
  }

  lemma {:induction false} SpliceEnd(mem: seq<Byte>, at: nat, src: seq<Byte>)
    requires at + |src| <= |mem|
    ensures Splice(mem, at, src)[..at + |src|] == mem[..at] + src
  {
  }

  /** While no upload has failed, the buffer under the position is the only one. */
  lemma {:induction false} OneBuffer(s: State)
    requires Shape(s) && Positions(s) && Emptied(s.pc, s.buffers) && AtChunk(s)
    ensures var k := Under(s);
            && BufferAt(s, k).partNo == k && !BufferAt(s, k).uploading
            && BufferAt(s, k).idx == Filled(s)
            && s.buffers.Keys <= {k}
  {
    PositionIsOpen(s);
  }

  lemma {:induction false} SplicedHolds(buf: Buffer, w: seq<Byte>, src: seq<Byte>, ps: nat)
    requires Holds(buf, w, ps) && buf.idx + |src| <= |buf.mem|
    requires Start(ps, buf.partNo) <= |w| && |w| + |src| <= Start(ps, buf.partNo + 1)
    ensures Holds(buf.(mem := Splice(buf.mem, buf.idx, src), idx := buf.idx + |src|), w + src, ps)
  {
    hide Part, Start, Splice;
    PartGrown(w, src, ps, buf.partNo);
    SpliceEnd(buf.mem, buf.idx, src);
  }

  lemma {:induction false} BufferHolds(s: State)
    requires Shape(s) && Positions(s) && AtChunk(s) && Emptied(s.pc, s.buffers) && |s.written| == s.offset
    requires forall k :: k in s.buffers ==> Holds(s.buffers[k], s.written, s.cfg.partSize)
    ensures Holds(BufferAt(s, Under(s)), s.written, s.cfg.partSize)
  {
    hide Positions, Emptied, ControlFits, ActiveFit, PartIndex;
    OneBuffer(s);
  }

  lemma {:induction false} CopiedHolds(s: State)
    requires Shape(s) && Positions(s) && AtChunk(s) && Emptied(s.pc, s.buffers) && |s.written| == s.offset
    requires forall k :: k in s.buffers ==> Holds(s.buffers[k], s.written, s.cfg.partSize)
    ensures Holds(Copied(s), Copy(s).written, s.cfg.partSize)
  {
    hide Shape, Positions, Emptied, PartIndex, Holds, BufferAt;
    BufferHolds(s);
    OneBuffer(s);
    SplicedHolds(BufferAt(s, Under(s)), s.written, s.pc.data[s.pc.done..s.pc.done + Chunk(s)], s.cfg.partSize);
  }

  lemma {:induction false} CopyContents(w: seq<Byte>, src: seq<Byte>, ps: nat, buffers: map<nat, Buffer>,
                                        taken: set<nat>, active: map<nat, Upload>, etags: map<nat, seq<Byte>>, at: nat,
                                        buf: Buffer)
    requires Contents(w, ps, Empty, buffers, active, etags) && ActiveFit(active)
    requires active.Keys <= taken && etags.Keys <= taken && buffers.Keys <= {at}
    requires forall k :: k in taken ==> Start(ps, k + 1) <= |w|
    requires Holds(buf, w + src, ps)
    ensures Contents(w + src, ps, Empty, buffers[at := buf], active, etags)
  {
    forall k | k in taken ensures Part(w + src, ps, k) == Part(w, ps, k) { PartKept(w, src, ps, k); }
  }

  lemma {:induction false} CopyLocated(w: seq<Byte>, src: seq<Byte>, ps: nat, open: set<nat>, taken: set<nat>,
                                       flying: set<nat>, tagged: set<nat>, at: nat)
    requires Located(w, ps, Empty, open, taken, flying, tagged)
    requires Start(ps, at) <= |w| < |w| + |src| <= Start(ps, at) + ps
    ensures Located(w + src, ps, Empty, open + {at}, taken, flying, tagged)
  {
    forall k: nat | |w| <= Start(ps, k) < |w| + |src| ensures k == at { StartUnique(ps, k, at, Start(ps, k)); }
  }

  lemma {:induction false} ContentsCopy(s: State)
    requires Shape(s) && Positions(s) && AtChunk(s) && Emptied(s.pc, s.buffers) && |s.written| == s.offset
    requires Contents(s.written, s.cfg.partSize, Empty, s.buffers, s.active, s.etags)
    requires s.active.Keys <= s.taken && s.etags.Keys <= s.taken
    ensures Contents(Copy(s).written, s.cfg.partSize, Empty, Copy(s).buffers, s.active, s.etags)
  {
    CopiedHolds(s);
    OneBuffer(s);
    CopyContents(s.written, s.pc.data[s.pc.done..s.pc.done + Chunk(s)], s.cfg.partSize, s.buffers, s.taken, s.active,
                 s.etags, Under(s), Copied(s));
  }

  lemma {:induction false} LocatedCopy(s: State)
    requires Shape(s) && AtChunk(s) && |s.written| == s.offset
    requires Located(s.written, s.cfg.partSize, Empty, s.buffers.Keys, s.taken, s.active.Keys, s.etags.Keys)
    ensures Located(Copy(s).written, s.cfg.partSize, Empty, Copy(s).buffers.Keys, s.taken, s.active.Keys, s.etags.Keys)
  {
    CopyLocated(s.written, s.pc.data[s.pc.done..s.pc.done + Chunk(s)], s.cfg.partSize, s.buffers.Keys, s.taken,
                s.active.Keys, s.etags.Keys, Under(s));
    assert Copy(s).buffers.Keys == s.buffers.Keys + {Under(s)};
  }

  lemma {:induction false} EmptiedCopy(s: State, a: WriteAction)
    requires Shape(s) && Positions(s) && Emptied(s.pc, s.buffers) && CanWrite(s, a) && (a.WriteCopy? || a.WriteFill?)
    ensures Emptied(DoWrite(s, a).pc, Copy(s).buffers)
  {
    OneBuffer(s);
  }

  lemma {:induction false} DataOfCopy(s: State, a: WriteAction)
    requires Shape(s) && CanWrite(s, a) && (a.WriteCopy? || a.WriteFill?) && |s.written| == s.offset
    requires Contents(Copy(s).written, s.cfg.partSize, Empty, Copy(s).buffers, s.active, s.etags)
    requires Located(Copy(s).written, s.cfg.partSize, Empty, Copy(s).buffers.Keys, s.taken, s.active.Keys, s.etags.Keys)
    requires Emptied(DoWrite(s, a).pc, Copy(s).buffers)
    ensures Data(DoWrite(s, a))
  {
  }

  lemma {:induction false} WriteCallData(s: State, a: WriteAction)
    requires Shape(s) && Data(s) && (a.CallWrite? || a.WriteEnd?) && CanWrite(s, a)
    ensures Data(DoWrite(s, a))
  {
    hide Copied, PartIndex, Start, Part, Contents, Located;
  }

  lemma {:induction false} WriteData(s: State, a: WriteAction)
    requires Shape(s) && Positions(s) && PlacesOk(s) && Data(s) && CanWrite(s, a)
    ensures Data(DoWrite(s, a))
  {
    hide Copied, PartIndex, Start, Part, Contents, Located, Emptied, DoWrite, Copy;
    if a.WriteCopy? || a.WriteFill? {
      ContentsCopy(s);
      LocatedCopy(s);
      EmptiedCopy(s, a);
      DataOfCopy(s, a);
    } else {
      WriteCallData(s, a);
    }
  }

  // ---------------------------------------------------------------- completion

  /** How many parts `n` bytes take. */
  function PartCount(ps: nat, n: nat): nat { if n == 0 then 0 else PartIndex(ps, n - 1) + 1 }

  lemma {:induction false} PartCounted(ps: nat, n: nat, k: nat)
    requires ps > 0
    ensures k < PartCount(ps, n) <==> Start(ps, k) < n
  {
    if n > 0 {
      var last := PartIndex(ps, n - 1);
      if k < last { StartStep(ps, k, last); } else if last < k { StartStep(ps, last, k); }
    }
  }

  lemma {:induction false} RequestIsComplete(s: State)
    requires Shape(s) && PlacesOk(s) && CountersOk(s) && Data(s) && s.pc.Finalizing? && s.active == map[]
    ensures |Request(s)| == 1 && Complete(Request(s)[0], s.written, s.cfg.partSize)
    ensures s.etags.Keys == Range(|Request(s)[0]|)
  {
    hide PartIndex, Start, Part, ControlFits, BuffersFit, ActiveFit;
    var ps, tagged, n := s.cfg.partSize, s.etags.Keys, PartCount(s.cfg.partSize, |s.written|);
    assert s.counted == tagged;
    forall k: nat ensures (k in tagged <==> k < n) && (k < n <==> Start(ps, k) < |s.written|) {
      PartCounted(ps, |s.written|, k);
      assert k in s.taken <==> k in tagged;
    }
    assert tagged == Range(n);
  }

  lemma {:induction false} WriteFinal(s: State, a: WriteAction)
    requires Shape(s) && Phases(s.pc, s.flushStarted) && Final(s) && CanWrite(s, a)
    ensures Final(DoWrite(s, a))
  {
    hide Copied, PartIndex, Start, Part, Complete, BuffersFit;
  }

  lemma {:induction false} FlushFinal(s: State, a: FlushAction)
    requires Shape(s) && Phases(s.pc, s.flushStarted) && Final(s) && CanFlush(s, a)
    ensures Final(DoFlush(s, a))
  {
    hide Copied, PartIndex, Start, Part, Complete, BuffersFit;
  }

  lemma {:induction false} ThreadFinal(s: State, k: nat, a: ThreadAction)
    requires Shape(s) && Phases(s.pc, s.flushStarted) && Final(s) && CanThread(s, k, a)
    ensures Final(DoThread(s, k, a))
  {
    hide Copied, PartIndex, Start, Part, Complete, BuffersFit;
  }

  lemma {:induction false} FinishFinal(s: State, a: FinishAction)
    requires Shape(s) && Phases(s.pc, s.flushStarted) && Final(s) && SlotsOk(s) && PlacesOk(s) && CountersOk(s)
    requires (!s.hasError ==> Data(s)) && CanFinish(s, a)
    ensures Final(DoFinish(s, a))
  {
    hide Copied, PartIndex, Start, Part, Complete, BuffersFit, Data, Places, Counters;
    if a.Finalize? { RequestIsComplete(s); }
    if a.DrainPass? { assert s.active.Keys == {}; }
  }

  lemma {:induction false} FlushNarrow(s: State, a: FlushAction)
    requires Shape(s) && Narrow(s) && CanFlush(s, a)
    ensures Narrow(DoFlush(s, a))
  {
    hide Copied, PartIndex, Start, Part, BuffersFit;
  }

  lemma {:induction false} FinishNarrow(s: State, a: FinishAction)
    requires Shape(s) && Narrow(s) && CanFinish(s, a)
    ensures Narrow(DoFinish(s, a))
  {
    hide CanFinish, DoFinish, Shape;
    FinishStays(s, a);
    FinishMoves(s, a);
  }

  lemma {:induction false} ThreadNarrow(s: State, k: nat, a: ThreadAction)
    requires Shape(s) && Narrow(s) && CanThread(s, k, a)
    ensures Narrow(DoThread(s, k, a))
  {
    hide CanThread, DoThread, Shape;
    ThreadWakes(s, k, a);
  }

  lemma {:induction false} WriteNarrow(s: State, a: WriteAction)
    requires Shape(s) && Narrow(s) && CanWrite(s, a)
    ensures Narrow(DoWrite(s, a))
  {
    hide Copied, Part;
    if a.WriteCopy? || a.WriteFill? {
      StartIsProduct(s.cfg.partSize, MAX_PARTS);
      if Under(s) >= MAX_PARTS { StartStep(s.cfg.partSize, MAX_PARTS - 1, Under(s)); }
    }
  }

  // ---------------------------------------------------------------- every step keeps the invariant

  lemma {:induction false} WriteKeeps(s: State, a: WriteAction)
    requires Inv(s) && CanWrite(s, a)
    ensures Inv(DoWrite(s, a))
  {
    if AtChunk(s) { PositionIsOpen(s); }
    WriteShape(s, a);
    WriteSlots(s, a);
    WriteErrors(s, a);
    WritePlaces(s, a);
    WritePositions(s, a);
    WriteFinal(s, a);
    WriteNarrow(s, a);
    if !s.hasError { WriteData(s, a); }
  }

  lemma {:induction false} FlushKeeps(s: State, a: FlushAction)
    requires Inv(s) && CanFlush(s, a)
    ensures Inv(DoFlush(s, a))
  {
    FlushShape(s, a);
    FlushSlots(s, a);
    FlushWakeups(s, a);
    FlushErrors(s, a);
    FlushPlaces(s, a);
    FlushCounters(s, a);
    FlushSignals(s, a);
    FlushPositions(s, a);
    FlushFinal(s, a);
    FlushNarrow(s, a);
    if !s.hasError { FlushData(s, a); }
  }

  lemma {:induction false} FinishKeeps(s: State, a: FinishAction)
    requires Inv(s) && CanFinish(s, a)
    ensures Inv(DoFinish(s, a))
  {
    FinishShape(s, a);
    FinishSlots(s, a);
    FinishWakeups(s, a);
    FinishErrors(s, a);
    FinishPlaces(s, a);
    FinishPositions(s, a);
    FinishFinal(s, a);
    FinishNarrow(s, a);
    if !s.hasError { FinishData(s, a); }
  }

  lemma {:induction false} ThreadKeeps(s: State, k: nat, a: ThreadAction)
    requires Inv(s) && CanThread(s, k, a)
    ensures Inv(DoThread(s, k, a))
  {
    ThreadShape(s, k, a);
    ThreadSlots(s, k, a);
    ThreadErrors(s, k, a);
    ThreadWakeups(s, k, a);
    ThreadPlaces(s, k, a);
    ThreadCounters(s, k, a);
    ThreadSignals(s, k, a);
    ThreadPositions(s, k, a);
    ThreadFinal(s, k, a);
    ThreadNarrow(s, k, a);
    if !s.hasError && !a.PutFail? { ThreadData(s, k, a); }
  }

  lemma {:induction false} StepKeeps(s: State, a: Action)
    requires Inv(s) && Enabled(s, a)
    ensures Inv(Step(s, a))
  {
    match a
    case Write(w) => WriteKeeps(s, w);
    case Flush(f) => FlushKeeps(s, f);
    case Finish(f) => FinishKeeps(s, f);
    case Thread(k, t) => ThreadKeeps(s, k, t);
  }

  lemma {:induction false} InitInv(cfg: Config)
    requires cfg.partSize > 0
    ensures Inv(Init(cfg))
  {
  }
}
