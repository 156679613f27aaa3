/** What the calls on the upload handle ask for, told by the actions of a run alone, and that each step serves it. */
module S3Calls {
  import opened Basics
  import opened S3Upload
  import opened S3Invariants

  /** What Write is given after `given`: a call that does not start at the end of it gives nothing. */
  function Extended(given: seq<Byte>, a: Action): seq<Byte> {
    if a.Write? && a.write.CallWrite? && a.write.at == |given| then given + a.write.bytes else given
  }

  /** The bytes given to the handle: those of the sequential calls of Write. */
  function Given(acts: seq<Action>): seq<Byte> {
    if acts == [] then [] else Extended(Given(acts[..|acts| - 1]), acts[|acts| - 1])
  }

  /** The last call of Write, if it has bytes, starts where the bytes given before it end. */
  predicate Sequential(acts: seq<Action>) {
    acts == [] ||
    var before, a := acts[..|acts| - 1], acts[|acts| - 1];
    if a.Write? && a.write.CallWrite? then a.write.bytes == [] || a.write.at == |Given(before)| else Sequential(before)
  }

  /** FileSync has been called. */
  predicate Synced(acts: seq<Action>) { Finish(CallFlush(true)) in acts }

  /** Close or FileSync has been called. */
  predicate FlushCalled(acts: seq<Action>) { Synced(acts) || Finish(CallFlush(false)) in acts }

  predicate IsFailure(a: Action) { a.Thread? && (a.thread.PutFail? || a.thread.PutFailAgain?) }

  /** A PUT has failed. */
  predicate PutFailed(acts: seq<Action>) { exists i :: 0 <= i < |acts| && IsFailure(acts[i]) }

  /** The call that is running ends here with an exception. */
  predicate Raises(s: State, a: Action) {
    || (a == Write(WriteEnd) && s.pc.Writing? && s.pc.done < |s.pc.data|)
    || a == Flush(FlushThrow)
    || (a == Finish(FinalEnd) && s.hasError)
  }

  // ---------------------------------------------------------------- what is given is copied

  function From(data: seq<Byte>, done: nat): seq<Byte> { if done <= |data| then data[done..] else [] }

  /** The bytes that the current call of Write has still to copy. */
  function ToCome(pc: Writer, offset: nat): seq<Byte> {
    if pc.Writing? && pc.location + pc.done == offset then From(pc.data, pc.done)
    else if InFlush(pc) && pc.from.FromWrite? then From(pc.from.data, pc.from.done + pc.from.chunk)
    else []
  }

  /** After its first bytes Write writes in sequence. */
  predicate InSequence(pc: Writer, offset: nat) {
    && (InFlush(pc) && pc.from.FromWrite? ==> pc.from.location + pc.from.done == offset)
    && (pc.Writing? && pc.done > 0 ==> pc.location + pc.done == offset)
  }

  predicate Serves(s: State, given: seq<Byte>) {
    && InSequence(s.pc, s.offset)
    && (!s.hasError ==> given == s.written + ToCome(s.pc, s.offset))
  }

  lemma {:induction false} CallServes(s: State, given: seq<Byte>, bytes: seq<Byte>, at: nat)
    requires Shape(s) && CanWrite(s, CallWrite(bytes, at)) && Serves(s, given)
    requires s.pc.Idle? && !s.hasError ==> |s.written| == s.offset
    ensures Serves(DoWrite(s, CallWrite(bytes, at)), Extended(given, Write(CallWrite(bytes, at))))
  {
    hide PartIndex, Start, Copied, BuffersFit, ActiveFit, ControlFits;
    assert s.written + [] == s.written;
    assert bytes[0..] == bytes;
  }

  lemma Onward(w: seq<Byte>, data: seq<Byte>, done: nat, n: nat)
    requires done + n <= |data|
    ensures w + data[done..] == w + data[done..done + n] + data[done + n..]
  {
    assert data[done..] == data[done..done + n] + data[done + n..];
  }

  lemma {:induction false} WriteServes(s: State, given: seq<Byte>, a: WriteAction)
    requires Shape(s) && CanWrite(s, a) && Serves(s, given) && !a.CallWrite?
    ensures Serves(DoWrite(s, a), given)
  {
    hide PartIndex, Start, Copied, BuffersFit, ActiveFit, ControlFits;
    if a.WriteEnd? {
    } else {
      Onward(s.written, s.pc.data, s.pc.done, Chunk(s));
    }
  }

  lemma {:induction false} FlushServes(s: State, given: seq<Byte>, a: FlushAction)
    requires Shape(s) && CanFlush(s, a) && Serves(s, given)
    ensures Serves(DoFlush(s, a), given)
  {
    hide PartIndex, Start, Copied, BuffersFit, ActiveFit, ControlFits, From;
  }

  lemma {:induction false} FinishServes(s: State, given: seq<Byte>, a: FinishAction)
    requires Shape(s) && CanFinish(s, a) && Serves(s, given)
    ensures Serves(DoFinish(s, a), given)
  {
    hide Shape, CanFinish, DoFinish, From;
    FinishStays(s, a);
    FinishMoves(s, a);
  }

  lemma {:induction false} ThreadKeepsError(s: State, k: nat, a: ThreadAction)
    requires Shape(s) && CanThread(s, k, a)
    ensures s.hasError ==> DoThread(s, k, a).hasError
  {
    hide BuffersFit, ActiveFit, ControlFits;
  }

  lemma {:induction false} ThreadServes(s: State, given: seq<Byte>, k: nat, a: ThreadAction)
    requires Shape(s) && CanThread(s, k, a) && Serves(s, given)
    ensures Serves(DoThread(s, k, a), given)
  {
    hide Shape, CanThread, DoThread, From;
    ThreadWakes(s, k, a);
    ThreadKeepsError(s, k, a);
  }

  // ---------------------------------------------------------------- what is flushed is completed

  /** The call of the final flush that is running is FileSync. */
  predicate SyncRuns(pc: Writer, synced: bool) {
    && (pc.FlushingAll? || pc.DrainCheck? || pc.DrainAsleep? || pc.Drained? ==> pc.sync == synced)
    && (InFlush(pc) && pc.from.FromFlushAll? ==> pc.from.sync == synced)
  }

  /** The completion request is sent for a file that is not empty and for FileSync, and else it is not. */
  predicate Answers(s: State, synced: bool) {
    !s.hasError ==>
      && (!s.flushStarted ==> !synced)
      && SyncRuns(s.pc, synced)
      && (s.pc.Finalizing? || s.finalized ==> s.written != [] || synced)
      && (s.pc.Idle? && s.flushStarted && !s.finalized ==> s.written == [] && !synced)
  }

  lemma {:induction false} WriteAnswers(s: State, a: WriteAction, synced: bool)
    requires Shape(s) && CanWrite(s, a) && Answers(s, synced) && Phases(s.pc, s.flushStarted)
    requires s.finalized ==> s.flushStarted
    ensures Answers(DoWrite(s, a), synced)
  {
    hide PartIndex, Start, Copied, BuffersFit, ActiveFit, ControlFits;
  }

  lemma {:induction false} FlushAnswers(s: State, a: FlushAction, synced: bool)
    requires Shape(s) && CanFlush(s, a) && Answers(s, synced)
    ensures Answers(DoFlush(s, a), synced)
  {
    hide PartIndex, Start, Copied, BuffersFit, ActiveFit, ControlFits;
  }

  lemma {:induction false} ThreadAnswers(s: State, k: nat, a: ThreadAction, synced: bool)
    requires Shape(s) && CanThread(s, k, a) && Answers(s, synced)
    ensures Answers(DoThread(s, k, a), synced)
  {
    hide Shape, CanThread, DoThread;
    ThreadWakes(s, k, a);
    ThreadKeepsError(s, k, a);
  }

  /** When all threads are done, parts have been counted exactly if something was written. */
  lemma {:induction false} CountedIsWritten(s: State)
    requires Inv(s) && s.pc.Drained? && !s.hasError
    ensures s.partsUploaded == 0 <==> s.written == []
  {
    assert s.active == map[] && s.buffers == map[];
    assert s.counted == s.etags.Keys == s.taken;
    if s.partsUploaded > 0 {
      var k :| k in s.counted;
      assert k in s.taken && Start(s.cfg.partSize, k) < |s.written|;
    } else {
      assert 0 !in s.taken && Start(s.cfg.partSize, 0) == 0;
    }
  }

  lemma {:induction false} FinishAnswers(s: State, a: FinishAction, synced: bool)
    requires Shape(s) && CanFinish(s, a) && Answers(s, synced)
    requires s.pc.Drained? && !s.hasError ==> (s.partsUploaded == 0 <==> s.written == [])
    ensures Answers(DoFinish(s, a), synced || a == CallFlush(true))
  {
    hide PartIndex, Start, Copied, BuffersFit, ActiveFit, ControlFits, Request;
  }

  // ---------------------------------------------------------------- calls out of sequence

  /** A running call of Write is in sequence. */
  predicate Tracks(pc: Writer, offset: nat, sequential: bool) {
    && (pc.Writing? ==> (sequential <==> pc.data == [] || pc.location + pc.done == offset))
    && (InFlush(pc) && pc.from.FromWrite? ==> sequential)
  }

  lemma {:induction false} WriteTracks(s: State, a: WriteAction, sequential: bool)
    requires Shape(s) && CanWrite(s, a) && Tracks(s.pc, s.offset, sequential)
    ensures Tracks(DoWrite(s, a).pc, DoWrite(s, a).offset,
                   if a.CallWrite? then a.bytes == [] || a.at == s.offset else sequential)
  {
    hide PartIndex, Start, Copied, BuffersFit, ActiveFit, ControlFits;
  }

  lemma {:induction false} FlushTracks(s: State, a: FlushAction, sequential: bool)
    requires Shape(s) && CanFlush(s, a) && Tracks(s.pc, s.offset, sequential) && InSequence(s.pc, s.offset)
    ensures Tracks(DoFlush(s, a).pc, DoFlush(s, a).offset, sequential)
  {
    hide PartIndex, Start, Copied, BuffersFit, ActiveFit, ControlFits;
  }

  lemma {:induction false} StepTracks(s: State, a: Action, sequential: bool)
    requires Shape(s) && Enabled(s, a) && Tracks(s.pc, s.offset, sequential) && InSequence(s.pc, s.offset)
    ensures Tracks(Step(s, a).pc, Step(s, a).offset,
                   if a.Write? && a.write.CallWrite? then a.write.bytes == [] || a.write.at == s.offset else sequential)
  {
    hide Shape, CanWrite, CanFlush, CanFinish, CanThread, DoWrite, DoFlush, DoFinish, DoThread;
    match a
    case Write(w) => WriteTracks(s, w, sequential);
    case Flush(f) => FlushTracks(s, f, sequential);
    case Finish(f) =>
      FinishStays(s, f);
      FinishMoves(s, f);
    case Thread(k, t) => ThreadWakes(s, k, t);
  }

  // ---------------------------------------------------------------- every step serves the calls

  /** The state is what the actions so far ask for. */
  predicate Faithful(s: State, acts: seq<Action>) {
    && Serves(s, Given(acts))
    && Answers(s, Synced(acts))
    && s.flushStarted == FlushCalled(acts)
    && s.hasError == PutFailed(acts)
    && (!s.hasError ==> Tracks(s.pc, s.offset, Sequential(acts)))
  }

  lemma InitFaithful(cfg: Config)
    ensures Faithful(Init(cfg), [])
  {
  }

  lemma {:induction false} CallsAfter(acts: seq<Action>, a: Action)
    ensures Given(acts + [a]) == Extended(Given(acts), a)
    ensures Synced(acts + [a]) == (Synced(acts) || a == Finish(CallFlush(true)))
    ensures FlushCalled(acts + [a]) == (FlushCalled(acts) || (a.Finish? && a.finish.CallFlush?))
    ensures PutFailed(acts + [a]) == (PutFailed(acts) || IsFailure(a))
    ensures Sequential(acts + [a]) ==
      if a.Write? && a.write.CallWrite? then a.write.bytes == [] || a.write.at == |Given(acts)| else Sequential(acts)
  {
    hide IsFailure;
    assert (acts + [a])[..|acts|] == acts && (acts + [a])[|acts|] == a;
    if PutFailed(acts) {
      var i :| 0 <= i < |acts| && IsFailure(acts[i]);
      assert IsFailure((acts + [a])[i]);
    }
  }

  /** What the invariant says of the writer. */
  lemma InvCalls(s: State)
    requires Inv(s)
    ensures Shape(s) && Phases(s.pc, s.flushStarted) && (s.finalized ==> s.flushStarted)
    ensures s.pc.Idle? && !s.hasError ==> |s.written| == s.offset
  {
  }

  lemma {:induction false} WriteStarts(s: State, a: WriteAction)
    requires Shape(s) && CanWrite(s, a)
    ensures DoWrite(s, a).flushStarted == s.flushStarted
  {
    hide PartIndex, Start, Copied, BuffersFit, ActiveFit, ControlFits;
  }

  lemma {:induction false} FlushStarts(s: State, a: FlushAction)
    requires Shape(s) && CanFlush(s, a)
    ensures DoFlush(s, a).flushStarted == s.flushStarted
  {
    hide PartIndex, Start, Copied, BuffersFit, ActiveFit, ControlFits;
  }

  lemma {:induction false} FinishStarts(s: State, a: FinishAction)
    requires Shape(s) && CanFinish(s, a)
    ensures DoFinish(s, a).flushStarted == (s.flushStarted || a.CallFlush?)
  {
    hide PartIndex, Start, Copied, BuffersFit, ActiveFit, ControlFits, Request;
  }

  lemma {:induction false} WriteFails(s: State, a: WriteAction)
    requires Shape(s) && CanWrite(s, a)
    ensures DoWrite(s, a).hasError == s.hasError
  {
    hide PartIndex, Start, Copied, BuffersFit, ActiveFit, ControlFits;
  }

  lemma {:induction false} FlushFails(s: State, a: FlushAction)
    requires Shape(s) && CanFlush(s, a)
    ensures DoFlush(s, a).hasError == s.hasError
  {
    hide PartIndex, Start, Copied, BuffersFit, ActiveFit, ControlFits;
  }

  lemma {:induction false} ThreadFails(s: State, k: nat, a: ThreadAction)
    requires Shape(s) && CanThread(s, k, a)
    ensures DoThread(s, k, a).hasError == (s.hasError || IsFailure(Thread(k, a)))
  {
    hide BuffersFit, ActiveFit, ControlFits;
  }

  lemma {:induction false} StepFails(s: State, a: Action)
    requires Shape(s) && Enabled(s, a)
    ensures Step(s, a).hasError == (s.hasError || IsFailure(a))
  {
    hide Shape, CanWrite, CanFlush, CanFinish, CanThread, DoWrite, DoFlush, DoFinish, DoThread;
    match a
    case Write(w) => WriteFails(s, w);
    case Flush(f) => FlushFails(s, f);
    case Finish(f) => FinishStays(s, f);
    case Thread(k, t) => ThreadFails(s, k, t);
  }

  lemma {:induction false} StepStarts(s: State, a: Action)
    requires Shape(s) && Enabled(s, a)
    ensures Step(s, a).flushStarted == (s.flushStarted || (a.Finish? && a.finish.CallFlush?))
  {
    hide Shape, CanWrite, CanFlush, CanFinish, CanThread, DoWrite, DoFlush, DoFinish, DoThread;
    match a
    case Write(w) => WriteStarts(s, w);
    case Flush(f) => FlushStarts(s, f);
    case Finish(f) => FinishStarts(s, f);
    case Thread(k, t) => ThreadWakes(s, k, t);
  }

  lemma {:induction false} StepServes(s: State, a: Action, given: seq<Byte>)
    requires Inv(s) && Shape(s) && Enabled(s, a) && Serves(s, given)
    ensures Serves(Step(s, a), Extended(given, a))
  {
    hide Inv, Shape, CanWrite, CanFlush, CanFinish, CanThread, DoWrite, DoFlush, DoFinish, DoThread, Serves;
    InvCalls(s);
    match a
    case Write(w) =>
      if w.CallWrite? { CallServes(s, given, w.bytes, w.at); } else { WriteServes(s, given, w); }
    case Flush(f) => FlushServes(s, given, f);
    case Finish(f) => FinishServes(s, given, f);
    case Thread(k, t) => ThreadServes(s, given, k, t);
  }

  lemma {:induction false} StepAnswers(s: State, a: Action, synced: bool)
    requires Inv(s) && Shape(s) && Enabled(s, a) && Answers(s, synced)
    ensures Answers(Step(s, a), synced || a == Finish(CallFlush(true)))
  {
    hide Inv, Shape, CanWrite, CanFlush, CanFinish, CanThread, DoWrite, DoFlush, DoFinish, DoThread, Answers;
    InvCalls(s);
    match a
    case Write(w) => WriteAnswers(s, w, synced);
    case Flush(f) => FlushAnswers(s, f, synced);
    case Finish(f) =>
      if s.pc.Drained? && !s.hasError { CountedIsWritten(s); }
      FinishAnswers(s, f, synced);
    case Thread(k, t) => ThreadAnswers(s, k, t, synced);
  }

  lemma ServesIs(s: State, given: seq<Byte>)
    requires Serves(s, given)
    ensures InSequence(s.pc, s.offset)
    ensures s.pc.Idle? && !s.hasError ==> given == s.written
  {
    assert s.written + [] == s.written;
  }

  lemma CallsWhenIdle(s: State, a: Action)
    requires Shape(s) && Enabled(s, a)
    ensures a.Write? && a.write.CallWrite? ==> s.pc.Idle?
  {
  }

  lemma {:induction false} StepFaithful(s: State, acts: seq<Action>, a: Action)
    requires Inv(s) && Shape(s) && Enabled(s, a) && Faithful(s, acts)
    ensures Faithful(Step(s, a), acts + [a])
  {
    hide Inv, Shape, Enabled, Step, Serves, Answers, Given, Synced, FlushCalled, PutFailed, IsFailure, Sequential,
         Tracks;
    CallsAfter(acts, a);
    StepServes(s, a, Given(acts));
    StepAnswers(s, a, Synced(acts));
    StepStarts(s, a);
    StepFails(s, a);
    ServesIs(s, Given(acts));
    if !s.hasError {
      CallsWhenIdle(s, a);
      InvCalls(s);
      StepTracks(s, a, Sequential(acts));
    }
  }

  // ---------------------------------------------------------------- how calls end

  lemma {:induction false} WriteToIdle(s: State, a: WriteAction)
    requires Shape(s) && CanWrite(s, a) && !s.pc.Idle? && DoWrite(s, a).pc.Idle?
    ensures a.WriteEnd? && s.pc.Writing? && (s.pc.done >= |s.pc.data| || s.pc.location + s.pc.done != s.offset)
  {
    hide PartIndex, Start, Copied, BuffersFit, ActiveFit, ControlFits;
  }

  lemma {:induction false} FlushToIdle(s: State, a: FlushAction)
    requires Shape(s) && CanFlush(s, a) && DoFlush(s, a).pc.Idle?
    ensures a.FlushThrow? && InFlush(s.pc) && s.hasError
  {
    hide PartIndex, Start, Copied, BuffersFit, ActiveFit, ControlFits;
  }

  lemma {:induction false} FinishToIdle(s: State, a: FinishAction)
    requires Shape(s) && CanFinish(s, a) && DoFinish(s, a).pc.Idle?
    ensures a.FinalEnd? || (a.Finalize? && s.pc.Finalizing?)
    ensures !s.pc.Writing? && !InFlush(s.pc) && !s.pc.Idle?
  {
    hide PartIndex, Start, Copied, BuffersFit, ActiveFit, ControlFits, Request;
  }

  /** A call of the final flush ends with an exception exactly if an upload has failed. */
  lemma {:induction false} FlushEnds(s: State, a: Action)
    requires Shape(s) && Phases(s.pc, s.flushStarted) && Enabled(s, a) && s.flushStarted
    requires s.pc.Finalizing? ==> !s.hasError
    requires !s.pc.Idle? && Step(s, a).pc.Idle?
    ensures Raises(s, a) <==> s.hasError
  {
    hide Shape, CanWrite, CanFlush, CanFinish, CanThread, DoWrite, DoFlush, DoFinish, DoThread;
    match a
    case Write(w) => WriteToIdle(s, w);
    case Flush(f) => FlushToIdle(s, f);
    case Finish(f) => FinishToIdle(s, f);
    case Thread(k, t) => ThreadWakes(s, k, t);
  }

  /** A call of Write without a failed upload ends with an exception exactly if it is not in sequence. */
  lemma {:induction false} WriteEnds(s: State, a: Action, sequential: bool)
    requires Shape(s) && Phases(s.pc, s.flushStarted) && Enabled(s, a) && !s.flushStarted && !s.hasError
    requires InSequence(s.pc, s.offset) && Tracks(s.pc, s.offset, sequential)
    requires !s.pc.Idle? && Step(s, a).pc.Idle?
    ensures Raises(s, a) <==> !sequential
    ensures Raises(s, a) ==> s.pc.Writing? && s.pc.done == 0
  {
    hide Shape, CanWrite, CanFlush, CanFinish, CanThread, DoWrite, DoFlush, DoFinish, DoThread;
    match a
    case Write(w) => WriteToIdle(s, w);
    case Flush(f) => FlushToIdle(s, f);
    case Finish(f) => FinishToIdle(s, f);
    case Thread(k, t) => ThreadWakes(s, k, t);
  }

  /** Parts handed to threads, counting the one for which FlushBuffer has seen no error. */
  function Committed(s: State): nat { |s.taken| + if s.pc.Checked? then 1 else 0 }

  lemma {:induction false} WriteCommits(s: State, a: WriteAction)
    requires Shape(s) && CanWrite(s, a)
    ensures Committed(DoWrite(s, a)) <= Committed(s)
  {
    hide PartIndex, Start, Copied, BuffersFit, ActiveFit, ControlFits;
  }

  lemma {:induction false} FlushCommits(s: State, a: FlushAction)
    requires Shape(s) && CanFlush(s, a) && s.hasError
    ensures Committed(DoFlush(s, a)) <= Committed(s)
  {
    hide PartIndex, Start, Copied, BuffersFit, ActiveFit, ControlFits;
    if a.FlushErase? { assert |s.taken + {s.pc.part}| <= |s.taken| + 1; }
  }

  lemma {:induction false} FinishCommits(s: State, a: FinishAction)
    requires Shape(s) && CanFinish(s, a)
    ensures Committed(DoFinish(s, a)) <= Committed(s)
  {
    hide Shape, CanFinish, DoFinish;
    FinishStays(s, a);
    FinishMoves(s, a);
  }

  lemma {:induction false} ThreadCommits(s: State, k: nat, a: ThreadAction)
    requires Shape(s) && CanThread(s, k, a)
    ensures Committed(DoThread(s, k, a)) <= Committed(s)
  {
    hide Shape, CanThread, DoThread;
    ThreadWakes(s, k, a);
  }

  lemma {:induction false} StepCommits(s: State, a: Action)
    requires Shape(s) && Enabled(s, a) && s.hasError
    ensures Committed(Step(s, a)) <= Committed(s)
  {
    hide Shape, CanWrite, CanFlush, CanFinish, CanThread, DoWrite, DoFlush, DoFinish, DoThread, Committed;
    match a
    case Write(w) => WriteCommits(s, w);
    case Flush(f) => FlushCommits(s, f);
    case Finish(f) => FinishCommits(s, f);
    case Thread(k, t) => ThreadCommits(s, k, t);
  }
}
