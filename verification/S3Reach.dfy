/** Runs of the upload protocol that lead to the states at the edge of what it promises. */
module S3Reach {
  import opened Basics
  import opened S3Upload
  import opened S3Invariants
  import opened S3Runs

  /** Some run ends in the state. */
  ghost predicate Reachable(cfg: Config, s: State) {
    exists trace, acts :: IsRun(cfg, trace, acts) && trace[|trace| - 1] == s
  }

  lemma {:induction false} ReachInit(cfg: Config)
    requires cfg.partSize > 0
    ensures Reachable(cfg, Init(cfg))
  {
    hide Init;
    assert IsRun(cfg, [Init(cfg)], []);
  }

  lemma {:induction false} ReachRun(cfg: Config, s: State) returns (trace: seq<State>, acts: seq<Action>)
    requires Reachable(cfg, s)
    ensures IsRun(cfg, trace, acts) && |trace| == |acts| + 1 && trace[|acts|] == s
  {
    hide Shape, Enabled, Step;
    trace, acts :| IsRun(cfg, trace, acts) && trace[|trace| - 1] == s;
  }

  lemma {:induction false} ReachInv(cfg: Config, s: State)
    requires Reachable(cfg, s)
    ensures Inv(s) && s.cfg == cfg
  {
    hide *;
    var trace, acts := ReachRun(cfg, s);
    RunInv(cfg, trace, acts, |acts|);
  }

  lemma {:induction false} ReachStep(cfg: Config, s: State, a: Action, s': State)
    requires Reachable(cfg, s) && Shape(s) && Enabled(s, a) && s' == Step(s, a)
    ensures Reachable(cfg, s')
  {
    hide Shape, Enabled, Step;
    var trace, acts :| IsRun(cfg, trace, acts) && trace[|trace| - 1] == s;
    var trace', acts' := trace + [s'], acts + [a];
    forall i | 0 <= i < |acts'|
      ensures Shape(trace'[i]) && Enabled(trace'[i], acts'[i]) && trace'[i + 1] == Step(trace'[i], acts'[i])
    {
      if i < |acts| { assert trace'[i] == trace[i] && trace'[i + 1] == trace[i + 1] && acts'[i] == acts[i]; }
    }
    assert trace'[0] == trace[0] && trace'[|trace'| - 1] == s';
    assert IsRun(cfg, trace', acts');
  }

  lemma InvShape(s: State)
    requires Inv(s)
    ensures Shape(s)
  {
  }

  lemma {:induction false} ReachShape(cfg: Config, s: State)
    requires Reachable(cfg, s)
    ensures Shape(s)
  {
    hide Reachable, Shape;
    ReachInv(cfg, s);
    InvShape(s);
  }

  // ---------------------------------------------------------------- the first part of a file

  /** A full part. */
  function FullBuffer(k: nat, bytes: seq<Byte>, uploading: bool): Buffer { Buffer(k, bytes, |bytes|, uploading) }

  /** One call writes one part or two. */
  predicate OneOrTwo(cfg: Config, data: seq<Byte>) { 0 < cfg.partSize <= |data| <= 2 * cfg.partSize }

  function First(cfg: Config, data: seq<Byte>): seq<Byte>
    requires OneOrTwo(cfg, data)
  {
    data[..cfg.partSize]
  }

  function From(cfg: Config, data: seq<Byte>): Caller { FromWrite(data, 0, 0, cfg.partSize) }

  function Called(cfg: Config, data: seq<Byte>): State { Init(cfg).(pc := Writing(data, 0, 0)) }

  function Entered(cfg: Config, data: seq<Byte>): State
    requires OneOrTwo(cfg, data)
  {
    Init(cfg).(pc := Entering(0, From(cfg, data)), written := First(cfg, data),
               buffers := map[0 := FullBuffer(0, First(cfg, data), false)])
  }

  function HasClaimed(cfg: Config, data: seq<Byte>): State
    requires OneOrTwo(cfg, data)
  {
    Init(cfg).(pc := Claimed(0, From(cfg, data)), written := First(cfg, data),
               buffers := map[0 := FullBuffer(0, First(cfg, data), true)])
  }

  function HasErased(cfg: Config, data: seq<Byte>): State
    requires OneOrTwo(cfg, data)
  {
    Init(cfg).(pc := SlotCheck(FullBuffer(0, First(cfg, data), true), From(cfg, data)),
               written := First(cfg, data), taken := {0})
  }

  lemma {:induction false} ReachCalled(cfg: Config, data: seq<Byte>)
    requires OneOrTwo(cfg, data)
    ensures Reachable(cfg, Called(cfg, data))
  {
    hide Reachable, Shape;
    ReachInit(cfg);
    ReachShape(cfg, Init(cfg));
    ReachStep(cfg, Init(cfg), Write(CallWrite(data, 0)), Called(cfg, data));
  }

  lemma {:induction false} FirstCopied(cfg: Config, data: seq<Byte>)
    requires OneOrTwo(cfg, data)
    ensures var s := Called(cfg, data);
      AtChunk(s) && Under(s) == 0 && Chunk(s) == cfg.partSize && Copied(s) == FullBuffer(0, First(cfg, data), false)
  {
    var s := Called(cfg, data);
    assert Under(s) == 0 && Filled(s) == 0;
    var mem := BufferAt(s, 0).mem;
    assert mem[..0] + First(cfg, data) + mem[cfg.partSize..] == First(cfg, data);
  }

  lemma {:induction false} ReachEntered(cfg: Config, data: seq<Byte>)
    requires OneOrTwo(cfg, data)
    ensures Reachable(cfg, Entered(cfg, data))
  {
    hide Reachable, Shape, AtChunk, Under, Chunk, Copied;
    var s := Called(cfg, data);
    ReachCalled(cfg, data);
    ReachShape(cfg, s);
    FirstCopied(cfg, data);
    assert [] + First(cfg, data) == First(cfg, data);
    ReachStep(cfg, s, Write(WriteFill), Entered(cfg, data));
  }

  lemma {:induction false} ReachClaimed(cfg: Config, data: seq<Byte>)
    requires OneOrTwo(cfg, data)
    ensures Reachable(cfg, HasClaimed(cfg, data))
  {
    hide Reachable, Shape;
    ReachEntered(cfg, data);
    ReachShape(cfg, Entered(cfg, data));
    ReachStep(cfg, Entered(cfg, data), Flush(FlushClaim), HasClaimed(cfg, data));
  }

  lemma {:induction false} ReachErased(cfg: Config, data: seq<Byte>)
    requires OneOrTwo(cfg, data)
    ensures Reachable(cfg, HasErased(cfg, data))
  {
    hide Reachable, Shape;
    var s := HasClaimed(cfg, data).(pc := Checked(0, From(cfg, data)));
    ReachClaimed(cfg, data);
    ReachShape(cfg, HasClaimed(cfg, data));
    ReachStep(cfg, HasClaimed(cfg, data), Flush(FlushCheck), s);
    ReachShape(cfg, s);
    assert s.buffers - {0} == map[] && s.taken + {0} == {0};
    ReachStep(cfg, s, Flush(FlushErase), HasErased(cfg, data));
  }

  // ---------------------------------------------------------------- no thread allowed

  /** With no thread allowed the first full part puts the writer to sleep. */
  lemma {:induction false} ReachAsleep(cfg: Config) returns (s: State)
    requires cfg.partSize > 0 && cfg.maxThreads == 0
    ensures Reachable(cfg, s) && s.pc.SlotAsleep?
  {
    hide Reachable, Shape;
    var data := seq(cfg.partSize, _ => 0 as Byte);
    var before := HasErased(cfg, data);
    s := before.(pc := SlotAsleep(before.pc.buf, before.pc.from));
    ReachErased(cfg, data);
    ReachShape(cfg, before);
    ReachStep(cfg, before, Flush(SlotWait), s);
  }

  /** Inside a call, a step that is no spurious wake-up can be taken. */
  ghost predicate Moves(s: State) {
    Shape(s) && (s.pc.Idle? || exists a :: Enabled(s, a) && !Spurious(a))
  }

  lemma {:induction false} ReachMoves(cfg: Config, s: State)
    requires cfg.maxThreads > 0 && Reachable(cfg, s)
    ensures Moves(s)
  {
    hide Reachable, IsRun, Shape, Enabled, Spurious;
    ReachShape(cfg, s);
    if !s.pc.Idle? {
      var trace, acts := ReachRun(cfg, s);
      var a := NoDeadlock(cfg, trace, acts, |acts|);
    }
  }

  lemma {:induction false} AsleepStuck(cfg: Config, s: State)
    requires cfg.maxThreads == 0 && Reachable(cfg, s) && s.pc.SlotAsleep?
    ensures !Moves(s)
  {
    hide Reachable, IsRun, Shape, Enabled, Spurious;
    var trace, acts := ReachRun(cfg, s);
    if Shape(s) {
      forall a | Enabled(s, a) ensures Spurious(a) { NoThreadsDeadlock(cfg, trace, acts, |acts|, a); }
    }
  }

  /** No run gets stuck inside a call exactly if at least one upload thread is allowed. */
  lemma {:induction false} DeadlockFree(cfg: Config)
    requires cfg.partSize > 0
    ensures (forall s :: Reachable(cfg, s) ==> Moves(s)) <==> cfg.maxThreads > 0
  {
    hide Reachable, Shape, Enabled, Spurious;
    if cfg.maxThreads > 0 {
      forall s | Reachable(cfg, s) ensures Moves(s) { ReachMoves(cfg, s); }
    } else {
      var s := ReachAsleep(cfg);
      AsleepStuck(cfg, s);
    }
  }

  // ---------------------------------------------------------------- one part in flight

  /** The first part is being uploaded, and the writer is back in its loop. */
  function InFlight(cfg: Config, data: seq<Byte>): State
    requires OneOrTwo(cfg, data)
  {
    Init(cfg).(pc := Writing(data, 0, cfg.partSize), offset := cfg.partSize, written := First(cfg, data), taken := {0},
               inProgress := 1, active := map[0 := Upload(FullBuffer(0, First(cfg, data), true), Putting)])
  }

  lemma {:induction false} ReachInFlight(cfg: Config, data: seq<Byte>)
    requires OneOrTwo(cfg, data) && cfg.maxThreads > 0
    ensures Reachable(cfg, InFlight(cfg, data))
  {
    hide Reachable, Shape;
    var s0, buf, from := HasErased(cfg, data), FullBuffer(0, First(cfg, data), true), From(cfg, data);
    var s1 := s0.(inProgress := 1, pc := Spawning(buf, from));
    var s2 := s1.(active := map[0 := Upload(buf, Putting)], pc := Returned(from));
    ReachErased(cfg, data);
    ReachShape(cfg, s0);
    ReachStep(cfg, s0, Flush(SlotTake), s1);
    ReachShape(cfg, s1);
    ReachStep(cfg, s1, Flush(Spawn), s2);
    ReachShape(cfg, s2);
    ReachStep(cfg, s2, Flush(ReturnToWrite), InFlight(cfg, data));
  }

  // ---------------------------------------------------------------- rethrowing an exception

  /** The writer rethrows the upload error, but none is stored yet. */
  predicate RethrowsNull(s: State) { (s.pc.Claimed? || s.pc.Drained?) && s.hasError && !s.stored }

  lemma {:induction false} InvErrors(s: State)
    requires Inv(s)
    ensures s.hasError && !s.stored <==> exists k :: k in s.active && s.active[k].stage.Flagged?
    ensures s.pc.Drained? ==> s.active == map[]
  {
    hide Shape, Positions, Data, Slots, Wakeups, Places, Counters, Signals, Narrow;
  }

  /** That happens only in FlushBuffer, and exactly while the thread that set the flag has not stored its exception. */
  lemma {:induction false} NullIsFlagged(cfg: Config, s: State)
    requires Reachable(cfg, s)
    ensures RethrowsNull(s) <==> s.pc.Claimed? && exists k :: k in s.active && s.active[k].stage.Flagged?
  {
    hide Reachable;
    ReachInv(cfg, s);
    InvErrors(s);
  }

  /** The thread of the first part has set the error flag. */
  function HasFlagged(cfg: Config, data: seq<Byte>): State
    requires OneOrTwo(cfg, data)
  {
    InFlight(cfg, data).(hasError := true, active := map[0 := Upload(FullBuffer(0, First(cfg, data), true), Flagged)])
  }

  lemma {:induction false} SecondCopied(cfg: Config, data: seq<Byte>)
    requires OneOrTwo(cfg, data) && |data| == 2 * cfg.partSize
    ensures var s := HasFlagged(cfg, data);
      AtChunk(s) && Under(s) == 1 && Chunk(s) == cfg.partSize && Copied(s) == FullBuffer(1, data[cfg.partSize..], false)
  {
    var s, ps := HasFlagged(cfg, data), cfg.partSize;
    assert PartIndex(ps, 0) == 0 && PartIndex(ps, ps) == 1 && Start(ps, 1) == ps;
    assert Under(s) == 1 && Filled(s) == 0;
    var mem := BufferAt(s, 1).mem;
    assert data[ps..ps + ps] == data[ps..];
    assert mem[..0] + data[ps..] + mem[ps..] == data[ps..];
  }

  /** A file of two parts, the first of which fails while the second is flushed. */
  lemma {:induction false} ReachNull(cfg: Config) returns (s: State)
    requires cfg.partSize > 0 && cfg.maxThreads > 0
    ensures Reachable(cfg, s) && RethrowsNull(s)
  {
    hide Reachable, Shape, AtChunk, Under, Chunk, Copied;
    var ps := cfg.partSize;
    var data := seq(2 * ps, _ => 0 as Byte);
    var s0, s1 := InFlight(cfg, data), HasFlagged(cfg, data);
    ReachInFlight(cfg, data);
    ReachShape(cfg, s0);
    ReachStep(cfg, s0, Thread(0, PutFail), s1);
    ReachShape(cfg, s1);
    SecondCopied(cfg, data);
    var from := FromWrite(data, 0, ps, ps);
    var s2 := s1.(pc := Entering(1, from), written := data, buffers := map[1 := FullBuffer(1, data[ps..], false)]);
    assert data[ps..ps + ps] == data[ps..] && First(cfg, data) + data[ps..] == data;
    ReachStep(cfg, s1, Write(WriteFill), s2);
    ReachShape(cfg, s2);
    s := s2.(pc := Claimed(1, from), buffers := map[1 := FullBuffer(1, data[ps..], true)]);
    ReachStep(cfg, s2, Flush(FlushClaim), s);
  }

  // ---------------------------------------------------------------- a thread after Close

  /** Once the request is sent, all that threads do is to signal. */
  lemma {:induction false} OnlySignals(s: State, k: nat, a: ThreadAction)
    requires Inv(s) && s.finalized && CanThread(s, k, a)
    ensures DoThread(s, k, a) == s.(signalling := DoThread(s, k, a).signalling)
  {
    hide Positions, Data, Slots, Wakeups, Places, Counters, Signals, Narrow, Errors, Complete, ControlFits, BuffersFit;
  }

  /** The upload of a file of one part is counted, and its thread has given its slot back while the writer drains. */
  function Released(cfg: Config, data: seq<Byte>): State
    requires OneOrTwo(cfg, data)
  {
    Init(cfg).(pc := DrainCheck(false), offset := cfg.partSize, written := data, taken := {0}, flushStarted := true,
               etags := map[0 := data], partsUploaded := 1, counted := {0}, puts := multiset{0},
               signalling := map[0 := SlotSignal])
  }

  /** The writer has called Close and waits for the thread. */
  function Closing(cfg: Config, data: seq<Byte>, stage: Stage): State
    requires OneOrTwo(cfg, data)
  {
    InFlight(cfg, data).(pc := DrainCheck(false), flushStarted := true,
                         active := map[0 := Upload(FullBuffer(0, First(cfg, data), true), stage)])
  }

  lemma {:induction false} ReachClosing(cfg: Config, data: seq<Byte>)
    requires OneOrTwo(cfg, data) && |data| == cfg.partSize && cfg.maxThreads > 0
    ensures Reachable(cfg, Closing(cfg, data, Putting))
  {
    hide Reachable, Shape;
    var s0 := InFlight(cfg, data);
    var s1, s2 := s0.(pc := Idle), s0.(pc := FlushingAll({}, false), flushStarted := true);
    ReachInFlight(cfg, data);
    ReachShape(cfg, s0);
    ReachStep(cfg, s0, Write(WriteEnd), s1);
    ReachShape(cfg, s1);
    assert s1.buffers.Keys == {};
    ReachStep(cfg, s1, Finish(CallFlush(false)), s2);
    ReachShape(cfg, s2);
    ReachStep(cfg, s2, Finish(FlushLast), Closing(cfg, data, Putting));
  }

  lemma {:induction false} ReachReleased(cfg: Config, data: seq<Byte>)
    requires OneOrTwo(cfg, data) && |data| == cfg.partSize && cfg.maxThreads > 0
    ensures Reachable(cfg, Released(cfg, data))
  {
    hide Reachable, Shape;
    var s0 := Closing(cfg, data, Putting);
    assert First(cfg, data) == data == data[..|data|];
    var s1 := Closing(cfg, data, Tagged).(etags := map[0 := data], puts := multiset{0});
    var s2 := Closing(cfg, data, Counted).(etags := map[0 := data], puts := multiset{0}, partsUploaded := 1,
                                           counted := {0});
    ReachClosing(cfg, data);
    ReachShape(cfg, s0);
    ReachStep(cfg, s0, Thread(0, PutOk), s1);
    ReachShape(cfg, s1);
    ReachStep(cfg, s1, Thread(0, CountPart), s2);
    ReachShape(cfg, s2);
    assert s2.active - {0} == map[];
    ReachStep(cfg, s2, Thread(0, Release), Released(cfg, data));
  }

  /** Close can return while a thread that has given its slot back still has to signal on the handle's conditions. */
  lemma {:induction false} SignalAfterClose(cfg: Config) returns (s: State)
    requires cfg.partSize > 0 && cfg.maxThreads > 0
    ensures Reachable(cfg, s) && s.pc.Idle? && s.finalized && s.signalling == map[0 := SlotSignal]
  {
    hide Reachable, Shape, Request;
    var data := seq(cfg.partSize, _ => 0 as Byte);
    var s0 := Released(cfg, data);
    var s1, s2 := s0.(pc := Drained(false)), s0.(pc := Finalizing);
    ReachReleased(cfg, data);
    ReachShape(cfg, s0);
    ReachStep(cfg, s0, Finish(DrainPass), s1);
    ReachShape(cfg, s1);
    ReachStep(cfg, s1, Finish(FinalPass), s2);
    ReachShape(cfg, s2);
    s := s2.(finalized := true, pc := Idle, completions := s2.completions + Request(s2));
    ReachStep(cfg, s2, Finish(Finalize), s);
  }
}
