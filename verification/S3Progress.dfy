/** Every call on the upload handle ends: all steps but calls and spurious wake-ups use up work. */
module S3Progress {
  import opened S3Upload
  import opened S3Invariants
  import opened S3Runs

  function Missing(n: nat, done: nat): nat { if done <= n then n - done else 0 }

  /** What is left to do when FlushBuffer returns. */
  function CallerWork(from: Caller): nat {
    match from
    case FromWrite(data, _, done, chunk) => 100 * Missing(|data|, done + chunk) + 50
    case FromFlushAll(pending, _) => 100 * |pending| + 50
  }

  /** What is left to do for the writer, until its call returns, at most. */
  function WriterWork(pc: Writer): nat {
    match pc
    case Idle => 0
    case Writing(data, _, done) => 100 * Missing(|data|, done) + 50
    case Entering(_, from) => CallerWork(from) + 40
    case Claimed(_, from) => CallerWork(from) + 39
    case Checked(_, from) => CallerWork(from) + 38
    case SlotCheck(_, from) => CallerWork(from) + 37
    case SlotAsleep(_, from) => CallerWork(from) + 36
    case Spawning(_, from) => CallerWork(from) + 35
    case Returned(from) => CallerWork(from) + 1
    case FlushingAll(pending, _) => 100 * |pending| + 50
    case DrainCheck(_) => 40
    case DrainAsleep(_) => 39
    case Drained(_) => 30
    case Finalizing => 20
  }

  /** A thread that steps may wake the writer, so its steps weigh twice. */
  function Work(s: State): nat { WriterWork(s.pc) + 2 * ThreadWork(s) }

  predicate IsCall(a: Action) { (a.Write? && a.write.CallWrite?) || (a.Finish? && a.finish.CallFlush?) }

  // ---------------------------------------------------------------- each step

  lemma {:induction false} WriteWorks(s: State, a: WriteAction)
    requires Shape(s) && CanWrite(s, a) && !a.CallWrite?
    ensures WriterWork(DoWrite(s, a).pc) < WriterWork(s.pc)
    ensures DoWrite(s, a).active == s.active && DoWrite(s, a).signalling == s.signalling
  {
    hide Copied, PartIndex, Start, ControlFits, BuffersFit, ActiveFit;
  }

  lemma Returning(from: Caller)
    ensures from.FromWrite? ==> CallerWork(from) == 100 * Missing(|from.data|, from.done + from.chunk) + 50
    ensures from.FromFlushAll? ==> CallerWork(from) == 100 * |from.pending| + 50
  {
  }

  lemma {:induction false} FlushWorks(s: State, a: FlushAction)
    requires Shape(s) && CanFlush(s, a) && !a.SlotWake?
    ensures WriterWork(DoFlush(s, a).pc) + (if a.Spawn? then 34 else 1) <= WriterWork(s.pc)
  {
    hide Copied, PartIndex, Start, ControlFits, BuffersFit, ActiveFit, CallerWork;
    if a.ReturnToWrite? || a.ReturnToFlush? { Returning(s.pc.from); }
  }

  lemma {:induction false} FlushKeepsThreads(s: State, a: FlushAction)
    requires Shape(s) && CanFlush(s, a) && !a.Spawn?
    ensures var s' := DoFlush(s, a);
      s' == s.(pc := s'.pc, offset := s'.offset, buffers := s'.buffers, inProgress := s'.inProgress, taken := s'.taken)
  {
    hide Copied, PartIndex, Start, ControlFits, BuffersFit, ActiveFit;
  }

  lemma {:induction false} SpawnAdds(s: State)
    requires Shape(s) && CanFlush(s, Spawn)
    ensures DoFlush(s, Spawn)
         == s.(active := s.active[s.pc.buf.partNo := Upload(s.pc.buf, Putting)], pc := Returned(s.pc.from))
  {
    hide Copied, PartIndex, Start, ControlFits, BuffersFit, ActiveFit;
  }

  lemma {:induction false} SpawnWorks(active: map<nat, Upload>, buf: Buffer)
    requires buf.partNo !in active
    ensures StageWork(active[buf.partNo := Upload(buf, Putting)]) == StageWork(active) + 5
  {
    hide StageWork;
    var more := active[buf.partNo := Upload(buf, Putting)];
    StageWorkWithout(more, buf.partNo);
    assert more - {buf.partNo} == active;
  }

  lemma OneLess(pending: set<nat>, k: nat)
    requires k in pending
    ensures |pending - {k}| + 1 == |pending|
  {
  }

  lemma {:induction false} PendingWorks(pending: set<nat>, sync: bool, k: nat)
    requires k in pending
    ensures WriterWork(Entering(k, FromFlushAll(pending - {k}, sync))) < WriterWork(FlushingAll(pending, sync))
    ensures WriterWork(FlushingAll(pending - {k}, sync)) < WriterWork(FlushingAll(pending, sync))
  {
    OneLess(pending, k);
  }

  lemma DrainWorks(pending: set<nat>, sync: bool)
    ensures WriterWork(FlushingAll(pending, sync)) >= 50 && WriterWork(DrainCheck(sync)) == 40
    ensures WriterWork(DrainAsleep(sync)) == 39 && WriterWork(Drained(sync)) == 30
    ensures WriterWork(Finalizing) == 20 && WriterWork(Idle) == 0
  {
  }

  lemma {:induction false} FinishWorks(s: State, a: FinishAction)
    requires Shape(s) && CanFinish(s, a) && !a.CallFlush? && !a.DrainWake?
    ensures WriterWork(DoFinish(s, a).pc) < WriterWork(s.pc)
  {
    hide Copied, PartIndex, Start, BuffersFit, ActiveFit, ControlFits, Request, WriterWork;
    if a.FlushNext? || a.FlushPass? {
      PendingWorks(s.pc.pending, s.pc.sync, a.k);
    } else {
      DrainWorks({}, true);
      DrainWorks({}, false);
    }
  }

  lemma {:induction false} WokenWorks(pc: Writer, pc': Writer)
    requires Woken(pc, pc')
    ensures WriterWork(pc') <= WriterWork(pc) + 1
  {
  }

  lemma InvParts(s: State)
    requires Inv(s)
    ensures Shape(s) && s.signalling.Keys !! s.active.Keys
  {
  }

  lemma SpawnFits(s: State)
    requires Inv(s) && CanFlush(s, Spawn)
    ensures s.pc.Spawning? && s.pc.buf.partNo !in s.active
  {
  }

  lemma SlotWakeWorks(s: State)
    requires Shape(s) && CanFlush(s, SlotWake)
    ensures WriterWork(DoFlush(s, SlotWake).pc) == WriterWork(s.pc) + 1
  {
  }

  lemma DrainWakeWorks(s: State)
    requires Shape(s) && CanFinish(s, DrainWake)
    ensures WriterWork(DoFinish(s, DrainWake).pc) == WriterWork(s.pc) + 1
  {
  }

  lemma {:induction false} WriteStep(s: State, w: WriteAction)
    requires Shape(s) && CanWrite(s, w) && !w.CallWrite?
    ensures Work(DoWrite(s, w)) + 1 <= Work(s)
  {
    hide Shape, CanWrite, DoWrite, WriterWork, StageWork, SignalWork;
    WriteWorks(s, w);
  }

  lemma {:induction false} FlushStep(s: State, f: FlushAction)
    requires Shape(s) && CanFlush(s, f) && !f.Spawn?
    ensures if f.SlotWake? then Work(DoFlush(s, f)) <= Work(s) + 1 else Work(DoFlush(s, f)) + 1 <= Work(s)
  {
    hide Shape, CanFlush, DoFlush, WriterWork, StageWork, SignalWork;
    FlushKeepsThreads(s, f);
    if f.SlotWake? { SlotWakeWorks(s); } else { FlushWorks(s, f); }
  }

  lemma {:induction false} SpawnStep(s: State)
    requires Inv(s) && Shape(s) && CanFlush(s, Spawn)
    ensures Work(DoFlush(s, Spawn)) + 1 <= Work(s)
  {
    hide Inv, Shape, CanFlush, DoFlush, WriterWork, StageWork, SignalWork;
    SpawnFits(s);
    SpawnAdds(s);
    SpawnWorks(s.active, s.pc.buf);
    FlushWorks(s, Spawn);
  }

  lemma {:induction false} FinishStep(s: State, f: FinishAction)
    requires Shape(s) && CanFinish(s, f) && !f.CallFlush?
    ensures if f.DrainWake? then Work(DoFinish(s, f)) <= Work(s) + 1 else Work(DoFinish(s, f)) + 1 <= Work(s)
  {
    hide Shape, CanFinish, DoFinish, WriterWork, StageWork, SignalWork;
    FinishStays(s, f);
    if f.DrainWake? { DrainWakeWorks(s); } else { FinishWorks(s, f); }
  }

  lemma {:induction false} ThreadStep(s: State, k: nat, t: ThreadAction)
    requires Shape(s) && s.signalling.Keys !! s.active.Keys && CanThread(s, k, t)
    ensures Work(DoThread(s, k, t)) + 1 <= Work(s)
  {
    hide Shape, CanThread, DoThread, WriterWork, ThreadWork;
    ThreadStepsRunOut(s, k, t);
    ThreadWakes(s, k, t);
    WokenWorks(s.pc, DoThread(s, k, t).pc);
  }

  /** Every step but a call or a spurious wake-up uses up work, and a spurious wake-up gives back one unit. */
  lemma {:induction false} StepWorks(s: State, a: Action)
    requires Inv(s) && Shape(s) && Enabled(s, a) && !IsCall(a)
    ensures Work(Step(s, a)) + (if Spurious(a) then 0 else 1) <= Work(s) + (if Spurious(a) then 1 else 0)
  {
    hide Inv, Shape, Work, CanWrite, CanFlush, CanFinish, CanThread, DoWrite, DoFlush, DoFinish, DoThread;
    InvParts(s);
    match a
    case Write(w) => WriteStep(s, w);
    case Flush(f) => if f.Spawn? { SpawnStep(s); } else { FlushStep(s, f); }
    case Finish(f) => FinishStep(s, f);
    case Thread(k, t) => ThreadStep(s, k, t);
  }

  // ---------------------------------------------------------------- runs

  function SpuriousCount(acts: seq<Action>): nat {
    if acts == [] then 0 else SpuriousCount(acts[..|acts| - 1]) + if Spurious(acts[|acts| - 1]) then 1 else 0
  }

  lemma RunSizes(cfg: Config, trace: seq<State>, acts: seq<Action>)
    requires IsRun(cfg, trace, acts)
    ensures |trace| == |acts| + 1
  {
  }

  lemma {:induction false} RunSteps(cfg: Config, trace: seq<State>, acts: seq<Action>, n: nat)
    requires IsRun(cfg, trace, acts) && n < |acts|
    ensures |trace| == |acts| + 1 && Shape(trace[n]) && Enabled(trace[n], acts[n])
    ensures trace[n + 1] == Step(trace[n], acts[n])
  {
    hide Shape, Enabled, Step;
  }

  lemma {:induction false} SpuriousLast(acts: seq<Action>, i: nat, j: nat)
    requires i < j <= |acts|
    ensures SpuriousCount(acts[i..j]) == SpuriousCount(acts[i..j - 1]) + if Spurious(acts[j - 1]) then 1 else 0
  {
    hide Spurious;
    assert acts[i..j][..j - 1 - i] == acts[i..j - 1] && acts[i..j][j - 1 - i] == acts[j - 1];
  }

  lemma SpuriousNone()
    ensures SpuriousCount([]) == 0
  {
  }

  /**
    In every run, from any state on and as long as no new call is made, the steps that are no spurious
    wake-ups are at most the work left and the number of spurious wake-ups.
   */
  lemma {:induction false} CallsEnd(cfg: Config, trace: seq<State>, acts: seq<Action>, i: nat, j: nat)
    requires IsRun(cfg, trace, acts) && i <= j <= |acts| && forall n :: i <= n < j ==> !IsCall(acts[n])
    ensures |trace| == |acts| + 1
    ensures (j - i - SpuriousCount(acts[i..j])) + Work(trace[j]) <= Work(trace[i]) + SpuriousCount(acts[i..j])
    decreases j
  {
    hide *;
    RunSizes(cfg, trace, acts);
    if i < j {
      CallsEnd(cfg, trace, acts, i, j - 1);
      RunInv(cfg, trace, acts, j - 1);
      RunSteps(cfg, trace, acts, j - 1);
      StepWorks(trace[j - 1], acts[j - 1]);
      SpuriousLast(acts, i, j);
    } else {
      SpuriousNone();
      assert acts[i..j] == [];
    }
  }

  /** A call starts with work in proportion to what it is given, besides that of the threads. */
  lemma {:induction false} CallWork(s: State, a: Action)
    requires Shape(s) && Enabled(s, a) && IsCall(a)
    ensures a.Write? ==> Work(Step(s, a)) == 100 * |a.write.bytes| + 50 + 2 * ThreadWork(s)
    ensures a.Finish? ==> Work(Step(s, a)) == 100 * |s.buffers| + 50 + 2 * ThreadWork(s)
  {
    hide StageWork, SignalWork, ControlFits, BuffersFit, ActiveFit;
    assert |s.buffers.Keys| == |s.buffers|;
  }
}
