/** Whole runs of the upload protocol: what is true of every interleaving. */
module S3Runs {
  import opened Basics
  import opened S3Upload
  import opened S3Invariants
  import opened S3Calls

  /** A run from a fresh handle. By `RunInv` every state of it has its `Shape`, so that clause bars no run. */
  ghost predicate IsRun(cfg: Config, trace: seq<State>, acts: seq<Action>) {
    && cfg.partSize > 0
    && |trace| == |acts| + 1
    && trace[0] == Init(cfg)
    && forall i :: 0 <= i < |acts| ==>
         Shape(trace[i]) && Enabled(trace[i], acts[i]) && trace[i + 1] == Step(trace[i], acts[i])
  }

  /** What a step never takes back. */
  ghost predicate Forward(s: State, s': State) {
    && s'.cfg == s.cfg
    && (s.hasError ==> s'.hasError)
    && |s.completions| <= |s'.completions|
    && (s.active == map[] && s.signalling == map[] ==> s'.signalling == map[])
  }

  lemma {:induction false} WriteForward(s: State, a: WriteAction)
    requires Shape(s) && CanWrite(s, a)
    ensures Forward(s, DoWrite(s, a))
  {
  }

  lemma {:induction false} FlushForward(s: State, a: FlushAction)
    requires Shape(s) && CanFlush(s, a)
    ensures Forward(s, DoFlush(s, a))
  {
  }

  lemma {:induction false} FinishForward(s: State, a: FinishAction)
    requires Shape(s) && CanFinish(s, a)
    ensures Forward(s, DoFinish(s, a))
  {
  }

  lemma {:induction false} ThreadForward(s: State, k: nat, a: ThreadAction)
    requires Shape(s) && CanThread(s, k, a)
    ensures Forward(s, DoThread(s, k, a))
  {
  }

  lemma {:induction false} StepForward(s: State, a: Action)
    requires Shape(s) && Enabled(s, a)
    ensures Forward(s, Step(s, a))
  {
    match a
    case Write(w) => WriteForward(s, w);
    case Flush(f) => FlushForward(s, f);
    case Finish(f) => FinishForward(s, f);
    case Thread(k, t) => ThreadForward(s, k, t);
  }

  lemma {:induction false} RunInv(cfg: Config, trace: seq<State>, acts: seq<Action>, i: nat)
    requires IsRun(cfg, trace, acts) && i < |trace|
    ensures Inv(trace[i]) && trace[i].cfg == cfg
  {
    if i == 0 {
      InitInv(cfg);
    } else {
      RunInv(cfg, trace, acts, i - 1);
      StepKeeps(trace[i - 1], acts[i - 1]);
      StepForward(trace[i - 1], acts[i - 1]);
    }
  }

  lemma {:induction false} RunFaithful(cfg: Config, trace: seq<State>, acts: seq<Action>, i: nat)
    requires IsRun(cfg, trace, acts) && i < |trace|
    ensures Faithful(trace[i], acts[..i])
  {
    hide Inv, Shape, Enabled, Step, Faithful;
    if i == 0 {
      InitFaithful(cfg);
      assert acts[..0] == [];
    } else {
      RunFaithful(cfg, trace, acts, i - 1);
      RunInv(cfg, trace, acts, i - 1);
      StepFaithful(trace[i - 1], acts[..i - 1], acts[i - 1]);
      assert acts[..i] == acts[..i - 1] + [acts[i - 1]];
    }
  }

  /** Until an upload fails, the bytes copied are those given to Write, up to the ones that a running call still has. */
  lemma {:induction false} WrittenIsGiven(cfg: Config, trace: seq<State>, acts: seq<Action>, i: nat)
    requires IsRun(cfg, trace, acts) && i < |trace| && !trace[i].hasError
    ensures trace[i].written <= Given(acts[..i])
    ensures !trace[i].pc.Writing? && !InFlush(trace[i].pc) ==> trace[i].written == Given(acts[..i])
  {
    hide IsRun;
    RunFaithful(cfg, trace, acts, i);
  }

  lemma {:induction false} JoinParts(c: seq<seq<Byte>>, w: seq<Byte>, ps: nat)
    requires forall i :: 0 <= i < |c| ==> c[i] == Part(w, ps, i)
    ensures Join(c) == w[..Min(Start(ps, |c|), |w|)]
  {
    if c != [] {
      var n := |c| - 1;
      JoinParts(c[..n], w, ps);
      var lo, hi := Min(Start(ps, n), |w|), Min(Start(ps, n + 1), |w|);
      assert w[..lo] + w[lo..hi] == w[..hi];
    }
  }

  lemma JoinComplete(c: seq<seq<Byte>>, w: seq<Byte>, ps: nat)
    requires Complete(c, w, ps)
    ensures Join(c) == w
  {
    JoinParts(c, w, ps);
    assert !(Start(ps, |c|) < |w|);
    assert w[..|w|] == w;
  }

  /** What the invariant says of a handle whose completion request is sent. */
  lemma {:induction false} CompletedIs(s: State)
    requires Inv(s)
    ensures |s.completions| <= 1
    ensures s.completions != [] ==>
      && s.pc.Idle? && !s.hasError && Complete(s.completions[0], s.written, s.cfg.partSize)
      && (forall k: nat :: s.puts[k] == if k < |s.completions[0]| then 1 else 0)
  {
  }

  /**
    Whatever the interleaving, at most one completion request is sent; its parts, joined in order,
    are the bytes given to Write, and each of its parts was uploaded once and no other was.
   */
  lemma {:induction false} CompletedObjectIsFile(cfg: Config, trace: seq<State>, acts: seq<Action>, i: nat)
    requires IsRun(cfg, trace, acts) && i < |trace|
    ensures var s, given := trace[i], Given(acts[..i]);
            && |s.completions| <= 1
            && (s.completions != [] ==>
                  && Join(s.completions[0]) == given
                  && (forall k: nat :: k < |s.completions[0]| ==>
                        s.completions[0][k] == Part(given, cfg.partSize, k))
                  && (forall k: nat :: s.puts[k] == if k < |s.completions[0]| then 1 else 0))
  {
    hide IsRun, Inv, Part;
    RunInv(cfg, trace, acts, i);
    var s := trace[i];
    CompletedIs(s);
    if s.completions != [] {
      WrittenIsGiven(cfg, trace, acts, i);
      JoinComplete(s.completions[0], s.written, cfg.partSize);
    }
  }

  /**
    When the calls have returned and Close or FileSync was among them, the completion request has
    been sent exactly if no upload failed, and bytes were given or FileSync was called.
   */
  lemma {:induction false} FlushCompletes(cfg: Config, trace: seq<State>, acts: seq<Action>, i: nat)
    requires IsRun(cfg, trace, acts) && i < |trace| && trace[i].pc.Idle? && FlushCalled(acts[..i])
    ensures trace[i].completions != [] <==> !trace[i].hasError && (Given(acts[..i]) != [] || Synced(acts[..i]))
  {
    hide IsRun, Synced, Complete;
    RunInv(cfg, trace, acts, i);
    RunFaithful(cfg, trace, acts, i);
    if !trace[i].hasError { WrittenIsGiven(cfg, trace, acts, i); }
  }

  /** In how many of the four places part `k` is. */
  function PlaceCount(s: State, k: nat): nat {
    (if k in s.buffers then 1 else 0)
    + (if Holding(s.pc) && s.pc.buf.partNo == k then 1 else 0)
    + (if k in s.active && s.active[k].stage.Putting? then 1 else 0)
    + (if k in s.etags then 1 else 0)
  }

  lemma {:induction false} PartPlaced(s: State, k: nat)
    requires Inv(s) && !s.hasError
    ensures PlaceCount(s, k) == if Start(s.cfg.partSize, k) < |s.written| then 1 else 0
  {
    hide Shape, Positions, Final, Wakeups, Errors, Signals, Emptied, Counters, Holds, Part;
    assert k in s.taken || k !in s.taken;
  }

  lemma {:induction false} PartHeld(s: State, k: nat)
    requires Inv(s) && !s.hasError
    ensures k in s.buffers ==> Holds(s.buffers[k], s.written, s.cfg.partSize)
    ensures Holding(s.pc) && s.pc.buf.partNo == k ==> Holds(s.pc.buf, s.written, s.cfg.partSize)
    ensures k in s.active ==> Holds(s.active[k].buf, s.written, s.cfg.partSize)
    ensures k in s.etags ==> s.etags[k] == Part(s.written, s.cfg.partSize, k)
  {
    hide Shape, Positions, Final, Wakeups, Errors, Signals, Located, Emptied, Counters, Holds, Part;
  }

  /**
    Until an upload fails every part of the bytes written, which are those given to Write so far, is
    in exactly one place, with its bytes.
   */
  lemma {:induction false} EveryPartInOnePlace(cfg: Config, trace: seq<State>, acts: seq<Action>, i: nat, k: nat)
    requires IsRun(cfg, trace, acts) && i < |trace| && !trace[i].hasError
    ensures var s, part := trace[i], Part(trace[i].written, cfg.partSize, k);
            && s.written <= Given(acts[..i]) && (s.pc.Idle? ==> s.written == Given(acts[..i]))
            && PlaceCount(s, k) == (if Start(cfg.partSize, k) < |s.written| then 1 else 0)
            && (k in s.buffers ==> Holds(s.buffers[k], s.written, cfg.partSize))
            && (Holding(s.pc) && s.pc.buf.partNo == k ==> Holds(s.pc.buf, s.written, cfg.partSize))
            && (k in s.active ==> Holds(s.active[k].buf, s.written, cfg.partSize))
            && (k in s.etags ==> s.etags[k] == part)
  {
    hide IsRun, Inv, Given, PlaceCount, Holds, Part;
    RunInv(cfg, trace, acts, i);
    WrittenIsGiven(cfg, trace, acts, i);
    PartPlaced(trace[i], k);
    PartHeld(trace[i], k);
  }

  /** The slot counter is the number of slots out, and respects the limit, in every state of every run. */
  lemma {:induction false} SlotsAreCounted(cfg: Config, trace: seq<State>, acts: seq<Action>, i: nat)
    requires IsRun(cfg, trace, acts) && i < |trace|
    ensures trace[i].inProgress == |trace[i].active| + (if trace[i].pc.Spawning? then 1 else 0) <= cfg.maxThreads
  {
    RunInv(cfg, trace, acts, i);
  }

  lemma {:induction false} RunStep(cfg: Config, trace: seq<State>, acts: seq<Action>, i: nat)
    requires IsRun(cfg, trace, acts) && i < |acts|
    ensures Forward(trace[i], trace[i + 1])
  {
    StepForward(trace[i], acts[i]);
  }

  lemma {:induction false} RunForward(trace: seq<State>, i: nat, j: nat)
    requires i <= j < |trace| && forall n :: 0 <= n < |trace| - 1 ==> Forward(trace[n], trace[n + 1])
    ensures trace[i].hasError ==> trace[j].hasError
    ensures |trace[i].completions| <= |trace[j].completions|
    decreases j
  {
    if i < j {
      RunForward(trace, i, j - 1);
      assert Forward(trace[j - 1], trace[j - 1 + 1]);
    }
  }

  /** Once an upload has failed no completion request is sent, before or after, by any later call. */
  lemma {:induction false} FailureIsFinal(cfg: Config, trace: seq<State>, acts: seq<Action>, i: nat, j: nat)
    requires IsRun(cfg, trace, acts) && i < |trace| && j < |trace| && trace[i].hasError
    ensures trace[j].completions == []
  {
    forall n | 0 <= n < |trace| - 1 ensures Forward(trace[n], trace[n + 1]) { RunStep(cfg, trace, acts, n); }
    if i <= j { RunForward(trace, i, j); } else { RunForward(trace, j, i); }
    RunInv(cfg, trace, acts, if i <= j then j else i);
  }

  /** What the invariant and the calls say of a writer whose call ends. */
  lemma EndingIs(s: State, acts: seq<Action>)
    requires Inv(s) && Faithful(s, acts)
    ensures Shape(s) && Phases(s.pc, s.flushStarted) && (s.pc.Finalizing? ==> !s.hasError)
    ensures s.flushStarted == FlushCalled(acts) && s.hasError == PutFailed(acts)
    ensures InSequence(s.pc, s.offset) && (!s.hasError ==> Tracks(s.pc, s.offset, Sequential(acts)))
  {
  }

  /** Close and FileSync throw exactly if the PUT of some part has failed, during the call or before it. */
  lemma {:induction false} FailureIsReported(cfg: Config, trace: seq<State>, acts: seq<Action>, i: nat)
    requires IsRun(cfg, trace, acts) && i < |acts| && FlushCalled(acts[..i])
    requires !trace[i].pc.Idle? && trace[i + 1].pc.Idle?
    ensures Raises(trace[i], acts[i]) <==> PutFailed(acts[..i])
  {
    hide Inv, Shape, Enabled, Step, Faithful, Raises, PutFailed, FlushCalled;
    RunInv(cfg, trace, acts, i);
    RunFaithful(cfg, trace, acts, i);
    EndingIs(trace[i], acts[..i]);
    FlushEnds(trace[i], acts[i]);
  }

  /**
    While no PUT has failed a call of Write throws exactly if it has bytes and does not start where the
    bytes given before it end; it has then copied none of them.
   */
  lemma {:induction false} WriteIsSequential(cfg: Config, trace: seq<State>, acts: seq<Action>, i: nat)
    requires IsRun(cfg, trace, acts) && i < |acts| && !FlushCalled(acts[..i]) && !PutFailed(acts[..i])
    requires !trace[i].pc.Idle? && trace[i + 1].pc.Idle?
    ensures Raises(trace[i], acts[i]) <==> !Sequential(acts[..i])
    ensures Raises(trace[i], acts[i]) ==> trace[i].pc.Writing? && trace[i].pc.done == 0
  {
    hide Inv, Shape, Enabled, Step, Faithful, Raises, PutFailed, FlushCalled, Sequential;
    RunInv(cfg, trace, acts, i);
    RunFaithful(cfg, trace, acts, i);
    EndingIs(trace[i], acts[..i]);
    WriteEnds(trace[i], acts[i], Sequential(acts[..i]));
  }

  /** After a PUT has failed at most one more part is handed to a thread, one that FlushBuffer has already checked. */
  lemma {:induction false} FailureStopsUploads(cfg: Config, trace: seq<State>, acts: seq<Action>, i: nat, j: nat)
    requires IsRun(cfg, trace, acts) && i <= j < |trace| && trace[i].hasError
    ensures |trace[j].taken| <= |trace[i].taken| + if trace[i].pc.Checked? then 1 else 0
    ensures Committed(trace[j]) <= Committed(trace[i]) && trace[j].hasError
    decreases j
  {
    hide Shape, Enabled, Step;
    if i < j {
      FailureStopsUploads(cfg, trace, acts, i, j - 1);
      RunStep(cfg, trace, acts, j - 1);
      StepCommits(trace[j - 1], acts[j - 1]);
    }
  }

  lemma Subset(a: set<nat>, b: set<nat>)
    requires a <= b
    ensures |a| <= |b|
  {
    assert b == a + (b - a);
  }

  /** The 16-bit part numbers and counters never wrap. */
  lemma {:induction false} OutFits(active: map<nat, Upload>, extra: set<nat>)
    requires active.Keys !! extra && (forall k :: k in active || k in extra ==> k < MAX_PARTS)
    ensures |active| + |extra| <= MAX_PARTS
  {
    assert |active.Keys| == |active| && |active.Keys + extra| == |active.Keys| + |extra|;
    Subset(active.Keys + extra, Range(MAX_PARTS));
  }

  lemma {:induction false} NarrowCounters(s: State)
    requires Inv(s)
    ensures s.partsUploaded <= MAX_PARTS && s.inProgress <= MAX_PARTS
    ensures forall k :: k in s.buffers || k in s.taken ==> k < MAX_PARTS
  {
    hide Shape, Positions, Data, Final, Wakeups, Errors, Signals;
    Subset(s.counted, Range(MAX_PARTS));
    OutFits(s.active, if s.pc.Spawning? then {s.pc.buf.partNo} else {});
  }

  lemma {:induction false} CountersFit(cfg: Config, trace: seq<State>, acts: seq<Action>, i: nat)
    requires IsRun(cfg, trace, acts) && i < |trace|
    ensures var s := trace[i];
            && (forall k :: k in s.buffers || k in s.taken ==> k < MAX_PARTS)
            && s.partsUploaded <= MAX_PARTS && s.inProgress <= MAX_PARTS
  {
    hide IsRun;
    RunInv(cfg, trace, acts, i);
    NarrowCounters(trace[i]);
  }

  // ---------------------------------------------------------------- progress

  predicate Spurious(a: Action) { a == Flush(SlotWake) || a == Finish(DrainWake) }

  /** A thread somewhere can step while the writer sleeps. */
  lemma {:induction false} SleeperHasWork(s: State) returns (k: nat, a: ThreadAction)
    requires Inv(s) && s.cfg.maxThreads > 0 && (s.pc.SlotAsleep? || s.pc.DrainAsleep?)
    ensures CanThread(s, k, a)
  {
    if s.signalling != map[] {
      k :| k in s.signalling;
      a := if s.signalling[k].SlotSignal? then if s.pc.SlotAsleep? then NotifySlotWake else NotifySlot
           else if s.pc.DrainAsleep? then NotifyFlushWake else NotifyFlush;
    } else {
      assert s.active.Keys != {};
      k :| k in s.active;
      a := match s.active[k].stage
           case Putting => PutOk
           case Tagged => CountPart
           case Counted => Release
           case Flagged => StoreError
           case Failed => Release;
    }
  }

  /** The writer's own next step, when it is not asleep. */
  lemma {:induction false} WriterCanFlush(s: State) returns (a: FlushAction)
    requires Shape(s) && Positions(s) && InFlush(s.pc) && !s.pc.SlotAsleep?
    ensures CanFlush(s, a) && !a.SlotWake?
  {
    match s.pc
    case Entering(part, _) =>
      a := if s.buffers[part].idx == 0 || s.buffers[part].uploading then FlushSkip else FlushClaim;
    case Claimed(_, _) => a := if s.hasError then FlushThrow else FlushCheck;
    case Checked(_, _) => a := FlushErase;
    case SlotCheck(_, _) => a := if s.inProgress < s.cfg.maxThreads then SlotTake else SlotWait;
    case Spawning(_, _) => a := Spawn;
    case Returned(from) => a := if from.FromWrite? then ReturnToWrite else ReturnToFlush;
  }

  lemma {:induction false} WriterCanFinish(s: State) returns (a: FinishAction)
    requires Shape(s) && !InFlush(s.pc) && !s.pc.Writing? && !s.pc.Idle? && !s.pc.DrainAsleep?
    ensures CanFinish(s, a) && !a.DrainWake?
  {
    match s.pc
    case FlushingAll(pending, _) =>
      if pending == {} {
        a := FlushLast;
      } else {
        var k :| k in pending;
        a := if s.buffers[k].uploading then FlushPass(k) else FlushNext(k);
      }
    case DrainCheck(_) => a := if s.inProgress == 0 then DrainPass else DrainWait;
    case Drained(sync) => a := if s.hasError || (!sync && s.partsUploaded == 0) then FinalEnd else FinalPass;
    case Finalizing => a := Finalize;
  }

  lemma {:induction false} WriterCanWrite(s: State) returns (a: WriteAction)
    requires Shape(s) && s.pc.Writing?
    ensures CanWrite(s, a)
  {
    a := if s.pc.done >= |s.pc.data| || s.pc.location + s.pc.done != s.offset then WriteEnd
         else if Copied(s).idx < s.cfg.partSize then WriteCopy else WriteFill;
  }

  lemma {:induction false} SomeoneCanStep(s: State) returns (a: Action)
    requires Shape(s) && Positions(s) && !s.pc.Idle?
    requires s.pc.SlotAsleep? || s.pc.DrainAsleep? ==> exists k, t :: CanThread(s, k, t)
    ensures Enabled(s, a) && !Spurious(a)
  {
    if s.pc.SlotAsleep? || s.pc.DrainAsleep? {
      var k, t :| CanThread(s, k, t);
      a := Thread(k, t);
    } else if s.pc.Writing? {
      var w := WriterCanWrite(s);
      a := Write(w);
    } else if InFlush(s.pc) {
      var f := WriterCanFlush(s);
      a := Flush(f);
    } else {
      var f := WriterCanFinish(s);
      a := Finish(f);
    }
  }

  /** No run gets stuck inside a call: some step other than a spurious wake-up is always enabled. */
  lemma {:induction false} NoDeadlock(cfg: Config, trace: seq<State>, acts: seq<Action>, i: nat) returns (a: Action)
    requires IsRun(cfg, trace, acts) && i < |trace| && cfg.maxThreads > 0 && !trace[i].pc.Idle?
    ensures Shape(trace[i]) && Enabled(trace[i], a) && !Spurious(a)
  {
    RunInv(cfg, trace, acts, i);
    if trace[i].pc.SlotAsleep? || trace[i].pc.DrainAsleep? {
      var k, t := SleeperHasWork(trace[i]);
    }
    a := SomeoneCanStep(trace[i]);
  }

  function InStage(active: map<nat, Upload>, stage: Stage): set<nat> {
    set k | k in active && active[k].stage == stage
  }

  function InSignal(signalling: map<nat, Signal>, signal: Signal): set<nat> {
    set k | k in signalling && signalling[k] == signal
  }

  function StageWork(active: map<nat, Upload>): nat {
    5 * |InStage(active, Putting)| + 4 * |InStage(active, Tagged)|
    + 3 * |InStage(active, Counted)| + 4 * |InStage(active, Flagged)| + 3 * |InStage(active, Failed)|
  }

  function SignalWork(signalling: map<nat, Signal>): nat {
    2 * |InSignal(signalling, SlotSignal)| + |InSignal(signalling, FlushSignal)|
  }

  /** Steps the upload threads have left, at most. */
  function ThreadWork(s: State): nat { StageWork(s.active) + SignalWork(s.signalling) }

  function StageCost(stage: Stage): nat {
    match stage
    case Putting => 5
    case Tagged => 4
    case Counted => 3
    case Flagged => 4
    case Failed => 3
  }

  lemma {:induction false} InStageWithout(active: map<nat, Upload>, k: nat, stage: Stage)
    requires k in active
    ensures |InStage(active - {k}, stage)| == |InStage(active, stage)| - if active[k].stage == stage then 1 else 0
  {
    assert InStage(active - {k}, stage) == InStage(active, stage) - {k};
    assert k in InStage(active, stage) <==> active[k].stage == stage;
  }

  lemma {:induction false} StageWorkWithout(active: map<nat, Upload>, k: nat)
    requires k in active
    ensures StageWork(active - {k}) == StageWork(active) - StageCost(active[k].stage)
  {
    hide InStage;
    InStageWithout(active, k, Putting);
    InStageWithout(active, k, Tagged);
    InStageWithout(active, k, Counted);
    InStageWithout(active, k, Flagged);
    InStageWithout(active, k, Failed);
  }

  lemma {:induction false} StageWorkMoved(active: map<nat, Upload>, k: nat, stage: Stage)
    requires k in active && StageCost(stage) < StageCost(active[k].stage)
    ensures StageWork(active[k := active[k].(stage := stage)]) < StageWork(active)
  {
    hide StageWork;
    var active' := active[k := active[k].(stage := stage)];
    StageWorkWithout(active, k);
    StageWorkWithout(active', k);
    assert active' - {k} == active - {k};
  }

  lemma {:induction false} SignalWorkWithout(signalling: map<nat, Signal>, k: nat)
    requires k in signalling
    ensures SignalWork(signalling - {k}) == SignalWork(signalling) - if signalling[k].SlotSignal? then 2 else 1
  {
    assert InSignal(signalling - {k}, SlotSignal) == InSignal(signalling, SlotSignal) - {k};
    assert InSignal(signalling - {k}, FlushSignal) == InSignal(signalling, FlushSignal) - {k};
    assert k in InSignal(signalling, signalling[k]);
  }

  lemma {:induction false} SignalWorkMoved(signalling: map<nat, Signal>, k: nat)
    requires k in signalling && signalling[k].SlotSignal?
    ensures SignalWork(signalling[k := FlushSignal]) < SignalWork(signalling)
  {
    hide SignalWork;
    SignalWorkWithout(signalling, k);
    SignalWorkWithout(signalling[k := FlushSignal], k);
    assert signalling[k := FlushSignal] - {k} == signalling - {k};
  }

  lemma {:induction false} SignalWorkStarted(signalling: map<nat, Signal>, k: nat)
    requires k !in signalling
    ensures SignalWork(signalling[k := SlotSignal]) == SignalWork(signalling) + 2
  {
    hide SignalWork;
    SignalWorkWithout(signalling[k := SlotSignal], k);
    assert signalling[k := SlotSignal] - {k} == signalling;
  }

  /** Every step of an upload thread uses some of it up, so a sleeping writer is woken. */
  lemma {:induction false} ThreadStepsRunOut(s: State, k: nat, a: ThreadAction)
    requires Shape(s) && s.signalling.Keys !! s.active.Keys && CanThread(s, k, a)
    ensures ThreadWork(DoThread(s, k, a)) < ThreadWork(s)
  {
    hide StageWork, SignalWork, ControlFits, BuffersFit, ActiveFit;
    match a
    case PutOk => StageWorkMoved(s.active, k, Tagged);
    case PutFail => StageWorkMoved(s.active, k, Flagged);
    case PutFailAgain => StageWorkMoved(s.active, k, Failed);
    case StoreError => StageWorkMoved(s.active, k, Failed);
    case CountPart => StageWorkMoved(s.active, k, Counted);
    case Release =>
      StageWorkWithout(s.active, k);
      SignalWorkStarted(s.signalling, k);
    case NotifySlot => SignalWorkMoved(s.signalling, k);
    case NotifySlotWake => SignalWorkMoved(s.signalling, k);
    case NotifyFlush => SignalWorkWithout(s.signalling, k);
    case NotifyFlushWake => SignalWorkWithout(s.signalling, k);
  }

  lemma NoneActive(active: map<nat, Upload>)
    requires |active| == 0
    ensures active == map[]
  {
  }

  lemma {:induction false} NoThreadsNoSignals(cfg: Config, trace: seq<State>, acts: seq<Action>, i: nat)
    requires IsRun(cfg, trace, acts) && i < |trace| && cfg.maxThreads == 0
    ensures trace[i].active == map[] && trace[i].signalling == map[]
  {
    hide Step, Enabled, Shape;
    SlotsAreCounted(cfg, trace, acts, i);
    NoneActive(trace[i].active);
    if i > 0 {
      NoThreadsNoSignals(cfg, trace, acts, i - 1);
      RunStep(cfg, trace, acts, i - 1);
    }
  }

  /** The limit of no deadlock: with no upload thread allowed a writer that sleeps for a slot sleeps for good. */
  lemma {:induction false} NoThreadsDeadlock(cfg: Config, trace: seq<State>, acts: seq<Action>, i: nat, a: Action)
    requires IsRun(cfg, trace, acts) && i < |trace| && cfg.maxThreads == 0 && trace[i].pc.SlotAsleep?
    requires Shape(trace[i]) && Enabled(trace[i], a)
    ensures Spurious(a)
  {
    NoThreadsNoSignals(cfg, trace, acts, i);
  }
}
