/**
  Handing out byte ranges of one JSON file to concurrent readers.

  A reader takes the next range under the lock of its file, reads it without the lock, and then
  counts its read as done. Counters and flag are atomics that other readers see between any two
  steps, so every access to them is a step of its own. The reader whose read was the last one
  reports that the file is done.
 */
module JsonRanges {
  import opened Basics

  datatype Range = Range(start: nat, size: nat)

  /** Where a reader is. `inc` is the value its increment of the read counter gave. */
  datatype Pc =
    | Idle
    | Locked
    | Counted(size: nat)
    | Reading
    | Added(inc: nat)
    | Compared(inc: nat)
    | SawLast(inc: nat)
    | Thrown

  datatype State = State(
    fileSize: nat,
    lock: Option<nat>,
    position: nat,
    ranges: seq<Range>,
    requested: nat,
    actual: nat,
    last: bool,
    done: nat,
    readers: seq<Pc>
  )

  datatype Action = Acquire | Refuse | Count(want: nat) | SetLast | Add | Compare | LoadLast | Finish

  predicate Init(s: State) {
    && s.lock.None? && s.position == 0 && s.ranges == [] && s.requested == 0 && s.actual == 0
    && !s.last && s.done == 0 && forall t :: 0 <= t < |s.readers| ==> s.readers[t] == Idle
  }

  predicate Enabled(s: State, t: nat, a: Action) {
    && t < |s.readers|
    && var pc := s.readers[t];
       match a
       case Acquire => pc == Idle && s.lock.None?
       case Refuse => pc == Locked && s.last
       case Count(want) => pc == Locked && !s.last && want != 0
       case SetLast => pc.Counted?
       case Add => pc == Reading
       case Compare => pc.Added?
       case LoadLast => pc.Compared?
       case Finish => pc.SawLast?
  }

  function At(s: State, t: nat, pc: Pc): State
    requires t < |s.readers|
  {
    s.(readers := s.readers[t := pc])
  }

  /** What reader `t` does, one atomic access at a time. */
  function Step(s: State, t: nat, a: Action): State
    requires Enabled(s, t, a)
  {
    var pc := s.readers[t];
    match a
    case Acquire => At(s, t, Locked).(lock := Some(t))
    case Refuse => At(s, t, Idle).(lock := None)
    case Count(want) =>
      var size := if s.position <= s.fileSize then Min(want, s.fileSize - s.position) else want;
      At(s, t, Counted(size)).(ranges := s.ranges + [Range(s.position, size)], position := s.position + size,
                               requested := s.requested + 1)
    case SetLast => At(s, t, Reading).(lock := None, last := s.last || pc.size == 0)
    case Add => At(s, t, Added(s.actual + 1)).(actual := s.actual + 1)
    case Compare => At(s, t, if pc.inc > s.requested then Thrown else Compared(pc.inc))
    case LoadLast => At(s, t, if s.last then SawLast(pc.inc) else Idle)
    case Finish => At(s, t, Idle).(done := if pc.inc == s.requested then s.done + 1 else s.done)
  }

  // ---------------------------------------------------------------- invariants

  predicate Pending(pc: Pc) { pc.Counted? || pc.Reading? }

  function Outstanding(readers: seq<Pc>): nat {
    if readers == [] then 0
    else Outstanding(readers[..|readers| - 1]) + if Pending(readers[|readers| - 1]) then 1 else 0
  }

  predicate HasInc(pc: Pc) { pc.Added? || pc.Compared? || pc.SawLast? }

  /** Range `i` starts where the one before it ends, and is only empty if it is the last one, at the end of the file. */
  predicate Follows(ranges: seq<Range>, i: nat, fileSize: nat)
    requires i < |ranges|
  {
    && ranges[i].start == (if i == 0 then 0 else ranges[i - 1].start + ranges[i - 1].size)
    && (ranges[i].size == 0 ==> i == |ranges| - 1 && ranges[i].start == fileSize)
  }

  /** The ranges handed out so far are consecutive, and only the one at the end of the file is empty. */
  predicate Consecutive(ranges: seq<Range>, position: nat, fileSize: nat) {
    && position <= fileSize
    && (forall i :: 0 <= i < |ranges| ==> Follows(ranges, i, fileSize))
    && position == (if ranges == [] then 0 else ranges[|ranges| - 1].start + ranges[|ranges| - 1].size)
  }

  /** The empty range has been handed out. */
  predicate EmptyGiven(ranges: seq<Range>) { ranges != [] && ranges[|ranges| - 1].size == 0 }

  predicate Exclusive(lock: Option<nat>, readers: seq<Pc>) {
    && (lock.Some? ==> lock.value < |readers|)
    && forall t :: 0 <= t < |readers| ==> ((readers[t] == Locked || readers[t].Counted?) <==> lock == Some(t))
  }

  predicate Incs(actual: nat, last: bool, readers: seq<Pc>) {
    && (forall t :: 0 <= t < |readers| ==>
          && readers[t] != Thrown
          && (HasInc(readers[t]) ==> 0 < readers[t].inc <= actual)
          && (readers[t].SawLast? ==> last))
    && (forall t, u :: 0 <= t < u < |readers| && HasInc(readers[t]) && HasInc(readers[u]) ==>
          readers[t].inc != readers[u].inc)
  }

  /** Some reader still holds the count `inc`. */
  predicate Holds(readers: seq<Pc>, inc: nat) {
    exists t :: 0 <= t < |readers| && HasInc(readers[t]) && readers[t].inc == inc
  }

  /** The flag is up, or its setter is on the way. */
  predicate Flag(ranges: seq<Range>, last: bool, lock: Option<nat>, readers: seq<Pc>) {
    && (last ==> EmptyGiven(ranges))
    && (EmptyGiven(ranges) && !last ==>
          lock.Some? && lock.value < |readers| && readers[lock.value] == Counted(0))
    && (forall t :: 0 <= t < |readers| && readers[t].Counted? ==>
          !last && ranges != [] && readers[t].size == ranges[|ranges| - 1].size)
  }

  /** The file is reported done once, by the reader that made the counters meet. */
  predicate Reported(requested: nat, actual: nat, last: bool, done: nat, readers: seq<Pc>) {
    if last && actual == requested then done == if Holds(readers, requested) then 0 else 1
    else done == 0
  }

  predicate Inv(s: State) {
    && Consecutive(s.ranges, s.position, s.fileSize)
    && s.requested == |s.ranges| && s.requested == s.actual + Outstanding(s.readers)
    && Exclusive(s.lock, s.readers)
    && Incs(s.actual, s.last, s.readers)
    && Flag(s.ranges, s.last, s.lock, s.readers)
    && Reported(s.requested, s.actual, s.last, s.done, s.readers)
  }

  lemma {:induction false} OutstandingUpdate(readers: seq<Pc>, t: nat, pc: Pc)
    requires t < |readers|
    ensures Outstanding(readers[t := pc])
         == Outstanding(readers) - (if Pending(readers[t]) then 1 else 0) + (if Pending(pc) then 1 else 0)
  {
    var n := |readers| - 1;
    if t < n {
      assert readers[t := pc][..n] == readers[..n][t := pc];
      OutstandingUpdate(readers[..n], t, pc);
    } else {
      assert readers[t := pc][..n] == readers[..n];
    }
  }

  lemma {:induction false} OutstandingSome(readers: seq<Pc>, t: nat)
    requires t < |readers| && Pending(readers[t])
    ensures Outstanding(readers) > 0
  {
    if t < |readers| - 1 { OutstandingSome(readers[..|readers| - 1], t); }
  }

  lemma {:induction false} NoneOutstanding(readers: seq<Pc>)
    requires forall t :: 0 <= t < |readers| ==> !Pending(readers[t])
    ensures Outstanding(readers) == 0
  {
    if readers != [] { NoneOutstanding(readers[..|readers| - 1]); }
  }

  lemma {:induction false} InitInv(s: State)
    requires Init(s)
    ensures Inv(s)
  {
    NoneOutstanding(s.readers);
  }

  lemma {:induction false} StepCounts(s: State, t: nat, a: Action)
    requires Inv(s) && Enabled(s, t, a)
    ensures var s' := Step(s, t, a); s'.requested == |s'.ranges| == s'.actual + Outstanding(s'.readers)
    ensures Pending(s.readers[t]) ==> s.actual < s.requested
    ensures s.actual <= s.requested
  {
    hide Outstanding, Consecutive, Exclusive, Incs, Flag, Reported;
    OutstandingUpdate(s.readers, t, Step(s, t, a).readers[t]);
    if Pending(s.readers[t]) { OutstandingSome(s.readers, t); }
  }

  lemma {:induction false} ConsecutiveMore(ranges: seq<Range>, position: nat, fileSize: nat, want: nat)
    requires Consecutive(ranges, position, fileSize) && !EmptyGiven(ranges) && want != 0
    ensures var size := Min(want, fileSize - position);
      Consecutive(ranges + [Range(position, size)], position + size, fileSize)
  {
    var n, more := |ranges|, ranges + [Range(position, Min(want, fileSize - position))];
    forall i | 0 <= i <= n ensures Follows(more, i, fileSize) {
      if i < n { assert Follows(ranges, i, fileSize); }
    }
  }

  lemma CountOpens(s: State, t: nat, a: Action)
    requires Inv(s) && Enabled(s, t, a) && a.Count?
    ensures !EmptyGiven(s.ranges) && s.position <= s.fileSize
  {
    hide Outstanding, Incs, Reported;
    assert s.lock == Some(t);
  }

  lemma {:induction false} StepConsecutive(s: State, t: nat, a: Action)
    requires Inv(s) && Enabled(s, t, a)
    ensures var s' := Step(s, t, a); Consecutive(s'.ranges, s'.position, s'.fileSize)
  {
    hide Outstanding, Incs, Reported, Consecutive, Exclusive, Flag, EmptyGiven;
    if a.Count? {
      CountOpens(s, t, a);
      ConsecutiveMore(s.ranges, s.position, s.fileSize, a.want);
    }
  }

  lemma {:induction false} StepExclusive(s: State, t: nat, a: Action)
    requires Inv(s) && Enabled(s, t, a)
    ensures var s' := Step(s, t, a); Exclusive(s'.lock, s'.readers)
  {
    hide Outstanding, Consecutive, Incs, Flag, Reported;
  }

  /** A reader moves on with the count it has, or without one. */
  lemma {:induction false} IncsMoved(actual: nat, last: bool, last': bool, readers: seq<Pc>, t: nat, pc: Pc)
    requires Incs(actual, last, readers) && t < |readers| && (last ==> last') && pc != Thrown && (pc.SawLast? ==> last')
    requires HasInc(pc) ==> HasInc(readers[t]) && pc.inc == readers[t].inc
    ensures Incs(actual, last', readers[t := pc])
  {
  }

  lemma {:induction false} AddIncs(actual: nat, last: bool, readers: seq<Pc>, t: nat)
    requires Incs(actual, last, readers) && t < |readers|
    ensures Incs(actual + 1, last, readers[t := Added(actual + 1)])
  {
  }

  lemma {:induction false} CompareFits(s: State, t: nat)
    requires Inv(s) && Enabled(s, t, Compare)
    ensures s.readers[t].inc <= s.requested
  {
    StepCounts(s, t, Compare);
    hide Outstanding, Consecutive, Exclusive, Flag, Reported;
  }

  lemma {:induction false} StepIncs(s: State, t: nat, a: Action)
    requires Inv(s) && Enabled(s, t, a)
    ensures var s' := Step(s, t, a); Incs(s'.actual, s'.last, s'.readers)
  {
    hide Outstanding, Consecutive, Exclusive, Flag, Reported, Incs;
    if a.Add? {
      AddIncs(s.actual, s.last, s.readers, t);
    } else {
      if a.Compare? { CompareFits(s, t); }
      IncsMoved(s.actual, s.last, Step(s, t, a).last, s.readers, t, Step(s, t, a).readers[t]);
    }
  }

  lemma {:induction false} StepFlag(s: State, t: nat, a: Action)
    requires Inv(s) && Enabled(s, t, a)
    ensures var s' := Step(s, t, a); Flag(s'.ranges, s'.last, s'.lock, s'.readers)
  {
    hide Outstanding, Consecutive, Incs, Reported;
  }

  lemma {:induction false} HoldsUpdate(readers: seq<Pc>, t: nat, pc: Pc, inc: nat)
    requires t < |readers|
    ensures HasInc(pc) && pc.inc == inc ==> Holds(readers[t := pc], inc)
    ensures !(HasInc(readers[t]) && readers[t].inc == inc) && Holds(readers, inc) ==> Holds(readers[t := pc], inc)
    ensures !(HasInc(pc) && pc.inc == inc) && Holds(readers[t := pc], inc) ==> Holds(readers, inc)
  {
    var after := readers[t := pc];
    assert after[t] == pc;
    if Holds(readers, inc) {
      var u :| 0 <= u < |readers| && HasInc(readers[u]) && readers[u].inc == inc;
      if u != t { assert after[u] == readers[u]; }
    }
    if Holds(after, inc) {
      var u :| 0 <= u < |after| && HasInc(after[u]) && after[u].inc == inc;
      if u != t { assert after[u] == readers[u]; }
    }
  }

  lemma {:induction false} HoldsGone(readers: seq<Pc>, t: nat, last: bool, actual: nat)
    requires t < |readers| && HasInc(readers[t]) && Incs(actual, last, readers)
    ensures !Holds(readers[t := Idle], readers[t].inc)
  {
  }

  lemma HoldsSelf(readers: seq<Pc>, t: nat)
    requires t < |readers| && HasInc(readers[t])
    ensures Holds(readers, readers[t].inc)
  {
  }

  lemma {:induction false} StepReported(s: State, t: nat, a: Action)
    requires Inv(s) && Enabled(s, t, a)
    ensures var s' := Step(s, t, a); Reported(s'.requested, s'.actual, s'.last, s'.done, s'.readers)
  {
    hide Outstanding, Consecutive, Exclusive, Holds;
    var pc := s.readers[t];
    StepCounts(s, t, a);
    HoldsUpdate(s.readers, t, Step(s, t, a).readers[t], s.requested);
    if HasInc(pc) {
      HoldsSelf(s.readers, t);
      HoldsGone(s.readers, t, s.last, s.actual);
    }
    if a.Add? && s.actual + 1 == s.requested { assert Step(s, t, a).readers[t] == Added(s.requested); }
  }

  /** Every step of every reader keeps the invariant. */
  lemma {:induction false} StepKeeps(s: State, t: nat, a: Action)
    requires Inv(s) && Enabled(s, t, a)
    ensures Inv(Step(s, t, a))
  {
    StepCounts(s, t, a);
    StepConsecutive(s, t, a);
    StepExclusive(s, t, a);
    StepIncs(s, t, a);
    StepFlag(s, t, a);
    StepReported(s, t, a);
    hide Outstanding, Consecutive, Exclusive, Incs, Flag, Reported, Step, Enabled;
  }

  // ---------------------------------------------------------------- whole runs

  ghost predicate Steps(s: State, s': State) {
    exists t: nat, a: Action :: Enabled(s, t, a) && s' == Step(s, t, a)
  }

  ghost predicate IsRun(run: seq<State>) {
    run != [] && Init(run[0]) && forall i :: 0 <= i < |run| - 1 ==> Steps(run[i], run[i + 1])
  }

  lemma {:induction false} RunInv(run: seq<State>, i: nat)
    requires IsRun(run) && i < |run|
    ensures Inv(run[i]) && run[i].fileSize == run[0].fileSize && |run[i].readers| == |run[0].readers|
  {
    hide Inv;
    if i == 0 {
      InitInv(run[0]);
    } else {
      RunInv(run, i - 1);
      assert Steps(run[i - 1], run[i - 1 + 1]);
      var t: nat, a: Action :| Enabled(run[i - 1], t, a) && run[i] == Step(run[i - 1], t, a);
      StepKeeps(run[i - 1], t, a);
    }
  }

  function Joined(file: seq<Byte>, ranges: seq<Range>): seq<Byte> {
    if ranges == [] then []
    else
      var r := ranges[|ranges| - 1];
      Joined(file, ranges[..|ranges| - 1])
      + if r.start + r.size <= |file| then file[r.start..r.start + r.size] else []
  }

  lemma {:induction false} ConsecutiveFront(ranges: seq<Range>, position: nat, fileSize: nat)
    requires Consecutive(ranges, position, fileSize) && ranges != []
    ensures Consecutive(ranges[..|ranges| - 1], ranges[|ranges| - 1].start, fileSize)
    ensures position == ranges[|ranges| - 1].start + ranges[|ranges| - 1].size <= fileSize
  {
    var n := |ranges| - 1;
    var front := ranges[..n];
    forall i | 0 <= i < n ensures Follows(front, i, fileSize) {
      assert Follows(ranges, i, fileSize);
    }
    assert Follows(ranges, n, fileSize);
  }

  lemma {:induction false} JoinedIsPrefix(file: seq<Byte>, ranges: seq<Range>, position: nat)
    requires Consecutive(ranges, position, |file|)
    ensures Joined(file, ranges) == file[..position]
  {
    if ranges != [] {
      var n := |ranges| - 1;
      var r := ranges[n];
      ConsecutiveFront(ranges, position, |file|);
      JoinedIsPrefix(file, ranges[..n], r.start);
      assert file[..r.start] + file[r.start..position] == file[..position];
    }
  }

  lemma {:induction false} RangeAfter(ranges: seq<Range>, position: nat, fileSize: nat, j: nat)
    requires Consecutive(ranges, position, fileSize) && 0 < j < |ranges|
    ensures ranges[j].start == ranges[j - 1].start + ranges[j - 1].size
  {
    assert Follows(ranges, j, fileSize);
  }

  lemma {:induction false} RangesApart(ranges: seq<Range>, position: nat, fileSize: nat, i: nat, j: nat)
    requires Consecutive(ranges, position, fileSize) && i < j < |ranges|
    ensures ranges[i].start + ranges[i].size <= ranges[j].start
    decreases j
  {
    hide Consecutive;
    RangeAfter(ranges, position, fileSize, j);
    if i < j - 1 { RangesApart(ranges, position, fileSize, i, j - 1); }
  }

  /** The ranges handed out are consecutive and disjoint, and once the last one is they cover the file. */
  lemma {:induction false} RangesCoverFile(run: seq<State>, i: nat, file: seq<Byte>)
    requires IsRun(run) && i < |run| && |file| == run[0].fileSize
    ensures run[i].position <= |file| && Joined(file, run[i].ranges) == file[..run[i].position]
    ensures run[i].last ==> Joined(file, run[i].ranges) == file
    ensures forall j: nat, k: nat :: j < k < |run[i].ranges| ==>
              run[i].ranges[j].start + run[i].ranges[j].size <= run[i].ranges[k].start
  {
    RunInv(run, i);
    hide IsRun;
    var s := run[i];
    JoinedIsPrefix(file, s.ranges, s.position);
    if s.last {
      assert EmptyGiven(s.ranges);
      assert Follows(s.ranges, |s.ranges| - 1, s.fileSize);
      assert file[..s.position] == file;
    }
    forall j: nat, k: nat | j < k < |s.ranges|
      ensures s.ranges[j].start + s.ranges[j].size <= s.ranges[k].start
    {
      RangesApart(s.ranges, s.position, s.fileSize, j, k);
    }
  }

  // ---------------------------------------------------------------- the ranges are those asked for

  /** The accesses of a run, each with its reader. */
  datatype Access = Access(reader: nat, action: Action)

  ghost predicate IsRunOf(run: seq<State>, acts: seq<Access>) {
    && |run| == |acts| + 1 && Init(run[0])
    && forall i :: 0 <= i < |acts| ==>
         Enabled(run[i], acts[i].reader, acts[i].action) && run[i + 1] == Step(run[i], acts[i].reader, acts[i].action)
  }

  /** The sizes that the readers have asked for, in order. */
  function Asked(acts: seq<Access>): seq<nat> {
    if acts == [] then []
    else
      var before, a := Asked(acts[..|acts| - 1]), acts[|acts| - 1].action;
      if a.Count? then before + [a.want] else before
  }

  function Sum(sizes: seq<nat>): nat { if sizes == [] then 0 else Sum(sizes[..|sizes| - 1]) + sizes[|sizes| - 1] }

  /** Range `k` goes from the end of what was asked for before it to the end of what it asks for, within the file. */
  predicate Answers(ranges: seq<Range>, asked: seq<nat>, fileSize: nat, k: nat)
    requires k < |ranges| == |asked|
  {
    && ranges[k].start == Min(Sum(asked[..k]), fileSize)
    && ranges[k].start + ranges[k].size == Min(Sum(asked[..k + 1]), fileSize)
  }

  predicate AllAnswer(s: State, asked: seq<nat>) {
    && |s.ranges| == |asked| && s.position == Min(Sum(asked), s.fileSize)
    && forall k: nat :: k < |asked| ==> Answers(s.ranges, asked, s.fileSize, k)
  }

  lemma {:induction false} CountAnswers(s: State, t: nat, want: nat, asked: seq<nat>)
    requires Enabled(s, t, Count(want)) && AllAnswer(s, asked)
    ensures AllAnswer(Step(s, t, Count(want)), asked + [want])
  {
    var s', more := Step(s, t, Count(want)), asked + [want];
    var n := |asked|;
    assert more[..n] == asked && more[..n + 1] == more;
    forall k: nat | k < |more| ensures Answers(s'.ranges, more, s'.fileSize, k) {
      if k < n {
        assert Answers(s.ranges, asked, s.fileSize, k);
        assert more[..k] == asked[..k] && more[..k + 1] == asked[..k + 1];
      }
    }
  }

  /** In every run the ranges are those that the readers ask for, one after the other, cut off at the file's end. */
  lemma {:induction false} RangesAreAsked(run: seq<State>, acts: seq<Access>, i: nat)
    requires IsRunOf(run, acts) && i < |run|
    ensures AllAnswer(run[i], Asked(acts[..i]))
  {
    if i > 0 {
      RangesAreAsked(run, acts, i - 1);
      var s, a := run[i - 1], acts[i - 1];
      assert acts[..i][..i - 1] == acts[..i - 1];
      if a.action.Count? { CountAnswers(s, a.reader, a.action.want, Asked(acts[..i - 1])); }
    }
  }

  /** There are at most as many reads as bytes, and one. */
  lemma {:induction false} ReadsBounded(ranges: seq<Range>, position: nat, fileSize: nat)
    requires Consecutive(ranges, position, fileSize)
    ensures |ranges| <= position + (if EmptyGiven(ranges) then 1 else 0)
  {
    if ranges != [] {
      var n := |ranges| - 1;
      ConsecutiveFront(ranges, position, fileSize);
      ReadsBounded(ranges[..n], ranges[n].start, fileSize);
      if n > 0 { assert Follows(ranges, n - 1, fileSize); }
    }
  }

  /** Reads done never exceed reads requested, so the reader never throws. */
  lemma {:induction false} ActualWithinRequested(run: seq<State>, i: nat, t: nat)
    requires IsRun(run) && i < |run| && t < |run[i].readers|
    ensures run[i].actual <= run[i].requested <= run[i].fileSize + 1 && run[i].readers[t] != Thrown
  {
    RunInv(run, i);
    hide IsRun;
    ReadsBounded(run[i].ranges, run[i].position, run[i].fileSize);
  }

  /** The file is reported done at most once, and only when every requested read is done and no other will be. */
  lemma {:induction false} DoneIsLast(run: seq<State>, i: nat)
    requires IsRun(run) && i < |run|
    ensures run[i].done <= 1
    ensures run[i].done == 1 ==> run[i].last && run[i].actual == run[i].requested
    ensures run[i].done == 1 ==> forall t :: 0 <= t < |run[i].readers| ==> !Pending(run[i].readers[t])
  {
    RunInv(run, i);
    hide IsRun, Outstanding;
    var s := run[i];
    if s.done == 1 {
      forall t | 0 <= t < |s.readers| ensures !Pending(s.readers[t]) {
        if Pending(s.readers[t]) { OutstandingSome(s.readers, t); }
      }
    }
  }

  /** When the flag is up and all readers are back, one of them has reported the file done. */
  lemma {:induction false} DoneIsReported(run: seq<State>, i: nat)
    requires IsRun(run) && i < |run| && run[i].last
    requires forall t :: 0 <= t < |run[i].readers| ==> run[i].readers[t] == Idle
    ensures run[i].done == 1 && run[i].actual == run[i].requested
  {
    RunInv(run, i);
    hide IsRun;
    NoneOutstanding(run[i].readers);
  }

  /** Some reader can always move, and a reader at work never waits for another. */
  lemma {:induction false} NoDeadlock(run: seq<State>, i: nat, t: nat)
    requires IsRun(run) && i < |run| && t < |run[i].readers|
    ensures run[i].readers[t] != Idle ==> exists a :: Enabled(run[i], t, a)
    ensures exists u: nat, a :: Enabled(run[i], u, a)
  {
    RunInv(run, i);
    hide IsRun;
    var s := run[i];
    var pc := s.readers[t];
    if pc != Idle {
      var a := if pc == Locked then (if s.last then Refuse else Count(1)) else if pc.Counted? then SetLast
               else if pc.Reading? then Add else if pc.Added? then Compare
               else if pc.Compared? then LoadLast else Finish;
      assert Enabled(s, t, a);
    } else if s.lock.None? {
      assert Enabled(s, t, Acquire);
    } else {
      var u := s.lock.value;
      assert Enabled(s, u, if s.readers[u].Counted? then SetLast else if s.last then Refuse else Count(1));
    }
  }
}
