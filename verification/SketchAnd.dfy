/**
  Comparisons of one sketched column joined by AND.

  Every comparison leaves its mask in the selection of the vector, and the AND merges the masks. An
  equality leaves the selection alone, so that the mask of the comparison before it is merged again,
  or, if there is none, the mask that the vector came with.
 */
module SketchAnd {
  import opened Basics
  import opened ColumnSketch
  import opened SketchScan
  import opened SketchVector
  import opened SketchFilter

  // ---------------------------------------------------------------- masks

  predicate HasBit(masks: seq<Mask>, i: nat) { i / LANES < |masks| && i % LANES in masks[i / LANES] }

  lemma {:induction false} RowInLanes(s: Sketch, op: Op, x: nat, i: nat)
    requires |s.base| == |s.codes|
    ensures i % LANES in LanesFrom(s, op, x, i / LANES * LANES) <==> i < |s.base| && VectorPicks(s, op, x, i)
  {
    hide VectorPicks;
    assert i / LANES * LANES + i % LANES == i;
    assert Lane(s, op, x, i / LANES * LANES, i % LANES) <==> i < |s.base| && VectorPicks(s, op, x, i);
  }

  /** The mask of a scan has the bits of the rows it selects. */
  lemma {:induction false} SelectedBits(s: Sketch, t: Test, i: nat)
    requires Valid(s) && !NoRow(s, t.op, t.x)
    ensures HasBit(Evaluated(s, t.op, t.x).mask, i) <==> i < |s.base| && Selects(s, t, i)
  {
    hide VectorPicks, VectorRows, Valid, LanesFrom;
    ValidLengths(s);
    if EveryRow(s, t.op, t.x) {
      assert IsRow(|s.base|, i / LANES, i % LANES) <==> i < |s.base|;
    } else {
      RowInLanes(s, t.op, t.x, i);
    }
  }

  function Merged(a: seq<Mask>, b: seq<Mask>): seq<Mask>
    requires |a| <= |b|
  {
    seq(|a|, j requires 0 <= j < |a| => a[j] * b[j])
  }

  lemma MergedBits(a: seq<Mask>, b: seq<Mask>)
    requires |a| <= |b|
    ensures |Merged(a, b)| == |a|
    ensures forall i: nat :: HasBit(Merged(a, b), i) <==> HasBit(a, i) && HasBit(b, i)
  {
  }

  /** The set bits among the first `m`, in order. */
  function BitRows(masks: seq<Mask>, m: nat): seq<nat> {
    if m == 0 then [] else BitRows(masks, m - 1) + if HasBit(masks, m - 1) then [m - 1] else []
  }

  lemma {:induction false} BitRowsAre(masks: seq<Mask>, m: nat)
    ensures Ascending(BitRows(masks, m))
    ensures forall i: nat :: i in BitRows(masks, m) <==> i < m && HasBit(masks, i)
  {
    hide HasBit;
    if m > 0 {
      BitRowsAre(masks, m - 1);
      var rows := BitRows(masks, m - 1);
      assert forall k :: 0 <= k < |rows| ==> rows[k] in rows;
    }
  }

  lemma BitIs(masks: seq<Mask>, i: nat, b: nat)
    requires i < |masks| && b < LANES
    ensures HasBit(masks, i * LANES + b) <==> b in masks[i]
  {
    assert (i * LANES + b) / LANES == i && (i * LANES + b) % LANES == b;
  }

  lemma BitsInside(masks: seq<Mask>)
    ensures forall i: nat :: HasBit(masks, i) ==> i < |masks| * LANES
  {
  }

  /** BitmaskToSelection */
  method BitmaskToSelection(masks: seq<Mask>) returns (rows: seq<nat>)
    ensures Ascending(rows) && forall i: nat :: i in rows <==> HasBit(masks, i)
  {
    hide HasBit;
    rows := [];
    for i := 0 to |masks|
      invariant rows == BitRows(masks, i * LANES)
    {
      for b := 0 to LANES
        invariant rows == BitRows(masks, i * LANES + b)
      {
        BitIs(masks, i, b);
        if b in masks[i] { rows := rows + [i * LANES + b]; }
      }
    }
    BitRowsAre(masks, |masks| * LANES);
    BitsInside(masks);
  }

  /** Mask words a scan leaves: one more than the full blocks, unless every row qualifies and none is left over. */
  function Words(s: Sketch, t: Test): nat {
    |s.base| / LANES + if |s.base| % LANES == 0 && EveryRow(s, t.op, t.x) then 0 else 1
  }

  lemma {:induction false} MaskLength(s: Sketch, t: Test)
    requires |s.base| == |s.codes| && !NoRow(s, t.op, t.x)
    ensures |Evaluated(s, t.op, t.x).mask| == Words(s, t)
  {
    hide VectorRows, LanesFrom;
  }

  lemma TouchedIfSome(s: Sketch, t: Test)
    requires |s.base| == |s.codes|
    ensures Evaluated(s, t.op, t.x).Untouched? <==> NoRow(s, t.op, t.x)
  {
  }

  // ---------------------------------------------------------------- the AND

  datatype Child = Child(cmp: Comparison, c: nat)

  /** The selection of a vector. */
  datatype Held = Held(rows: seq<nat>, mask: seq<Mask>)

  /** The end of an AND. `PastMask`: a mask was read past its end. */
  datatype Joined = NoneLeft | Kept(verdict: Pruning, held: Held) | PastMask

  predicate InRange(cs: seq<Child>, width: nat) { forall k :: 0 <= k < |cs| ==> cs[k].c < width }

  /** The scans of the comparisons; an equality has none. */
  function Scans(cs: seq<Child>, width: nat): seq<Option<Test>>
    requires InRange(cs, width)
  {
    seq(|cs|, k requires 0 <= k < |cs| => TestOf(cs[k].cmp, cs[k].c, width))
  }

  /** A scan that selects no row. */
  predicate SelectsNone(s: Sketch, t: Option<Test>)
    requires |s.base| == |s.codes|
  {
    t.Some? && forall i: nat :: i < |s.base| ==> !Selects(s, t.value, i)
  }

  predicate SelectsAll(s: Sketch, t: Option<Test>)
    requires |s.base| == |s.codes|
  {
    t.Some? && forall i: nat :: i < |s.base| ==> Selects(s, t.value, i)
  }

  /** The words of the mask that is merged first. */
  function FirstWords(s: Sketch, ts: seq<Option<Test>>, mask: seq<Mask>): nat
    requires ts != []
  {
    if ts[0].None? then |mask| else Words(s, ts[0].value)
  }

  /** A scan that leaves fewer words than were merged first. */
  predicate Shorter(s: Sketch, t: Option<Test>, words: nat) {
    t.Some? && !NoRow(s, t.value.op, t.value.x) && Words(s, t.value) < words
  }

  /** Every scan selects row `i`, and the mask of the vector has it if an equality comes first. */
  predicate Keeps(s: Sketch, ts: seq<Option<Test>>, mask: seq<Mask>, i: nat)
    requires |s.base| == |s.codes| && ts != []
  {
    && (ts[0].None? ==> HasBit(mask, i))
    && forall k :: 0 <= k < |ts| && ts[k].Some? ==> i < |s.base| && Selects(s, ts[k].value, i)
  }

  lemma {:induction false} KeepsMore(s: Sketch, ts: seq<Option<Test>>, mask: seq<Mask>, k: nat, i: nat)
    requires |s.base| == |s.codes| && 0 < k < |ts|
    ensures ts[..k] != [] && ts[..k + 1] != []
    ensures Keeps(s, ts[..k + 1], mask, i) <==>
      Keeps(s, ts[..k], mask, i) && (ts[k].Some? ==> i < |s.base| && Selects(s, ts[k].value, i))
  {
    hide Selects, HasBit;
    assert ts[..k + 1][k] == ts[k] && ts[..k][0] == ts[0] == ts[..k + 1][0];
    assert forall j :: 0 <= j < k ==> ts[..k + 1][j] == ts[..k][j] == ts[j];
  }

  /** What the loop has after the first `k` comparisons. */
  ghost predicate Joins(s: Sketch, ts: seq<Option<Test>>, mask: seq<Mask>, k: nat, merged: seq<Mask>, held: seq<Mask>)
    requires |s.base| == |s.codes| && 0 < k <= |ts|
  {
    && |merged| == FirstWords(s, ts, mask) <= |held|
    && (forall i: nat :: HasBit(merged, i) <==> Keeps(s, ts[..k], mask, i))
    && (forall i: nat :: HasBit(merged, i) ==> HasBit(held, i))
  }

  lemma {:induction false} JoinsFirst(s: Sketch, ts: seq<Option<Test>>, mask: seq<Mask>, held: seq<Mask>)
    requires |s.base| == |s.codes| && ts != []
    requires ts[0].None? ==> held == mask
    requires ts[0].Some? ==> |held| == Words(s, ts[0].value)
    requires ts[0].Some? ==> forall i: nat :: HasBit(held, i) <==> i < |s.base| && Selects(s, ts[0].value, i)
    ensures Joins(s, ts, mask, 1, held, held)
  {
    hide Selects, HasBit, Words;
    assert ts[..1] == [ts[0]];
    forall i: nat ensures HasBit(held, i) <==> Keeps(s, ts[..1], mask, i) {
      if ts[0].Some? { assert ts[..1][0].Some?; }
    }
  }

  lemma {:induction false} JoinsNext(s: Sketch, ts: seq<Option<Test>>, mask: seq<Mask>, k: nat, merged: seq<Mask>,
                                     held: seq<Mask>, held': seq<Mask>)
    requires |s.base| == |s.codes| && 0 < k < |ts| && Joins(s, ts, mask, k, merged, held)
    requires |merged| <= |held'| && (ts[k].None? ==> held' == held)
    requires ts[k].Some? ==> forall i: nat :: HasBit(held', i) <==> i < |s.base| && Selects(s, ts[k].value, i)
    ensures Joins(s, ts, mask, k + 1, Merged(merged, held'), held')
  {
    hide Selects, HasBit, Words, Keeps, Merged, FirstWords;
    MergedBits(merged, held');
    forall i: nat ensures HasBit(Merged(merged, held'), i) <==> Keeps(s, ts[..k + 1], mask, i) {
      KeepsMore(s, ts, mask, k, i);
    }
  }

  /** The mask that a scan leaves. */
  lemma {:induction false} ScanLeaves(s: Sketch, t: Test)
    requires Valid(s) && !NoRow(s, t.op, t.x)
    ensures Evaluated(s, t.op, t.x).Selected? && |Evaluated(s, t.op, t.x).mask| == Words(s, t)
    ensures forall i: nat :: HasBit(Evaluated(s, t.op, t.x).mask, i) <==> i < |s.base| && Selects(s, t, i)
  {
    hide Valid, Evaluated, Selects, HasBit, Words, NoRow;
    ValidLengths(s);
    TouchedIfSome(s, t);
    MaskLength(s, t);
    forall i: nat ensures HasBit(Evaluated(s, t.op, t.x).mask, i) <==> i < |s.base| && Selects(s, t, i) {
      SelectedBits(s, t, i);
    }
  }

  lemma NoRowSelectsNone(s: Sketch, t: Test)
    requires Valid(s) && NoRow(s, t.op, t.x)
    ensures SelectsNone(s, Some(t))
  {
  }

  lemma VerdictIs(s: Sketch, t: Option<Test>, p: Pruning)
    requires |s.base| == |s.codes| && (t.None? ==> p == NoPruning)
    requires t.Some? ==> (p == AlwaysFalse <==> forall i: nat :: i < |s.base| ==> !Selects(s, t.value, i))
    requires t.Some? ==> (p == AlwaysTrue <==> forall i: nat :: i < |s.base| ==> Selects(s, t.value, i))
    ensures p == AlwaysFalse <==> SelectsNone(s, t)
    ensures p == AlwaysTrue <==> SelectsAll(s, t)
  {
  }

  /** What a comparison makes of the selection: nothing new, or the rows of its scan and their mask. */
  ghost predicate Leaves(s: Sketch, t: Option<Test>, held: Held, left: Held)
    requires |s.base| == |s.codes|
  {
    if t.None? || NoRow(s, t.value.op, t.value.x) then left == held && (t.Some? ==> SelectsNone(s, t))
    else
      && |left.mask| == Words(s, t.value)
      && Ascending(left.rows)
      && (forall i: nat :: i in left.rows <==> i < |s.base| && Selects(s, t.value, i))
      && forall i: nat :: HasBit(left.mask, i) <==> i < |s.base| && Selects(s, t.value, i)
  }

  function Replaced(held: Held, sel: Selection): Held {
    if sel.Selected? then Held(sel.rows, sel.mask) else held
  }

  lemma LeavesAlone(s: Sketch, held: Held)
    requires |s.base| == |s.codes|
    ensures Leaves(s, None, held, Replaced(held, Untouched))
  {
  }

  lemma {:induction false} LeavesScan(s: Sketch, t: Test, held: Held)
    requires Valid(s)
    ensures Leaves(s, Some(t), held, Replaced(held, Evaluated(s, t.op, t.x)))
  {
    assert s.min <= s.max && |s.base| == |s.codes|;
    hide Evaluated, Valid, Selects, NoRow, HasBit, Words, SelectsNone, Ascending;
    TouchedIfSome(s, t);
    if NoRow(s, t.op, t.x) {
      NoRowSelectsNone(s, t);
    } else {
      RowsAre(s, t);
      ScanLeaves(s, t);
    }
  }

  /** One comparison: its verdict, and the selection it leaves. */
  method CheckChild(s: Sketch, child: Child, width: nat, held: Held) returns (p: Pruning, left: Held)
    requires Valid(s) && InWidth(s, width) && child.c < width
    ensures var t := TestOf(child.cmp, child.c, width);
      && (p == AlwaysFalse <==> SelectsNone(s, t)) && (p == AlwaysTrue <==> SelectsAll(s, t))
      && Leaves(s, t, held, left)
  {
    hide *;
    ValidLengths(s);
    ghost var t := TestOf(child.cmp, child.c, width);
    var sel;
    p, sel := Check(s, child.cmp, child.c, width);
    VerdictIs(s, t, p);
    left := Replaced(held, sel);
    if t.Some? { LeavesScan(s, t.value, held); } else { LeavesAlone(s, held); }
  }

  /** The AND stops at this comparison because of its mask. */
  ghost predicate StopsPast(s: Sketch, ts: seq<Option<Test>>, words: nat, k: int)
    requires |s.base| == |s.codes|
  {
    0 <= k < |ts| && Shorter(s, ts[k], words) && forall j :: 0 <= j < k ==> !SelectsNone(s, ts[j])
  }

  /** The AND stops at this comparison because it selects no row. */
  ghost predicate StopsNone(s: Sketch, ts: seq<Option<Test>>, words: nat, k: int)
    requires |s.base| == |s.codes|
  {
    0 <= k < |ts| && SelectsNone(s, ts[k]) && forall j :: 0 <= j <= k ==> !Shorter(s, ts[j], words)
  }

  /** What the loop has kept of the first `k` comparisons, of which none has stopped it. */
  ghost predicate Went(s: Sketch, ts: seq<Option<Test>>, words: nat, k: nat, result: Pruning)
    requires |s.base| == |s.codes| && k <= |ts|
  {
    && (forall j :: 0 <= j < k ==> !Shorter(s, ts[j], words) && !SelectsNone(s, ts[j]))
    && result == if forall j :: 0 <= j < k ==> SelectsAll(s, ts[j]) then AlwaysTrue else NoPruning
  }

  lemma {:induction false} PastStops(s: Sketch, ts: seq<Option<Test>>, words: nat, k: nat, result: Pruning)
    requires |s.base| == |s.codes| && k < |ts| && Went(s, ts, words, k, result) && Shorter(s, ts[k], words)
    ensures StopsPast(s, ts, words, k) && !exists j :: StopsNone(s, ts, words, j)
  {
    hide Shorter, SelectsNone, SelectsAll;
  }

  lemma {:induction false} NoneStops(s: Sketch, ts: seq<Option<Test>>, words: nat, k: nat, result: Pruning)
    requires |s.base| == |s.codes| && k < |ts| && Went(s, ts, words, k, result)
    requires !Shorter(s, ts[k], words) && SelectsNone(s, ts[k])
    ensures StopsNone(s, ts, words, k) && !exists j :: StopsPast(s, ts, words, j)
  {
    hide Shorter, SelectsNone, SelectsAll;
  }

  lemma {:induction false} NothingStops(s: Sketch, ts: seq<Option<Test>>, words: nat, result: Pruning)
    requires |s.base| == |s.codes| && Went(s, ts, words, |ts|, result)
    ensures !(exists k :: StopsPast(s, ts, words, k)) && !exists k :: StopsNone(s, ts, words, k)
    ensures result == if forall k :: 0 <= k < |ts| ==> SelectsAll(s, ts[k]) then AlwaysTrue else NoPruning
  {
    hide Shorter, SelectsNone, SelectsAll;
  }

  lemma ShorterFirst(s: Sketch, ts: seq<Option<Test>>, mask: seq<Mask>)
    requires ts != []
    ensures !Shorter(s, ts[0], FirstWords(s, ts, mask))
  {
  }

  lemma ShorterIs(s: Sketch, t: Option<Test>, words: nat, left: nat)
    requires t.Some? && !NoRow(s, t.value.op, t.value.x) ==> left == Words(s, t.value)
    requires t.None? || NoRow(s, t.value.op, t.value.x) ==> words <= left
    ensures Shorter(s, t, words) <==> left < words
  {
  }

  lemma JoinsWords(s: Sketch, ts: seq<Option<Test>>, mask: seq<Mask>, k: nat, merged: seq<Mask>, held: seq<Mask>)
    requires |s.base| == |s.codes| && 0 < k <= |ts| && Joins(s, ts, mask, k, merged, held)
    ensures |merged| == FirstWords(s, ts, mask) <= |held|
  {
  }

  /** The selection that a comparison leaves. */
  ghost predicate Alone(s: Sketch, t: Option<Test>, held: Held, sel: Held)
    requires |s.base| == |s.codes|
  {
    if t.None? then sel == held
    else Ascending(sel.rows) && forall i: nat :: i in sel.rows <==> i < |s.base| && Selects(s, t.value, i)
  }

  lemma LeavesMask(s: Sketch, t: Option<Test>, held: Held, left: Held)
    requires |s.base| == |s.codes| && Leaves(s, t, held, left)
    ensures t.None? ==> left == held
    ensures t.Some? && NoRow(s, t.value.op, t.value.x) ==> left == held && SelectsNone(s, t)
    ensures t.Some? && !NoRow(s, t.value.op, t.value.x) ==> |left.mask| == Words(s, t.value)
    ensures t.Some? && !SelectsNone(s, t) ==> !NoRow(s, t.value.op, t.value.x) && Alone(s, t, held, left)
    ensures t.Some? && !SelectsNone(s, t) ==>
      forall i: nat :: HasBit(left.mask, i) <==> i < |s.base| && Selects(s, t.value, i)
  {
  }

  lemma ScansAre(cs: seq<Child>, width: nat) returns (ts: seq<Option<Test>>)
    requires InRange(cs, width)
    ensures ts == Scans(cs, width) && |ts| == |cs|
    ensures forall k :: 0 <= k < |cs| ==> cs[k].c < width && ts[k] == TestOf(cs[k].cmp, cs[k].c, width)
  {
    ts := Scans(cs, width);
  }

  lemma {:induction false} WentOn(s: Sketch, ts: seq<Option<Test>>, words: nat, k: nat, result: Pruning, p: Pruning)
    requires |s.base| == |s.codes| && k < |ts| && Went(s, ts, words, k, result)
    requires !Shorter(s, ts[k], words) && !SelectsNone(s, ts[k])
    requires p != AlwaysFalse && (p == AlwaysTrue <==> SelectsAll(s, ts[k]))
    ensures Went(s, ts, words, k + 1, if p != result then NoPruning else result)
  {
    hide Shorter, SelectsNone, SelectsAll;
  }

  /** The merged mask and the selection after the first `k` comparisons. */
  ghost predicate Has(s: Sketch, ts: seq<Option<Test>>, held: Held, k: nat, merged: seq<Mask>, sel: Held)
    requires |s.base| == |s.codes| && k <= |ts|
  {
    && (k == 0 ==> sel == held)
    && (k > 0 ==> Joins(s, ts, held.mask, k, merged, sel.mask))
    && (k == 1 ==> sel.mask == merged && Alone(s, ts[0], held, sel))
  }

  /** The mask that comparison `k` leaves is merged; `ok` if it is long enough. */
  method MergeMask(s: Sketch, merged0: seq<Mask>, p: Pruning, sel: Held, k: nat,
                   ghost held: Held, ghost ts: seq<Option<Test>>, ghost before: Held)
    returns (ok: bool, merged: seq<Mask>)
    requires |s.base| == |s.codes| && k < |ts| && Has(s, ts, held, k, merged0, before)
    requires p == AlwaysFalse <==> SelectsNone(s, ts[k])
    requires Leaves(s, ts[k], before, sel)
    ensures ok <==> !Shorter(s, ts[k], FirstWords(s, ts, held.mask))
    ensures ok && p != AlwaysFalse ==> Has(s, ts, held, k + 1, merged, sel)
  {
    hide Shorter, FirstWords, Joins, SelectsNone, Selects, Words, NoRow, HasBit, Merged, Ascending;
    LeavesMask(s, ts[k], before, sel);
    if k == 0 {
      ShorterFirst(s, ts, held.mask);
      if p != AlwaysFalse { JoinsFirst(s, ts, held.mask, sel.mask); }
      return true, sel.mask;
    }
    JoinsWords(s, ts, held.mask, k, merged0, before.mask);
    ShorterIs(s, ts[k], |merged0|, |sel.mask|);
    if |merged0| > |sel.mask| { return false, merged0; }
    if p != AlwaysFalse { JoinsNext(s, ts, held.mask, k, merged0, before.mask, sel.mask); }
    return true, Merged(merged0, sel.mask);
  }

  lemma {:induction false} KeptIs(s: Sketch, ts: seq<Option<Test>>, held: Held, merged: seq<Mask>, sel: Held)
    requires |s.base| == |s.codes| && ts != [] && Has(s, ts, held, |ts|, merged, sel)
    ensures forall i: nat :: HasBit(merged, i) <==> Keeps(s, ts, held.mask, i)
    ensures |ts| == 1 ==> sel.mask == merged
    ensures |ts| == 1 && ts[0].None? ==> sel == held
    ensures |ts| == 1 && ts[0].Some? ==>
      Ascending(sel.rows) && forall i: nat :: i in sel.rows <==> Keeps(s, ts, held.mask, i)
  {
    hide HasBit, Selects, Ascending;
    assert ts[..|ts|] == ts;
  }

  lemma Start(s: Sketch, ts: seq<Option<Test>>, held: Held, words: nat)
    requires |s.base| == |s.codes|
    ensures Has(s, ts, held, 0, [], held) && Went(s, ts, words, 0, AlwaysTrue)
  {
  }

  /** ConjunctionAndFilter::CheckSketchStatistics, for comparisons with constants. */
  method And(s: Sketch, cs: seq<Child>, width: nat, held: Held) returns (r: Joined)
    requires Valid(s) && InWidth(s, width) && cs != [] && InRange(cs, width)
    ensures var ts := Scans(cs, width);
      r == PastMask <==> exists k :: StopsPast(s, ts, FirstWords(s, ts, held.mask), k)
    ensures var ts := Scans(cs, width);
      r == NoneLeft <==> exists k :: StopsNone(s, ts, FirstWords(s, ts, held.mask), k)
    ensures r.Kept? ==> var ts := Scans(cs, width);
      r.verdict == if forall k :: 0 <= k < |ts| ==> SelectsAll(s, ts[k]) then AlwaysTrue else NoPruning
    ensures r.Kept? ==> var ts := Scans(cs, width);
      forall i: nat :: HasBit(r.held.mask, i) <==> Keeps(s, ts, held.mask, i)
    ensures r.Kept? ==> var ts := Scans(cs, width);
      if |cs| == 1 && ts[0].None? then r.held == held
      else Ascending(r.held.rows) && forall i: nat :: i in r.held.rows <==> Keeps(s, ts, held.mask, i)
  {
    hide *;
    ValidLengths(s);
    ghost var ts := ScansAre(cs, width);
    ghost var words := FirstWords(s, ts, held.mask);
    var merged: seq<Mask>, sel, result := [], held, AlwaysTrue;
    Start(s, ts, held, words);
    for k := 0 to |cs|
      invariant Has(s, ts, held, k, merged, sel) && Went(s, ts, words, k, result)
    {
      ghost var before := sel;
      var p, ok;
      p, sel := CheckChild(s, cs[k], width, sel);
      ok, merged := MergeMask(s, merged, p, sel, k, held, ts, before);
      if !ok {
        PastStops(s, ts, words, k, result);
        return PastMask;
      }
      if p == AlwaysFalse {
        NoneStops(s, ts, words, k, result);
        return NoneLeft;
      }
      WentOn(s, ts, words, k, result, p);
      if p != result { result := NoPruning; }
    }
    NothingStops(s, ts, words, result);
    KeptIs(s, ts, held, merged, sel);
    if |cs| > 1 {
      var rows := BitmaskToSelection(merged);
      sel := Held(rows, merged);
    }
    return Kept(result, sel);
  }

  // ---------------------------------------------------------------- what the AND means

  /** No scan of the comparisons wraps its constant or misses a row. */
  predicate AllExact(s: Sketch, cs: seq<Child>, width: nat)
    requires |s.base| == |s.codes| && InRange(cs, width)
  {
    forall k :: 0 <= k < |cs| && TestOf(cs[k].cmp, cs[k].c, width).Some? ==>
      !Wraps(cs[k].cmp, cs[k].c, width) && NoneMissed(s, TestOf(cs[k].cmp, cs[k].c, width).value)
  }

  predicate IsEquality(child: Child) { child.cmp == Equal || child.cmp == NotEqual }

  /** With exact scans the rows kept satisfy all orderings, and are in the vector's mask if an equality is first. */
  lemma {:induction false} AndExact(s: Sketch, cs: seq<Child>, width: nat, mask: seq<Mask>, i: nat)
    requires Valid(s) && cs != [] && InRange(cs, width) && AllExact(s, cs, width)
    ensures Keeps(s, Scans(cs, width), mask, i) <==>
      && (IsEquality(cs[0]) ==> HasBit(mask, i))
      && forall k :: 0 <= k < |cs| && !IsEquality(cs[k]) ==> i < |s.base| && Satisfies(cs[k].cmp, s.base[i], cs[k].c)
  {
    hide Valid, HasBit, Satisfies, Selects, NoneMissed, Wraps;
    ValidLengths(s);
    var ts := ScansAre(cs, width);
    forall k | 0 <= k < |cs| && ts[k].Some?
      ensures i < |s.base| ==> (Selects(s, ts[k].value, i) <==> Satisfies(cs[k].cmp, s.base[i], cs[k].c))
    {
      if i < |s.base| { SelectedIfAll(s, cs[k].cmp, cs[k].c, width, i); }
    }
  }

  /** On a vector without a mask, an AND that starts with an equality keeps no row. */
  lemma {:induction false} EqualityFirstKeepsNone(s: Sketch, cs: seq<Child>, width: nat, i: nat)
    requires |s.base| == |s.codes| && cs != [] && InRange(cs, width) && IsEquality(cs[0])
    ensures !Keeps(s, Scans(cs, width), [], i)
    ensures !exists k :: StopsPast(s, Scans(cs, width), FirstWords(s, Scans(cs, width), []), k)
  {
    hide Selects, SelectsNone;
    var ts := ScansAre(cs, width);
    assert ts[0].None? && !HasBit([], i);
  }
}
