/** Filters on several sketched columns: the masks that they left for a vector are merged column by column. */
module SketchColumns {
  import opened ColumnSketch
  import opened SketchScan
  import opened SketchVector
  import opened SketchFilter
  import opened SketchAnd
  import opened SketchCases

  /** The rows that are scanned on. `PastColumn`: a mask was read past its end. */
  datatype Scanned = Rows(rows: seq<nat>) | PastColumn

  predicate AllHave(columns: seq<Held>, i: nat) { forall k :: 0 <= k < |columns| ==> HasBit(columns[k].mask, i) }

  /** The masks of all columns are at least as long as the first. */
  predicate LongEnough(columns: seq<Held>) { forall k :: 0 <= k < |columns| ==> |columns[0].mask| <= |columns[k].mask| }

  lemma {:induction false} AllHaveMore(columns: seq<Held>, k: nat, i: nat)
    requires k < |columns|
    ensures AllHave(columns[..k + 1], i) <==> AllHave(columns[..k], i) && HasBit(columns[k].mask, i)
  {
    hide HasBit;
    assert columns[..k + 1][k] == columns[k];
    assert forall j :: 0 <= j < k ==> columns[..k + 1][j] == columns[..k][j] == columns[j];
  }

  lemma NoneHave()
    ensures forall i: nat :: AllHave([], i)
  {
  }

  /** The merge in the scan of a row group, for the columns with filters in their order. */
  method MergeColumns(columns: seq<Held>) returns (r: Scanned)
    requires columns != []
    ensures r == PastColumn <==> !LongEnough(columns)
    ensures r.Rows? && |columns| == 1 ==> r.rows == columns[0].rows
    ensures r.Rows? && |columns| > 1 ==>
      Ascending(r.rows) && forall i: nat :: i in r.rows <==> AllHave(columns, i)
  {
    hide HasBit, Merged, Ascending, AllHave;
    var merged: seq<Mask> := [];
    for k := 0 to |columns|
      invariant k > 0 ==> |merged| == |columns[0].mask|
      invariant k > 0 ==> forall i: nat :: HasBit(merged, i) <==> AllHave(columns[..k], i)
      invariant forall j :: 0 <= j < k ==> |columns[0].mask| <= |columns[j].mask|
    {
      var mask := columns[k].mask;
      forall i: nat ensures AllHave(columns[..k + 1], i) <==> AllHave(columns[..k], i) && HasBit(mask, i) {
        AllHaveMore(columns, k, i);
      }
      if k == 0 {
        NoneHave();
        assert columns[..0] == [];
        merged := mask;
      } else {
        if |merged| > |mask| { return PastColumn; }
        MergedBits(merged, mask);
        merged := Merged(merged, mask);
      }
    }
    assert columns[..|columns|] == columns;
    if |columns| == 1 { return Rows(columns[0].rows); }
    var rows := BitmaskToSelection(merged);
    return Rows(rows);
  }

  /** What a comparison leaves for a vector, if it selects by a scan. */
  function Scan(s: Sketch, t: Test): Held
    requires |s.base| == |s.codes| && !NoRow(s, t.op, t.x)
  {
    Held(Evaluated(s, t.op, t.x).rows, Evaluated(s, t.op, t.x).mask)
  }

  /**
    With one comparison on each of two columns of a vector, a mask is read past its end exactly if the rows fill
    whole words, the first comparison is within the range of its column, and all rows satisfy the second.
   */
  lemma {:induction false} TwoColumns(s: Sketch, t: Test, s': Sketch, t': Test)
    requires Valid(s) && Valid(s') && |s.base| == |s'.base| && !NoRow(s, t.op, t.x) && !NoRow(s', t'.op, t'.x)
    ensures |s.base| == |s.codes| && |s'.base| == |s'.codes|
    ensures !LongEnough([Scan(s, t), Scan(s', t')]) <==>
      |s.base| % LANES == 0 && !EveryRow(s, t.op, t.x) && EveryRow(s', t'.op, t'.x)
  {
    hide Valid, NoRow, EveryRow, Evaluated;
    ValidLengths(s);
    ValidLengths(s');
    MaskLength(s, t);
    MaskLength(s', t');
    var columns := [Scan(s, t), Scan(s', t')];
    assert LongEnough(columns) <==> |columns[0].mask| <= |columns[1].mask|;
  }

  /** Otherwise, with exact scans, the rows scanned on are those that satisfy both. */
  lemma {:induction false} TwoColumnsExact(s: Sketch, t: Test, s': Sketch, t': Test, i: nat)
    requires Valid(s) && Valid(s') && |s.base| == |s'.base| && !NoRow(s, t.op, t.x) && !NoRow(s', t'.op, t'.x)
    requires NoneMissed(s, t) && NoneMissed(s', t')
    ensures AllHave([Scan(s, t), Scan(s', t')], i) <==>
      i < |s.base| && Holds(t.op, s.base[i], t.x) && Holds(t'.op, s'.base[i], t'.x)
  {
    hide Valid, NoRow, EveryRow, Evaluated, HasBit, Holds, Selects, Missed;
    ValidLengths(s);
    ValidLengths(s');
    SelectedBits(s, t, i);
    SelectedBits(s', t', i);
    if i < |s.base| {
      SelectsUnlessMissed(s, t, i);
      SelectsUnlessMissed(s', t', i);
    }
    var columns := [Scan(s, t), Scan(s', t')];
    assert AllHave(columns, i) <==> HasBit(columns[0].mask, i) && HasBit(columns[1].mask, i);
  }

  /** A column with an equality only has no mask on a fresh vector, and is read past its end after one that has. */
  lemma {:induction false} EqualityColumnShort(first: Held, rows: seq<nat>)
    ensures LongEnough([first, Held(rows, [])]) <==> first.mask == []
  {
    var columns := [first, Held(rows, [])];
    assert columns[1].mask == [];
  }

  /** Two columns of zeros and tens, asked for less than 5 and for less than 20. */
  lemma {:induction false} TensColumns()
    ensures var s := SketchOf(Tens()); Valid(s) && |s.base| == |s.codes| && !NoRow(s, Less, 5) && !NoRow(s, Less, 20)
    ensures !LongEnough([Scan(SketchOf(Tens()), Test(Less, 5)), Scan(SketchOf(Tens()), Test(Less, 20))])
  {
    hide SketchOf, Valid, Evaluated, LongEnough;
    TensBuilt();
    TwoColumns(SketchOf(Tens()), Test(Less, 5), SketchOf(Tens()), Test(Less, 20));
  }
}
