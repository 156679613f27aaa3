/** Columns of at most 256 rows, for which the sketch is the sorted column, and inputs on which scans go wrong. */
module SketchCases {
  import opened Basics
  import opened ColumnSketch
  import opened SketchScan
  import opened SketchVector
  import opened SketchFilter
  import opened SketchAnd

  lemma InsertLast(s: seq<nat>, x: nat)
    requires s == [] || s[|s| - 1] <= x
    ensures Insert(s, x) == s + [x]
  {
  }

  lemma {:induction false} SortSorted(s: seq<nat>)
    requires IsSorted(s)
    ensures Sort(s) == s
  {
    hide Insert;
    if s != [] {
      var n := |s| - 1;
      SortSorted(s[..n]);
      assert s == s[..n] + [s[n]];
      InsertLast(s[..n], s[n]);
    }
  }

  lemma {:induction false} ValuesCount(base: seq<nat>)
    ensures |Values(base)| <= |base|
  {
    if base != [] {
      var n := |base| - 1;
      ValuesCount(base[..n]);
      assert Values(base) == Values(base[..n]) + {base[n]};
    }
  }

  lemma {:induction false} QuantileSmall(i: nat, n: nat)
    requires i < n
    ensures Quantile(i, n, n) == i
  {
    assert (i + 1) * n == n * (i + 1);
    MulDiv(n, i + 1);
  }

  lemma {:induction false} SmallEndpoints(base: seq<nat>)
    requires 0 < |base| <= CODES
    ensures Endpoints(base) == Sort(base)
  {
    hide Sort, Quantile;
    SortIs(base);
    forall i: nat | i < |base| ensures Quantile(i, |base|, |base|) == i {
      QuantileSmall(i, |base|);
    }
  }

  /** With no more rows than codes the endpoints are the sorted column, and no check is asked for. */
  lemma {:induction false} SmallSketch(base: seq<nat>)
    requires 0 < |base| <= CODES
    ensures var s := SketchOf(base); Valid(s) && s.base == base && s.endpoints == Sort(base) && !s.needCheck
  {
    hide Sort, Code, Endpoints, Values, Valid;
    SketchIsValid(base);
    ValuesCount(base);
    SmallEndpoints(base);
  }

  /** The column of a small sketch. */
  lemma {:induction false} SmallExact(s: Sketch)
    requires Valid(s) && !s.needCheck && s.endpoints == Sort(s.base)
    ensures forall x: nat :: Exact(s, Less, x)
    ensures (forall x: nat :: Exact(s, Greater, x)) <==>
      forall i: nat :: i < |s.base| / LANES * LANES ==> s.base[i] == s.min || (s.base[i] > 0 && s.base[i] - 1 in s.base)
  {
    hide Valid, Exact, Sort;
    ValidLengths(s);
    UncheckedIsExact(s, Less);
    UncheckedIsExact(s, Greater);
    forall i: nat | i < |s.base|
      ensures Separated(s, Less, s.base[i])
      ensures Separated(s, Greater, s.base[i]) <==> s.base[i] == s.min || (s.base[i] > 0 && s.base[i] - 1 in s.base)
    {
      SortHolds(s.base, s.base[i]);
      if s.base[i] > 0 { SortHolds(s.base, s.base[i] - 1); }
    }
  }

  /**
    On a column of at most 256 rows "less" is exact for all constants, and "greater" exactly if every
    value in a full block is the least one or comes right after another value of the column.
   */
  lemma {:induction false} SmallColumn(base: seq<nat>)
    requires 0 < |base| <= CODES
    ensures |SketchOf(base).base| == |SketchOf(base).codes|
    ensures forall x: nat :: Exact(SketchOf(base), Less, x)
    ensures (forall x: nat :: Exact(SketchOf(base), Greater, x)) <==>
      forall i: nat :: i < |base| / LANES * LANES ==>
        base[i] == SketchOf(base).min || (base[i] > 0 && base[i] - 1 in base)
  {
    hide *;
    SmallSketch(base);
    ValidLengths(SketchOf(base));
    SmallExact(SketchOf(base));
  }

  // ---------------------------------------------------------------- a column of zeros and tens

  lemma {:induction false} ColumnEnds(s: Sketch)
    requires Valid(s) && s.endpoints == s.base
    ensures s.min == s.base[0] && s.max == s.base[|s.base| - 1] && |s.codes| == |s.base|
  {
    hide Code;
  }

  lemma {:induction false} SmallSorted(base: seq<nat>)
    requires 0 < |base| <= CODES && IsSorted(base)
    ensures var s := SketchOf(base);
      && Valid(s) && s.base == base == s.endpoints && !s.needCheck && |s.codes| == |base|
      && s.min == base[0] && s.max == base[|base| - 1]
  {
    hide *;
    SmallSketch(base);
    SortSorted(base);
    ColumnEnds(SketchOf(base));
  }

  function Tens(): (base: seq<nat>)
    ensures |base| == 64
  {
    seq(64, i => if i < 32 then 0 else 10)
  }

  predicate TensColumn(s: Sketch) {
    && Valid(s) && |s.base| == |s.endpoints| == |s.codes| == 64 && !s.needCheck && s.min == 0 && s.max == 10
    && (forall i :: 0 <= i < 64 ==> s.base[i] == s.endpoints[i] == if i < 32 then 0 else 10)
  }

  lemma {:induction false} TensBuilt()
    ensures TensColumn(SketchOf(Tens()))
  {
    hide SketchOf, Valid;
    SmallSorted(Tens());
  }

  lemma {:induction false} TensCodes(s: Sketch)
    requires TensColumn(s)
    ensures Code(s.endpoints, 0) == 0 && Code(s.endpoints, 10) == 32 && Code(s.endpoints, 5) == 32
    ensures forall i :: 0 <= i < 64 ==> s.codes[i] == if i < 32 then 0 else 32
  {
    hide Code;
    CodeIs(s.endpoints, 0);
    CodeIs(s.endpoints, 10);
    CodeIs(s.endpoints, 5);
    assert s.endpoints[0] == 0 && s.endpoints[31] == 0 && s.endpoints[32] == 10;
  }

  /** "Greater than 5" finds none of the tens: the constant has their code, and their values are not looked at. */
  lemma {:induction false} TensMissed(s: Sketch)
    requires TensColumn(s)
    ensures !Exact(s, Greater, 5) && SelectsNone(s, Some(Test(Greater, 5))) && !NoneSatisfies(s.base, GreaterThan, 5)
  {
    TensCodes(s);
    hide Code, Valid, Exact, IsSorted;
    assert Missed(s, Greater, 5, 40);
    ExactUnlessMissed(s, Greater, 5);
    forall i: nat | i < 64 ensures !Selects(s, Test(Greater, 5), i) {
      assert InBlock(s, i);
    }
    assert Satisfies(GreaterThan, s.base[40], 5);
  }

  /** "Less than 5" finds the zeros with a mask of two words, and "less than 20" all rows with a mask of one. */
  lemma {:induction false} TensShorter(s: Sketch)
    requires TensColumn(s)
    ensures Words(s, Test(Less, 5)) == Words(s, Test(Greater, 5)) == 2 && Shorter(s, Some(Test(Less, 20)), 2)
    ensures !SelectsNone(s, Some(Test(Less, 5)))
  {
    TensCodes(s);
    hide Code, Valid, IsSorted;
    assert Selects(s, Test(Less, 5), 0);
  }

  /** The verdict "always false" on "greater than 5" is wrong, and the scan is not exact. */
  lemma {:induction false} AlwaysFalseWrong()
    ensures var s := SketchOf(Tens());
      && Valid(s) && !s.needCheck && !Exact(s, Greater, 5)
      && SelectsNone(s, TestOf(GreaterThan, 5, 0x1_0000_0000)) && !NoneSatisfies(s.base, GreaterThan, 5)
  {
    hide SketchOf, Valid, Exact, SelectsNone, NoneSatisfies;
    TensBuilt();
    TensMissed(SketchOf(Tens()));
  }

  lemma FirstNotShorter(s: Sketch, t: Test)
    ensures !Shorter(s, Some(t), Words(s, t))
  {
  }

  /** "Greater than 5 and less than 20" stops at the first comparison, though the mask of the second is shorter. */
  lemma {:induction false} TensStop(mask: seq<Mask>)
    ensures var s, ts := SketchOf(Tens()), [Some(Test(Greater, 5)), Some(Test(Less, 20))];
      && |s.base| == |s.codes| && StopsNone(s, ts, FirstWords(s, ts, mask), 0)
      && Shorter(s, ts[1], FirstWords(s, ts, mask))
  {
    hide SketchOf, Valid, SelectsNone, Words, Exact, Shorter;
    TensBuilt();
    TensMissed(SketchOf(Tens()));
    TensShorter(SketchOf(Tens()));
    FirstNotShorter(SketchOf(Tens()), Test(Greater, 5));
  }

  /** "Less than 5 and less than 20" reads past the mask of the second comparison. */
  lemma {:induction false} TensPast(mask: seq<Mask>)
    ensures var s, ts := SketchOf(Tens()), [Some(Test(Less, 5)), Some(Test(Less, 20))];
      |s.base| == |s.codes| && StopsPast(s, ts, FirstWords(s, ts, mask), 1)
  {
    hide SketchOf, Valid, SelectsNone, Words, Shorter;
    TensBuilt();
    TensShorter(SketchOf(Tens()));
  }

  // ---------------------------------------------------------------- a column with all codes

  function Counting(): (base: seq<nat>)
    ensures |base| == CODES
  {
    seq(CODES, i => i)
  }

  /** The scalar scan finds rows of 0, 1, ..., 255 that are greater than 256. */
  lemma {:induction false} CountingWrong()
    ensures var s := SketchOf(Counting());
      Valid(s) && PickedRows(s, Greater, 256, |s.base|) != RowsWhere(s.base, Greater, 256, |s.base|)
  {
    hide SketchOf, Valid, PickedRows, RowsWhere;
    SmallSorted(Counting());
    GreaterExact(SketchOf(Counting()), 256);
  }
}
