/** Filters on a sketched column that compare it with a constant. */
module SketchFilter {
  import opened Basics
  import opened ColumnSketch
  import opened SketchScan
  import opened SketchVector

  datatype Comparison = Equal | NotEqual | GreaterEqual | GreaterThan | LessEqual | LessThan

  /** What a filter says of a vector. */
  datatype Pruning = AlwaysTrue | AlwaysFalse | NoPruning

  predicate Satisfies(cmp: Comparison, v: int, c: int) {
    match cmp
    case Equal => v == c
    case NotEqual => v != c
    case GreaterEqual => v >= c
    case GreaterThan => v > c
    case LessEqual => v <= c
    case LessThan => v < c
  }

  datatype Test = Test(op: Op, x: nat)

  /** The scan that decides a comparison, with the constant moved by one in unsigned arithmetic where needed. */
  function TestOf(cmp: Comparison, c: nat, width: nat): Option<Test>
    requires c < width
  {
    match cmp
    case Equal => None
    case NotEqual => None
    case GreaterEqual => Some(Test(Greater, (c - 1) % width))
    case GreaterThan => Some(Test(Greater, c))
    case LessEqual => Some(Test(Less, (c + 1) % width))
    case LessThan => Some(Test(Less, c))
  }

  /** The rows among the first `n` that satisfy a comparison. */
  function Satisfying(base: seq<int>, cmp: Comparison, c: int, n: nat): seq<nat>
    requires n <= |base|
  {
    if n == 0 then [] else Satisfying(base, cmp, c, n - 1) + if Satisfies(cmp, base[n - 1], c) then [n - 1] else []
  }

  // ---------------------------------------------------------------- the rows that a scan selects

  /** A test selects row `i`. */
  predicate Selects(s: Sketch, t: Test, i: nat)
    requires i < |s.base| == |s.codes|
  {
    EveryRow(s, t.op, t.x) || (!NoRow(s, t.op, t.x) && VectorPicks(s, t.op, t.x, i))
  }

  predicate Ascending(rows: seq<nat>) { forall i, j :: 0 <= i < j < |rows| ==> rows[i] < rows[j] }

  lemma {:induction false} VectorRowsAre(s: Sketch, t: Test, n: nat)
    requires n <= |s.base| == |s.codes|
    ensures Ascending(VectorRows(s, t.op, t.x, n))
    ensures forall i: nat :: i in VectorRows(s, t.op, t.x, n) <==> i < n && VectorPicks(s, t.op, t.x, i)
  {
    hide VectorPicks;
    if n > 0 {
      VectorRowsAre(s, t, n - 1);
      var rows := VectorRows(s, t.op, t.x, n - 1);
      assert forall k :: 0 <= k < |rows| ==> rows[k] in rows;
    }
  }

  /** A scan leaves the rows it selects, in order. */
  lemma {:induction false} RowsAre(s: Sketch, t: Test)
    requires |s.base| == |s.codes|
    ensures NoRow(s, t.op, t.x) && EveryRow(s, t.op, t.x) ==> s.max < s.min
    ensures s.min <= s.max ==> var rows := RowsOf(Evaluated(s, t.op, t.x));
      Ascending(rows) && forall i: nat :: i in rows <==> i < |s.base| && Selects(s, t, i)
  {
    hide VectorPicks, VectorRows;
    VectorRowsAre(s, t, |s.base|);
    assert forall i: nat :: i in Indexes(|s.base|) <==> i < |s.base| && Indexes(|s.base|)[i] == i;
  }

  lemma {:induction false} AscendingAll(rows: seq<nat>, n: nat)
    requires Ascending(rows) && forall k :: 0 <= k < |rows| ==> rows[k] < n
    ensures |rows| <= n && (|rows| == n <==> forall i: nat :: i < n ==> i in rows)
  {
    if rows == [] {
      if n > 0 { assert 0 !in rows; }
    } else {
      assert rows[0] < n;
      var m := |rows| - 1;
      assert forall k :: 0 <= k < m ==> rows[k] < rows[m] < n;
      AscendingAll(rows[..m], n - 1);
      assert rows == rows[..m] + [rows[m]];
      assert rows[m] < n;
      if rows[m] == n - 1 {
        assert forall i: nat :: i < n - 1 ==> (i in rows <==> i in rows[..m]);
      } else {
        AscendingAll(rows, n - 1);
        assert n - 1 !in rows;
      }
    }
  }

  // ---------------------------------------------------------------- when a comparison is decided right

  predicate InWidth(s: Sketch, width: nat) { forall i :: 0 <= i < |s.base| ==> s.base[i] < width }

  /** The constant that an inclusive comparison moves wraps around. */
  predicate Wraps(cmp: Comparison, c: nat, width: nat) {
    (cmp == GreaterEqual && c == 0) || (cmp == LessEqual && c + 1 == width)
  }

  lemma SmallModulo(a: nat, width: nat)
    requires a < width
    ensures a % width == a
  {
  }

  lemma {:induction false} TestDecides(cmp: Comparison, c: nat, width: nat, v: nat)
    requires c < width && TestOf(cmp, c, width).Some? && !Wraps(cmp, c, width)
    ensures var t := TestOf(cmp, c, width).value; Satisfies(cmp, v, c) <==> Holds(t.op, v, t.x)
  {
    if c > 0 { SmallModulo(c - 1, width); }
    if c + 1 < width { SmallModulo(c + 1, width); }
  }

  lemma {:induction false} SatisfyingIsWhere(base: seq<nat>, cmp: Comparison, c: nat, width: nat, n: nat)
    requires n <= |base| && c < width && TestOf(cmp, c, width).Some? && !Wraps(cmp, c, width)
    ensures var t := TestOf(cmp, c, width).value; Satisfying(base, cmp, c, n) == RowsWhere(base, t.op, t.x, n)
  {
    hide TestOf, Satisfies, Holds, Wraps;
    if n > 0 {
      TestDecides(cmp, c, width, base[n - 1]);
      SatisfyingIsWhere(base, cmp, c, width, n - 1);
    }
  }

  lemma {:induction false} SatisfyingNone(base: seq<int>, cmp: Comparison, c: int, n: nat)
    requires n <= |base|
    ensures Satisfying(base, cmp, c, n) == [] <==> forall i :: 0 <= i < n ==> !Satisfies(cmp, base[i], c)
  {
    hide Satisfies;
    if n > 0 { SatisfyingNone(base, cmp, c, n - 1); }
  }

  lemma WrappedConstant(cmp: Comparison, c: nat, width: nat)
    requires c < width && Wraps(cmp, c, width)
    ensures cmp == GreaterEqual ==> (c - 1) % width == width - 1
    ensures cmp == LessEqual ==> (c + 1) % width == 0
  {
    if cmp == GreaterEqual { assert -1 == -1 * width + (width - 1); }
  }

  /** With a constant that wraps no row is selected and every row satisfies the comparison. */
  lemma {:induction false} WrappedSelectsNone(s: Sketch, cmp: Comparison, c: nat, width: nat)
    requires Valid(s) && InWidth(s, width) && c < width && Wraps(cmp, c, width)
    ensures var t := TestOf(cmp, c, width).value; NoRow(s, t.op, t.x) && !EveryRow(s, t.op, t.x)
    ensures forall i :: 0 <= i < |s.base| ==> Satisfies(cmp, s.base[i], c)
  {
    assert s.max < width && s.min <= s.max;
    WrappedConstant(cmp, c, width);
  }

  /** With an exact scan, an ordering comparison is decided right exactly when its constant does not wrap. */
  lemma {:induction false} ComparisonExact(s: Sketch, cmp: Comparison, c: nat, width: nat)
    requires Valid(s) && InWidth(s, width) && c < width && TestOf(cmp, c, width).Some?
    requires var t := TestOf(cmp, c, width).value; Exact(s, t.op, t.x)
    ensures var t := TestOf(cmp, c, width).value;
      RowsOf(Evaluated(s, t.op, t.x)) == Satisfying(s.base, cmp, c, |s.base|) <==> !Wraps(cmp, c, width)
  {
    var n := |s.base|;
    if Wraps(cmp, c, width) {
      WrappedSelectsNone(s, cmp, c, width);
      SatisfyingNone(s.base, cmp, c, n);
      assert n > 0 && Satisfies(cmp, s.base[0], c);
    } else {
      SatisfyingIsWhere(s.base, cmp, c, width, n);
    }
  }

  // ---------------------------------------------------------------- the verdict on a vector

  /** A row is selected exactly if it qualifies and is not missed. */
  lemma {:induction false} SelectsUnlessMissed(s: Sketch, t: Test, i: nat)
    requires Valid(s) && i < |s.base|
    ensures Selects(s, t, i) ==> Holds(t.op, s.base[i], t.x)
    ensures !NoRow(s, t.op, t.x) && !EveryRow(s, t.op, t.x) ==>
              (Selects(s, t, i) <==> Holds(t.op, s.base[i], t.x) && !Missed(s, t.op, t.x, i))
    ensures NoRow(s, t.op, t.x) ==> !Holds(t.op, s.base[i], t.x)
    ensures EveryRow(s, t.op, t.x) ==> Selects(s, t, i)
  {
    hide VectorPicks, Missed;
    if !NoRow(s, t.op, t.x) && !EveryRow(s, t.op, t.x) { VectorPicksIs(s, t.op, t.x, i); }
  }

  /** What the number of rows that a scan selects says about the rows. */
  lemma {:induction false} CountIs(s: Sketch, t: Test)
    requires Valid(s)
    ensures var rows := RowsOf(Evaluated(s, t.op, t.x));
      && (rows == [] <==> forall i: nat :: i < |s.base| ==> !Selects(s, t, i))
      && (|rows| == |s.base| <==> forall i: nat :: i < |s.base| ==> Selects(s, t, i))
  {
    assert s.min <= s.max && |s.base| == |s.codes|;
    hide *;
    RowsAre(s, t);
    var rows := RowsOf(Evaluated(s, t.op, t.x));
    forall k | 0 <= k < |rows| ensures rows[k] < |s.base| {
      assert rows[k] in rows;
    }
    AscendingAll(rows, |s.base|);
    if rows != [] { assert rows[0] in rows; }
  }

  predicate NoneSatisfies(base: seq<nat>, cmp: Comparison, c: nat) {
    forall i :: 0 <= i < |base| ==> !Satisfies(cmp, base[i], c)
  }

  predicate AllSatisfy(base: seq<nat>, cmp: Comparison, c: nat) {
    forall i :: 0 <= i < |base| ==> Satisfies(cmp, base[i], c)
  }

  predicate NoneMissed(s: Sketch, t: Test)
    requires |s.base| == |s.codes|
  {
    NoRow(s, t.op, t.x) || EveryRow(s, t.op, t.x) || forall i :: 0 <= i < |s.base| ==> !Missed(s, t.op, t.x, i)
  }

  /** That no row is selected means that none satisfies the comparison unless the constant wraps or a row is missed. */
  lemma {:induction false} NoneSelected(s: Sketch, cmp: Comparison, c: nat, width: nat)
    requires Valid(s) && InWidth(s, width) && c < width && TestOf(cmp, c, width).Some?
    requires forall i: nat :: i < |s.base| ==> !Selects(s, TestOf(cmp, c, width).value, i)
    ensures NoneSatisfies(s.base, cmp, c) <==> !Wraps(cmp, c, width) && NoneMissed(s, TestOf(cmp, c, width).value)
  {
    var t := TestOf(cmp, c, width).value;
    if Wraps(cmp, c, width) {
      WrappedSelectsNone(s, cmp, c, width);
      assert Satisfies(cmp, s.base[0], c);
    } else {
      assert |s.base| == |s.codes| > 0;
      hide Valid, Selects, Satisfies, Holds, NoRow, EveryRow, TestOf, Wraps;
      forall i: nat | i < |s.base| ensures Satisfies(cmp, s.base[i], c) <==> Holds(t.op, s.base[i], t.x) {
        TestDecides(cmp, c, width, s.base[i]);
      }
      forall i: nat | i < |s.base|
        ensures !EveryRow(s, t.op, t.x)
        ensures Holds(t.op, s.base[i], t.x) <==> !NoRow(s, t.op, t.x) && Missed(s, t.op, t.x, i)
      {
        SelectsUnlessMissed(s, t, i);
        MissedHolds(s, t.op, t.x, i);
      }
      assert !EveryRow(s, t.op, t.x);
    }
  }

  /** That every row is selected means that all of them satisfy the comparison. */
  lemma {:induction false} AllSelected(s: Sketch, cmp: Comparison, c: nat, width: nat)
    requires Valid(s) && InWidth(s, width) && c < width && TestOf(cmp, c, width).Some?
    requires forall i: nat :: i < |s.base| ==> Selects(s, TestOf(cmp, c, width).value, i)
    ensures AllSatisfy(s.base, cmp, c) && !Wraps(cmp, c, width)
  {
    var t := TestOf(cmp, c, width).value;
    assert |s.base| == |s.codes| > 0 && Selects(s, t, 0);
    if Wraps(cmp, c, width) {
      WrappedSelectsNone(s, cmp, c, width);
      assert false;
    } else {
      hide Valid, Selects, Satisfies, Holds, NoRow, EveryRow, TestOf, Wraps;
      forall i: nat | i < |s.base| ensures Satisfies(cmp, s.base[i], c) {
        SelectsUnlessMissed(s, t, i);
        TestDecides(cmp, c, width, s.base[i]);
      }
    }
  }

  /** Rows that all satisfy the comparison are all selected if none is missed and the constant does not wrap. */
  lemma {:induction false} SelectedIfAll(s: Sketch, cmp: Comparison, c: nat, width: nat, i: nat)
    requires Valid(s) && c < width && TestOf(cmp, c, width).Some? && i < |s.base|
    requires !Wraps(cmp, c, width) && NoneMissed(s, TestOf(cmp, c, width).value)
    ensures Selects(s, TestOf(cmp, c, width).value, i) <==> Satisfies(cmp, s.base[i], c)
  {
    hide Valid, Selects, Satisfies, Holds, NoRow, EveryRow, TestOf, Wraps, Missed;
    SelectsUnlessMissed(s, TestOf(cmp, c, width).value, i);
    TestDecides(cmp, c, width, s.base[i]);
  }

  /**
    CheckSketchTemplated: the verdict on the vector, and its new selection if there is one.
    "Always true" is right whenever it is given; "always false" exactly if no row is missed and the
    constant does not wrap, and then both are given whenever they are right.
   */
  method Check(s: Sketch, cmp: Comparison, c: nat, width: nat) returns (p: Pruning, sel: Selection)
    requires Valid(s) && InWidth(s, width) && c < width
    ensures TestOf(cmp, c, width).None? ==> p == NoPruning && sel == Untouched
    ensures TestOf(cmp, c, width).Some? ==> var t := TestOf(cmp, c, width).value;
      && sel == Evaluated(s, t.op, t.x)
      && (p == AlwaysFalse <==> forall i: nat :: i < |s.base| ==> !Selects(s, t, i))
      && (p == AlwaysTrue <==> forall i: nat :: i < |s.base| ==> Selects(s, t, i))
    ensures p == AlwaysTrue ==> AllSatisfy(s.base, cmp, c)
    ensures p == AlwaysFalse ==> TestOf(cmp, c, width).Some?
    ensures p == AlwaysFalse ==>
      (NoneSatisfies(s.base, cmp, c) <==> !Wraps(cmp, c, width) && NoneMissed(s, TestOf(cmp, c, width).value))
    ensures TestOf(cmp, c, width).Some? && !Wraps(cmp, c, width) && NoneMissed(s, TestOf(cmp, c, width).value) ==>
      && (p == AlwaysTrue <==> AllSatisfy(s.base, cmp, c))
      && (p == AlwaysFalse <==> NoneSatisfies(s.base, cmp, c))
  {
    assert s.base != [];
    hide Evaluated, Valid, Selects, TestOf, Wraps, NoneMissed, Satisfies, InWidth;
    ValidLengths(s);
    var t := TestOf(cmp, c, width);
    if t.None? { return NoPruning, Untouched; }
    sel := Evaluate(s, t.value.op, t.value.x);
    CountIs(s, t.value);
    var result := |RowsOf(sel)|;
    p := if result == 0 then AlwaysFalse else if result == |s.base| then AlwaysTrue else NoPruning;
    if p == AlwaysTrue { AllSelected(s, cmp, c, width); }
    if p == AlwaysFalse { NoneSelected(s, cmp, c, width); }
    if !Wraps(cmp, c, width) && NoneMissed(s, t.value) {
      forall i: nat | i < |s.base| ensures Selects(s, t.value, i) <==> Satisfies(cmp, s.base[i], c) {
        SelectedIfAll(s, cmp, c, width, i);
      }
      assert s.base[0] == s.base[0];
    }
  }

  // ---------------------------------------------------------------- signed columns

  /** static_cast to the unsigned type of the same width. */
  function Unsigned(v: int, half: int): nat
    requires -half <= v < half
  {
    if v < 0 then v + 2 * half else v
  }

  /** Comparing the casts of signed numbers is right exactly when their signs agree. */
  lemma {:induction false} SignedOrder(cmp: Comparison, v: int, c: int, half: int)
    requires -half <= v < half && -half <= c < half && cmp != Equal && cmp != NotEqual
    ensures (Satisfies(cmp, Unsigned(v, half), Unsigned(c, half)) <==> Satisfies(cmp, v, c)) <==> ((v < 0) == (c < 0))
  {
  }

  /** `base` is the signed column `vs`, cast. */
  predicate Casts(vs: seq<int>, base: seq<nat>, half: int) {
    |vs| == |base| && forall i :: 0 <= i < |vs| ==> -half <= vs[i] < half && base[i] == Unsigned(vs[i], half)
  }

  lemma {:induction false} SatisfyingBelow(base: seq<int>, cmp: Comparison, c: int, n: nat)
    requires n <= |base|
    ensures n !in Satisfying(base, cmp, c, n)
    ensures forall i :: i in Satisfying(base, cmp, c, n) ==> i < n
  {
    hide Satisfies;
    if n > 0 { SatisfyingBelow(base, cmp, c, n - 1); }
  }

  lemma {:induction false} SatisfyingSame(a: seq<int>, b: seq<int>, cmp: Comparison, c: int, d: int, n: nat)
    requires n <= |a| && n <= |b|
    ensures Satisfying(a, cmp, c, n) == Satisfying(b, cmp, d, n)
       <==> forall i :: 0 <= i < n ==> (Satisfies(cmp, a[i], c) <==> Satisfies(cmp, b[i], d))
  {
    hide Satisfies;
    if n > 0 {
      SatisfyingSame(a, b, cmp, c, d, n - 1);
      var x, y := Satisfying(a, cmp, c, n - 1), Satisfying(b, cmp, d, n - 1);
      SatisfyingBelow(a, cmp, c, n - 1);
      SatisfyingBelow(b, cmp, d, n - 1);
      SnocEqual(x, y, n - 1);
      assert x + [] == x && y + [] == y && n - 1 in x + [n - 1] && n - 1 in y + [n - 1];
    }
  }

  lemma {:induction false} SignedRows(vs: seq<int>, base: seq<nat>, cmp: Comparison, c: int, half: int)
    requires half > 0 && -half <= c < half && Casts(vs, base, half) && cmp != Equal && cmp != NotEqual
    ensures forall i :: 0 <= i < |vs| ==>
      ((Satisfies(cmp, base[i], Unsigned(c, half)) <==> Satisfies(cmp, vs[i], c)) <==> ((vs[i] < 0) == (c < 0)))
  {
    hide Satisfies;
    forall i | 0 <= i < |vs|
      ensures (Satisfies(cmp, base[i], Unsigned(c, half)) <==> Satisfies(cmp, vs[i], c)) <==> ((vs[i] < 0) == (c < 0))
    {
      SignedOrder(cmp, vs[i], c, half);
    }
  }

  /**
    On a signed column an exact scan selects the right rows exactly if all signs agree with the
    constant's or, where the cast constant wraps, if all of them differ from it.
   */
  lemma {:induction false} SignedExact(s: Sketch, vs: seq<int>, cmp: Comparison, c: int, half: int)
    requires half > 0 && -half <= c < half && Valid(s) && Casts(vs, s.base, half)
    requires TestOf(cmp, Unsigned(c, half), 2 * half).Some?
    requires var t := TestOf(cmp, Unsigned(c, half), 2 * half).value; Exact(s, t.op, t.x)
    ensures var u := Unsigned(c, half); var t := TestOf(cmp, u, 2 * half).value;
      RowsOf(Evaluated(s, t.op, t.x)) == Satisfying(vs, cmp, c, |vs|) <==>
      forall i :: 0 <= i < |vs| ==> ((vs[i] < 0) == (c < 0)) != Wraps(cmp, u, 2 * half)
  {
    var u, n := Unsigned(c, half), |vs|;
    if Wraps(cmp, u, 2 * half) {
      WrappedSelectsNone(s, cmp, u, 2 * half);
      hide Exact, Valid, VectorRows;
      SatisfyingNone(vs, cmp, c, n);
    } else {
      hide Valid, VectorRows, TestOf;
      SatisfyingIsWhere(s.base, cmp, u, 2 * half, n);
      SatisfyingSame(s.base, vs, cmp, u, c, n);
      SignedRows(vs, s.base, cmp, c, half);
    }
  }
}
