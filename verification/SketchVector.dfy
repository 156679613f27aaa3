/** The vectorised scan of a sketch: 64 rows at a time, as masks of lanes, then the rest one by one. */
module SketchVector {
  import opened ColumnSketch
  import opened SketchScan

  /** A 64-bit mask, as the set of its bits. */
  type Mask = set<nat>

  /** Row `i` is in a full block of 64. */
  predicate InBlock(s: Sketch, i: nat) { i < |s.base| / LANES * LANES }

  /** In full blocks, values are only looked at if the sketch says that equal codes need it. */
  predicate VectorPicks(s: Sketch, op: Op, x: nat, i: nat)
    requires i < |s.base| == |s.codes|
  {
    if InBlock(s, i) && !s.needCheck then CodeHolds(op, s.codes[i], ByteCode(s, x)) else Picks(s, op, x, i)
  }

  function VectorRows(s: Sketch, op: Op, x: nat, n: nat): seq<nat>
    requires n <= |s.base| == |s.codes|
  {
    if n == 0 then [] else VectorRows(s, op, x, n - 1) + if VectorPicks(s, op, x, n - 1) then [n - 1] else []
  }

  /** Lane `b` of the rows from `i` on is selected. */
  predicate Lane(s: Sketch, op: Op, x: nat, i: nat, b: nat)
    requires |s.base| == |s.codes|
  {
    i + b < |s.base| && VectorPicks(s, op, x, i + b)
  }

  /** The mask of the selected rows among the 64 from `i` on. */
  function LanesFrom(s: Sketch, op: Op, x: nat, i: nat): Mask
    requires |s.base| == |s.codes|
  {
    set b: nat | b < LANES && Lane(s, op, x, i, b)
  }

  // ---------------------------------------------------------------- the loops

  /** Count of trailing zeros: the lowest lane of a mask. */
  method Lowest(m: Mask) returns (b: nat)
    requires m != {} && forall c :: c in m ==> c < LANES
    ensures b in m && forall c :: c in m ==> b <= c
  {
    var some :| some in m;
    b := 0;
    while b !in m
      invariant b <= some && forall c :: c in m ==> b <= c
      decreases some - b
    {
      b := b + 1;
    }
  }

  /** Takes from the lanes with an equal code those whose value does not hold. */
  method CheckBase(s: Sketch, op: Op, x: nat, i: nat, equal: Mask) returns (kept: Mask)
    requires i + LANES <= |s.base| && forall b :: b in equal ==> b < LANES
    ensures kept == set b | b in equal && Holds(op, s.base[i + b], x)
  {
    kept := equal;
    var left := equal;
    while left != {}
      invariant left <= equal
      invariant kept == set b | b in equal && (b in left || Holds(op, s.base[i + b], x))
      decreases |left|
    {
      var offset := Lowest(left);
      if !Holds(op, s.base[i + offset], x) { kept := kept - {offset}; }
      left := left - {offset};
    }
  }

  lemma {:induction false} RowsSkip(s: Sketch, op: Op, x: nat, a: nat, b: nat)
    requires a <= b <= |s.base| == |s.codes| && forall i :: a <= i < b ==> !VectorPicks(s, op, x, i)
    ensures VectorRows(s, op, x, b) == VectorRows(s, op, x, a)
    decreases b - a
  {
    hide VectorPicks;
    if a < b { RowsSkip(s, op, x, a, b - 1); }
  }

  lemma LaneIn(s: Sketch, op: Op, x: nat, i: nat, b: nat)
    requires b < LANES && i + LANES <= |s.base| == |s.codes|
    ensures b in LanesFrom(s, op, x, i) <==> VectorPicks(s, op, x, i + b)
  {
  }

  /** No lane from `t` up to `u` is in the mask. */
  lemma {:induction false} NoLanes(s: Sketch, op: Op, x: nat, i: nat, t: nat, u: nat)
    requires t <= u <= LANES && i + LANES <= |s.base| == |s.codes|
    requires forall b :: b in LanesFrom(s, op, x, i) && b >= t ==> b >= u
    ensures VectorRows(s, op, x, i + u) == VectorRows(s, op, x, i + t)
  {
    hide VectorPicks, VectorRows;
    forall j: nat | i + t <= j < i + u ensures !VectorPicks(s, op, x, j) {
      LaneIn(s, op, x, i, j - i);
    }
    RowsSkip(s, op, x, i + t, i + u);
  }

  lemma LanesBelow(s: Sketch, op: Op, x: nat, i: nat)
    requires |s.base| == |s.codes|
    ensures forall b :: b in LanesFrom(s, op, x, i) ==> b < LANES
  {
  }

  lemma RowsPick(s: Sketch, op: Op, x: nat, i: nat)
    requires i < |s.base| == |s.codes| && VectorPicks(s, op, x, i)
    ensures VectorRows(s, op, x, i + 1) == VectorRows(s, op, x, i) + [i]
  {
  }

  /** Writes the rows of a block's mask, lowest first. */
  method Scatter(s: Sketch, op: Op, x: nat, i: nat, mask: Mask, rows0: seq<nat>) returns (rows: seq<nat>)
    requires i + LANES <= |s.base| == |s.codes| && mask == LanesFrom(s, op, x, i) && rows0 == VectorRows(s, op, x, i)
    ensures rows == VectorRows(s, op, x, i + LANES)
  {
    hide VectorPicks, VectorRows, LanesFrom;
    assert forall b :: b in mask ==> b < LANES by { LanesBelow(s, op, x, i); }
    rows := rows0;
    var left := mask;
    ghost var t: nat := 0;
    while left != {}
      invariant t <= LANES && left == set b | b in mask && b >= t
      invariant rows == VectorRows(s, op, x, i + t)
      decreases |left|
    {
      var b := Lowest(left);
      assert forall c :: c in mask && c >= t ==> c in left;
      NoLanes(s, op, x, i, t, b);
      LaneIn(s, op, x, i, b);
      RowsPick(s, op, x, i + b);
      rows := rows + [i + b];
      left := left - {b};
      t := b + 1;
    }
    assert forall c :: c in mask && c >= t ==> c in left;
    NoLanes(s, op, x, i, t, LANES);
  }

  predicate CodeLane(s: Sketch, op: Op, c: nat, i: nat, b: nat) {
    i + b < |s.codes| && CodeHolds(op, s.codes[i + b], c)
  }

  predicate EqualLane(s: Sketch, c: nat, i: nat, b: nat) { i + b < |s.codes| && s.codes[i + b] == c }

  /** The mask of one full block. */
  method ScanBlock(s: Sketch, op: Op, x: nat, c: nat, i: nat) returns (mask: Mask)
    requires |s.base| == |s.codes| && c == ByteCode(s, x) && i + LANES <= |s.base| / LANES * LANES
    ensures mask == LanesFrom(s, op, x, i)
  {
    hide ByteCode;
    mask := set b: nat | b < LANES && CodeLane(s, op, c, i, b);
    if s.needCheck {
      var equal := set b: nat | b < LANES && EqualLane(s, c, i, b);
      var kept := CheckBase(s, op, x, i, equal);
      mask := mask + kept;
    }
    forall b: nat | b < LANES ensures b in mask <==> b in LanesFrom(s, op, x, i) {
      LaneIn(s, op, x, i, b);
      assert InBlock(s, i + b);
      assert CodeLane(s, op, c, i, b) <==> CodeHolds(op, s.codes[i + b], c);
      assert EqualLane(s, c, i, b) <==> s.codes[i + b] == c;
    }
  }

  // ---------------------------------------------------------------- the scan

  /** What a scan leaves in the selection of a vector: nothing new if no row qualifies, else rows and their mask. */
  datatype Selection = Untouched | Selected(rows: seq<nat>, mask: seq<Mask>)

  /** The constant is out of the column's range on the side where no row qualifies. */
  predicate NoRow(s: Sketch, op: Op, x: nat) { if op == Less then x <= s.min else x >= s.max }

  /** The constant is out of the column's range on the side where every row qualifies. */
  predicate EveryRow(s: Sketch, op: Op, x: nat) { if op == Less then x > s.max else x < s.min }

  function Indexes(n: nat): seq<nat> { seq(n, i => i) }

  predicate IsRow(n: nat, w: nat, b: nat) { w * LANES + b < n }

  /** Masks with the first `n` bits set. */
  function FullMasks(n: nat): seq<Mask> {
    seq((n + LANES - 1) / LANES, w requires 0 <= w => set b: nat | b < LANES && IsRow(n, w, b))
  }

  /** One mask for each full block, and one for the rest even if it is empty. */
  function LaneMasks(s: Sketch, op: Op, x: nat): seq<Mask>
    requires |s.base| == |s.codes|
  {
    seq(|s.base| / LANES + 1, w requires 0 <= w => LanesFrom(s, op, x, w * LANES))
  }

  function Evaluated(s: Sketch, op: Op, x: nat): Selection
    requires |s.base| == |s.codes|
  {
    if NoRow(s, op, x) then Untouched
    else if EveryRow(s, op, x) then Selected(Indexes(|s.base|), FullMasks(|s.base|))
    else Selected(VectorRows(s, op, x, |s.base|), LaneMasks(s, op, x))
  }

  /** The rows after the last full block. */
  method ScanTail(s: Sketch, op: Op, x: nat, c: nat, rows0: seq<nat>) returns (rows: seq<nat>, tail: Mask)
    requires |s.base| == |s.codes| && c == ByteCode(s, x) && rows0 == VectorRows(s, op, x, |s.base| / LANES * LANES)
    ensures rows == VectorRows(s, op, x, |s.base|) && tail == LanesFrom(s, op, x, |s.base| / LANES * LANES)
  {
    hide ByteCode;
    rows, tail := rows0, {};
    var start := |s.base| / LANES * LANES;
    for i := start to |s.base|
      invariant rows == VectorRows(s, op, x, i)
      invariant tail == set b: nat | b < i - start && Lane(s, op, x, start, b)
    {
      assert Lane(s, op, x, start, i - start) <==> Picks(s, op, x, i);
      if CodeHolds(op, s.codes[i], c) || (s.codes[i] == c && Holds(op, s.base[i], x)) {
        rows := rows + [i];
        tail := tail + {i - start};
      }
    }
    assert forall b: nat :: Lane(s, op, x, start, b) ==> b < |s.base| - start;
  }

  /** evaluate_less_than_AVX512 and evaluate_greater_than_AVX512 */
  method Evaluate(s: Sketch, op: Op, x: nat) returns (r: Selection)
    requires Valid(s)
    ensures r == Evaluated(s, op, x)
  {
    hide Code, VectorPicks, LanesFrom;
    if NoRow(s, op, x) { return Untouched; }
    if EveryRow(s, op, x) {
      var all := AllRows(|s.base|);
      assert all == Indexes(|s.base|);
      return Selected(all, FullMasks(|s.base|));
    }
    var n := |s.base|;
    var c := LowerBound(s.endpoints, x);
    c := c % CODES;
    var rows: seq<nat>, mask: seq<Mask>, w := [], [], 0;
    while w * LANES + LANES <= n
      invariant w <= n / LANES && rows == VectorRows(s, op, x, w * LANES)
      invariant mask == LaneMasks(s, op, x)[..w]
    {
      var i := w * LANES;
      var m := ScanBlock(s, op, x, c, i);
      rows := Scatter(s, op, x, i, m, rows);
      mask := mask + [m];
      w := w + 1;
    }
    var tail;
    rows, tail := ScanTail(s, op, x, c, rows);
    mask := mask + [tail];
    assert mask == LaneMasks(s, op, x);
    return Selected(rows, mask);
  }

  // ---------------------------------------------------------------- when the scan is exact

  function RowsOf(r: Selection): seq<nat> { if r.Untouched? then [] else r.rows }

  /** The scan finds exactly the rows for which the comparison holds. */
  predicate Exact(s: Sketch, op: Op, x: nat)
    requires |s.base| == |s.codes|
  {
    RowsOf(Evaluated(s, op, x)) == RowsWhere(s.base, op, x, |s.base|)
  }

  /** A row that qualifies, in a full block, with the code of the constant and no look at its value. */
  predicate Missed(s: Sketch, op: Op, x: nat, i: nat)
    requires i < |s.base| == |s.codes|
  {
    InBlock(s, i) && !s.needCheck && Holds(op, s.base[i], x) && s.codes[i] == Code(s.endpoints, x)
  }

  lemma {:induction false} VectorPicksIs(s: Sketch, op: Op, x: nat, i: nat)
    requires Valid(s) && i < |s.base| && x <= s.max
    ensures VectorPicks(s, op, x, i) <==> Holds(op, s.base[i], x) && !Missed(s, op, x, i)
  {
    hide Code, Picks;
    PicksExact(s, op, x, i);
    ByteCodeIs(s, x);
    CodesKeepOrder(s.endpoints, s.base[i], x);
    CodesKeepOrder(s.endpoints, x, s.base[i]);
  }

  lemma SnocEqual(a: seq<nat>, b: seq<nat>, r: nat)
    ensures a + [r] == b + [r] <==> a == b
  {
    assert (a + [r])[..|a|] == a && (b + [r])[..|b|] == b;
    assert a + [r] == b + [r] ==> |a| == |b|;
  }

  lemma MissedHolds(s: Sketch, op: Op, x: nat, i: nat)
    requires i < |s.base| == |s.codes|
    ensures Missed(s, op, x, i) ==> Holds(op, s.base[i], x)
  {
  }

  lemma ValidLengths(s: Sketch)
    requires Valid(s)
    ensures |s.base| == |s.codes|
  {
  }

  lemma {:induction false} RowsDiffer(s: Sketch, op: Op, x: nat, n: nat)
    requires Valid(s) && n <= |s.base| && x <= s.max
    ensures VectorRows(s, op, x, n) == RowsWhere(s.base, op, x, n) <==> forall i :: 0 <= i < n ==> !Missed(s, op, x, i)
    ensures |VectorRows(s, op, x, n)| <= |RowsWhere(s.base, op, x, n)|
  {
    hide Missed, VectorPicks, Holds, Valid;
    ValidLengths(s);
    if n > 0 {
      RowsDiffer(s, op, x, n - 1);
      VectorPicksIs(s, op, x, n - 1);
      MissedHolds(s, op, x, n - 1);
      var a, b := VectorRows(s, op, x, n - 1), RowsWhere(s.base, op, x, n - 1);
      SnocEqual(a, b, n - 1);
      assert a + [] == a && b + [] == b;
      assert (forall i :: 0 <= i < n ==> !Missed(s, op, x, i))
        <==> (forall i :: 0 <= i < n - 1 ==> !Missed(s, op, x, i)) && !Missed(s, op, x, n - 1);
    }
  }

  /** The scan is exact unless it misses a row. */
  lemma {:induction false} ExactUnlessMissed(s: Sketch, op: Op, x: nat)
    requires Valid(s)
    ensures Exact(s, op, x) <==>
            NoRow(s, op, x) || EveryRow(s, op, x) || forall i :: 0 <= i < |s.base| ==> !Missed(s, op, x, i)
  {
    hide Missed, VectorRows;
    var n := |s.base|;
    if NoRow(s, op, x) {
      WhereNone(s.base, op, x, n);
    } else if EveryRow(s, op, x) {
      WhereAll(s.base, op, x, n);
      assert RowsWhere(s.base, op, x, n) == Indexes(n);
    } else {
      RowsDiffer(s, op, x, n);
    }
  }

  /** A sketch that has its values checked is exact for every constant. */
  lemma {:induction false} CheckedIsExact(s: Sketch, op: Op, x: nat)
    requires Valid(s) && s.needCheck
    ensures Exact(s, op, x)
  {
    hide Valid, Exact;
    ExactUnlessMissed(s, op, x);
  }

  /** Between a value and the next constant that must tell it apart there is an endpoint. */
  predicate Separated(s: Sketch, op: Op, v: nat) {
    if op == Less then v in s.endpoints else v == s.min || (v > 0 && v - 1 in s.endpoints)
  }

  lemma {:induction false} SeparatedNeverMissed(s: Sketch, op: Op, x: nat, i: nat)
    requires Valid(s) && i < |s.base| && Separated(s, op, s.base[i]) && !NoRow(s, op, x) && !EveryRow(s, op, x)
    ensures !Missed(s, op, x, i)
  {
    hide Code;
    CodesApart(s.endpoints, s.base[i], x);
    CodesApart(s.endpoints, x, s.base[i]);
  }

  /** The constant that an unseparated value is missed for. */
  lemma {:induction false} UnseparatedIsMissed(s: Sketch, op: Op, i: nat) returns (x: nat)
    requires Valid(s) && i < |s.base| && InBlock(s, i) && !s.needCheck && !Separated(s, op, s.base[i])
    ensures Missed(s, op, x, i) && !NoRow(s, op, x) && !EveryRow(s, op, x)
  {
    hide Code;
    var v := s.base[i];
    assert s.min <= v <= s.max;
    if op == Less {
      x := v + 1;
      assert s.endpoints[|s.endpoints| - 1] in s.endpoints;
      CodesApart(s.endpoints, v, x);
      CodesKeepOrder(s.endpoints, v, x);
    } else {
      x := v - 1;
      CodesApart(s.endpoints, x, v);
      CodesKeepOrder(s.endpoints, x, v);
    }
  }

  lemma OutsideNotMissed(s: Sketch, op: Op, x: nat, i: nat)
    requires i < |s.base| == |s.codes| && !InBlock(s, i)
    ensures !Missed(s, op, x, i)
  {
  }

  /** A sketch that skips the check is exact for all constants only if endpoints separate its values. */
  lemma {:induction false} UncheckedIsExact(s: Sketch, op: Op)
    requires Valid(s) && !s.needCheck
    ensures (forall x: nat :: Exact(s, op, x)) <==>
            forall i :: 0 <= i < |s.base| && InBlock(s, i) ==> Separated(s, op, s.base[i])
  {
    hide Valid, Exact, Missed, Separated, NoRow, EveryRow, InBlock;
    ValidLengths(s);
    if forall i :: 0 <= i < |s.base| && InBlock(s, i) ==> Separated(s, op, s.base[i]) {
      forall x: nat ensures Exact(s, op, x) {
        ExactUnlessMissed(s, op, x);
        if !NoRow(s, op, x) && !EveryRow(s, op, x) {
          forall i | 0 <= i < |s.base| ensures !Missed(s, op, x, i) {
            if InBlock(s, i) { SeparatedNeverMissed(s, op, x, i); } else { OutsideNotMissed(s, op, x, i); }
          }
        }
      }
    }
    if forall x: nat :: Exact(s, op, x) {
      forall i | 0 <= i < |s.base| && InBlock(s, i) ensures Separated(s, op, s.base[i]) {
        if !Separated(s, op, s.base[i]) {
          var x := UnseparatedIsMissed(s, op, i);
          ExactUnlessMissed(s, op, x);
        }
      }
    }
  }
}
