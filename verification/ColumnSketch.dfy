/**
  The column sketch: one-byte codes that keep the order of a column's values.

  Codes come from endpoints, which are quantiles of the sorted column: the code of a value is the
  number of endpoints below it. Comparing codes decides most rows of a comparison; the rows whose
  code is the constant's are decided by their values.
 */
module ColumnSketch {
  import opened Basics

  /** The codes of one byte. */
  const CODES: nat := 256

  // ---------------------------------------------------------------- sorting

  predicate IsSorted(s: seq<nat>) { forall i, j :: 0 <= i <= j < |s| ==> s[i] <= s[j] }

  function Insert(s: seq<nat>, x: nat): seq<nat> {
    if s == [] || s[|s| - 1] <= x then s + [x] else Insert(s[..|s| - 1], x) + [s[|s| - 1]]
  }

  /** What std::sort makes of a column. */
  function Sort(s: seq<nat>): seq<nat> { if s == [] then [] else Insert(Sort(s[..|s| - 1]), s[|s| - 1]) }

  lemma {:induction false} InsertKeeps(s: seq<nat>, x: nat)
    ensures multiset(Insert(s, x)) == multiset(s) + multiset{x} && |Insert(s, x)| == |s| + 1
  {
    if s != [] && s[|s| - 1] > x {
      var n := |s| - 1;
      InsertKeeps(s[..n], x);
      assert s == s[..n] + [s[n]];
    }
  }

  lemma {:induction false} InsertSorts(s: seq<nat>, x: nat, bound: nat)
    requires IsSorted(s) && x <= bound && forall i :: 0 <= i < |s| ==> s[i] <= bound
    ensures IsSorted(Insert(s, x)) && forall i :: 0 <= i < |Insert(s, x)| ==> Insert(s, x)[i] <= bound
  {
    if s != [] && s[|s| - 1] > x { InsertSorts(s[..|s| - 1], x, s[|s| - 1]); }
  }

  lemma {:induction false} InsertIs(s: seq<nat>, x: nat)
    requires IsSorted(s)
    ensures IsSorted(Insert(s, x)) && multiset(Insert(s, x)) == multiset(s) + multiset{x} && |Insert(s, x)| == |s| + 1
  {
    hide Insert;
    InsertKeeps(s, x);
    InsertSorts(s, x, if s != [] && s[|s| - 1] > x then s[|s| - 1] else x);
  }

  lemma SortedNone()
    ensures IsSorted([])
  {
  }

  lemma {:induction false} SortIs(s: seq<nat>)
    ensures IsSorted(Sort(s)) && multiset(Sort(s)) == multiset(s) && |Sort(s)| == |s|
  {
    hide Insert, IsSorted;
    if s == [] {
      SortedNone();
    } else {
      var n := |s| - 1;
      SortIs(s[..n]);
      InsertIs(Sort(s[..n]), s[n]);
      assert s == s[..n] + [s[n]];
    }
  }

  // ---------------------------------------------------------------- codes

  /** std::lower_bound: how many of the sorted endpoints are below `x`. */
  function Code(endpoints: seq<nat>, x: nat): (c: nat)
    ensures c <= |endpoints|
  {
    if endpoints == [] then 0
    else if endpoints[|endpoints| - 1] >= x then Code(endpoints[..|endpoints| - 1], x)
    else |endpoints|
  }

  lemma {:induction false} CodeIs(e: seq<nat>, x: nat)
    requires IsSorted(e)
    ensures forall j :: 0 <= j < |e| ==> (e[j] < x <==> j < Code(e, x))
  {
    if e != [] && e[|e| - 1] >= x {
      var n := |e| - 1;
      CodeIs(e[..n], x);
      assert forall j :: 0 <= j < n ==> e[..n][j] == e[j];
    }
  }

  method LowerBound(e: seq<nat>, x: nat) returns (c: nat)
    requires IsSorted(e)
    ensures c == Code(e, x)
  {
    CodeIs(e, x);
    var lo, hi := 0, |e|;
    while lo < hi
      invariant 0 <= lo <= hi <= |e|
      invariant lo <= Code(e, x) <= hi
    {
      var mid := (lo + hi) / 2;
      if e[mid] < x { lo := mid + 1; } else { hi := mid; }
    }
    return lo;
  }

  /** Codes keep the order of values. */
  lemma {:induction false} CodesKeepOrder(e: seq<nat>, x: nat, y: nat)
    requires IsSorted(e)
    ensures x <= y ==> Code(e, x) <= Code(e, y)
    ensures Code(e, x) < Code(e, y) ==> x < y
  {
    CodeIs(e, x);
    CodeIs(e, y);
    var a, b := Code(e, x), Code(e, y);
    if a < |e| { assert e[a] < y <==> a < b; }
    if b < |e| { assert e[b] < x <==> b < a; }
  }

  /** An endpoint from `x` up to `y` tells the codes apart, and nothing else does. */
  lemma {:induction false} CodesApart(e: seq<nat>, x: nat, y: nat)
    requires IsSorted(e)
    ensures Code(e, x) < Code(e, y) <==> exists j :: 0 <= j < |e| && x <= e[j] < y
  {
    CodeIs(e, x);
    CodeIs(e, y);
    if Code(e, x) < Code(e, y) { assert x <= e[Code(e, x)] < y; }
  }

  // ---------------------------------------------------------------- the sketch

  /** The sketch of a column: values, codes, endpoints, and whether equal codes need a look at the values. */
  datatype Sketch = Sketch(base: seq<nat>, codes: seq<nat>, endpoints: seq<nat>, needCheck: bool, min: nat, max: nat)

  /** Position in the sorted column of endpoint `i` of `k`. */
  function Quantile(i: nat, n: nat, k: nat): nat
    requires i < k <= n
  {
    Min(if (i + 1) * n / k > 0 then (i + 1) * n / k - 1 else 0, n - 1)
  }

  lemma {:induction false} DivIs(x: nat, k: nat)
    requires k > 0
    ensures x / k * k <= x < x / k * k + k && (x / k + 1) * k == x / k * k + k
  {
  }

  lemma {:induction false} DivMono(a: nat, b: nat, k: nat)
    requires a <= b && k > 0
    ensures a / k <= b / k
  {
    DivIs(a, k);
    DivIs(b, k);
    if b / k < a / k { MulLe(b / k + 1, a / k, k); }
  }

  lemma {:induction false} MulDiv(k: nat, n: nat)
    requires k > 0
    ensures k * n / k == n
  {
    assert k * n == n * k;
    QuotientIs(k * n, k, n, 0);
  }

  lemma {:induction false} QuantileMono(i: nat, j: nat, n: nat, k: nat)
    requires i <= j < k <= n
    ensures Quantile(i, n, k) <= Quantile(j, n, k) < n
  {
    MulLe(i + 1, j + 1, n);
    DivMono((i + 1) * n, (j + 1) * n, k);
  }

  lemma {:induction false} QuantileLast(n: nat, k: nat)
    requires 0 < k <= n
    ensures Quantile(k - 1, n, k) == n - 1
  {
    MulDiv(k, n);
  }

  function CodeCount(base: seq<nat>): nat { Min(|base|, CODES) }

  function Endpoints(base: seq<nat>): seq<nat>
    requires base != []
  {
    SortIs(base);
    seq(CodeCount(base), i requires 0 <= i < CodeCount(base) => Sort(base)[Quantile(i, |base|, CodeCount(base))])
  }

  function Values(base: seq<nat>): set<nat> { set i | 0 <= i < |base| :: base[i] }

  function SketchOf(base: seq<nat>): Sketch
    requires base != []
  {
    SortIs(base);
    var e := Endpoints(base);
    Sketch(base, seq(|base|, i requires 0 <= i < |base| => Code(e, base[i])), e, |Values(base)| > CodeCount(base),
           Sort(base)[0], Sort(base)[|base| - 1])
  }

  /** What every sketch has. */
  predicate Valid(s: Sketch) {
    && s.base != [] && |s.codes| == |s.base| && |s.endpoints| == CodeCount(s.base) && IsSorted(s.endpoints)
    && s.endpoints[|s.endpoints| - 1] == s.max && s.max in s.base && s.min in s.base
    && (forall i :: 0 <= i < |s.base| ==> s.min <= s.base[i] <= s.max)
    && (forall i :: 0 <= i < |s.base| ==> s.codes[i] == Code(s.endpoints, s.base[i]))
    && (forall j :: 0 <= j < |s.endpoints| ==> s.endpoints[j] in s.base)
  }

  lemma {:induction false} SortHolds(base: seq<nat>, x: nat)
    ensures x in Sort(base) <==> x in base
  {
    SortIs(base);
    assert x in base <==> x in multiset(base);
    assert x in Sort(base) <==> x in multiset(Sort(base));
  }

  lemma {:induction false} SketchIsValid(base: seq<nat>)
    requires base != []
    ensures Valid(SketchOf(base))
  {
    hide Sort, Quantile, Code;
    SortIs(base);
    var s, n, k := Sort(base), |base|, CodeCount(base);
    var e := Endpoints(base);
    QuantileLast(n, k);
    forall i, j | 0 <= i <= j < k ensures e[i] <= e[j] {
      QuantileMono(i, j, n, k);
    }
    forall j | 0 <= j < k ensures e[j] in base {
      QuantileMono(j, j, n, k);
      SortHolds(base, e[j]);
    }
    forall i | 0 <= i < n ensures s[0] <= base[i] <= s[n - 1] {
      SortHolds(base, base[i]);
      var j :| 0 <= j < n && s[j] == base[i];
    }
    SortHolds(base, s[0]);
    SortHolds(base, s[n - 1]);
  }

  /** A value of the column has a code of one byte. */
  lemma {:induction false} CodeFits(e: seq<nat>, x: nat)
    requires e != [] && IsSorted(e) && x <= e[|e| - 1]
    ensures Code(e, x) < |e|
  {
    CodeIs(e, x);
  }

  // ---------------------------------------------------------------- codes divide the column evenly

  lemma {:induction false} QuotientOfSum(a: nat, n: nat, k: nat)
    requires k > 0
    ensures n / k <= (a + n) / k - a / k <= n / k + 1
  {
    var q, r, p, t := a / k, a % k, n / k, n % k;
    assert a == q * k + r && n == p * k + t;
    assert (q + p) * k == q * k + p * k && (q + p + 1) * k == q * k + p * k + k;
    if r + t < k { QuotientIs(a + n, k, q + p, r + t); } else { QuotientIs(a + n, k, q + p + 1, r + t - k); }
  }

  lemma {:induction false} QuantileIs(i: nat, n: nat, k: nat)
    requires i < k <= n
    ensures Quantile(i, n, k) == (i + 1) * n / k - 1
  {
    MulDiv(k, n);
    MulLe(i + 1, k, n);
    DivMono((i + 1) * n, k * n, k);
    MulLe(1, i + 1, n);
    DivMono(k, (i + 1) * n, k);
    MulDiv(k, 1);
  }

  /** Endpoints are a k-th of the sorted column apart, rounded down or up. */
  lemma {:induction false} QuantilesAreEven(i: nat, n: nat, k: nat)
    requires i < k <= n
    ensures var before := if i == 0 then -1 else Quantile(i - 1, n, k);
      n / k <= Quantile(i, n, k) - before <= n / k + 1
  {
    QuantileIs(i, n, k);
    if i > 0 { QuantileIs(i - 1, n, k); } else { QuotientIs(0, k, 0, 0); }
    assert (i + 1) * n == i * n + n;
    QuotientOfSum(i * n, n, k);
  }

  /** The code of a value is told by where the value comes first in the sorted column: between which two endpoints. */
  lemma {:induction false} CodeIsRank(base: seq<nat>, f: nat, j: nat)
    requires base != [] && j < CodeCount(base)
    requires f < |Sort(base)| && (f == 0 || Sort(base)[f - 1] < Sort(base)[f])
    ensures var n, k := |base|, CodeCount(base);
      Code(Endpoints(base), Sort(base)[f]) == j <==> (j == 0 || Quantile(j - 1, n, k) < f) && f <= Quantile(j, n, k)
  {
    hide Sort, Quantile, Code;
    SortIs(base);
    var s, n, k := Sort(base), |base|, CodeCount(base);
    var e := Endpoints(base);
    SketchIsValid(base);
    CodeIs(e, s[f]);
    forall i | 0 <= i < k ensures i < Code(e, s[f]) <==> Quantile(i, n, k) < f {
      QuantileMono(i, i, n, k);
      assert e[i] == s[Quantile(i, n, k)];
      if Quantile(i, n, k) < f { assert s[Quantile(i, n, k)] <= s[f - 1]; }
    }
  }

  datatype Built = Undefined | Built(sketch: Sketch)

  /** The constructor. The least value of an empty column is undefined. */
  method Build(base: seq<nat>) returns (r: Built)
    ensures r == if base == [] then Undefined else Built(SketchOf(base))
  {
    hide Sort, Code, Quantile;
    if base == [] { return Undefined; }
    var sample := Sort(base);
    SortIs(base);
    SketchIsValid(base);
    var n := |base|;
    var count := Min(n, CODES);
    var needCheck := |Values(base)| > count;
    var endpoints := [];
    for i := 0 to count
      invariant endpoints == Endpoints(base)[..i]
    {
      QuantileMono(i, i, n, count);
      endpoints := endpoints + [sample[Quantile(i, n, count)]];
    }
    assert endpoints == Endpoints(base);
    var codes := [];
    for i := 0 to n
      invariant codes == SketchOf(base).codes[..i]
    {
      var c := LowerBound(endpoints, base[i]);
      CodeFits(endpoints, base[i]);
      codes := codes + [c % CODES];
    }
    assert codes == SketchOf(base).codes;
    return Built(Sketch(base, codes, endpoints, needCheck, sample[0], sample[n - 1]));
  }
}
