/** Comparing a column with a constant through its sketch, row by row. */
module SketchScan {
  import opened ColumnSketch

  /** Rows handled at a time by a vector instruction. */
  const LANES: nat := 64

  datatype Op = Less | Greater

  predicate Holds(op: Op, v: nat, x: nat) { if op == Less then v < x else v > x }

  /** The comparison on codes. */
  predicate CodeHolds(op: Op, c: nat, cx: nat) { if op == Less then c < cx else c > cx }

  /** The code of a constant, in one byte. */
  function ByteCode(s: Sketch, x: nat): nat { Code(s.endpoints, x) % CODES }

  /** A row is selected by its code, or by its value if it has the code of the constant. */
  predicate Picks(s: Sketch, op: Op, x: nat, i: nat)
    requires i < |s.base| == |s.codes|
  {
    CodeHolds(op, s.codes[i], ByteCode(s, x)) || (s.codes[i] == ByteCode(s, x) && Holds(op, s.base[i], x))
  }

  /** Rows selected among the first `n`, in order. */
  function PickedRows(s: Sketch, op: Op, x: nat, n: nat): seq<nat>
    requires n <= |s.base| == |s.codes|
  {
    if n == 0 then [] else PickedRows(s, op, x, n - 1) + if Picks(s, op, x, n - 1) then [n - 1] else []
  }

  /** Rows among the first `n` for which the comparison holds. */
  function RowsWhere(base: seq<nat>, op: Op, x: nat, n: nat): seq<nat>
    requires n <= |base|
  {
    if n == 0 then [] else RowsWhere(base, op, x, n - 1) + if Holds(op, base[n - 1], x) then [n - 1] else []
  }

  // ---------------------------------------------------------------- when codes decide right

  /** The code of the constant fits a byte, unless it is above every value and all codes are taken. */
  lemma {:induction false} ByteCodeIs(s: Sketch, x: nat)
    requires Valid(s)
    ensures x <= s.max ==> ByteCode(s, x) == Code(s.endpoints, x)
    ensures x > s.max ==> Code(s.endpoints, x) == |s.endpoints|
    ensures x > s.max ==> ByteCode(s, x) == if |s.endpoints| == CODES then 0 else |s.endpoints|
  {
    hide Code;
    CodeIs(s.endpoints, x);
    if x <= s.max { CodeFits(s.endpoints, x); }
  }

  /** With a constant that the column reaches, selection by code and value is the comparison. */
  lemma {:induction false} PicksExact(s: Sketch, op: Op, x: nat, i: nat)
    requires Valid(s) && i < |s.base| && x <= s.max
    ensures Picks(s, op, x, i) <==> Holds(op, s.base[i], x)
  {
    hide Code;
    ByteCodeIs(s, x);
    CodesKeepOrder(s.endpoints, s.base[i], x);
    CodesKeepOrder(s.endpoints, x, s.base[i]);
  }

  /** With a constant above the column, "greater" selects rows exactly when the constant's code has wrapped to 0. */
  lemma {:induction false} PicksAbove(s: Sketch, x: nat, i: nat)
    requires Valid(s) && i < |s.base| && x > s.max
    ensures Picks(s, Greater, x, i) <==> |s.endpoints| == CODES && s.base[i] > s.endpoints[0]
  {
    hide Code;
    ByteCodeIs(s, x);
    CodeIs(s.endpoints, s.base[i]);
    CodeFits(s.endpoints, s.base[i]);
  }

  lemma {:induction false} PickedIsWhere(s: Sketch, op: Op, x: nat, n: nat)
    requires Valid(s) && n <= |s.base| && x <= s.max
    ensures PickedRows(s, op, x, n) == RowsWhere(s.base, op, x, n)
  {
    hide Picks, Holds;
    if n > 0 {
      PicksExact(s, op, x, n - 1);
      PickedIsWhere(s, op, x, n - 1);
    }
  }

  // ---------------------------------------------------------------- the scalar scans

  method ScanRows(s: Sketch, op: Op, x: nat) returns (rows: seq<nat>)
    requires Valid(s)
    ensures rows == PickedRows(s, op, x, |s.base|)
  {
    hide Code;
    rows := [];
    var c := LowerBound(s.endpoints, x);
    c := c % CODES;
    for i := 0 to |s.codes|
      invariant rows == PickedRows(s, op, x, i)
    {
      if CodeHolds(op, s.codes[i], c) || (s.codes[i] == c && Holds(op, s.base[i], x)) { rows := rows + [i]; }
    }
  }

  method AllRows(n: nat) returns (rows: seq<nat>)
    ensures |rows| == n && forall i :: 0 <= i < n ==> rows[i] == i
  {
    rows := [];
    for i := 0 to n
      invariant |rows| == i && forall k :: 0 <= k < i ==> rows[k] == k
    {
      rows := rows + [i];
    }
  }

  lemma {:induction false} WhereAll(base: seq<nat>, op: Op, x: nat, n: nat)
    requires n <= |base| && forall i :: 0 <= i < n ==> Holds(op, base[i], x)
    ensures |RowsWhere(base, op, x, n)| == n && forall i :: 0 <= i < n ==> RowsWhere(base, op, x, n)[i] == i
  {
    hide Holds;
    if n > 0 { WhereAll(base, op, x, n - 1); }
  }

  lemma {:induction false} WhereNone(base: seq<nat>, op: Op, x: nat, n: nat)
    requires n <= |base| && forall i :: 0 <= i < n ==> !Holds(op, base[i], x)
    ensures RowsWhere(base, op, x, n) == []
  {
    hide Holds;
    if n > 0 { WhereNone(base, op, x, n - 1); }
  }

  /** evaluate_less_than_CPU gives exactly the rows below the constant. */
  method LessCpu(s: Sketch, x: nat) returns (rows: seq<nat>)
    requires Valid(s)
    ensures rows == RowsWhere(s.base, Less, x, |s.base|)
  {
    if x > s.max {
      rows := AllRows(|s.base|);
      WhereAll(s.base, Less, x, |s.base|);
      return;
    }
    PickedIsWhere(s, Less, x, |s.base|);
    rows := ScanRows(s, Less, x);
  }

  lemma {:induction false} PickedSome(s: Sketch, op: Op, x: nat, n: nat)
    requires n <= |s.base| == |s.codes|
    ensures PickedRows(s, op, x, n) == [] <==> forall i :: 0 <= i < n ==> !Picks(s, op, x, i)
  {
    hide Picks;
    if n > 0 { PickedSome(s, op, x, n - 1); }
  }

  /** "Greater" is wrong exactly for constants above the column when all 256 codes are taken by more than one value. */
  lemma {:induction false} GreaterExact(s: Sketch, x: nat)
    requires Valid(s)
    ensures PickedRows(s, Greater, x, |s.base|) == RowsWhere(s.base, Greater, x, |s.base|)
       <==> !(x > s.max && |s.endpoints| == CODES && s.endpoints[0] < s.max)
  {
    hide Picks, Code;
    var n := |s.base|;
    if x <= s.max {
      PickedIsWhere(s, Greater, x, n);
    } else {
      WhereNone(s.base, Greater, x, n);
      PickedSome(s, Greater, x, n);
      forall i | 0 <= i < n
        ensures Picks(s, Greater, x, i) <==> |s.endpoints| == CODES && s.base[i] > s.endpoints[0]
      {
        PicksAbove(s, x, i);
      }
      var top :| 0 <= top < n && s.base[top] == s.max;
      assert Picks(s, Greater, x, top) <==> |s.endpoints| == CODES && s.max > s.endpoints[0];
    }
  }

  /** evaluate_greater_than_CPU */
  method GreaterCpu(s: Sketch, x: nat) returns (rows: seq<nat>)
    requires Valid(s)
    ensures rows == PickedRows(s, Greater, x, |s.base|)
    ensures rows == RowsWhere(s.base, Greater, x, |s.base|)
       <==> !(x > s.max && |s.endpoints| == CODES && s.endpoints[0] < s.max)
  {
    GreaterExact(s, x);
    rows := ScanRows(s, Greater, x);
  }
}
