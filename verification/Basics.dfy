/** What several parts of the model share. */
module Basics {

  datatype Option<+T> = None | Some(value: T)

  type Byte = bv8

  function Min(a: int, b: int): int { if a < b then a else b }

  lemma {:induction false} MulLe(a: int, b: int, d: int)
    requires a <= b && d >= 0
    ensures a * d <= b * d
  {
    assert b * d - a * d == (b - a) * d;
  }

  /** Quotient and remainder are the only numbers that divide with a small rest. */
  lemma {:induction false} QuotientIs(n: int, d: int, p: int, r: int)
    requires d > 0 && n == p * d + r && 0 <= r < d
    ensures n / d == p && n % d == r
  {
    var q := n / d;
    assert n == q * d + n % d;
    assert (q + 1) * d == q * d + d && (p + 1) * d == p * d + d;
    if q < p { MulLe(q + 1, p, d); }
    if p < q { MulLe(p + 1, q, d); }
  }

  /** `s` stands at position `c` of `p`. */
  predicate At(p: string, c: nat, s: string) { c + |s| <= |p| && p[c..c + |s|] == s }

  lemma AtAppend(p: string, c: nat, a: string, b: string)
    ensures At(p, c, a + b) <==> At(p, c, a) && At(p, c + |a|, b)
  {
    if At(p, c, a + b) {
      assert p[c..c + |a|] == p[c..c + |a + b|][..|a|] == a;
      assert p[c + |a|..c + |a| + |b|] == p[c..c + |a + b|][|a|..] == b;
    }
    if At(p, c, a) && At(p, c + |a|, b) { assert p[c..c + |a + b|] == p[c..c + |a|] + p[c + |a|..c + |a| + |b|]; }
  }

  lemma AtNothing(p: string, c: nat)
    ensures At(p, c, "") <==> c <= |p|
  {
  }

  lemma AtOne(p: string, c: nat, x: char)
    ensures At(p, c, [x]) <==> c < |p| && p[c] == x
  {
  }

  lemma AtTwo(p: string, c: nat, x: char, y: char)
    ensures At(p, c, [x, y]) <==> c + 1 < |p| && p[c] == x && p[c + 1] == y
  {
  }

  lemma AtThree(p: string, c: nat, x: char, y: char, z: char)
    ensures At(p, c, [x, y, z]) <==> c + 2 < |p| && p[c] == x && p[c + 1] == y && p[c + 2] == z
  {
  }

  lemma AtSlice(p: string, c: nat, e: nat)
    requires c <= e <= |p|
    ensures At(p, c, p[c..e])
  {
  }

  /** memcpy of `from` to `out`, from index `at` on. */
  method CopyBytes(from: seq<Byte>, out: array<Byte>, at: nat)
    requires at + |from| <= out.Length
    modifies out
    ensures forall k :: at <= k < at + |from| ==> out[k] == from[k - at]
    ensures forall k :: 0 <= k < out.Length && !(at <= k < at + |from|) ==> out[k] == old(out[k])
  {
    for i := 0 to |from|
      invariant forall k :: at <= k < at + i ==> out[k] == from[k - at]
      invariant forall k :: 0 <= k < out.Length && !(at <= k < at + i) ==> out[k] == old(out[k])
    {
      out[at + i] := from[i];
    }
  }
}
