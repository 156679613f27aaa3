/** The 128-bit value of an IPv6 address: eight 16-bit groups in two 64-bit halves. */
module Ipv6Value {

  const GROUP: nat := 0x1_0000
  const HALF: nat := 0x1_0000_0000_0000_0000

  /** Bitwise or. */
  function Or(a: nat, b: nat): nat {
    if a == 0 then b
    else if b == 0 then a
    else 2 * Or(a / 2, b / 2) + (if a % 2 == 1 || b % 2 == 1 then 1 else 0)
  }

  function Pow2(k: nat): (p: nat)
    ensures p > 0
  {
    if k == 0 then 1 else 2 * Pow2(k - 1)
  }

  /** Bits that do not overlap add up. */
  lemma {:induction false} OrAdds(high: nat, k: nat, low: nat)
    requires low < Pow2(k)
    ensures Or(high * Pow2(k), low) == high * Pow2(k) + low
    decreases k
  {
    if k > 0 && high > 0 && low > 0 {
      var p := Pow2(k - 1);
      assert high * Pow2(k) == 2 * (high * p);
      assert high * p > 0;
      OrAdds(high, k - 1, low / 2);
      assert Or(2 * (high * p), low) == 2 * Or(high * p, low / 2) + low % 2;
    }
  }

  lemma MulAssoc(a: int, b: int, c: int)
    ensures a * b * c == a * (b * c)
  {
  }

  lemma Pow2Step(k: nat)
    requires k > 0
    ensures Pow2(k) == 2 * Pow2(k - 1)
  {
  }

  lemma {:induction false} Pow2Adds(a: nat, b: nat)
    ensures Pow2(a + b) == Pow2(a) * Pow2(b)
  {
    if a == 0 {
      assert Pow2(0) == 1;
    } else {
      hide Pow2;
      calc {
        Pow2(a + b);
        { Pow2Step(a + b); }
        2 * Pow2(a - 1 + b);
        { Pow2Adds(a - 1, b); }
        2 * (Pow2(a - 1) * Pow2(b));
        { MulAssoc(2, Pow2(a - 1), Pow2(b)); }
        2 * Pow2(a - 1) * Pow2(b);
        { Pow2Step(a); }
        Pow2(a) * Pow2(b);
      }
    }
  }

  lemma Pow2Four()
    ensures Pow2(4) == 16
  {
    assert Pow2(2) == 4;
  }

  lemma {:induction false} Pow2Groups()
    ensures Pow2(16) == GROUP && Pow2(32) == 0x1_0000_0000 && Pow2(48) == 0x1_0000_0000_0000 && Pow2(64) == HALF
  {
    hide Pow2;
    assert Pow2(4) == 16 by { Pow2Four(); }
    Pow2Adds(4, 4);
    Pow2Adds(8, 8);
    Pow2Adds(16, 16);
    Pow2Adds(16, 32);
    Pow2Adds(32, 32);
  }

  /** QuibbleHalfAddressBitShift: the shift of group `i` within its half. */
  function Shift(i: nat): nat { (3 - i % 4) * 16 }

  function Scaled(x: nat, p: nat): nat { x * p }

  /** Group `x` moved to place `i` of a half. */
  function ShiftLeft(x: nat, i: nat): nat { Scaled(x, Pow2(Shift(i))) }

  lemma Pow2Zero(k: nat)
    ensures k == 0 ==> Pow2(k) == 1
  {
  }

  lemma {:induction false} ShiftLeftIs(x: nat, i: nat)
    ensures ShiftLeft(x, i) ==
      if i % 4 == 0 then x * 0x1_0000_0000_0000 else if i % 4 == 1 then x * 0x1_0000_0000
      else if i % 4 == 2 then x * 0x1_0000 else x
  {
    hide Pow2;
    Pow2Groups();
    Pow2Zero(Shift(i));
  }

  predicate Groups(q: seq<nat>) {
    |q| == 8 && forall i :: 0 <= i < 8 ==> q[i] < GROUP
  }

  /** A half of four groups, most significant first. */
  function Half(a: nat, b: nat, c: nat, d: nat): nat { ((a * GROUP + b) * GROUP + c) * GROUP + d }

  function Upper(q: seq<nat>): (u: nat)
    requires Groups(q)
    ensures u < HALF
  {
    Half(q[0], q[1], q[2], q[3])
  }

  function Lower(q: seq<nat>): (u: nat)
    requires Groups(q)
    ensures u < HALF
  {
    Half(q[4], q[5], q[6], q[7])
  }

  /** The first `n` groups of `q`, the rest zero. */
  function Front(q: seq<nat>, n: nat): (r: seq<nat>)
    requires Groups(q) && n <= 8
    ensures Groups(r) && forall i :: 0 <= i < 8 ==> r[i] == if i < n then q[i] else 0
  {
    q[..n] + seq(8 - n, _ => 0)
  }

  /** The half that group `i` goes to. */
  function HalfOf(q: seq<nat>, i: nat): nat
    requires Groups(q)
  {
    if i < 4 then Upper(q) else Lower(q)
  }

  lemma {:induction false} OrHalf(a: nat, b: nat, c: nat, d: nat)
    requires a < GROUP && b < GROUP && c < GROUP && d < GROUP
    ensures Or(0, a * 0x1_0000_0000_0000) == Half(a, 0, 0, 0)
    ensures Or(Half(a, 0, 0, 0), b * 0x1_0000_0000) == Half(a, b, 0, 0)
    ensures Or(Half(a, b, 0, 0), c * 0x1_0000) == Half(a, b, c, 0)
    ensures Or(Half(a, b, c, 0), d) == Half(a, b, c, d)
  {
    hide Or, Pow2;
    Pow2Groups();
    OrAdds(0, 64, a * 0x1_0000_0000_0000);
    OrAdds(a, 48, b * 0x1_0000_0000);
    OrAdds(a * GROUP + b, 32, c * GROUP);
    OrAdds((a * GROUP + b) * GROUP + c, 16, d);
  }

  lemma HalfZero()
    ensures Half(0, 0, 0, 0) == 0
  {
  }

  /** Or-ing the next group into its half sets that group. */
  lemma {:induction false} OrGroup(q: seq<nat>, n: nat)
    requires Groups(q) && n < 8
    ensures Or(HalfOf(Front(q, n), n), ShiftLeft(q[n], n)) == HalfOf(Front(q, n + 1), n)
    ensures n < 4 ==> Lower(Front(q, n + 1)) == Lower(Front(q, n))
    ensures n >= 4 ==> Upper(Front(q, n + 1)) == Upper(Front(q, n))
  {
    hide Or, ShiftLeft, Half;
    HalfZero();
    ShiftLeftIs(q[n], n);
    if n < 4 { OrHalf(q[0], q[1], q[2], q[3]); } else { OrHalf(q[4], q[5], q[6], q[7]); }
  }
}
