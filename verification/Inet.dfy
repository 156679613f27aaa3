/** The INET type: how addresses are stored as signed 128-bit numbers, and arithmetic on them. */
module Inet {
  import opened IpAddress

  const WORD: int := 0x1_0000_0000_0000_0000
  const TOP_BIT: int := 0x8000_0000_0000_0000
  const HUGE_MIN: int := -0x8000_0000_0000_0000 * 0x1_0000_0000_0000_0000

  // ---------------------------------------------------------------- 128-bit numbers in two words

  datatype Uhuge = Uhuge(upper: nat, lower: nat)

  predicate IsUhuge(x: Uhuge) { x.upper < WORD && x.lower < WORD }

  function Value(x: Uhuge): nat { x.upper * WORD + x.lower }

  predicate IsHuge(v: int) { HUGE_MIN <= v < -HUGE_MIN }

  function Wrap(x: int): (w: nat)
    ensures w < WORD
  {
    x % WORD
  }

  /** Uhugeint::TryAddInPlace: the sum, and whether it did not overflow. */
  function TryAdd(a: Uhuge, b: Uhuge): (r: (Uhuge, bool)) {
    var upper := Wrap(a.upper + b.upper);
    var fits := !(upper < a.upper || upper < b.upper);
    var carry := if Wrap(a.lower + b.lower) < a.lower then 1 else 0;
    var upper' := Wrap(upper + carry);
    (Uhuge(upper', Wrap(a.lower + b.lower)), fits && !(upper' < a.upper || upper' < b.upper))
  }

  /** Uhugeint::TrySubtractInPlace */
  function TrySubtract(a: Uhuge, b: Uhuge): (r: (Uhuge, bool)) {
    var borrow := if Wrap(a.lower - b.lower) > a.lower then 1 else 0;
    var upper := Wrap(a.upper - b.upper - borrow);
    (Uhuge(upper, Wrap(a.lower - b.lower)), !(upper > a.upper))
  }

  lemma {:induction false} WrapOnce(x: int)
    requires -WORD - 1 < x < 2 * WORD
    ensures Wrap(x) == if x < -WORD then x + 2 * WORD else if x < 0 then x + WORD else if x < WORD then x else x - WORD
  {
  }

  /** Addition is exact, and overflow is reported exactly when there is one. */
  lemma {:induction false} TryAddExact(a: Uhuge, b: Uhuge)
    requires IsUhuge(a) && IsUhuge(b)
    ensures TryAdd(a, b).1 <==> Value(a) + Value(b) < WORD * WORD
    ensures TryAdd(a, b).1 ==> IsUhuge(TryAdd(a, b).0) && Value(TryAdd(a, b).0) == Value(a) + Value(b)
  {
    WrapOnce(a.lower + b.lower);
    WrapOnce(a.upper + b.upper);
    WrapOnce(Wrap(a.upper + b.upper) + if Wrap(a.lower + b.lower) < a.lower then 1 else 0);
  }

  /** Subtraction misses the underflow exactly when the upper word and the borrow add up to a full word. */
  lemma {:induction false} TrySubtractExact(a: Uhuge, b: Uhuge)
    requires IsUhuge(a) && IsUhuge(b)
    ensures TrySubtract(a, b).1 <==> Value(a) >= Value(b) || (b.upper == WORD - 1 && a.lower < b.lower)
    ensures Value(a) >= Value(b) ==> IsUhuge(TrySubtract(a, b).0) && Value(TrySubtract(a, b).0) == Value(a) - Value(b)
  {
    WrapOnce(a.lower - b.lower);
    WrapOnce(a.upper - b.upper - if Wrap(a.lower - b.lower) > a.lower then 1 else 0);
  }

  lemma {:induction false} TrySubtractMissesUnderflow()
    ensures TrySubtract(Uhuge(0, 0), Uhuge(WORD - 1, WORD - 1)) == (Uhuge(0, 1), true)
  {
    assert Wrap(0 - (WORD - 1)) == 1;
    assert Wrap(0 - (WORD - 1) - 1) == 0;
  }

  // ---------------------------------------------------------------- storage

  /** The stored form: the kind, a signed 128-bit number and the mask. */
  datatype Stored = Stored(kind: Kind, bits: int, mask: nat)

  function ToSigned(x: Uhuge): int { if x.upper < TOP_BIT then Value(x) else Value(x) - WORD * WORD }

  function ToUnsigned(v: int): (x: Uhuge)
    requires IsHuge(v)
    ensures IsUhuge(x)
  {
    var w := if v < 0 then v + WORD * WORD else v;
    Uhuge(w / WORD, w % WORD)
  }

  function FlipTop(x: Uhuge): Uhuge {
    Uhuge(if x.upper < TOP_BIT then x.upper + TOP_BIT else x.upper - TOP_BIT, x.lower)
  }

  function FromCompat(bits: int, kind: Kind): (x: Uhuge)
    requires IsHuge(bits)
    ensures IsUhuge(x)
  {
    if kind == V6 then FlipTop(ToUnsigned(bits)) else ToUnsigned(bits)
  }

  function ToCompat(x: Uhuge, kind: Kind): int { ToSigned(if kind == V6 then FlipTop(x) else x) }

  lemma {:induction false} SignedRoundTrip(x: Uhuge)
    requires IsUhuge(x)
    ensures IsHuge(ToSigned(x)) && ToUnsigned(ToSigned(x)) == x
  {
    assert Value(x) / WORD == x.upper && Value(x) % WORD == x.lower;
  }

  lemma {:induction false} UnsignedRoundTrip(v: int)
    requires IsHuge(v)
    ensures ToSigned(ToUnsigned(v)) == v
  {
  }

  /** Storing and loading are inverse to each other. */
  lemma {:induction false} CompatRoundTrip(x: Uhuge, bits: int, kind: Kind)
    requires IsUhuge(x) && IsHuge(bits)
    ensures IsHuge(ToCompat(x, kind)) && FromCompat(ToCompat(x, kind), kind) == x
    ensures IsUhuge(FromCompat(bits, kind)) && ToCompat(FromCompat(bits, kind), kind) == bits
  {
    SignedRoundTrip(x);
    SignedRoundTrip(FlipTop(x));
    UnsignedRoundTrip(bits);
  }

  /** IPv6 addresses sort by their stored numbers as they do by their values. */
  lemma {:induction false} StoredOrder(x: Uhuge, y: Uhuge)
    requires IsUhuge(x) && IsUhuge(y)
    ensures ToCompat(x, V6) < ToCompat(y, V6) <==> Value(x) < Value(y)
  {
    assert ToCompat(x, V6) == Value(x) + HUGE_MIN;
    assert ToCompat(y, V6) == Value(y) + HUGE_MIN;
  }

  // ---------------------------------------------------------------- arithmetic

  datatype Outcome = Ok(ip: Stored) | OutOfRange

  predicate Valid(s: Stored) {
    IsHuge(s.bits) && (s.kind == V4 ==> 0 <= s.bits < 0x1_0000_0000)
  }

  function AddressOf(s: Stored): nat
    requires IsHuge(s.bits)
  {
    Value(FromCompat(s.bits, s.kind))
  }

  /** Negation of a signed 128-bit number without an overflow check. */
  function Negate(v: int): (n: int)
    requires IsHuge(v)
    ensures IsHuge(n)
  {
    if v == HUGE_MIN then v else -v
  }

  /** AddImplementation */
  function Add(ip: Stored, v: int): Outcome
    requires IsHuge(ip.bits) && IsHuge(v)
  {
    if v == 0 then Ok(ip)
    else
      var a := FromCompat(ip.bits, ip.kind);
      var r := if v > 0 then TryAdd(a, ToUnsigned(v)) else TrySubtract(a, ToUnsigned(Negate(v)));
      if !r.1 then OutOfRange
      else if ip.kind == V4 && Value(r.0) >= 0xffff_ffff then OutOfRange
      else Ok(Stored(ip.kind, ToCompat(r.0, ip.kind), ip.mask))
  }

  function Subtract(ip: Stored, v: int): Outcome
    requires IsHuge(ip.bits) && IsHuge(v)
  {
    Add(ip, Negate(v))
  }

  /** The largest address that arithmetic can reach, plus one. */
  function Limit(kind: Kind): nat { if kind == V4 then 0xffff_ffff else WORD * WORD }

  lemma {:induction false} UnsignedValue(v: int)
    requires IsHuge(v)
    ensures v >= 0 ==> Value(ToUnsigned(v)) == v
    ensures v < 0 ==> Value(ToUnsigned(Negate(v))) == -v && ToUnsigned(Negate(v)).upper <= TOP_BIT
  {
  }

  lemma {:induction false} SmallIsSame(x: Uhuge)
    requires IsUhuge(x) && Value(x) < 0x1_0000_0000
    ensures ToCompat(x, V4) == Value(x)
  {
  }

  /** Adding succeeds exactly when the sum is in range, and then it is the sum. */
  lemma {:induction false} AddIsSum(ip: Stored, v: int)
    requires Valid(ip) && IsHuge(v)
    ensures Add(ip, v).Ok? <==> v == 0 || 0 <= AddressOf(ip) + v < Limit(ip.kind)
    ensures Add(ip, v).Ok? ==> var r := Add(ip, v).ip;
      Valid(r) && r.kind == ip.kind && r.mask == ip.mask && AddressOf(r) == AddressOf(ip) + v
  {
    var a := FromCompat(ip.bits, ip.kind);
    CompatRoundTrip(a, ip.bits, ip.kind);
    UnsignedValue(v);
    if v > 0 {
      TryAddExact(a, ToUnsigned(v));
    } else if v < 0 {
      TrySubtractExact(a, ToUnsigned(Negate(v)));
    }
    if v != 0 && Add(ip, v).Ok? {
      var r := if v > 0 then TryAdd(a, ToUnsigned(v)) else TrySubtract(a, ToUnsigned(Negate(v)));
      CompatRoundTrip(r.0, ip.bits, ip.kind);
      if ip.kind == V4 { SmallIsSame(r.0); }
    }
  }

  lemma AddZero(ip: Stored)
    requires IsHuge(ip.bits)
    ensures Add(ip, 0) == Ok(ip)
  {
  }

  lemma {:induction false} AddressBound(ip: Stored)
    requires Valid(ip)
    ensures AddressOf(ip) < (if ip.kind == V4 then 0x1_0000_0000 else WORD * WORD)
  {
    CompatRoundTrip(Uhuge(0, 0), ip.bits, ip.kind);
    UnsignedValue(ip.bits);
  }

  lemma {:induction false} ValueInjective(x: Uhuge, y: Uhuge)
    requires IsUhuge(x) && IsUhuge(y) && Value(x) == Value(y)
    ensures x == y
  {
  }

  lemma {:induction false} SameAddress(a: Stored, b: Stored)
    requires Valid(a) && Valid(b) && a.kind == b.kind
    ensures AddressOf(a) == AddressOf(b) <==> a.bits == b.bits
  {
    hide FromCompat, ToCompat;
    var x, y := FromCompat(a.bits, a.kind), FromCompat(b.bits, b.kind);
    CompatRoundTrip(x, a.bits, a.kind);
    CompatRoundTrip(y, b.bits, b.kind);
    if Value(x) == Value(y) { ValueInjective(x, y); }
  }

  /** A number added and subtracted again gives the address back, but for 255.255.255.255 and the least number. */
  lemma {:induction false} AddThenSubtract(ip: Stored, v: int)
    requires Valid(ip) && IsHuge(v) && Add(ip, v).Ok?
    ensures Subtract(Add(ip, v).ip, v) == Ok(ip)
       <==> v == 0 || (v != HUGE_MIN && !(ip.kind == V4 && AddressOf(ip) == 0xffff_ffff))
  {
    hide Add, FromCompat;
    AddIsSum(ip, v);
    var r := Add(ip, v).ip;
    AddIsSum(r, Negate(v));
    if v == 0 {
      AddZero(ip);
    } else if Subtract(r, v).Ok? {
      SameAddress(ip, Subtract(r, v).ip);
    }
    AddressBound(ip);
  }

  /** One below 255.255.255.255 there is no way back. */
  lemma {:induction false} BroadcastLost(mask: nat)
    ensures var ip := Stored(V4, 0xffff_ffff, mask);
      AddressOf(ip) == 0xffff_ffff && Add(ip, -1).Ok? && Subtract(Add(ip, -1).ip, -1) != Ok(ip)
  {
    hide Add, Subtract;
    var ip := Stored(V4, 0xffff_ffff, mask);
    AddIsSum(ip, -1);
    AddThenSubtract(ip, -1);
  }
}
