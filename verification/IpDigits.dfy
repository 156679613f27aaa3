/** Digits, digit runs and numbers in text, as the address parser and printer use them. */
module IpDigits {
  import opened Basics

  predicate IsDigit(c: char) { '0' <= c <= '9' }

  predicate IsHex(c: char) { '0' <= c <= '9' || 'a' <= c <= 'f' || 'A' <= c <= 'F' }

  /** The kinds of characters the scanners run over. */
  datatype Class = Decimal | Hexadecimal | DotDecimal

  predicate Is(k: Class, c: char) {
    match k
    case Decimal => IsDigit(c)
    case Hexadecimal => IsHex(c)
    case DotDecimal => IsDigit(c) || c == '.'
  }

  /** StringUtil::GetHexValue */
  function HexDigit(c: char): (v: nat)
    ensures v < 16
  {
    if '0' <= c <= '9' then c as nat - '0' as nat
    else if 'a' <= c <= 'f' then c as nat - 'a' as nat + 10
    else if 'A' <= c <= 'F' then c as nat - 'A' as nat + 10
    else 0
  }

  predicate All(k: Class, s: string) { forall i :: 0 <= i < |s| ==> Is(k, s[i]) }

  /** End of the longest run of class `k` characters of `d` that starts at `c`. */
  function RunEnd(k: Class, d: string, c: nat): (e: nat)
    requires c <= |d|
    ensures c <= e <= |d|
    decreases |d| - c
  {
    if c < |d| && Is(k, d[c]) then RunEnd(k, d, c + 1) else c
  }

  lemma {:induction false} RunIs(k: Class, d: string, c: nat)
    requires c <= |d|
    ensures var e := RunEnd(k, d, c); All(k, d[c..e]) && (e < |d| ==> !Is(k, d[e]))
    decreases |d| - c
  {
    if c < |d| && Is(k, d[c]) {
      RunIs(k, d, c + 1);
      var e := RunEnd(k, d, c + 1);
      assert d[c..e] == [d[c]] + d[c + 1..e];
    }
  }

  /** A run ends where its characters do. */
  lemma {:induction false} RunUpTo(k: Class, d: string, c: nat, e: nat)
    requires c <= e <= |d| && All(k, d[c..e]) && (e == |d| || !Is(k, d[e]))
    ensures RunEnd(k, d, c) == e
    decreases e - c
  {
    if c < e {
      assert d[c] == d[c..e][0];
      assert d[c + 1..e] == d[c..e][1..];
      RunUpTo(k, d, c + 1, e);
    }
  }

  /** Value of a string of decimal digits. */
  function DecValue(s: string): nat {
    if s == "" then 0 else DecValue(s[..|s| - 1]) * 10 + (if IsDigit(s[|s| - 1]) then HexDigit(s[|s| - 1]) else 0)
  }

  /** TryCast of a digit string to an unsigned byte. */
  function ToByte(s: string): Option<nat> {
    if s != "" && DecValue(s) <= 255 then Some(DecValue(s)) else None
  }

  /** Value of a string of hexadecimal digits. */
  function HexValue(s: string): nat {
    if s == "" then 0 else HexValue(s[..|s| - 1]) * 16 + HexDigit(s[|s| - 1])
  }

  lemma {:induction false} HexValueBound(s: string)
    requires |s| <= 4
    ensures HexValue(s) < 65536
    ensures |s| <= 3 ==> HexValue(s) < 4096
    ensures |s| <= 2 ==> HexValue(s) < 256
    ensures |s| <= 1 ==> HexValue(s) < 16
  {
    if s != "" { HexValueBound(s[..|s| - 1]); }
  }

  function DigitChar(v: nat): (c: char)
    requires v < 16
    ensures IsHex(c) && HexDigit(c) == v && (v < 10 ==> IsDigit(c))
  {
    if v < 10 then ('0' as nat + v) as char else ('a' as nat + v - 10) as char
  }

  /** to_string of a number. */
  function Dec(n: nat): (s: string)
    ensures s != "" && All(Decimal, s) && DecValue(s) == n
  {
    if n < 10 then [DigitChar(n)]
    else
      var s := Dec(n / 10) + [DigitChar(n % 10)];
      assert s[..|s| - 1] == Dec(n / 10);
      s
  }

  /** A number printed with std::hex: lower case, no leading zeros. */
  function Hex(n: nat): (s: string)
    ensures s != "" && All(Hexadecimal, s) && HexValue(s) == n
  {
    if n < 16 then [DigitChar(n)]
    else
      var s := Hex(n / 16) + [DigitChar(n % 16)];
      assert s[..|s| - 1] == Hex(n / 16);
      s
  }

  lemma {:induction false} HexLength(n: nat)
    requires n < 65536
    ensures |Hex(n)| <= 4
    ensures n < 4096 ==> |Hex(n)| <= 3
    ensures n < 256 ==> |Hex(n)| <= 2
    ensures n < 16 ==> |Hex(n)| <= 1
  {
    if n >= 16 { HexLength(n / 16); }
  }

  // ---------------------------------------------------------------- what digits and digit strings are worth

  const LOWER_DIGITS: string := "0123456789abcdef"
  const UPPER_DIGITS: string := "0123456789ABCDEF"

  /** Digits count in either case. */
  lemma {:induction false} DigitsAre(v: nat)
    requires v < 16
    ensures IsHex(LOWER_DIGITS[v]) && HexDigit(LOWER_DIGITS[v]) == v
    ensures IsHex(UPPER_DIGITS[v]) && HexDigit(UPPER_DIGITS[v]) == v
    ensures DigitChar(v) == LOWER_DIGITS[v] && (IsDigit(LOWER_DIGITS[v]) <==> v < 10)
  {
  }

  /** And nothing else is a digit. */
  lemma {:induction false} OnlyDigits(c: char)
    requires IsHex(c)
    ensures c == LOWER_DIGITS[HexDigit(c)] || c == UPPER_DIGITS[HexDigit(c)]
    ensures IsDigit(c) <==> HexDigit(c) < 10
  {
  }

  function LowerChar(c: char): char { if 'A' <= c <= 'Z' then (c as int + 32) as char else c }

  function Lowered(s: string): (r: string)
    ensures |r| == |s| && forall i :: 0 <= i < |s| ==> r[i] == LowerChar(s[i])
  {
    seq(|s|, i requires 0 <= i < |s| => LowerChar(s[i]))
  }

  function ZeroDigits(n: nat): string { seq(n, _ => '0') }

  lemma {:induction false} DecNext(v: nat, d: nat)
    requires d < 10
    ensures Dec(v * 10 + d) == if v == 0 then [DigitChar(d)] else Dec(v) + [DigitChar(d)]
  {
    QuotientIs(v * 10 + d, 10, v, d);
  }

  lemma {:induction false} HexNext(v: nat, d: nat)
    requires d < 16
    ensures Hex(v * 16 + d) == if v == 0 then [DigitChar(d)] else Hex(v) + [DigitChar(d)]
  {
    QuotientIs(v * 16 + d, 16, v, d);
  }

  /** `s` is `digits` after leading zeros. */
  predicate Padded(s: string, digits: string) {
    |digits| <= |s| && s == ZeroDigits(|s| - |digits|) + digits
  }

  lemma PaddedZero(s: string, c: char)
    requires Padded(s, "0")
    ensures Padded(s + [c], [c])
  {
    assert ZeroDigits(|s|) == ZeroDigits(|s| - 1) + "0";
  }

  lemma PaddedNext(s: string, digits: string, c: char)
    requires Padded(s, digits)
    ensures Padded(s + [c], digits + [c])
  {
  }

  lemma PaddedAll(s: string)
    ensures Padded(s, s)
  {
  }

  lemma OneZero()
    ensures Dec(0) == "0" && Hex(0) == "0"
  {
  }

  /** A digit string is the decimal form of its value, after leading zeros. */
  lemma {:induction false} DecTextIs(s: string)
    requires s != "" && All(Decimal, s)
    ensures Padded(s, Dec(DecValue(s)))
  {
    hide Dec, Padded;
    var front, c := s[..|s| - 1], s[|s| - 1];
    var v := DecValue(front);
    assert s == front + [c] && DecValue(s) == v * 10 + HexDigit(c);
    assert c == DigitChar(HexDigit(c));
    DecNext(v, HexDigit(c));
    OneZero();
    if front == "" {
      PaddedAll([c]);
    } else {
      DecTextIs(front);
      if v == 0 { PaddedZero(front, c); } else { PaddedNext(front, Dec(v), c); }
    }
  }

  /** The lower case of a hexadecimal digit is the digit that is printed. */
  lemma LowerDigit(c: char)
    requires IsHex(c)
    ensures LowerChar(c) == DigitChar(HexDigit(c))
  {
  }

  lemma LoweredSnoc(s: string, c: char)
    ensures Lowered(s + [c]) == Lowered(s) + [LowerChar(c)]
  {
  }

  /** A string of hexadecimal digits, in lower case, is the printed form of its value, after leading zeros. */
  lemma {:induction false} HexTextIs(s: string)
    requires s != "" && All(Hexadecimal, s)
    ensures Padded(Lowered(s), Hex(HexValue(s)))
  {
    hide Hex, Padded, LowerChar, Lowered, HexDigit, DigitChar;
    var front, c := s[..|s| - 1], s[|s| - 1];
    var v := HexValue(front);
    assert s == front + [c] && HexValue(s) == v * 16 + HexDigit(c);
    LowerDigit(c);
    LoweredSnoc(front, c);
    HexNext(v, HexDigit(c));
    OneZero();
    if front == "" {
      PaddedAll([LowerChar(c)]);
      assert Lowered(s) == [LowerChar(c)];
    } else {
      HexTextIs(front);
      if v == 0 { PaddedZero(Lowered(front), LowerChar(c)); } else { PaddedNext(Lowered(front), Hex(v), LowerChar(c)); }
    }
  }

  lemma Assoc(a: string, b: string, c: string)
    ensures a + b + c == a + (b + c)
  {
  }
}
