/** Parsing and printing of dotted IPv4 addresses. */
module Ipv4 {
  import opened Basics
  import opened IpDigits

  datatype Error = ExpectedNumber | ByteRange | ExpectedDot | ExpectedSlash | MaskRange

  /** The digit strings of an address, and of its mask when it has one. */
  datatype Text = Text(numbers: seq<string>, mask: Option<string>)

  datatype Parsed = Ok(text: Text) | Err(error: Error)

  const DEFAULT_MASK: nat := 32

  // ---------------------------------------------------------------- the texts of the grammar

  predicate IsByteText(s: string) { All(Decimal, s) && ToByte(s).Some? }

  predicate Valid(t: Text) {
    && |t.numbers| == 4
    && (forall i :: 0 <= i < 4 ==> IsByteText(t.numbers[i]))
    && (t.mask.Some? ==> IsByteText(t.mask.value) && ToByte(t.mask.value).value <= 32)
  }

  function Dotted(numbers: seq<string>): string {
    if numbers == [] then ""
    else if |numbers| == 1 then numbers[0]
    else numbers[0] + "." + Dotted(numbers[1..])
  }

  /** What follows the mask is never looked at, as long as it does not lengthen it. */
  predicate Ignorable(t: Text, junk: string) {
    junk == "" || (t.mask.Some? && !IsDigit(junk[0]))
  }

  function MaskText(t: Text): string { if t.mask.Some? then "/" + t.mask.value else "" }

  function Render(t: Text): string {
    Dotted(t.numbers) + MaskText(t)
  }

  /** The 32-bit address. */
  function Address(t: Text): (a: nat)
    requires Valid(t)
    ensures a < 0x1_0000_0000
  {
    var n := t.numbers;
    ((DecValue(n[0]) * 256 + DecValue(n[1])) * 256 + DecValue(n[2])) * 256 + DecValue(n[3])
  }

  function Mask(t: Text): nat
    requires Valid(t)
  {
    if t.mask.Some? then DecValue(t.mask.value) else DEFAULT_MASK
  }

  // ---------------------------------------------------------------- the scanner as a function

  function ScanMask(d: string, c: nat, numbers: seq<string>): Parsed
    requires c <= |d|
  {
    if c == |d| then Ok(Text(numbers, None))
    else if d[c] != '/' then Err(ExpectedSlash)
    else
      var e := RunEnd(Decimal, d, c + 1);
      var mask := ToByte(d[c + 1..e]);
      if mask.None? || mask.value > 32 then Err(MaskRange) else Ok(Text(numbers, Some(d[c + 1..e])))
  }

  function Scan(d: string, c: nat, numbers: seq<string>): Parsed
    requires c <= |d| && |numbers| < 4
    decreases 4 - |numbers|
  {
    var e := RunEnd(Decimal, d, c);
    if e == c then Err(ExpectedNumber)
    else if ToByte(d[c..e]).None? then Err(ByteRange)
    else
      var read := numbers + [d[c..e]];
      if |read| == 4 then ScanMask(d, e, read)
      else if e == |d| || d[e] != '.' then Err(ExpectedDot)
      else Scan(d, e + 1, read)
  }

  function Parse(d: string): Parsed { Scan(d, 0, []) }

  // ---------------------------------------------------------------- the scanner accepts exactly the grammar

  lemma DottedSnoc(numbers: seq<string>, n: string)
    requires numbers != []
    ensures Dotted(numbers + [n]) == Dotted(numbers) + "." + n
  {
    if |numbers| > 1 {
      assert (numbers + [n])[1..] == numbers[1..] + [n];
      DottedSnoc(numbers[1..], n);
    } else {
      assert (numbers + [n])[1..] == [n];
    }
  }

  /** Text read so far: the numbers and the dot after each. */
  predicate Before(d: string, c: nat, numbers: seq<string>) {
    && c <= |d|
    && d[..c] == (if numbers == [] then "" else Dotted(numbers) + ".")
    && forall i :: 0 <= i < |numbers| ==> IsByteText(numbers[i])
  }

  lemma {:induction false} ScanMaskSound(d: string, c: nat, numbers: seq<string>) returns (junk: string)
    requires c <= |d| && d[..c] == Dotted(numbers) && ScanMask(d, c, numbers).Ok?
    ensures var t := ScanMask(d, c, numbers).text;
            && t.numbers == numbers && d == Render(t) + junk && Ignorable(t, junk)
            && (t.mask.Some? ==> IsByteText(t.mask.value) && ToByte(t.mask.value).value <= 32)
  {
    if c == |d| {
      junk := "";
    } else {
      var e := RunEnd(Decimal, d, c + 1);
      RunIs(Decimal, d, c + 1);
      junk := d[e..];
      assert d == d[..c] + ("/" + d[c + 1..e]) + junk;
    }
  }

  /** The text up to the end of the next number. */
  lemma {:induction false} ReadNumber(d: string, c: nat, e: nat, numbers: seq<string>)
    requires Before(d, c, numbers) && c <= e <= |d| && IsByteText(d[c..e])
    ensures d[..e] == Dotted(numbers + [d[c..e]])
    ensures forall i :: 0 <= i <= |numbers| ==> IsByteText((numbers + [d[c..e]])[i])
    ensures e < |d| && d[e] == '.' ==> Before(d, e + 1, numbers + [d[c..e]])
  {
    hide IsByteText;
    assert d[..e] == d[..c] + d[c..e];
    if numbers != [] { DottedSnoc(numbers, d[c..e]); }
    if e < |d| { assert d[..e + 1] == d[..e] + [d[e]]; }
  }

  lemma ScanNext(d: string, c: nat, e: nat, numbers: seq<string>)
    requires c <= |d| && |numbers| < 4 && e == RunEnd(Decimal, d, c) && Scan(d, c, numbers).Ok?
    ensures ToByte(d[c..e]).Some?
    ensures |numbers| == 3 ==> Scan(d, c, numbers) == ScanMask(d, e, numbers + [d[c..e]])
    ensures |numbers| < 3 ==> e < |d| && d[e] == '.' && Scan(d, c, numbers) == Scan(d, e + 1, numbers + [d[c..e]])
  {
    hide ToByte, ScanMask;
  }

  lemma BeforeFits(d: string, c: nat, numbers: seq<string>)
    requires Before(d, c, numbers)
    ensures c <= |d|
  {
  }

  lemma {:induction false} ScanSound(d: string, c: nat, numbers: seq<string>) returns (junk: string)
    requires |numbers| < 4 && Before(d, c, numbers) && Scan(d, c, numbers).Ok?
    ensures var t := Scan(d, c, numbers).text; Valid(t) && d == Render(t) + junk && Ignorable(t, junk)
    decreases 4 - |numbers|
  {
    hide Before, Scan, ScanMask, ToByte, Render, Ignorable, Dotted;
    BeforeFits(d, c, numbers);
    var e := RunEnd(Decimal, d, c);
    var read := numbers + [d[c..e]];
    RunIs(Decimal, d, c);
    ScanNext(d, c, e, numbers);
    ReadNumber(d, c, e, numbers);
    if |read| == 4 {
      junk := ScanMaskSound(d, e, read);
    } else {
      junk := ScanSound(d, e + 1, read);
    }
  }

  /** One number and the dot after it. */
  lemma {:induction false} ScanNumber(d: string, c: nat, e: nat, numbers: seq<string>)
    requires |numbers| < 3 && c <= e < |d| && IsByteText(d[c..e]) && d[e] == '.'
    ensures Scan(d, c, numbers) == Scan(d, e + 1, numbers + [d[c..e]])
  {
    RunUpTo(Decimal, d, c, e);
  }

  /** The fourth number, the mask and whatever comes after. */
  lemma {:induction false} ScanLast(d: string, c: nat, e: nat, f: nat, t: Text)
    requires Valid(t) && c <= e <= f <= |d| && d[c..e] == t.numbers[3] && d[e..f] == MaskText(t)
    requires f == |d| || (t.mask.Some? && !IsDigit(d[f]))
    ensures Scan(d, c, t.numbers[..3]) == Ok(t)
  {
    if e < |d| { assert d[e] == d[e..f][0]; }
    RunUpTo(Decimal, d, c, e);
    assert t.numbers[..3] + [t.numbers[3]] == t.numbers;
    if t.mask.Some? {
      assert d[e + 1..f] == d[e..f][1..] == t.mask.value;
      RunUpTo(Decimal, d, e + 1, f);
    }
  }

  lemma {:induction false} ScanThree(d: string, e0: nat, e1: nat, e2: nat)
    requires e0 < e1 < e2 < |d| && d[e0] == d[e1] == d[e2] == '.'
    requires IsByteText(d[0..e0]) && IsByteText(d[e0 + 1..e1]) && IsByteText(d[e1 + 1..e2])
    ensures Parse(d) == Scan(d, e2 + 1, [d[0..e0], d[e0 + 1..e1], d[e1 + 1..e2]])
  {
    hide Scan, IsByteText;
    var n0, n1, n2 := d[0..e0], d[e0 + 1..e1], d[e1 + 1..e2];
    ScanNumber(d, 0, e0, []);
    assert [] + [n0] == [n0];
    ScanNumber(d, e0 + 1, e1, [n0]);
    assert [n0] + [n1] == [n0, n1];
    ScanNumber(d, e1 + 1, e2, [n0, n1]);
    assert [n0, n1] + [n2] == [n0, n1, n2];
  }

  lemma {:induction false} ScanFour(d: string, e0: nat, e1: nat, e2: nat, e3: nat, f: nat, t: Text)
    requires Valid(t) && e0 < e1 < e2 < e3 <= f <= |d| && d[e0] == d[e1] == d[e2] == '.'
    requires d[0..e0] == t.numbers[0] && d[e0 + 1..e1] == t.numbers[1] && d[e1 + 1..e2] == t.numbers[2]
    requires d[e2 + 1..e3] == t.numbers[3] && d[e3..f] == MaskText(t)
    requires f == |d| || (t.mask.Some? && !IsDigit(d[f]))
    ensures Parse(d) == Ok(t)
  {
    ScanThree(d, e0, e1, e2);
    assert t.numbers[..3] == [d[0..e0], d[e0 + 1..e1], d[e1 + 1..e2]];
    ScanLast(d, e2 + 1, e3, f, t);
  }

  lemma {:induction false} DottedFour(n: seq<string>)
    requires |n| == 4
    ensures Dotted(n) == n[0] + "." + n[1] + "." + n[2] + "." + n[3]
  {
    assert n[1..][1..] == n[2..] && n[2..][1..] == n[3..];
    assert Dotted(n[3..]) == n[3];
    assert Dotted(n[2..]) == n[2] + "." + n[3];
    assert Dotted(n[1..]) == n[1] + "." + Dotted(n[2..]);
  }

  lemma {:induction false} ScanComplete(d: string, t: Text, junk: string)
    requires Valid(t) && Ignorable(t, junk) && d == Render(t) + junk
    ensures Parse(d) == Ok(t)
  {
    hide Dotted, Scan, ScanMask, DecValue, ToByte;
    var n := t.numbers;
    DottedFour(n);
    var e0 := |n[0]|;
    var e1 := e0 + 1 + |n[1]|;
    var e2 := e1 + 1 + |n[2]|;
    var e3 := e2 + 1 + |n[3]|;
    ScanFour(d, e0, e1, e2, e3, |Render(t)|, t);
  }

  /** A string is accepted, as the text `t`, exactly when it is a rendering of `t` and an ignored rest. */
  lemma ParseIsGrammar(d: string, t: Text)
    ensures Parse(d) == Ok(t) <==> Valid(t) && exists junk :: d == Render(t) + junk && Ignorable(t, junk)
  {
    if Parse(d) == Ok(t) {
      assert Before(d, 0, []);
      var junk := ScanSound(d, 0, []);
    }
    if Valid(t) {
      forall junk | d == Render(t) + junk && Ignorable(t, junk) ensures Parse(d) == Ok(t) {
        ScanComplete(d, t, junk);
      }
    }
  }

  // ---------------------------------------------------------------- the parser

  datatype Result = Accepted(address: nat, mask: nat) | Rejected(error: Error)

  /** What the text that the scanner reads denotes. */
  function Meaning(p: Parsed): Result
    requires p.Ok? ==> Valid(p.text)
  {
    match p
    case Ok(t) => Accepted(Address(t), Mask(t))
    case Err(e) => Rejected(e)
  }

  method SkipDigits(d: string, start: nat) returns (c: nat)
    requires start <= |d|
    ensures c == RunEnd(Decimal, d, start) && All(Decimal, d[start..c])
  {
    RunIs(Decimal, d, start);
    c := start;
    while c < |d| && IsDigit(d[c])
      invariant start <= c <= |d| && RunEnd(Decimal, d, start) == RunEnd(Decimal, d, c)
    {
      c := c + 1;
    }
  }

  method TryParseMask(d: string, c: nat, address: nat, ghost numbers: seq<string>) returns (r: Result)
    requires c <= |d| && |numbers| == 4 && forall i :: 0 <= i < 4 ==> IsByteText(numbers[i])
    requires address == Address(Text(numbers, None))
    ensures ScanMask(d, c, numbers).Ok? ==> Valid(ScanMask(d, c, numbers).text)
    ensures r == Meaning(ScanMask(d, c, numbers))
  {
    if c == |d| { return Accepted(address, DEFAULT_MASK); }
    if d[c] != '/' { return Rejected(ExpectedSlash); }
    var start := c + 1;
    var e := SkipDigits(d, start);
    var mask := ToByte(d[start..e]);
    if mask.None? || mask.value > 32 { return Rejected(MaskRange); }
    return Accepted(address, mask.value);
  }

  /** The value of the numbers read so far. */
  function Prefix(numbers: seq<string>): nat
    requires forall i :: 0 <= i < |numbers| ==> IsByteText(numbers[i])
  {
    if numbers == [] then 0
    else
      assert IsByteText(numbers[|numbers| - 1]);
      Prefix(numbers[..|numbers| - 1]) * 256 + DecValue(numbers[|numbers| - 1])
  }

  lemma PrefixSnoc(numbers: seq<string>, n: string)
    requires (forall i :: 0 <= i < |numbers| ==> IsByteText(numbers[i])) && IsByteText(n)
    ensures Prefix(numbers + [n]) == Prefix(numbers) * 256 + DecValue(n)
  {
    assert (numbers + [n])[..|numbers|] == numbers;
  }

  lemma PrefixOfFour(numbers: seq<string>)
    requires |numbers| == 4 && forall i :: 0 <= i < 4 ==> IsByteText(numbers[i])
    ensures Prefix(numbers) == Address(Text(numbers, None))
  {
    assert numbers == [] + [numbers[0]] + [numbers[1]] + [numbers[2]] + [numbers[3]];
    PrefixSnoc([], numbers[0]);
    PrefixSnoc([] + [numbers[0]], numbers[1]);
    PrefixSnoc([] + [numbers[0]] + [numbers[1]], numbers[2]);
    PrefixSnoc([] + [numbers[0]] + [numbers[1]] + [numbers[2]], numbers[3]);
  }

  lemma PrefixNone()
    ensures Prefix([]) == 0
  {
  }

  /** What the scanner does with the digits from `c` to `e`. */
  lemma ScanTurn(d: string, c: nat, e: nat, numbers: seq<string>)
    requires c <= |d| && |numbers| < 4 && e == RunEnd(Decimal, d, c)
    ensures e == c ==> Scan(d, c, numbers) == Err(ExpectedNumber)
    ensures e > c && ToByte(d[c..e]).None? ==> Scan(d, c, numbers) == Err(ByteRange)
    ensures e > c && ToByte(d[c..e]).Some? && |numbers| == 3 ==>
      Scan(d, c, numbers) == ScanMask(d, e, numbers + [d[c..e]])
    ensures e > c && ToByte(d[c..e]).Some? && |numbers| < 3 ==>
      Scan(d, c, numbers) == if e == |d| || d[e] != '.' then Err(ExpectedDot) else Scan(d, e + 1, numbers + [d[c..e]])
  {
    hide ToByte, ScanMask;
  }

  method TryParse(d: string) returns (r: Result)
    ensures Parse(d).Ok? ==> Valid(Parse(d).text)
    ensures r == Meaning(Parse(d))
  {
    hide Scan, ScanMask, Prefix, RunEnd;
    PrefixNone();
    var c, numberCount, address := 0, 0, 0;
    ghost var read: seq<string> := [];
    while true
      invariant c <= |d| && |read| == numberCount < 4
      invariant forall i :: 0 <= i < |read| ==> IsByteText(read[i])
      invariant address == Prefix(read)
      invariant Parse(d) == Scan(d, c, read)
      decreases 4 - numberCount
    {
      var start := c;
      c := SkipDigits(d, start);
      ScanTurn(d, start, c, read);
      if start == c { return Rejected(ExpectedNumber); }
      var number := ToByte(d[start..c]);
      if number.None? { return Rejected(ByteRange); }
      PrefixSnoc(read, d[start..c]);
      address := address * 256 + number.value;
      numberCount := numberCount + 1;
      read := read + [d[start..c]];
      if numberCount == 4 {
        PrefixOfFour(read);
        r := TryParseMask(d, c, address, read);
        return;
      }
      if c == |d| || d[c] != '.' { return Rejected(ExpectedDot); }
      c := c + 1;
    }
  }

  // ---------------------------------------------------------------- the printer

  /** Byte `i` of an address, most significant first. */
  function ByteAt(address: nat, i: nat): (b: nat)
    requires i < 4
    ensures b < 256
  {
    (if i == 0 then address / 0x100_0000 else if i == 1 then address / 0x1_0000
     else if i == 2 then address / 0x100 else address) % 256
  }

  /** The text ToStringIPv4 prints. */
  function Canonical(address: nat, mask: nat): (t: Text)
    requires mask <= 32
    ensures Valid(t)
  {
    Text([Dec(ByteAt(address, 0)), Dec(ByteAt(address, 1)), Dec(ByteAt(address, 2)), Dec(ByteAt(address, 3))],
         if mask == DEFAULT_MASK then None else Some(Dec(mask)))
  }

  method ToString(address: nat, mask: nat) returns (result: string)
    requires mask <= 32
    ensures result == Render(Canonical(address, mask))
  {
    result := "";
    ghost var numbers := Canonical(address, mask).numbers;
    for i := 0 to 4
      invariant result == Dotted(numbers[..i])
    {
      if i > 0 {
        result := result + ".";
        DottedSnoc(numbers[..i], numbers[i]);
      }
      result := result + Dec(ByteAt(address, i));
      assert numbers[..i] + [numbers[i]] == numbers[..i + 1];
    }
    assert numbers[..4] == numbers;
    if mask != DEFAULT_MASK { result := result + "/" + Dec(mask); }
  }

  /** The next byte of a number. */
  lemma {:induction false} ByteStep(n: nat, m: nat)
    requires m > 0
    ensures n / m == n / (m * 256) * 256 + n / m % 256
  {
    var q, r := n / m, n % m;
    var p, b := q / 256, q % 256;
    assert n == q * m + r && q == p * 256 + b;
    assert q * m == p * (m * 256) + b * m;
    MulLe(b, 255, m);
    MulLe(0, b, m);
    QuotientIs(n, m * 256, p, b * m + r);
  }

  lemma {:induction false} BytesMakeAddress(address: nat)
    requires address < 0x1_0000_0000
    ensures ((ByteAt(address, 0) * 256 + ByteAt(address, 1)) * 256 + ByteAt(address, 2)) * 256 + ByteAt(address, 3)
         == address
  {
    ByteStep(address, 1);
    ByteStep(address, 0x100);
    ByteStep(address, 0x1_0000);
    QuotientIs(address, 0x1_0000_0000, 0, address);
    ByteStep(address, 0x100_0000);
  }

  /** Reading a printed address gives it back. */
  lemma RoundTrip(address: nat, mask: nat)
    requires address < 0x1_0000_0000 && mask <= 32
    ensures Parse(Render(Canonical(address, mask))) == Ok(Canonical(address, mask))
    ensures Address(Canonical(address, mask)) == address && Mask(Canonical(address, mask)) == mask
  {
    var t := Canonical(address, mask);
    assert Render(t) == Render(t) + "" && Ignorable(t, "");
    ParseIsGrammar(Render(t), t);
    BytesMakeAddress(address);
  }
}
