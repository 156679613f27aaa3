/** Addresses of either kind: the parser's choice of grammar, the printer, and the round trip. */
module IpAddress {
  import opened Basics
  import opened IpDigits
  import opened Ipv6Value
  import Ipv4
  import Ipv6
  import Ipv6Parser
  import Ipv6Printer

  datatype Kind = V4 | V6

  datatype Ip = Ip(kind: Kind, address: nat, mask: nat)

  datatype Error = NotAnAddress | ExpectedNumber | BadV4(v4: Ipv4.Error) | BadV6(v6: Ipv6.Error)

  datatype Result = Accepted(ip: Ip) | Rejected(error: Error) | Overrun

  predicate InRange(ip: Ip) {
    match ip.kind
    case V4 => ip.address < 0x1_0000_0000 && ip.mask <= 32
    case V6 => ip.address < HALF * HALF && ip.mask <= 128
  }

  /** The kind of address a text is taken for, by the first character that is no hexadecimal digit. */
  function Detect(d: string): Option<Kind> {
    var c := RunEnd(Hexadecimal, d, 0);
    if c == |d| then None
    else if d[c] == ':' then Some(V6)
    else if c > 0 && d[c] == '.' then Some(V4)
    else None
  }

  function DetectError(d: string): Error {
    var c := RunEnd(Hexadecimal, d, 0);
    if c < |d| && c == 0 then ExpectedNumber else NotAnAddress
  }

  function OfV4(r: Ipv4.Result): Result {
    match r
    case Accepted(a, m) => Accepted(Ip(V4, a, m))
    case Rejected(e) => Rejected(BadV4(e))
  }

  function OfV6(r: Ipv6Parser.Result): Result {
    match r
    case Accepted(u, l, m) => Accepted(Ip(V6, u * HALF + l, m))
    case Rejected(e) => Rejected(BadV6(e))
    case Overrun => Overrun
  }

  /** What a text is read as. */
  ghost function Read(d: string): Result {
    if Detect(d) == Some(V6) then
      if Ipv6.Parse(d).Ok? then (Ipv6Parser.ParsedGroups(d); OfV6(Ipv6Parser.Meaning(Ipv6.Parse(d))))
      else OfV6(Ipv6Parser.Meaning(Ipv6.Parse(d)))
    else if Detect(d) == Some(V4) then
      if Ipv4.Parse(d).Ok? then (Ipv4.ParseIsGrammar(d, Ipv4.Parse(d).text); OfV4(Ipv4.Meaning(Ipv4.Parse(d))))
      else OfV4(Ipv4.Meaning(Ipv4.Parse(d)))
    else Rejected(DetectError(d))
  }

  method TryParse(d: string) returns (r: Result)
    ensures r == Read(d)
  {
    var c := Ipv6Parser.Skip(Hexadecimal, d, 0);
    if c == |d| { return Rejected(NotAnAddress); }
    if d[c] == ':' {
      var v6 := Ipv6Parser.TryParse(d);
      return OfV6(v6);
    }
    if c == 0 { return Rejected(ExpectedNumber); }
    if d[c] == '.' {
      var v4 := Ipv4.TryParse(d);
      return OfV4(v4);
    }
    return Rejected(NotAnAddress);
  }

  // ---------------------------------------------------------------- the choice of grammar loses nothing

  lemma {:induction false} DetectAt(d: string, h: nat, k: Kind)
    requires h < |d| && All(Hexadecimal, d[..h])
    requires if k == V6 then d[h] == ':' else d[h] == '.' && h > 0
    ensures Detect(d) == Some(k)
  {
    assert d[0..h] == d[..h];
    RunUpTo(Hexadecimal, d, 0, h);
  }

  /** The first character that is no hexadecimal digit decides how a text is read. */
  lemma {:induction false} ReadIs(d: string, h: nat)
    requires h <= |d| && All(Hexadecimal, d[..h]) && (h == |d| || !IsHex(d[h]))
    ensures Read(d) == Rejected(ExpectedNumber) <==> h == 0 < |d| && d[0] != ':'
    ensures Read(d) == Rejected(NotAnAddress) <==> h == |d| || (h > 0 && d[h] != ':' && d[h] != '.')
    ensures Detect(d) == Some(V6) <==> h < |d| && d[h] == ':'
    ensures Detect(d) == Some(V4) <==> 0 < h < |d| && d[h] == '.'
  {
    hide Ipv6.Parse, Ipv4.Parse, Ipv6Parser.Meaning, Ipv4.Meaning;
    assert d[0..h] == d[..h];
    RunUpTo(Hexadecimal, d, 0, h);
  }

  lemma {:induction false} LeftOnly(t: Ipv6.Tree)
    requires Ipv6.Valid(t) && |t.left| == 1
    ensures t.gap
  {
    hide Ipv6.ItemOk;
    Ipv6Parser.NoValues();
    Ipv6.ValuesLength(t.left, !t.gap);
  }

  /** The first group of a list that starts an IPv6 text, and the colon after it. */
  lemma {:induction false} FirstGroup(t: Ipv6.Tree) returns (h: nat)
    requires Ipv6.Valid(t) && !t.lead && t.left != []
    ensures h < |Ipv6.Body(t)| && All(Hexadecimal, Ipv6.Body(t)[..h]) && Ipv6.Body(t)[h] == ':'
  {
    hide Ipv6.Body, Ipv6.Join, Ipv6.ItemOk, Ipv6.Values;
    var b, j := Ipv6.Body(t), Ipv6.Join(t.left);
    Ipv6.BodyLayout(t, 0, |j|);
    Ipv6.ValuesLength(t.left, !t.gap);
    if |t.left| > 1 {
      Ipv6.ItemsTail(t.left, !t.gap);
      Ipv6.JoinBegins(b, 0, t.left);
      h := |Ipv6.Text(t.left[0])|;
      assert b[..h] == b[0..h];
    } else {
      LeftOnly(t);
      Ipv6.LastLeft(t);
      Ipv6.OnlyItem(t, t.left);
      h := |j|;
      assert b[..h] == b[0..h] && b[h] == b[h..h + 2][0];
    }
  }

  lemma {:induction false} LeftNone(t: Ipv6.Tree)
    requires Ipv6.Valid(t)
    ensures t.left == [] ==> t.gap && !t.lead
  {
    Ipv6Parser.NoValues();
  }

  lemma {:induction false} DetectV6(t: Ipv6.Tree)
    requires Ipv6.Valid(t)
    ensures Detect(Ipv6.Render(t)) == Some(V6)
  {
    hide Detect, Ipv6.Body, Ipv6.Join, Ipv6.Valid, Ipv6.Render;
    LeftNone(t);
    var b, d := Ipv6.Body(t), Ipv6.Render(t);
    Ipv6.RenderLayout(t, 0, |b|);
    assert d[..|b|] == b by { assert d[..|b|] == d[0..|b|] && b[0..|b|] == b; }
    if !t.lead && t.left != [] {
      var h := FirstGroup(t);
      assert d[..h] == b[..h] && d[h] == b[h];
      DetectAt(d, h, V6);
    } else {
      Ipv6.JoinNone();
      Ipv6.BodyLayout(t, if t.lead then 1 else 0, (if t.lead then 1 else 0) + |Ipv6.Join(t.left)|);
      if !t.lead { assert b[0] == b[0..2][0]; }
      assert d[0] == b[0];
      DetectAt(d, 0, V6);
    }
  }

  lemma {:induction false} DetectV4(t: Ipv4.Text, junk: string)
    requires Ipv4.Valid(t)
    ensures Detect(Ipv4.Render(t) + junk) == Some(V4)
  {
    hide Detect;
    var n := t.numbers;
    var d := Ipv4.Render(t) + junk;
    assert Ipv4.Dotted(n) == n[0] + "." + Ipv4.Dotted(n[1..]);
    assert d[..|n[0]|] == n[0] && d[|n[0]|] == '.';
    DetectAt(d, |n[0]|, V4);
  }

  lemma {:induction false} ReadV6(d: string)
    ensures Read(d).Accepted? && Read(d).ip.kind == V6 <==> exists t :: Ipv6.Valid(t) && Ipv6.Render(t) == d
  {
    hide Detect, Ipv6.Parse, Ipv6.Valid, Ipv6.Render, Ipv4.Parse;
    if Ipv6.Parse(d).Ok? { Ipv6.ParseIsGrammar(d, Ipv6.Parse(d).tree); }
    forall t | Ipv6.Valid(t) && Ipv6.Render(t) == d
      ensures Detect(d) == Some(V6) && Ipv6.Parse(d).Ok?
    {
      DetectV6(t);
      Ipv6.ParseIsGrammar(d, t);
    }
  }

  lemma {:induction false} ReadV4(d: string)
    ensures Read(d).Accepted? && Read(d).ip.kind == V4 <==>
            exists t, junk :: Ipv4.Valid(t) && d == Ipv4.Render(t) + junk && Ipv4.Ignorable(t, junk)
  {
    hide Detect, Ipv6.Parse, Ipv4.Valid, Ipv4.Render, Ipv4.Parse, Ipv4.Ignorable;
    if Ipv4.Parse(d).Ok? { Ipv4.ParseIsGrammar(d, Ipv4.Parse(d).text); }
    forall t, junk | Ipv4.Valid(t) && d == Ipv4.Render(t) + junk && Ipv4.Ignorable(t, junk)
      ensures Detect(d) == Some(V4) && Ipv4.Parse(d).Ok?
    {
      DetectV4(t, junk);
      Ipv4.ParseIsGrammar(d, t);
    }
  }

  // ---------------------------------------------------------------- printing

  /** `s` is the printed form of `ip`. */
  ghost predicate Prints(ip: Ip, s: string)
    requires InRange(ip)
  {
    match ip.kind
    case V4 => s == Ipv4.Render(Ipv4.Canonical(ip.address, ip.mask))
    case V6 =>
      var q := Ipv6Printer.GroupsOf(ip.address / HALF, ip.address % HALF);
      exists start: nat, run: nat :: Ipv6Printer.BestRun(q, start, run)
        && s == Ipv6.Render(Ipv6Printer.Canonical(q, start, run, ip.mask))
  }

  method ToString(ip: Ip) returns (s: string)
    requires InRange(ip)
    ensures Prints(ip, s)
  {
    hide Ipv6Printer.BestRun, Ipv6.Render, Ipv6Printer.Canonical, Ipv6Printer.GroupsOf;
    if ip.kind == V4 {
      s := Ipv4.ToString(ip.address, ip.mask);
    } else {
      ghost var start, run;
      s, start, run := Ipv6Printer.ToString(ip.address / HALF, ip.address % HALF, ip.mask);
    }
  }

  lemma {:induction false} CanonicalValid(q: seq<nat>, start: nat, run: nat, mask: nat)
    requires Groups(q) && Ipv6Printer.BestRun(q, start, run) && mask <= 128
    ensures Ipv6.Valid(Ipv6Printer.Canonical(q, start, run, mask))
  {
    Ipv6Printer.CanonicalMeans(q, start, run, mask);
  }

  /** Every address is read back from its printed form. */
  lemma {:induction false} RoundTrip(ip: Ip, s: string)
    requires InRange(ip) && Prints(ip, s)
    ensures Read(s) == Accepted(ip)
  {
    hide Detect, Ipv6.Parse, Ipv4.Parse, Ipv4.Render, Ipv6.Render, Ipv6Printer.Canonical,
         Ipv6Printer.GroupsOf, Ipv6Parser.Meaning, Ipv4.Canonical, Ipv4.Address, Ipv4.Mask;
    if ip.kind == V4 {
      Ipv4.RoundTrip(ip.address, ip.mask);
      DetectV4(Ipv4.Canonical(ip.address, ip.mask), "");
      assert s + "" == s;
    } else {
      var q := Ipv6Printer.GroupsOf(ip.address / HALF, ip.address % HALF);
      var start: nat, run: nat :| Ipv6Printer.BestRun(q, start, run)
        && s == Ipv6.Render(Ipv6Printer.Canonical(q, start, run, ip.mask));
      Ipv6Printer.RoundTrip(ip.address / HALF, ip.address % HALF, ip.mask, start, run);
      CanonicalValid(q, start, run, ip.mask);
      DetectV6(Ipv6Printer.Canonical(q, start, run, ip.mask));
    }
  }

  /** Different addresses print differently. */
  lemma {:induction false} PrintsInjective(a: Ip, b: Ip, s: string)
    requires InRange(a) && InRange(b) && Prints(a, s) && Prints(b, s)
    ensures a == b
  {
    hide Prints, Read;
    RoundTrip(a, s);
    RoundTrip(b, s);
  }
}
