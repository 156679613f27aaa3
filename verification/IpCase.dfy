/** The case of letters does not matter in addresses: a text and its lower-case form are read alike. */
module IpCase {
  import opened Basics
  import opened IpDigits
  import opened Ipv6Value
  import Ipv4
  import Ipv6
  import Ipv6Parser
  import IpAddress

  lemma LowerKeeps(c: char)
    ensures forall k :: Is(k, LowerChar(c)) <==> Is(k, c)
    ensures HexDigit(LowerChar(c)) == HexDigit(c) || !IsHex(c)
    ensures (LowerChar(c) == ':' <==> c == ':') && (LowerChar(c) == '/' <==> c == '/')
    ensures LowerChar(c) == '.' <==> c == '.'
    ensures Is(DotDecimal, c) ==> LowerChar(c) == c
  {
  }

  lemma {:induction false} LowerSlice(d: string, c: nat, e: nat)
    requires c <= e <= |d|
    ensures Lowered(d)[c..e] == Lowered(d[c..e])
  {
  }

  lemma {:induction false} LowerRun(k: Class, d: string, c: nat)
    requires c <= |d|
    ensures RunEnd(k, Lowered(d), c) == RunEnd(k, d, c)
    decreases |d| - c
  {
    hide LowerChar, Is;
    if c < |d| {
      LowerKeeps(d[c]);
      LowerRun(k, d, c + 1);
    }
  }

  /** Digits and dots have no case. */
  lemma {:induction false} LowerDotted(s: string)
    requires All(DotDecimal, s)
    ensures Lowered(s) == s
  {
    hide LowerChar, Is;
    forall i | 0 <= i < |s| ensures Lowered(s)[i] == s[i] { LowerKeeps(s[i]); }
  }

  /** A run of digits, or of digits and dots, is the same in lower case. */
  lemma {:induction false} LowerSame(k: Class, d: string, c: nat)
    requires c <= |d| && k != Hexadecimal
    ensures RunEnd(k, Lowered(d), c) == RunEnd(k, d, c)
    ensures Lowered(d)[c..RunEnd(k, d, c)] == d[c..RunEnd(k, d, c)]
  {
    LowerRun(k, d, c);
    RunIs(k, d, c);
    LowerSlice(d, c, RunEnd(k, d, c));
    LowerDotted(d[c..RunEnd(k, d, c)]);
  }

  lemma {:induction false} LowerHexValue(s: string)
    requires All(Hexadecimal, s)
    ensures HexValue(Lowered(s)) == HexValue(s)
  {
    hide LowerChar, HexDigit;
    if s != "" {
      var front := s[..|s| - 1];
      LowerHexValue(front);
      LowerKeeps(s[|s| - 1]);
      assert Lowered(s)[..|s| - 1] == Lowered(front);
    }
  }

  // ---------------------------------------------------------------- IPv4

  lemma {:induction false} LowerV4Mask(d: string, c: nat, numbers: seq<string>)
    requires c <= |d|
    ensures Ipv4.ScanMask(Lowered(d), c, numbers) == Ipv4.ScanMask(d, c, numbers)
  {
    hide LowerChar, ToByte;
    if c < |d| {
      LowerKeeps(d[c]);
      LowerSame(Decimal, d, c + 1);
    }
  }

  lemma {:induction false} LowerV4Scan(d: string, c: nat, numbers: seq<string>)
    requires c <= |d| && |numbers| < 4
    ensures Ipv4.Scan(Lowered(d), c, numbers) == Ipv4.Scan(d, c, numbers)
    decreases 4 - |numbers|
  {
    hide LowerChar, ToByte, Ipv4.ScanMask;
    LowerSame(Decimal, d, c);
    var e := RunEnd(Decimal, d, c);
    var read := numbers + [d[c..e]];
    LowerV4Mask(d, e, read);
    if e < |d| {
      LowerKeeps(d[e]);
      if |read| < 4 { LowerV4Scan(d, e + 1, read); }
    }
  }

  // ---------------------------------------------------------------- IPv6

  function LowItem(i: Ipv6.Item): Ipv6.Item { if i.Group? then Ipv6.Group(Lowered(i.hex)) else i }

  function LowItems(items: seq<Ipv6.Item>): (r: seq<Ipv6.Item>)
    ensures |r| == |items| && forall i :: 0 <= i < |items| ==> r[i] == LowItem(items[i])
  {
    seq(|items|, i requires 0 <= i < |items| => LowItem(items[i]))
  }

  function LowTree(t: Ipv6.Tree): Ipv6.Tree { t.(left := LowItems(t.left), right := LowItems(t.right)) }

  function LowOutcome(o: Ipv6.Outcome): Ipv6.Outcome { if o.Done? then Ipv6.Done(LowTree(o.tree), o.end) else o }

  function LowTurn(turn: Ipv6.Turn): Ipv6.Turn {
    match turn
    case Stop(o) => Ipv6.Stop(LowOutcome(o))
    case Next(c, t) => Ipv6.Next(c, LowTree(t))
  }

  function LowParsed(p: Ipv6.Parsed): Ipv6.Parsed { if p.Ok? then Ipv6.Ok(LowTree(p.tree)) else p }

  predicate HexItems(items: seq<Ipv6.Item>) {
    forall i :: 0 <= i < |items| && items[i].Group? ==> All(Hexadecimal, items[i].hex)
  }

  predicate HexTree(t: Ipv6.Tree) { HexItems(t.left) && HexItems(t.right) }

  lemma {:induction false} LowItemValues(i: Ipv6.Item)
    requires i.Group? ==> All(Hexadecimal, i.hex)
    ensures Ipv6.ItemValues(LowItem(i)) == Ipv6.ItemValues(i)
  {
    if i.Group? { LowerHexValue(i.hex); }
  }

  /** The groups are the same in either case. */
  lemma {:induction false} LowValues(items: seq<Ipv6.Item>)
    requires HexItems(items)
    ensures Ipv6.Values(LowItems(items)) == Ipv6.Values(items)
  {
    hide LowItem, Ipv6.ItemValues;
    if items != [] {
      var front := items[..|items| - 1];
      LowValues(front);
      LowItemValues(items[|items| - 1]);
      assert LowItems(items)[..|items| - 1] == LowItems(front);
    }
  }

  lemma {:induction false} LowCount(t: Ipv6.Tree)
    requires HexTree(t)
    ensures Ipv6.Count(LowTree(t)) == Ipv6.Count(t)
    ensures Ipv6.Count(t) <= Ipv6.GROUPS ==> Ipv6.Expand(LowTree(t)) == Ipv6.Expand(t)
    ensures Ipv6.Mask(LowTree(t)) == Ipv6.Mask(t)
  {
    hide Ipv6.Values, HexItems;
    LowValues(t.left);
    LowValues(t.right);
  }

  lemma {:induction false} LowPush(t: Ipv6.Tree, i: Ipv6.Item)
    requires HexTree(t) && (i.Group? ==> All(Hexadecimal, i.hex))
    ensures Ipv6.Push(LowTree(t), LowItem(i)) == LowTree(Ipv6.Push(t, i)) && HexTree(Ipv6.Push(t, i))
  {
    hide LowItem;
    var side := Ipv6.Side(t);
    assert LowItems(side + [i]) == LowItems(side) + [LowItem(i)];
  }

  lemma {:induction false} LowMask(d: string, e: nat, t: Ipv6.Tree)
    requires e < |d|
    ensures Ipv6.ScanMask(Lowered(d), e, LowTree(t)) == LowOutcome(Ipv6.ScanMask(d, e, t))
  {
    hide ToByte, LowItems;
    LowerSame(Decimal, d, e + 1);
  }

  predicate HexTurn(turn: Ipv6.Turn) {
    match turn
    case Stop(o) => o.Done? ==> HexTree(o.tree)
    case Next(_, t) => HexTree(t)
  }

  lemma {:induction false} LowQuadTurn(d: string, c: nat, t: Ipv6.Tree)
    requires c < |d| && HexTree(t)
    ensures Ipv6.QuadTurn(Lowered(d), c, LowTree(t)) == LowTurn(Ipv6.QuadTurn(d, c, t))
    ensures HexTurn(Ipv6.QuadTurn(d, c, t))
  {
    hide Ipv4.Parse, HexTree, LowTree, Ipv6.Push, Ipv6.Count, LowerChar;
    LowerSame(DotDecimal, d, c);
    var q := RunEnd(DotDecimal, d, c);
    LowCount(t);
    LowPush(t, Ipv6.Quad(d[c..q]));
    if q < |d| { LowerKeeps(d[q]); }
  }

  lemma {:induction false} LowGap(d: string, e: nat, t: Ipv6.Tree)
    requires e < |d| && HexTree(t)
    ensures Ipv6.GapTurn(Lowered(d), e, LowTree(t)) == LowTurn(Ipv6.GapTurn(d, e, t))
    ensures HexTurn(Ipv6.GapTurn(d, e, t))
  {
    hide LowerChar, LowItems;
    if e + 2 < |d| { LowerKeeps(d[e + 2]); }
  }

  lemma {:induction false} LowWithGroup(d: string, c: nat, e: nat, t: Ipv6.Tree)
    requires c <= e <= |d| && All(Hexadecimal, d[c..e]) && HexTree(t)
    ensures Ipv6.WithGroup(Lowered(d), c, e, LowTree(t)) == LowTree(Ipv6.WithGroup(d, c, e, t))
    ensures HexTree(Ipv6.WithGroup(d, c, e, t))
  {
    hide LowerChar, Lowered, LowTree, HexTree, Ipv6.Push;
    LowerSlice(d, c, e);
    LowPush(t, Ipv6.Group(d[c..e]));
  }

  lemma LowFlags(t: Ipv6.Tree)
    ensures LowTree(t).(trail := true) == LowTree(t.(trail := true))
    ensures LowTree(t).(lead := true) == LowTree(t.(lead := true))
    ensures HexTree(t) ==> HexTree(t.(trail := true)) && HexTree(t.(lead := true))
    ensures forall mask :: HexTree(t) ==> HexTree(t.(mask := mask))
  {
  }

  lemma {:induction false} LowGroupTurn(d: string, c: nat, e: nat, t: Ipv6.Tree)
    requires c <= e <= |d| && All(Hexadecimal, d[c..e]) && HexTree(t)
    ensures Ipv6.GroupTurn(Lowered(d), c, e, LowTree(t)) == LowTurn(Ipv6.GroupTurn(d, c, e, t))
    ensures HexTurn(Ipv6.GroupTurn(d, c, e, t))
  {
    hide LowerChar, LowTree, HexTree, Ipv6.WithGroup, Ipv6.GapTurn;
    LowWithGroup(d, c, e, t);
    var u := Ipv6.WithGroup(d, c, e, t);
    LowFlags(u);
    if e < |d| {
      LowerKeeps(d[e]);
      LowMask(d, e, u);
      LowGap(d, e, u);
      if e + 1 < |d| { LowerKeeps(d[e + 1]); }
    }
  }

  lemma {:induction false} LowStep(d: string, c: nat, t: Ipv6.Tree)
    requires c < |d| && HexTree(t)
    ensures Ipv6.Step(Lowered(d), c, LowTree(t)) == LowTurn(Ipv6.Step(d, c, t))
    ensures HexTurn(Ipv6.Step(d, c, t))
  {
    hide LowerChar, LowTree, HexTree, Ipv6.GroupTurn, Ipv6.QuadTurn;
    LowerRun(Hexadecimal, d, c);
    RunIs(Hexadecimal, d, c);
    var e := RunEnd(Hexadecimal, d, c);
    LowQuadTurn(d, c, t);
    LowGroupTurn(d, c, e, t);
    if e < |d| { LowerKeeps(d[e]); }
  }

  lemma {:induction false} LowScan(d: string, c: nat, t: Ipv6.Tree)
    requires c <= |d| && HexTree(t)
    ensures Ipv6.Scan(Lowered(d), c, LowTree(t)) == LowOutcome(Ipv6.Scan(d, c, t))
    ensures Ipv6.Scan(d, c, t).Done? ==> HexTree(Ipv6.Scan(d, c, t).tree)
    decreases |d| - c
  {
    hide LowerChar, LowTree, HexTree, Ipv6.Step, Ipv6.Count;
    LowCount(t);
    if c < |d| && Ipv6.Count(t) < Ipv6.GROUPS {
      LowStep(d, c, t);
      var turn := Ipv6.Step(d, c, t);
      if turn.Next? {
        Ipv6.StepMoves(d, c, t);
        LowScan(d, turn.c, turn.tree);
      }
    }
  }

  lemma NoItems()
    ensures HexItems([])
  {
  }

  /** In lower case the parser reads the same structure, with its groups in lower case. */
  lemma {:induction false} LowParse(d: string)
    ensures Ipv6.Parse(Lowered(d)) == LowParsed(Ipv6.Parse(d))
    ensures Ipv6.Parse(d).Ok? ==> HexTree(Ipv6.Parse(d).tree)
  {
    hide Ipv6.Scan, LowItem, Ipv6.Count, HexItems;
    assert LowTree(Ipv6.START) == Ipv6.START;
    assert HexItems([]) by { NoItems(); }
    LowScan(d, 0, Ipv6.START);
    var o := Ipv6.Scan(d, 0, Ipv6.START);
    if o.Done? { LowCount(o.tree); }
  }

  // ---------------------------------------------------------------- both

  lemma {:induction false} LowDetect(d: string)
    ensures IpAddress.Detect(Lowered(d)) == IpAddress.Detect(d)
    ensures IpAddress.DetectError(Lowered(d)) == IpAddress.DetectError(d)
  {
    hide LowerChar;
    LowerRun(Hexadecimal, d, 0);
    var c := RunEnd(Hexadecimal, d, 0);
    if c < |d| { LowerKeeps(d[c]); }
  }

  /** A text and its lower-case form are the same address with the same mask, or fail alike. */
  lemma {:induction false} CaseIsIgnored(d: string)
    ensures IpAddress.Read(Lowered(d)) == IpAddress.Read(d)
  {
    hide IpAddress.Detect, IpAddress.DetectError, Ipv6.Parse, Ipv4.Scan, HexTree, LowTree, Lowered, Upper, Lower;
    LowDetect(d);
    LowerV4Scan(d, 0, []);
    LowParse(d);
    if Ipv6.Parse(d).Ok? {
      Ipv6Parser.ParsedGroups(d);
      LowCount(Ipv6.Parse(d).tree);
    }
    assert |Lowered(d)| == |d|;
  }
}
