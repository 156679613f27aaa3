/** The IPv6 parser: a scan into a group array, then the assembly of the two halves. */
module Ipv6Parser {
  import opened Basics
  import opened IpDigits
  import opened Ipv6Value
  import Ipv4
  import Ipv6

  datatype Result =
    | Accepted(upper: nat, lower: nat, mask: nat)
    | Rejected(error: Ipv6.Error)
    | Overrun

  /** What the scanned text denotes. */
  ghost function Meaning(p: Ipv6.Parsed): Result
    requires p.Ok? ==> Ipv6.Count(p.tree) <= Ipv6.GROUPS && Groups(Ipv6.Expand(p.tree))
  {
    match p
    case Ok(t) => Accepted(Upper(Ipv6.Expand(t)), Lower(Ipv6.Expand(t)), Ipv6.Mask(t))
    case Err(e) => Rejected(e)
    case Overrun => Overrun
  }

  // ---------------------------------------------------------------- groups are 16 bits wide

  lemma {:induction false} ItemGroups(i: Ipv6.Item)
    requires Ipv6.ItemOk(i)
    ensures forall k :: 0 <= k < |Ipv6.ItemValues(i)| ==> Ipv6.ItemValues(i)[k] < GROUP
  {
    if i.Group? { HexValueBound(i.hex); }
  }

  lemma {:induction false} AllGroups(items: seq<Ipv6.Item>)
    requires forall i :: 0 <= i < |items| ==> Ipv6.ItemOk(items[i])
    ensures forall k :: 0 <= k < |Ipv6.Values(items)| ==> Ipv6.Values(items)[k] < GROUP
  {
    hide Ipv6.ItemOk, Ipv6.ItemValues;
    if items != [] {
      AllGroups(items[..|items| - 1]);
      ItemGroups(items[|items| - 1]);
    }
  }

  lemma {:induction false} ExpandGroups(t: Ipv6.Tree)
    requires Ipv6.WellFormed(t) && Ipv6.Count(t) <= Ipv6.GROUPS
    ensures Groups(Ipv6.Expand(t))
  {
    hide Ipv6.ItemOk, Ipv6.Values;
    AllGroups(t.left);
    AllGroups(t.right);
  }

  lemma {:induction false} ParsedGroups(d: string)
    requires Ipv6.Parse(d).Ok?
    ensures Ipv6.Count(Ipv6.Parse(d).tree) <= Ipv6.GROUPS && Groups(Ipv6.Expand(Ipv6.Parse(d).tree))
  {
    Ipv6.ParseSound(d);
    hide Ipv6.Parse, Ipv6.Render;
    ExpandGroups(Ipv6.Parse(d).tree);
  }

  // ---------------------------------------------------------------- the second loop: assembly

  /** The groups read, with zeros where "::" was. */
  function Spread(groups: seq<nat>, first: int): (q: seq<nat>)
    requires |groups| <= 8 && -1 <= first <= |groups| && (first == -1 ==> |groups| == 8)
    ensures |q| == 8
  {
    if first == -1 then groups
    else groups[..first] + seq(8 - |groups|, _ => 0) + groups[first..]
  }

  predicate Placed(groups: seq<nat>, first: int) {
    && |groups| <= 8 && -1 <= first <= |groups| && (first == -1 ==> |groups| == 8)
    && forall i :: 0 <= i < |groups| ==> groups[i] < GROUP
  }

  /** Where group `parsed` goes. */
  function Output(groups: seq<nat>, first: int, parsed: nat): nat
    requires |groups| <= 8
  {
    if first == -1 || parsed < first then parsed else parsed + 8 - |groups|
  }

  lemma {:induction false} SpreadGroups(groups: seq<nat>, first: int)
    requires Placed(groups, first)
    ensures Groups(Spread(groups, first))
  {
  }

  lemma {:induction false} SpreadAt(groups: seq<nat>, first: int, parsed: nat)
    requires Placed(groups, first) && parsed < |groups|
    ensures Output(groups, first, parsed) < 8 && Spread(groups, first)[Output(groups, first, parsed)] == groups[parsed]
  {
  }

  lemma {:induction false} SpreadGap(groups: seq<nat>, first: int)
    requires Placed(groups, first) && first != -1
    ensures Groups(Spread(groups, first))
    ensures Front(Spread(groups, first), first + 8 - |groups|) == Front(Spread(groups, first), first)
  {
    SpreadGroups(groups, first);
  }

  lemma {:induction false} FrontAll(q: seq<nat>)
    requires Groups(q)
    ensures Front(q, 8) == q
    ensures Upper(Front(q, 0)) == 0 && Lower(Front(q, 0)) == 0
  {
    HalfZero();
  }

  method Assemble(quibbles: array<nat>, count: nat, first: int, mask: nat) returns (r: Result)
    requires quibbles.Length == 8 && count <= 8 && Placed(quibbles[..count], first)
    ensures Groups(Spread(quibbles[..count], first))
    ensures r == if first != -1 && first < count == 8 then Rejected(Ipv6.UselessGap)
                 else Accepted(Upper(Spread(quibbles[..count], first)), Lower(Spread(quibbles[..count], first)), mask)
  {
    hide Or, ShiftLeft, Upper, Lower, Spread, Front;
    ghost var g := quibbles[..count];
    ghost var q := Spread(g, first);
    SpreadGroups(g, first);
    FrontAll(q);
    var upper, lower, output := 0, 0, 0;
    for parsed := 0 to count
      invariant output == if first == -1 || parsed <= first then parsed else parsed + 8 - count
      invariant upper == Upper(Front(q, output)) && lower == Lower(Front(q, output))
      invariant first != -1 && parsed > first ==> count < 8
    {
      if parsed == first {
        var missing := 8 - count;
        if missing == 0 { return Rejected(Ipv6.UselessGap); }
        SpreadGap(g, first);
        output := output + missing;
      }
      SpreadAt(g, first, parsed);
      OrGroup(q, output);
      if output < 4 {
        upper := Or(upper, ShiftLeft(quibbles[parsed], output));
      } else {
        lower := Or(lower, ShiftLeft(quibbles[parsed], output));
      }
      output := output + 1;
    }
    if first == count { SpreadGap(g, first); }
    return Accepted(upper, lower, mask);
  }

  // ---------------------------------------------------------------- the first loop: the scan

  method Skip(k: Class, d: string, start: nat) returns (c: nat)
    requires start <= |d|
    ensures c == RunEnd(k, d, start)
  {
    c := start;
    while c < |d| && Is(k, d[c])
      invariant start <= c <= |d| && RunEnd(k, d, start) == RunEnd(k, d, c)
    {
      c := c + 1;
    }
  }

  lemma HexValueNone()
    ensures HexValue("") == 0
  {
  }

  lemma HexValueSnoc(text: string, i: nat)
    requires i < |text|
    ensures HexValue(text[..i + 1]) == HexValue(text[..i]) * 16 + HexDigit(text[i])
  {
    assert text[..i + 1][..i] == text[..i];
  }

  method ParseQuibble(text: string) returns (v: nat)
    requires |text| <= 4
    ensures v == HexValue(text) < GROUP
  {
    hide HexValue, HexDigit;
    v := 0;
    assert HexValue(text[..0]) == 0 by { HexValueNone(); }
    for i := 0 to |text|
      invariant v == HexValue(text[..i])
    {
      HexValueBound(text[..i + 1]);
      HexValueSnoc(text, i);
      v := (v * 16 + HexDigit(text[i])) % 0x1_0000;
    }
    HexValueBound(text);
    assert text[..|text|] == text;
  }

  /** The group array holds the groups of the tree. */
  ghost predicate Holds(groups: seq<nat>, first: int, t: Ipv6.Tree) {
    && groups == Ipv6.Values(t.left) + Ipv6.Values(t.right)
    && (forall i :: 0 <= i < |groups| ==> groups[i] < GROUP)
    && first == (if t.gap then |Ipv6.Values(t.left)| else -1)
    && t.mask.None? && (!t.gap ==> t.right == [])
  }

  lemma NoValues()
    ensures Ipv6.Values([]) == []
  {
  }

  lemma {:induction false} HoldsPush(groups: seq<nat>, first: int, t: Ipv6.Tree, i: Ipv6.Item)
    requires Holds(groups, first, t) && forall k :: 0 <= k < |Ipv6.ItemValues(i)| ==> Ipv6.ItemValues(i)[k] < GROUP
    ensures Holds(groups + Ipv6.ItemValues(i), first, Ipv6.Push(t, i))
  {
    hide Ipv6.Values, Ipv6.ItemValues;
    Ipv6.ValuesSnoc(Ipv6.Side(t), i);
    if !t.gap { NoValues(); }
  }

  lemma {:induction false} HoldsGap(groups: seq<nat>, first: int, t: Ipv6.Tree)
    requires Holds(groups, first, t) && !t.gap
    ensures Holds(groups, |groups|, t.(gap := true, trail := false))
  {
    NoValues();
  }

  lemma HoldsFlags(groups: seq<nat>, first: int, t: Ipv6.Tree)
    requires Holds(groups, first, t)
    ensures Holds(groups, first, t.(trail := true)) && Holds(groups, first, t.(lead := true))
    ensures |groups| == Ipv6.Count(t)
  {
  }

  datatype Status = Continue | Finished | Failed(error: Ipv6.Error) | OutOfBounds

  /** What a turn does: the next position and tree, or the outcome of the scan. */
  ghost predicate Did(turn: Ipv6.Turn, status: Status, c: nat, mask: nat, t: Ipv6.Tree) {
    match turn
    case Next(c', t') => status == Continue && c == c' && t == t'
    case Stop(Done(t', e)) =>
      status == Finished && c == e && t.(mask := t'.mask) == t' && t.mask.None? && mask == Ipv6.Mask(t')
    case Stop(Bad(e)) => status == Failed(e)
    case Stop(Beyond) => status == OutOfBounds
  }

  method ParseQuad(d: string, start: nat, quibbles: array<nat>, count0: nat, first: int, ghost t0: Ipv6.Tree)
    returns (status: Status, c: nat, count: nat, ghost t: Ipv6.Tree)
    requires start < |d| && quibbles.Length == 8 && count0 < 8 && Holds(quibbles[..count0], first, t0)
    modifies quibbles
    ensures Did(Ipv6.QuadTurn(d, start, t0), status, c, 128, t)
    ensures status != Finished
    ensures status == Continue ==> count <= 8 && Holds(quibbles[..count], first, t)
  {
    hide Ipv4.Parse, Ipv6.Values;
    t := t0;
    count := count0;
    HoldsFlags(quibbles[..count0], first, t0);
    c := Skip(DotDecimal, d, start);
    if c < |d| && d[c] != '/' { return Failed(Ipv6.QuadNotLast), c, count, t; }
    var v4 := Ipv4.TryParse(d[start..c]);
    if v4.Rejected? { return Failed(Ipv6.QuadInvalid(v4.error)), c, count, t; }
    if count == 7 { return OutOfBounds, c, count, t; }
    ghost var i := Ipv6.Quad(d[start..c]);
    assert Ipv6.QuadAddress(d[start..c]) == v4.address < 0x1_0000_0000;
    ghost var before := quibbles[..count];
    HoldsPush(before, first, t, i);
    quibbles[count] := v4.address / 0x1_0000;
    count := count + 1;
    quibbles[count] := v4.address % 0x1_0000;
    count := count + 1;
    assert quibbles[..count] == before + Ipv6.ItemValues(i);
    t := Ipv6.Push(t, i);
    status := Continue;
  }

  method ParseMask(d: string, e: nat, ghost t: Ipv6.Tree) returns (status: Status, c: nat, mask: nat)
    requires e < |d| && t.mask.None?
    ensures Did(Ipv6.Stop(Ipv6.ScanMask(d, e, t)), status, c, mask, t)
  {
    var start := e + 1;
    mask := 128;
    c := Skip(Decimal, d, start);
    var value := ToByte(d[start..c]);
    if value.None? || value.value > 128 { return Failed(Ipv6.MaskRange), c, mask; }
    mask := value.value;
    status := Finished;
  }

  lemma NoMask(groups: seq<nat>, first: int, t: Ipv6.Tree)
    requires Holds(groups, first, t)
    ensures t.mask.None? && (first == -1 <==> !t.gap)
  {
  }

  /** The rest of a turn, after the digits between `start` and `e`. */
  method ParseGroup(d: string, start: nat, e: nat, quibbles: array<nat>, count0: nat, first0: int, ghost t0: Ipv6.Tree)
    returns (status: Status, c: nat, count: nat, first: int, mask: nat, ghost t: Ipv6.Tree)
    requires start <= e <= |d| && e <= start + 4 && (e < |d| ==> d[e] == ':' || d[e] == '/')
    requires quibbles.Length == 8 && count0 < 8 && Holds(quibbles[..count0], first0, t0)
    modifies quibbles
    ensures Did(Ipv6.GroupTurn(d, start, e, t0), status, c, mask, t)
    ensures status == Continue ==> mask == 128
    ensures status == Continue || status == Finished ==> count <= 8 && Holds(quibbles[..count], first, t)
  {
    hide Ipv6.Values, Ipv6.ScanMask, Holds;
    status, c, count, first, mask, t := Continue, e, count0, first0, 128, t0;
    if e > start {
      var v := ParseQuibble(d[start..e]);
      ghost var before, i := quibbles[..count], Ipv6.Group(d[start..e]);
      HoldsPush(before, first, t, i);
      quibbles[count] := v;
      count := count + 1;
      assert quibbles[..count] == before + Ipv6.ItemValues(i);
      t := Ipv6.Push(t, i);
    }
    NoMask(quibbles[..count], first, t);
    if e == |d| { return Finished, c, count, first, mask, t; }
    if e + 1 < |d| && d[e] == ':' && d[e + 1] == ':' {
      if first != -1 { return Failed(Ipv6.SecondGap), c, count, first, mask, t; }
      if e + 2 < |d| && d[e + 2] == ':' { return Failed(Ipv6.ThreeColons), c, count, first, mask, t; }
      HoldsGap(quibbles[..count], first, t);
      first := count;
      t := t.(gap := true, trail := false);
      c := c + 1;
    } else if d[e] == '/' {
      status, c, mask := ParseMask(d, e, t);
      return;
    } else {
      HoldsFlags(quibbles[..count], first, t);
      t := if e > start then t.(trail := true) else t.(lead := true);
    }
    c := c + 1;
  }

  /** One turn of the loop. */
  method ParseTurn(d: string, start: nat, quibbles: array<nat>, count0: nat, first0: int, ghost t0: Ipv6.Tree)
    returns (status: Status, c: nat, count: nat, first: int, mask: nat, ghost t: Ipv6.Tree)
    requires start < |d| && quibbles.Length == 8 && count0 < 8 && Holds(quibbles[..count0], first0, t0)
    modifies quibbles
    ensures Did(Ipv6.Step(d, start, t0), status, c, mask, t)
    ensures status == Continue ==> mask == 128
    ensures status == Continue || status == Finished ==> count <= 8 && Holds(quibbles[..count], first, t)
  {
    hide Holds, Ipv6.QuadTurn, Ipv6.GroupTurn;
    count, first, mask, t := count0, first0, 128, t0;
    c := Skip(Hexadecimal, d, start);
    if c - start > 4 { return Failed(Ipv6.TooManyDigits), c, count, first, mask, t; }
    if c < |d| && d[c] == '.' {
      status, c, count, t := ParseQuad(d, start, quibbles, count, first, t);
      return;
    }
    if c < |d| && d[c] != ':' && d[c] != '/' { return Failed(Ipv6.UnexpectedCharacter), c, count, first, mask, t; }
    status, c, count, first, mask, t := ParseGroup(d, start, c, quibbles, count, first, t);
  }

  lemma {:induction false} SpreadIsExpand(groups: seq<nat>, first: int, t: Ipv6.Tree)
    requires Holds(groups, first, t) && |groups| <= 8 && (first == -1 ==> |groups| == 8)
    ensures Placed(groups, first) && Ipv6.Count(t) == |groups| && Spread(groups, first) == Ipv6.Expand(t)
  {
    if !t.gap { NoValues(); }
  }

  /** A tree keeps its groups when it gets its mask. */
  lemma ExpandMask(t: Ipv6.Tree, u: Ipv6.Tree)
    requires t.(mask := u.mask) == u && Ipv6.Count(t) <= 8
    ensures Ipv6.Count(u) == Ipv6.Count(t) && Ipv6.Expand(u) == Ipv6.Expand(t)
  {
  }

  lemma LeftAll(t: Ipv6.Tree)
    ensures |Ipv6.Values(t.left)| < Ipv6.Count(t) <==> t.right != []
  {
  }

  /** What comes after the loop that scans. */
  method Conclude(d: string, c: nat, quibbles: array<nat>, count: nat, first: int, mask: nat,
                  ghost t: Ipv6.Tree, ghost u: Ipv6.Tree) returns (r: Result)
    requires quibbles.Length == 8 && count <= 8 && Holds(quibbles[..count], first, t)
    requires t.(mask := u.mask) == u && mask == Ipv6.Mask(u)
    requires Ipv6.Parse(d) == Ipv6.Finish(d, Ipv6.Done(u, c))
    requires Ipv6.Parse(d).Ok? ==> Ipv6.Count(u) <= Ipv6.GROUPS && Groups(Ipv6.Expand(u))
    ensures r == Meaning(Ipv6.Parse(d))
  {
    hide Ipv6.Parse, Spread, Ipv6.Expand, Upper, Lower, Ipv6.Mask, Ipv6.Values;
    HoldsFlags(quibbles[..count], first, t);
    ExpandMask(t, u);
    if count < 8 && first == -1 { return Rejected(Ipv6.TooFewGroups); }
    if c < |d| { return Rejected(Ipv6.ExtraCharacters); }
    SpreadIsExpand(quibbles[..count], first, t);
    LeftAll(t);
    r := Assemble(quibbles, count, first, mask);
  }

  /** How far the scan is: at the head of the loop, or done with `u`, which is `t` with its mask. */
  ghost predicate ScansTo(d: string, status: Status, c: nat, mask: nat, t: Ipv6.Tree, u: Ipv6.Tree) {
    var o := Ipv6.Scan(d, 0, Ipv6.START);
    match status
    case Continue => c <= |d| && mask == 128 && u == t && o == Ipv6.Scan(d, c, t)
    case Finished => t.(mask := u.mask) == u && mask == Ipv6.Mask(u) && o == Ipv6.Done(u, c)
    case _ => false
  }

  lemma {:induction false} ScanEnds(d: string, c: nat, t: Ipv6.Tree)
    requires c <= |d| && (c == |d| || Ipv6.Count(t) >= Ipv6.GROUPS)
    ensures Ipv6.Scan(d, c, t) == Ipv6.Done(t, c)
  {
    hide Ipv6.Step, Ipv6.Count;
  }

  lemma HoldsStart(none: seq<nat>)
    requires none == []
    ensures Holds(none, -1, Ipv6.START)
  {
  }

  method TryParse(d: string) returns (r: Result)
    ensures Ipv6.Parse(d).Ok? ==>
      Ipv6.Count(Ipv6.Parse(d).tree) <= Ipv6.GROUPS && Groups(Ipv6.Expand(Ipv6.Parse(d).tree))
    ensures r == Meaning(Ipv6.Parse(d))
  {
    hide Holds, Ipv6.Scan, Ipv6.Step, Ipv6.Count;
    if Ipv6.Parse(d).Ok? { ParsedGroups(d); }
    var c: nat, count: nat, first, mask: nat := 0, 0, -1, 128;
    var quibbles := new nat[8](_ => 0);
    ghost var t, u := Ipv6.START, Ipv6.START;
    var status := Continue;
    HoldsStart(quibbles[..0]);
    while status == Continue && c < |d| && count < 8
      invariant status == Continue || status == Finished
      invariant ScansTo(d, status, c, mask, t, u)
      invariant count <= 8 && Holds(quibbles[..count], first, t)
      decreases if status == Continue then |d| - c + 1 else 0
    {
      HoldsFlags(quibbles[..count], first, t);
      ghost var turn := Ipv6.Step(d, c, t);
      if turn.Next? {
        Ipv6.StepMoves(d, c, t);
        Ipv6.ScanNext(d, c, t);
      } else {
        Ipv6.ScanStop(d, c, t);
      }
      status, c, count, first, mask, t := ParseTurn(d, c, quibbles, count, first, t);
      if status.Failed? { return Rejected(status.error); }
      if status == OutOfBounds { return Overrun; }
      u := if turn.Next? then turn.tree else turn.outcome.tree;
    }
    if status == Continue {
      HoldsFlags(quibbles[..count], first, t);
      ScanEnds(d, c, t);
      NoMask(quibbles[..count], first, t);
    }
    r := Conclude(d, c, quibbles, count, first, mask, t, u);
  }
}
