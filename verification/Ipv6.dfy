/**
  The text forms of IPv6 addresses and the scanner for them.

  A `Tree` is the structure of a text: groups of hexadecimal digits, possibly one "::",
  possibly a dotted quad at the end, possibly a mask. Besides the forms of section 2.2 of
  RFC 4291 the scanner lets a single colon pass before the first group and after the last
  one, and "::" after eight groups; `Valid` says exactly which trees it accepts.
 */
module Ipv6 {
  import opened Basics
  import opened IpDigits
  import Ipv4

  datatype Item = Group(hex: string) | Quad(dotted: string)

  datatype Tree = Tree(lead: bool, left: seq<Item>, gap: bool, right: seq<Item>, trail: bool, mask: Option<string>)

  datatype Error =
    | TooManyDigits | QuadNotLast | QuadInvalid(reason: Ipv4.Error) | UnexpectedCharacter
    | SecondGap | ThreeColons | MaskRange | TooFewGroups | ExtraCharacters | UselessGap

  /** `Overrun`: a quad was read when seven groups were there, past the end of the group array. */
  datatype Parsed = Ok(tree: Tree) | Err(error: Error) | Overrun

  const GROUPS: nat := 8
  const DEFAULT_MASK: nat := 128

  // ---------------------------------------------------------------- trees and their text

  predicate ItemOk(i: Item) {
    match i
    case Group(h) => 1 <= |h| <= 4 && All(Hexadecimal, h)
    case Quad(q) => All(DotDecimal, q) && Ipv4.Parse(q).Ok? && RunEnd(Hexadecimal, q, 0) <= 4
  }

  function Text(i: Item): string { if i.Group? then i.hex else i.dotted }

  function Join(items: seq<Item>): string {
    if items == [] then ""
    else if |items| == 1 then Text(items[0])
    else Text(items[0]) + ":" + Join(items[1..])
  }

  function MaskText(t: Tree): string { if t.mask.Some? then "/" + t.mask.value else "" }

  /** The text up to the last item. */
  function Body(t: Tree): string {
    (if t.lead then ":" else "") + Join(t.left) + (if t.gap then "::" else "") + Join(t.right)
  }

  function AddressText(t: Tree): string { if t.trail then Body(t) + ":" else Body(t) }

  function Render(t: Tree): string { AddressText(t) + MaskText(t) }

  /** The groups an item stands for. */
  function QuadAddress(q: string): nat {
    var p := Ipv4.Parse(q);
    if p.Ok? && Ipv4.Valid(p.text) then Ipv4.Address(p.text) else 0
  }

  function ItemValues(i: Item): (v: seq<nat>)
    ensures |v| == if i.Group? then 1 else 2
  {
    if i.Group? then [HexValue(i.hex)] else [QuadAddress(i.dotted) / 65536, QuadAddress(i.dotted) % 65536]
  }

  function Values(items: seq<Item>): seq<nat> {
    if items == [] then [] else Values(items[..|items| - 1]) + ItemValues(items[|items| - 1])
  }

  function Count(t: Tree): nat { |Values(t.left)| + |Values(t.right)| }

  /** The items after "::" if there is one, else all of them. */
  function Side(t: Tree): seq<Item> { if t.gap then t.right else t.left }

  function Push(t: Tree, i: Item): Tree {
    if t.gap then t.(right := t.right + [i], trail := false) else t.(left := t.left + [i], trail := false)
  }

  predicate EndsInGroup(items: seq<Item>) { items != [] && items[|items| - 1].Group? }

  /** Items are well formed, and a quad comes last. */
  predicate ItemsOk(items: seq<Item>, quadAllowed: bool) {
    forall i :: 0 <= i < |items| ==>
      ItemOk(items[i]) && (items[i].Quad? ==> quadAllowed && i == |items| - 1)
  }

  predicate Structured(left: seq<Item>, gap: bool, right: seq<Item>, trail: bool) {
    && ItemsOk(left, !gap)
    && ItemsOk(right, true)
    && (!gap ==> right == [])
    && (trail ==> EndsInGroup(if gap then right else left))
  }

  predicate MaskOk(mask: string) {
    All(Decimal, mask) && ToByte(mask).Some? && ToByte(mask).value <= 128
  }

  /** With eight groups a mask is only looked for right after the last one. */
  predicate WellFormed(t: Tree) {
    && Structured(t.left, t.gap, t.right, t.trail)
    && (t.mask.Some? ==> MaskOk(t.mask.value) && (Count(t) == GROUPS ==> !t.trail && EndsInGroup(Side(t))))
  }

  predicate Valid(t: Tree) {
    && WellFormed(t)
    && (t.lead ==> t.left != [])
    && (if t.gap then Count(t) < GROUPS || (Count(t) == GROUPS && t.right == []) else Count(t) == GROUPS)
  }

  // ---------------------------------------------------------------- what a tree denotes

  function Zeros(n: nat): seq<nat> { seq(n, _ => 0) }

  /** The eight groups: left ones, zeros for "::", right ones. */
  function Expand(t: Tree): (q: seq<nat>)
    requires Count(t) <= GROUPS
    ensures |q| == GROUPS
  {
    Values(t.left) + Zeros(GROUPS - Count(t)) + Values(t.right)
  }

  function Mask(t: Tree): nat { if t.mask.Some? then DecValue(t.mask.value) else DEFAULT_MASK }

  // ---------------------------------------------------------------- the scanner as a function

  datatype Outcome = Done(tree: Tree, end: nat) | Bad(error: Error) | Beyond

  function WithGroup(d: string, c: nat, e: nat, t: Tree): Tree
    requires c <= e <= |d|
  {
    if e > c then Push(t, Group(d[c..e])) else t
  }

  function ScanMask(d: string, e: nat, t: Tree): Outcome
    requires e < |d|
  {
    var f := RunEnd(Decimal, d, e + 1);
    var mask := ToByte(d[e + 1..f]);
    if mask.None? || mask.value > 128 then Bad(MaskRange) else Done(t.(mask := Some(d[e + 1..f])), f)
  }

  /** One turn of the scanner's loop either ends the scan or moves on. */
  datatype Turn = Stop(outcome: Outcome) | Next(c: nat, tree: Tree)

  /** A turn at a word that has a dot in it. */
  function QuadTurn(d: string, c: nat, t: Tree): Turn
    requires c < |d|
  {
    var q := RunEnd(DotDecimal, d, c);
    if q < |d| && d[q] != '/' then Stop(Bad(QuadNotLast))
    else if Ipv4.Parse(d[c..q]).Err? then Stop(Bad(QuadInvalid(Ipv4.Parse(d[c..q]).error)))
    else if Count(t) == 7 then Stop(Beyond)
    else Next(q, Push(t, Quad(d[c..q])))
  }

  /** The rest of a turn, at a double colon. */
  function GapTurn(d: string, e: nat, t: Tree): Turn
    requires e < |d|
  {
    if t.gap then Stop(Bad(SecondGap))
    else if e + 2 < |d| && d[e + 2] == ':' then Stop(Bad(ThreeColons))
    else Next(e + 2, t.(gap := true, trail := false))
  }

  /** The rest of a turn, after the hexadecimal digits between `c` and `e`. */
  function GroupTurn(d: string, c: nat, e: nat, t: Tree): Turn
    requires c <= e <= |d|
  {
    var t' := WithGroup(d, c, e, t);
    if e == |d| then Stop(Done(t', e))
    else if d[e] == '/' then Stop(ScanMask(d, e, t'))
    else if e + 1 < |d| && d[e + 1] == ':' then GapTurn(d, e, t')
    else Next(e + 1, if e > c then t'.(trail := true) else t'.(lead := true))
  }

  function Step(d: string, c: nat, t: Tree): Turn
    requires c < |d|
  {
    var e := RunEnd(Hexadecimal, d, c);
    if e - c > 4 then Stop(Bad(TooManyDigits))
    else if e < |d| && d[e] == '.' then QuadTurn(d, c, t)
    else if e < |d| && d[e] != ':' && d[e] != '/' then Stop(Bad(UnexpectedCharacter))
    else GroupTurn(d, c, e, t)
  }

  lemma {:induction false} StepMoves(d: string, c: nat, t: Tree)
    requires c < |d| && Step(d, c, t).Next?
    ensures c < Step(d, c, t).c <= |d|
  {
    RunIs(Hexadecimal, d, c);
    RunIs(DotDecimal, d, c);
    var e := RunEnd(Hexadecimal, d, c);
    if e < |d| && d[e] == '.' && c < e { assert d[c..e][0] == d[c]; }
  }

  /** The turns of the scanner's loop from position `c`, with `t` read so far. */
  function Scan(d: string, c: nat, t: Tree): Outcome
    requires c <= |d|
    decreases |d| - c
  {
    if c == |d| || Count(t) >= GROUPS then Done(t, c)
    else
      match Step(d, c, t)
      case Stop(o) => o
      case Next(c', t') => StepMoves(d, c, t); Scan(d, c', t')
  }

  const START: Tree := Tree(false, [], false, [], false, None)

  function Finish(d: string, o: Outcome): Parsed {
    match o
    case Bad(e) => Err(e)
    case Beyond => Overrun
    case Done(t, c) =>
      if Count(t) < GROUPS && !t.gap then Err(TooFewGroups)
      else if c < |d| then Err(ExtraCharacters)
      else if t.gap && Count(t) >= GROUPS && t.right != [] then Err(UselessGap)
      else Ok(t)
  }

  function Parse(d: string): Parsed { Finish(d, Scan(d, 0, START)) }

  // ---------------------------------------------------------------- accepted texts are renderings

  lemma {:induction false} JoinSnoc(items: seq<Item>, i: Item)
    requires items != []
    ensures Join(items + [i]) == Join(items) + ":" + Text(i)
  {
    hide Text;
    if |items| > 1 {
      JoinSnoc(items[1..], i);
      var more, head, rest := items + [i], Text(items[0]), Join(items[1..]);
      assert more[1..] == items[1..] + [i] && more[0] == items[0];
      assert Join(more) == head + ":" + (rest + ":" + Text(i));
      Assoc(head + ":", rest, ":" + Text(i));
      Assoc(rest, ":", Text(i));
      Assoc(head + ":" + rest, ":", Text(i));
    } else {
      assert (items + [i])[1..] == [i];
    }
  }

  lemma {:induction false} ValuesSnoc(items: seq<Item>, i: Item)
    ensures Values(items + [i]) == Values(items) + ItemValues(i)
  {
    assert (items + [i])[..|items|] == items;
  }

  lemma {:induction false} CountPush(t: Tree, i: Item)
    ensures Count(Push(t, i)) == Count(t) + |ItemValues(i)|
  {
    ValuesSnoc(Side(t), i);
  }

  /** Pushing an item appends its text, after the colon that closed the one before. */
  lemma AppendTwice(p: string, j: string, x: string)
    ensures p + (j + ":" + x) == p + j + ":" + x && p + j + "" + "" == p + j && p + j + "" == p + j && p + "" == p
  {
  }

  lemma {:induction false} RenderPushGap(t: Tree, i: Item)
    requires t.gap && (t.trail <==> t.right != [])
    ensures AddressText(Push(t, i)) == AddressText(t) + Text(i)
  {
    hide Text;
    var p := (if t.lead then ":" else "") + Join(t.left) + "::";
    var j := Join(t.right);
    AppendTwice(p, j, Text(i));
    if t.right != [] {
      hide Join;
      JoinSnoc(t.right, i);
    } else {
      assert [] + [i] == [i];
    }
  }

  lemma {:induction false} RenderPushFlat(t: Tree, i: Item)
    requires !t.gap && t.right == [] && (t.trail <==> t.left != [])
    ensures AddressText(Push(t, i)) == AddressText(t) + Text(i)
  {
    hide Text;
    var p := if t.lead then ":" else "";
    AppendTwice(p, Join(t.left), Text(i));
    AppendTwice(p, Join(t.left + [i]), "");
    assert Join([]) == "";
    if t.left != [] {
      hide Join;
      JoinSnoc(t.left, i);
    } else {
      assert [] + [i] == [i];
    }
  }

  lemma {:induction false} RenderPush(t: Tree, i: Item)
    requires (t.trail <==> Side(t) != []) && (!t.gap ==> t.right == [])
    ensures AddressText(Push(t, i)) == AddressText(t) + Text(i)
  {
    hide AddressText, Push, Text;
    if t.gap { RenderPushGap(t, i); } else { RenderPushFlat(t, i); }
  }

  /** `t` has been read up to position `c`. */
  ghost predicate Read(d: string, c: nat, t: Tree) {
    && c <= |d| && t.mask.None? && d[..c] == AddressText(t)
    && WellFormed(t) && Count(t) <= GROUPS
    && (t.lead && t.left == [] ==> !t.gap)
  }

  /** What holds at the head of the scanner's loop. */
  ghost predicate AtHead(d: string, c: nat, t: Tree) {
    && Read(d, c, t)
    && (t.trail <==> EndsInGroup(Side(t)))
    && (c == 0 ==> t == START)
    && (0 < c < |d| ==> d[c] != ':' && (Side(t) != [] && !EndsInGroup(Side(t)) ==> d[c] == '/'))
  }

  lemma {:induction false} ItemsOkSnoc(items: seq<Item>, i: Item, quadAllowed: bool)
    requires ItemsOk(items, quadAllowed) && (items == [] || EndsInGroup(items))
    requires ItemOk(i) && (i.Quad? ==> quadAllowed)
    ensures ItemsOk(items + [i], quadAllowed)
  {
  }

  lemma {:induction false} ReadPush(d: string, c: nat, e: nat, t: Tree, i: Item)
    requires AtHead(d, c, t) && c < e <= |d| && d[c] != '/' && Text(i) == d[c..e] && ItemOk(i)
    requires Count(t) + |ItemValues(i)| <= GROUPS
    ensures Read(d, e, Push(t, i))
  {
    hide Values, Join, ItemOk, Body;
    RenderPush(t, i);
    assert d[..e] == d[..c] + d[c..e];
    CountPush(t, i);
    if t.gap { ItemsOkSnoc(t.right, i, true); } else { ItemsOkSnoc(t.left, i, true); }
  }

  /** The group that the scanner may have read, and how the text goes on. */
  lemma {:induction false} ReadGroup(d: string, c: nat, e: nat, t: Tree)
    requires AtHead(d, c, t) && c < |d| && Count(t) < GROUPS && e == RunEnd(Hexadecimal, d, c) <= c + 4
    ensures var t' := WithGroup(d, c, e, t);
            && Read(d, e, t')
            && (e > c ==> !t'.trail && EndsInGroup(Side(t')))
            && (Count(t') == GROUPS ==> e > c)
  {
    hide Values, Join, Body;
    RunIs(Hexadecimal, d, c);
    if e > c {
      assert d[c..e][0] == d[c];
      ReadPush(d, c, e, t, Group(d[c..e]));
    }
  }

  lemma {:induction false} ReadGap(d: string, e: nat, t: Tree)
    requires Read(d, e, t) && e + 1 < |d| && d[e] == ':' && d[e + 1] == ':' && !t.gap && !t.trail
    requires t.left == [] || EndsInGroup(t.left)
    requires t.lead ==> t.left != []
    requires e + 2 < |d| ==> d[e + 2] != ':'
    ensures AtHead(d, e + 2, t.(gap := true, trail := false))
  {
    hide Values, ItemOk;
    var u := t.(gap := true, trail := false);
    assert d[..e + 2] == d[..e] + "::";
    var p := (if t.lead then ":" else "") + Join(t.left);
    assert Body(t) == p by { assert p + "" + "" == p; }
    assert Body(u) == p + "::" by { assert p + "::" + "" == p + "::"; }
  }

  lemma {:induction false} ReadColon(d: string, e: nat, t: Tree)
    requires Read(d, e, t) && e < |d| && d[e] == ':' && !t.trail && EndsInGroup(Side(t))
    requires e + 1 < |d| ==> d[e + 1] != ':'
    ensures AtHead(d, e + 1, t.(trail := true))
  {
    hide Values, ItemOk;
    assert d[..e + 1] == d[..e] + ":";
  }

  lemma {:induction false} ReadLead(d: string)
    requires d != "" && d[0] == ':' && (1 < |d| ==> d[1] != ':')
    ensures AtHead(d, 1, START.(lead := true))
  {
    assert d[..1] == ":";
  }

  lemma {:induction false} MaskWellFormed(t: Tree, mask: string)
    requires Structured(t.left, t.gap, t.right, t.trail) && MaskOk(mask)
    requires Count(t) == GROUPS ==> !t.trail && EndsInGroup(Side(t))
    ensures WellFormed(t.(mask := Some(mask))) && Count(t.(mask := Some(mask))) == Count(t)
  {
    hide MaskOk, Structured, Values;
  }

  lemma {:induction false} MaskRead(d: string, e: nat, f: nat, t: Tree)
    requires e < |d| && ScanMask(d, e, t).Done? && f == RunEnd(Decimal, d, e + 1)
    ensures MaskOk(d[e + 1..f]) && ScanMask(d, e, t) == Done(t.(mask := Some(d[e + 1..f])), f)
  {
    RunIs(Decimal, d, e + 1);
  }

  lemma ReadStructured(d: string, e: nat, t: Tree)
    requires Read(d, e, t)
    ensures Structured(t.left, t.gap, t.right, t.trail)
  {
  }

  lemma {:induction false} RenderMask(d: string, e: nat, f: nat, t: Tree)
    requires e < f <= |d| && d[..e] == AddressText(t) && d[e] == '/'
    ensures Render(t.(mask := Some(d[e + 1..f]))) == d[..f]
  {
    assert d[..f] == d[..e] + ("/" + d[e + 1..f]);
  }

  /** What a finished scan has read. */
  ghost predicate Taken(d: string, o: Outcome)
    requires o.Done?
  {
    && o.end <= |d| && d[..o.end] == Render(o.tree)
    && WellFormed(o.tree) && Count(o.tree) <= GROUPS
    && (o.tree.lead && o.tree.left == [] ==> !o.tree.gap)
  }

  lemma {:induction false} ReadMask(d: string, e: nat, t: Tree)
    requires Read(d, e, t) && e < |d| && d[e] == '/' && ScanMask(d, e, t).Done?
    requires Count(t) == GROUPS ==> !t.trail && EndsInGroup(Side(t))
    ensures Taken(d, ScanMask(d, e, t))
  {
    hide ScanMask, Render, AddressText, Structured, MaskOk, Count, WellFormed, RunEnd;
    ReadStructured(d, e, t);
    var f := RunEnd(Decimal, d, e + 1);
    MaskRead(d, e, f, t);
    RenderMask(d, e, f, t);
    MaskWellFormed(t, d[e + 1..f]);
  }

  /** A dotted word that parses, after at most four hexadecimal digits. */
  lemma {:induction false} QuadOk(d: string, c: nat, q: nat)
    requires c < |d|
    requires var e := RunEnd(Hexadecimal, d, c); e <= c + 4 && e < |d| && d[e] == '.'
    requires q == RunEnd(DotDecimal, d, c) && (q < |d| ==> d[q] == '/') && Ipv4.Parse(d[c..q]).Ok?
    ensures c < q && ItemOk(Quad(d[c..q])) && d[c] != '/'
  {
    RunIs(Hexadecimal, d, c);
    RunIs(DotDecimal, d, c);
    var e, s := RunEnd(Hexadecimal, d, c), d[c..q];
    if c < e { assert d[c..e][0] == d[c]; }
    assert s[0..e - c] == d[c..e];
    RunUpTo(Hexadecimal, s, 0, e - c);
  }

  lemma {:induction false} QuadTurnSound(d: string, c: nat, t: Tree)
    requires AtHead(d, c, t) && c < |d| && Count(t) < GROUPS && QuadTurn(d, c, t).Next?
    requires var e := RunEnd(Hexadecimal, d, c); e <= c + 4 && e < |d| && d[e] == '.'
    ensures AtHead(d, QuadTurn(d, c, t).c, QuadTurn(d, c, t).tree)
  {
    hide Values, ItemOk, Join, Body, Ipv4.Parse, RunEnd;
    var q := RunEnd(DotDecimal, d, c);
    QuadOk(d, c, q);
    ReadPush(d, c, q, t, Quad(d[c..q]));
  }

  ghost predicate Sound(d: string, turn: Turn) {
    match turn
    case Next(c, t) => AtHead(d, c, t)
    case Stop(o) => o.Done? ==> Taken(d, o)
  }

  lemma {:induction false} ColonSound(d: string, c: nat, e: nat, t: Tree)
    requires c < e < |d| && d[e] == ':'
    requires var t' := WithGroup(d, c, e, t); Read(d, e, t') && !t'.trail && EndsInGroup(Side(t'))
    ensures Sound(d, GroupTurn(d, c, e, t))
  {
    hide Values, ItemOk, Join, Body;
    var t' := WithGroup(d, c, e, t);
    if e + 1 < |d| && d[e + 1] == ':' {
      if GapTurn(d, e, t').Next? { ReadGap(d, e, t'); }
    } else {
      ReadColon(d, e, t');
    }
  }

  lemma {:induction false} LeadSound(d: string)
    requires d != "" && d[0] == ':'
    ensures Sound(d, GroupTurn(d, 0, 0, START))
  {
    if 1 < |d| && d[1] == ':' {
      if GapTurn(d, 0, START).Next? { ReadGap(d, 0, START); }
    } else {
      ReadLead(d);
    }
  }

  lemma {:induction false} GroupTurnSound(d: string, c: nat, e: nat, t: Tree)
    requires AtHead(d, c, t) && c < |d| && Count(t) < GROUPS && e == RunEnd(Hexadecimal, d, c) <= c + 4
    requires e < |d| ==> d[e] == ':' || d[e] == '/'
    ensures Sound(d, GroupTurn(d, c, e, t))
  {
    hide Values, ItemOk, Join, Body, RunEnd;
    ReadGroup(d, c, e, t);
    var t' := WithGroup(d, c, e, t);
    if e == |d| {
    } else if d[e] == '/' {
      if ScanMask(d, e, t').Done? { ReadMask(d, e, t'); }
    } else if e > c {
      ColonSound(d, c, e, t);
    } else {
      LeadSound(d);
    }
  }

  lemma {:induction false} ScanSound(d: string, c: nat, t: Tree)
    requires AtHead(d, c, t)
    ensures Scan(d, c, t).Done? ==> Taken(d, Scan(d, c, t))
    decreases |d| - c
  {
    hide RunEnd, Values, ItemOk, Body, Ipv4.Parse, ScanMask, ItemsOk;
    if c < |d| && Count(t) < GROUPS {
      var e := RunEnd(Hexadecimal, d, c);
      if e <= c + 4 && e < |d| && d[e] == '.' {
        if QuadTurn(d, c, t).Next? { QuadTurnSound(d, c, t); }
      } else if e <= c + 4 && (e < |d| ==> d[e] == ':' || d[e] == '/') {
        GroupTurnSound(d, c, e, t);
      }
      assert Sound(d, Step(d, c, t));
      if Step(d, c, t).Next? {
        StepMoves(d, c, t);
        ScanSound(d, Step(d, c, t).c, Step(d, c, t).tree);
      }
    }
  }

  lemma {:induction false} ParseSound(d: string)
    requires Parse(d).Ok?
    ensures Valid(Parse(d).tree) && Render(Parse(d).tree) == d
  {
    ScanSound(d, 0, START);
  }

  // ---------------------------------------------------------------- renderings are accepted

  lemma {:induction false} TextStarts(i: Item)
    requires ItemOk(i)
    ensures Text(i) != "" && Text(i)[0] != ':' && Text(i)[0] != '/'
  {
  }

  lemma {:induction false} GroupStep(d: string, c: nat, e: nat, t: Tree)
    requires c <= e <= |d| && c < |d| && e <= c + 4 && All(Hexadecimal, d[c..e])
    requires e < |d| ==> d[e] == ':' || d[e] == '/'
    ensures Step(d, c, t) == GroupTurn(d, c, e, t)
  {
    RunUpTo(Hexadecimal, d, c, e);
  }

  lemma {:induction false} ScanNext(d: string, c: nat, t: Tree)
    requires c < |d| && Count(t) < GROUPS && Step(d, c, t).Next? && Step(d, c, t).c <= |d|
    ensures Scan(d, c, t) == Scan(d, Step(d, c, t).c, Step(d, c, t).tree)
  {
    hide Step, Count;
  }

  lemma {:induction false} ScanStop(d: string, c: nat, t: Tree)
    requires c < |d| && Count(t) < GROUPS && Step(d, c, t).Stop?
    ensures Scan(d, c, t) == Step(d, c, t).outcome
  {
    hide Step, Count;
  }

  lemma {:induction false} GroupThenColon(d: string, c: nat, e: nat, t: Tree)
    requires c < e < |d| && e <= c + 4 && All(Hexadecimal, d[c..e]) && Count(t) < GROUPS
    requires d[e] == ':' && (e + 1 < |d| ==> d[e + 1] != ':')
    ensures Scan(d, c, t) == Scan(d, e + 1, Push(t, Group(d[c..e])).(trail := true))
  {
    hide Step, Count, Scan;
    GroupStep(d, c, e, t);
    ScanNext(d, c, t);
  }

  lemma {:induction false} GroupThenGap(d: string, c: nat, e: nat, t: Tree)
    requires c <= e <= c + 4 && e + 1 < |d| && All(Hexadecimal, d[c..e]) && Count(t) < GROUPS && !t.gap
    requires d[e] == ':' && d[e + 1] == ':' && (e + 2 < |d| ==> d[e + 2] != ':')
    ensures Scan(d, c, t) == Scan(d, e + 2, WithGroup(d, c, e, t).(gap := true, trail := false))
  {
    hide Step, Count, Scan;
    GroupStep(d, c, e, t);
    ScanNext(d, c, t);
  }

  /** A dotted quad begins with digits and a dot. */
  lemma {:induction false} QuadBegins(s: string) returns (h: nat)
    requires ItemOk(Quad(s))
    ensures h < |s| && h <= 4 && All(Hexadecimal, s[..h]) && s[h] == '.'
  {
    RunIs(Hexadecimal, s, 0);
    RunIs(Decimal, s, 0);
    h := RunEnd(Hexadecimal, s, 0);
    var e := RunEnd(Decimal, s, 0);
    assert e < |s| && s[e] == '.';
    assert s[0..e] == s[..e];
    RunUpTo(Hexadecimal, s, 0, e);
  }

  lemma {:induction false} QuadStep(d: string, c: nat, q: nat, t: Tree)
    requires c < q <= |d| && ItemOk(Quad(d[c..q])) && Count(t) < 7
    requires q < |d| ==> d[q] == '/'
    ensures Scan(d, c, t) == Scan(d, q, Push(t, Quad(d[c..q])))
  {
    hide Ipv4.Parse, Scan, Count;
    var s := d[c..q];
    var h := QuadBegins(s);
    assert d[c..c + h] == s[..h] && d[c + h] == s[h];
    RunUpTo(Hexadecimal, d, c, c + h);
    RunUpTo(DotDecimal, d, c, q);
    ScanNext(d, c, t);
  }

  /** At the end of the text, or at its mask. */
  lemma {:induction false} TailStep(d: string, g: nat, t: Tree, mask: Option<string>)
    requires g <= |d| && t.mask.None?
    requires mask.None? ==> g == |d|
    requires mask.Some? ==> g < |d| && d[g] == '/' && d[g + 1..] == mask.value
    requires mask.Some? ==> MaskOk(mask.value) && Count(t) < GROUPS
    ensures Scan(d, g, t) == Done(t.(mask := mask), |d|)
  {
    if mask.Some? {
      hide Step, Count, Scan;
      assert d[g..g] == "" && d[g + 1..|d|] == d[g + 1..];
      GroupStep(d, g, g, t);
      RunUpTo(Decimal, d, g + 1, |d|);
      ScanStop(d, g, t);
    }
  }

  /** The colon and the mask after the last item. */
  ghost predicate TailAt(d: string, e: nat, trail: bool, mask: Option<string>) {
    && (trail ==> e < |d| && d[e] == ':')
    && var g := if trail then e + 1 else e;
       if mask.None? then g == |d| else g < |d| && d[g] == '/' && d[g + 1..] == mask.value
  }

  /** The last item, and what comes after it. */
  lemma {:induction false} LastQuad(d: string, c: nat, e: nat, t: Tree, mask: Option<string>)
    requires c < e <= |d| && ItemOk(Quad(d[c..e])) && t.mask.None? && TailAt(d, e, false, mask)
    requires mask.Some? ==> MaskOk(mask.value)
    requires Count(t) + 2 + (if mask.Some? then 1 else 0) <= GROUPS
    ensures Scan(d, c, t) == Done(Push(t, Quad(d[c..e])).(trail := false, mask := mask), |d|)
  {
    hide Scan, Count, ItemOk, MaskOk;
    CountPush(t, Quad(d[c..e]));
    QuadStep(d, c, e, t);
    TailStep(d, e, Push(t, Quad(d[c..e])), mask);
  }

  lemma {:induction false} CountTrail(t: Tree)
    ensures Count(t.(trail := true)) == Count(t)
  {
  }

  lemma {:induction false} LastGroupColon(d: string, c: nat, e: nat, t: Tree, mask: Option<string>)
    requires c < e <= |d| && e <= c + 4 && All(Hexadecimal, d[c..e]) && t.mask.None? && TailAt(d, e, true, mask)
    requires mask.Some? ==> MaskOk(mask.value)
    requires Count(t) + 1 + (if mask.Some? then 1 else 0) <= GROUPS
    ensures Scan(d, c, t) == Done(Push(t, Group(d[c..e])).(trail := true, mask := mask), |d|)
  {
    hide Scan, Count, MaskOk;
    var t' := Push(t, Group(d[c..e]));
    CountPush(t, Group(d[c..e]));
    CountTrail(t');
    GroupThenColon(d, c, e, t);
    TailStep(d, e + 1, t'.(trail := true), mask);
  }

  lemma {:induction false} LastGroup(d: string, c: nat, e: nat, t: Tree, mask: Option<string>)
    requires c < e <= |d| && e <= c + 4 && All(Hexadecimal, d[c..e]) && t.mask.None? && TailAt(d, e, false, mask)
    requires mask.Some? ==> MaskOk(mask.value)
    requires Count(t) < GROUPS
    ensures Scan(d, c, t) == Done(Push(t, Group(d[c..e])).(trail := false, mask := mask), |d|)
  {
    hide Scan, Count, Step;
    GroupStep(d, c, e, t);
    if mask.Some? {
      assert d[e + 1..|d|] == d[e + 1..];
      RunUpTo(Decimal, d, e + 1, |d|);
    }
    ScanStop(d, c, t);
  }

  lemma {:induction false} LastItem(d: string, c: nat, e: nat, t: Tree, i: Item, trail: bool, mask: Option<string>)
    requires c <= e <= |d| && d[c..e] == Text(i) && ItemOk(i) && t.mask.None? && Count(t) + |ItemValues(i)| <= GROUPS
    requires TailAt(d, e, trail, mask) && (mask.Some? ==> MaskOk(mask.value)) && (trail ==> i.Group?)
    requires mask.Some? && Count(t) + |ItemValues(i)| == GROUPS ==> !trail && i.Group?
    ensures Scan(d, c, t) == Done(Push(t, i).(trail := trail, mask := mask), |d|)
  {
    hide Scan, Count, MaskOk, TailAt, Push, Ipv4.Parse;
    TextStarts(i);
    if i.Quad? {
      LastQuad(d, c, e, t, mask);
    } else if trail {
      LastGroupColon(d, c, e, t, mask);
    } else {
      LastGroup(d, c, e, t, mask);
    }
  }

  /** The tree after reading `items` and the colon after each. */
  function Pushed(t: Tree, items: seq<Item>): Tree
    decreases |items|
  {
    if items == [] then t else Pushed(Push(t, items[0]).(trail := true), items[1..])
  }

  lemma {:induction false} PushedIs(t: Tree, items: seq<Item>)
    ensures Pushed(t, items) ==
      if items == [] then t
      else if t.gap then t.(right := t.right + items, trail := true) else t.(left := t.left + items, trail := true)
    decreases |items|
  {
    if items != [] {
      var rest := items[1..];
      PushedIs(Push(t, items[0]).(trail := true), rest);
      assert Side(t) + [items[0]] + rest == Side(t) + items;
      if rest == [] { assert items == [items[0]]; }
    }
  }

  lemma {:induction false} JoinBegins(d: string, c: nat, items: seq<Item>)
    requires |items| > 1 && c + |Join(items)| <= |d| && d[c..c + |Join(items)|] == Join(items)
    ensures var e := c + |Text(items[0])|;
      && e < |d| && d[c..e] == Text(items[0]) && d[e] == ':'
      && e + 1 + |Join(items[1..])| == c + |Join(items)|
      && d[e + 1..e + 1 + |Join(items[1..])|] == Join(items[1..])
  {
    var x, j := Text(items[0]), Join(items[1..]);
    var s := x + ":" + j;
    assert s == d[c..c + |s|];
    assert s[..|x|] == x && s[|x|] == ':' && s[|x| + 1..] == j;
    assert d[c..c + |x|] == s[..|x|];
    assert d[c + |x|] == s[|x|];
    assert d[c + |x| + 1..c + |s|] == s[|x| + 1..];
  }

  lemma {:induction false} ItemsTail(items: seq<Item>, quadAllowed: bool)
    requires |items| > 1 && ItemsOk(items, quadAllowed)
    ensures ItemsOk(items[1..], quadAllowed)
    ensures items[0].Group? && 1 <= |Text(items[0])| <= 4 && All(Hexadecimal, Text(items[0]))
  {
    hide Ipv4.Parse;
    assert ItemOk(items[0]);
  }

  lemma {:induction false} PushedTail(t: Tree, items: seq<Item>)
    requires |items| > 1
    ensures Pushed(t, items[..|items| - 1])
         == Pushed(Push(t, items[0]).(trail := true), items[1..][..|items[1..]| - 1])
  {
    assert items[..|items| - 1][1..] == items[1..][..|items[1..]| - 1];
  }

  lemma {:induction false} OnlyItem(t: Tree, items: seq<Item>)
    requires |items| == 1
    ensures Join(items) == Text(items[0]) && Pushed(t, items[..0]) == t
  {
  }

  lemma {:induction false} GroupIs(i: Item)
    requires i.Group?
    ensures Group(Text(i)) == i && |ItemValues(i)| == 1
  {
  }

  lemma {:induction false} NextStarts(items: seq<Item>, quadAllowed: bool)
    requires items != [] && ItemsOk(items, quadAllowed)
    ensures Join(items) != "" && Join(items)[0] != ':' && Join(items)[0] != '/'
  {
    TextStarts(items[0]);
  }

  /** All items but the last. */
  lemma {:induction false} FrontItems(d: string, c: nat, t: Tree, items: seq<Item>, quadAllowed: bool) returns (c': nat)
    requires items != [] && ItemsOk(items, quadAllowed) && Count(t) + |items| <= GROUPS
    requires c + |Join(items)| <= |d| && d[c..c + |Join(items)|] == Join(items)
    ensures c <= c' && c' + |Text(items[|items| - 1])| == c + |Join(items)|
    ensures d[c'..c' + |Text(items[|items| - 1])|] == Text(items[|items| - 1])
    ensures Scan(d, c, t) == Scan(d, c', Pushed(t, items[..|items| - 1]))
    decreases |items|
  {
    hide *;
    if |items| == 1 {
      c' := c;
      OnlyItem(t, items);
    } else {
      var i, rest := items[0], items[1..];
      var e := c + |Text(i)|;
      JoinBegins(d, c, items);
      ItemsTail(items, quadAllowed);
      NextStarts(rest, quadAllowed);
      assert d[e + 1] == d[e + 1..e + 1 + |Join(rest)|][0];
      GroupIs(i);
      GroupThenColon(d, c, e, t);
      CountPush(t, i);
      CountTrail(Push(t, i));
      c' := FrontItems(d, e + 1, Push(t, i).(trail := true), rest, quadAllowed);
      PushedTail(t, items);
    }
  }

  lemma {:induction false} ValuesLength(items: seq<Item>, quadAllowed: bool)
    requires items != [] && ItemsOk(items, quadAllowed)
    ensures |Values(items)| == |items| - 1 + |ItemValues(items[|items| - 1])|
  {
    var front := items[..|items| - 1];
    if front != [] { ValuesLength(front, quadAllowed); }
  }

  lemma {:induction false} FrontCount(t: Tree, items: seq<Item>, quadAllowed: bool)
    requires items != [] && ItemsOk(items, quadAllowed) && Side(t) == []
    ensures Count(t) + |items| <= Count(Pushed(t, items[..|items| - 1])) + |ItemValues(items[|items| - 1])|
    ensures Count(Pushed(t, items[..|items| - 1])) + |ItemValues(items[|items| - 1])| == Count(t) + |Values(items)|
  {
    hide Join, ItemOk, Pushed;
    var front, last := items[..|items| - 1], items[|items| - 1];
    PushedIs(t, front);
    assert [] + front == front;
    assert front + [last] == items;
    ValuesSnoc(front, last);
    ValuesLength(items, quadAllowed);
  }

  /** A whole list of items, the last one at the end of the text. */
  lemma {:induction false} AllItems(d: string, c: nat, t: Tree, items: seq<Item>, quadAllowed: bool,
                                    trail: bool, mask: Option<string>)
    requires items != [] && ItemsOk(items, quadAllowed) && t.mask.None? && !t.trail && Side(t) == []
    requires c + |Join(items)| <= |d| && d[c..c + |Join(items)|] == Join(items)
    requires TailAt(d, c + |Join(items)|, trail, mask)
    requires mask.Some? ==> MaskOk(mask.value)
    requires Count(t) + |Values(items)| <= GROUPS
    requires trail ==> EndsInGroup(items)
    requires mask.Some? && Count(t) + |Values(items)| == GROUPS ==> !trail && EndsInGroup(items)
    ensures var u := if t.gap then t.(right := items) else t.(left := items);
      Scan(d, c, t) == Done(u.(trail := trail, mask := mask), |d|)
  {
    hide Scan, Count, Join, Values, Ipv4.Parse, MaskOk, TailAt, Pushed;
    var front, last := items[..|items| - 1], items[|items| - 1];
    FrontCount(t, items, quadAllowed);
    var c' := FrontItems(d, c, t, items, quadAllowed);
    PushedIs(t, front);
    LastItem(d, c', c + |Join(items)|, Pushed(t, front), last, trail, mask);
    assert [] + front == front && front + [last] == items;
    assert front == [] ==> items == [last];
  }

  lemma {:induction false} CountStart()
    ensures Count(START) == 0 && Count(START.(lead := true)) == 0
  {
  }

  lemma {:induction false} ScanLead(d: string)
    requires |d| > 1 && d[0] == ':' && d[1] != ':'
    ensures Scan(d, 0, START) == Scan(d, 1, START.(lead := true))
  {
    hide Scan, Count, Step;
    assert d[0..0] == "";
    GroupStep(d, 0, 0, START);
    assert Count(START) == 0 by { CountStart(); }
    ScanNext(d, 0, START);
  }

  lemma {:induction false} SliceOfFront(x: string, y: string, i: nat, j: nat)
    requires i <= j <= |x|
    ensures (x + y)[i..j] == x[i..j]
  {
  }

  /** Where the pieces of a text lie. */
  lemma {:induction false} BodyLayout(t: Tree, l: nat, g: nat)
    requires l == (if t.lead then 1 else 0) && g == l + |Join(t.left)|
    ensures g <= |Body(t)| && Body(t)[l..g] == Join(t.left)
    ensures t.lead ==> Body(t)[0] == ':'
    ensures t.gap ==> g + 2 <= |Body(t)| && Body(t)[g..g + 2] == "::" && Body(t)[g + 2..] == Join(t.right)
  {
    hide Join;
    var a := (if t.lead then ":" else "") + Join(t.left);
    var b := a + (if t.gap then "::" else "");
    assert Body(t) == b + Join(t.right);
    SliceOfFront(b, Join(t.right), l, g);
    SliceOfFront(a, if t.gap then "::" else "", l, g);
    assert a[l..g] == Join(t.left);
    if t.gap { SliceOfFront(b, Join(t.right), g, g + 2); }
  }

  lemma {:induction false} RenderLayout(t: Tree, i: nat, j: nat)
    requires i <= j <= |Body(t)|
    ensures |Body(t)| <= |Render(t)| && Render(t)[i..j] == Body(t)[i..j]
    ensures TailAt(Render(t), |Body(t)|, t.trail, t.mask)
  {
    hide Body;
    SliceOfFront(AddressText(t), MaskText(t), i, j);
    SliceOfFront(Body(t), ":", i, j);
  }

  lemma {:induction false} JoinNone()
    ensures Join([]) == ""
  {
  }

  lemma {:induction false} FullParts(t: Tree)
    requires Valid(t) && !t.gap
    ensures t.left != [] && t.right == [] && |Body(t)| == (if t.lead then 1 else 0) + |Join(t.left)|
    ensures WellFormed(t) && ItemsOk(t.left, true) && |Values(t.left)| == GROUPS
    ensures t.trail ==> EndsInGroup(t.left)
    ensures t.mask.Some? ==> MaskOk(t.mask.value) && !t.trail && EndsInGroup(t.left)
    ensures var s := START.(lead := t.lead); s.mask.None? && !s.trail && !s.gap && Side(s) == [] && Count(s) == 0
    ensures START.(lead := t.lead).(left := t.left).(trail := t.trail, mask := t.mask) == t
  {
    JoinNone();
    CountStart();
  }

  lemma {:induction false} Start(t: Tree, d: string, g: nat)
    requires WellFormed(t) && (t.lead ==> t.left != [])
    requires var l := if t.lead then 1 else 0;
      l <= g <= |d| && d[0..l] == (if t.lead then ":" else "") && d[l..g] == Join(t.left)
    ensures Scan(d, 0, START) == Scan(d, if t.lead then 1 else 0, START.(lead := t.lead))
  {
    if t.lead {
      NextStarts(t.left, !t.gap);
      assert d[0] == d[0..1][0] && d[1] == d[1..g][0];
      ScanLead(d);
    }
  }

  /** The text of a tree without "::" is accepted as that tree. */
  lemma {:induction false} FullAccepted(t: Tree)
    requires Valid(t) && !t.gap
    ensures Scan(Render(t), 0, START) == Done(t, |Render(t)|)
  {
    hide *;
    var d := Render(t);
    var l := if t.lead then 1 else 0;
    var g := l + |Join(t.left)|;
    FullParts(t);
    BodyLayout(t, l, g);
    RenderLayout(t, l, g);
    RenderLayout(t, 0, l);
    if t.lead { assert Body(t)[0..1] == ":"; }
    Start(t, d, g);
    AllItems(d, l, START.(lead := t.lead), t.left, true, t.trail, t.mask);
  }

  /** The tree of what comes before the last items. */
  function AfterGap(t: Tree): Tree { Tree(t.lead, t.left, true, [], false, None) }

  lemma {:induction false} LeftTree(t: Tree)
    requires t.left != []
    ensures var n := |t.left| - 1;
      Push(Pushed(START.(lead := t.lead), t.left[..n]), t.left[n]).(gap := true, trail := false)
         == AfterGap(t)
    ensures !Pushed(START.(lead := t.lead), t.left[..|t.left| - 1]).gap
  {
    var t0, front, last := START.(lead := t.lead), t.left[..|t.left| - 1], t.left[|t.left| - 1];
    PushedIs(t0, front);
    assert [] + front == front && front + [last] == t.left;
  }

  lemma {:induction false} LastLeft(t: Tree)
    requires WellFormed(t) && t.gap && t.left != []
    ensures var last := t.left[|t.left| - 1];
      && last.Group? && last == Group(Text(last)) && |ItemValues(last)| == 1
      && 1 <= |Text(last)| <= 4 && All(Hexadecimal, Text(last))
    ensures ItemsOk(t.left, false)
  {
    hide Count;
    assert ItemOk(t.left[|t.left| - 1]);
  }

  /** What reading the groups before "::" starts from. */
  lemma {:induction false} LeftStart(t: Tree)
    requires WellFormed(t) && t.gap && t.left != [] && |Values(t.left)| <= GROUPS
    ensures var t0 := START.(lead := t.lead);
      ItemsOk(t.left, false) && t0.mask.None? && !t0.trail && Side(t0) == [] && Count(t0) == 0
  {
    hide Values, ItemsOk;
    CountStart();
  }

  lemma {:induction false} GroupIsPushed(d: string, c: nat, e: nat, t: Tree)
    requires c < e <= |d|
    ensures WithGroup(d, c, e, t) == Push(t, Group(d[c..e]))
  {
  }

  lemma {:induction false} LeftGroups(t: Tree, d: string, l: nat, g: nat)
    requires WellFormed(t) && t.gap && t.left != [] && |Values(t.left)| <= GROUPS
    requires l <= g && g + 1 < |d| && g == l + |Join(t.left)| && d[l..g] == Join(t.left)
    requires d[g] == ':' && d[g + 1] == ':' && (g + 2 < |d| ==> d[g + 2] != ':')
    ensures Scan(d, l, START.(lead := t.lead)) == Scan(d, g + 2, AfterGap(t))
  {
    hide *;
    var t0, front, last := START.(lead := t.lead), t.left[..|t.left| - 1], t.left[|t.left| - 1];
    LeftStart(t);
    LastLeft(t);
    FrontCount(t0, t.left, false);
    LeftTree(t);
    var c' := FrontItems(d, l, t0, t.left, false);
    GroupThenGap(d, c', g, Pushed(t0, front));
    GroupIsPushed(d, c', g, Pushed(t0, front));
  }

  lemma {:induction false} TailAtEnd(d: string, c: nat, mask: Option<string>)
    requires c <= |d| && TailAt(d, c, false, mask)
    ensures mask.None? ==> c == |d|
    ensures mask.Some? ==> c < |d| && d[c] == '/' && d[c + 1..] == mask.value
  {
  }

  lemma {:induction false} RightItems(t: Tree, d: string, c: nat)
    requires Valid(t) && t.gap && c + |Join(t.right)| <= |d| && d[c..c + |Join(t.right)|] == Join(t.right)
    requires TailAt(d, c + |Join(t.right)|, t.trail, t.mask)
    ensures Scan(d, c, AfterGap(t)) == Done(t, |d|)
  {
    var t1 := AfterGap(t);
    JoinNone();
    assert Count(t1) == |Values(t.left)|;
    assert t1.(right := t.right, trail := t.trail, mask := t.mask) == t;
    hide Scan, Count, Values, Join, TailAt, MaskOk, ItemsOk;
    if t.right == [] {
      hide AfterGap;
      TailAtEnd(d, c, t.mask);
      TailStep(d, c, t1, t.mask);
    } else {
      AllItems(d, c, t1, t.right, true, t.trail, t.mask);
    }
  }

  lemma {:induction false} NotThreeColons(t: Tree, d: string, c: nat)
    requires WellFormed(t) && t.gap && c + |Join(t.right)| <= |d| && d[c..c + |Join(t.right)|] == Join(t.right)
    requires TailAt(d, c + |Join(t.right)|, t.trail, t.mask)
    ensures c < |d| ==> d[c] != ':'
  {
    if t.right == [] {
      TailAtEnd(d, c, t.mask);
    } else {
      NextStarts(t.right, true);
      assert d[c] == d[c..c + |Join(t.right)|][0];
    }
  }

  /** Everything up to the double colon. */
  lemma {:induction false} LeftPart(t: Tree, d: string, l: nat, g: nat)
    requires WellFormed(t) && (t.lead ==> t.left != []) && |Values(t.left)| <= GROUPS
    requires t.gap && l == (if t.lead then 1 else 0) && g == l + |Join(t.left)| && g + 1 < |d|
    requires d[0..l] == (if t.lead then ":" else "") && d[l..g] == Join(t.left)
    requires d[g] == ':' && d[g + 1] == ':' && (g + 2 < |d| ==> d[g + 2] != ':')
    ensures Scan(d, 0, START) == Scan(d, g + 2, AfterGap(t))
  {
    hide Scan, Count, Values, Join, WellFormed;
    Start(t, d, g);
    if t.left == [] {
      JoinNone();
      CountStart();
      assert d[0..0] == "";
      GroupThenGap(d, 0, 0, START);
      assert START.(gap := true, trail := false) == AfterGap(t);
    } else {
      LeftGroups(t, d, l, g);
    }
  }

  lemma {:induction false} GapLayout(t: Tree, l: nat, g: nat)
    requires t.gap && l == (if t.lead then 1 else 0) && g == l + |Join(t.left)|
    ensures var d := Render(t); var e := g + 2 + |Join(t.right)|;
      && e <= |d| && d[0..l] == (if t.lead then ":" else "") && d[l..g] == Join(t.left)
      && d[g] == ':' && d[g + 1] == ':' && d[g + 2..e] == Join(t.right) && TailAt(d, e, t.trail, t.mask)
  {
    hide *;
    BodyLayout(t, l, g);
    var e := |Body(t)|;
    RenderLayout(t, l, g);
    RenderLayout(t, 0, l);
    if t.lead { assert Body(t)[0..1] == ":"; }
    assert Body(t)[g] == Body(t)[g..g + 2][0] && Body(t)[g + 1] == Body(t)[g..g + 2][1];
    RenderLayout(t, g, g + 2);
    assert Render(t)[g] == Render(t)[g..g + 2][0] && Render(t)[g + 1] == Render(t)[g..g + 2][1];
    RenderLayout(t, g + 2, e);
    assert Body(t)[g + 2..e] == Body(t)[g + 2..];
  }

  lemma ValidIsWellFormed(t: Tree)
    requires Valid(t)
    ensures WellFormed(t) && (t.lead ==> t.left != []) && |Values(t.left)| <= GROUPS
  {
  }

  lemma {:induction false} GapAccepted(t: Tree)
    requires Valid(t) && t.gap
    ensures Scan(Render(t), 0, START) == Done(t, |Render(t)|)
  {
    hide *;
    var d := Render(t);
    var l := if t.lead then 1 else 0;
    var g := l + |Join(t.left)|;
    ValidIsWellFormed(t);
    GapLayout(t, l, g);
    NotThreeColons(t, d, g + 2);
    LeftPart(t, d, l, g);
    RightItems(t, d, g + 2);
  }

  lemma {:induction false} ParseComplete(t: Tree)
    requires Valid(t)
    ensures Parse(Render(t)) == Ok(t)
  {
    if t.gap { GapAccepted(t); } else { FullAccepted(t); }
  }

  /** A string is accepted, as the tree `t`, exactly when it is the text of `t`. */
  lemma {:induction false} ParseIsGrammar(d: string, t: Tree)
    ensures Parse(d) == Ok(t) <==> Valid(t) && Render(t) == d
  {
    hide Parse, Valid, Render;
    if Parse(d) == Ok(t) { ParseSound(d); }
    if Valid(t) && Render(t) == d { ParseComplete(t); }
  }

  // ---------------------------------------------------------------- when the group array is overrun

  /** Seven groups and a dotted quad. */
  predicate NineGroups(t: Tree) {
    && t.mask.None? && !t.trail && Structured(t.left, t.gap, t.right, t.trail)
    && (t.lead ==> t.left != [])
    && Side(t) != [] && !EndsInGroup(Side(t)) && Count(t) == GROUPS + 1
  }

  predicate EndsAddress(rest: string) { rest == "" || rest[0] == '/' }

  lemma {:induction false} BeyondStep(d: string, c: nat, q: nat, t: Tree)
    requires c < q <= |d| && ItemOk(Quad(d[c..q])) && Count(t) == 7
    requires q < |d| ==> d[q] == '/'
    ensures Scan(d, c, t) == Beyond
  {
    hide Ipv4.Parse, Scan, Count;
    var s := d[c..q];
    var h := QuadBegins(s);
    assert d[c..c + h] == s[..h] && d[c + h] == s[h];
    RunUpTo(Hexadecimal, d, c, c + h);
    RunUpTo(DotDecimal, d, c, q);
    ScanStop(d, c, t);
  }

  lemma {:induction false} ItemsOverrun(d: string, c: nat, t: Tree, items: seq<Item>)
    requires items != [] && !EndsInGroup(items) && ItemsOk(items, true) && Side(t) == []
    requires c + |Join(items)| <= |d| && d[c..c + |Join(items)|] == Join(items)
    requires c + |Join(items)| < |d| ==> d[c + |Join(items)|] == '/'
    requires Count(t) + |Values(items)| == GROUPS + 1
    ensures Scan(d, c, t) == Beyond
  {
    hide Scan, Count, Join, Values, Ipv4.Parse, Pushed;
    var last := items[|items| - 1];
    FrontCount(t, items, true);
    ValuesLength(items, true);
    TextStarts(last);
    var c' := FrontItems(d, c, t, items, true);
    assert ItemOk(last) && last == Quad(Text(last));
    BeyondStep(d, c', c + |Join(items)|, Pushed(t, items[..|items| - 1]));
  }

  lemma {:induction false} CountSide(t: Tree)
    requires !t.gap ==> t.right == []
    ensures Count(t) == if t.gap then Count(AfterGap(t)) + |Values(t.right)| else |Values(t.left)|
    ensures Count(AfterGap(t)) == |Values(t.left)|
  {
  }

  lemma {:induction false} FullOverruns(t: Tree, rest: string)
    requires NineGroups(t) && !t.gap && EndsAddress(rest)
    ensures Scan(Body(t) + rest, 0, START) == Beyond
  {
    hide Scan, Count, Values, ItemsOk, Join;
    var d := Body(t) + rest;
    var l := if t.lead then 1 else 0;
    var g := l + |Join(t.left)|;
    JoinNone();
    BodyLayout(t, l, g);
    SliceOfFront(Body(t), rest, l, g);
    SliceOfFront(Body(t), rest, 0, l);
    Start(t, d, g);
    CountStart();
    CountSide(t);
    ItemsOverrun(d, l, START.(lead := t.lead), t.left);
  }

  lemma {:induction false} GapOverrunLayout(t: Tree, rest: string, l: nat, g: nat)
    requires t.gap && l == (if t.lead then 1 else 0) && g == l + |Join(t.left)|
    ensures var d := Body(t) + rest; var e := g + 2 + |Join(t.right)|;
      && e == |Body(t)| <= |d| && d[0..l] == (if t.lead then ":" else "") && d[l..g] == Join(t.left)
      && d[g] == ':' && d[g + 1] == ':' && d[g + 2..e] == Join(t.right)
  {
    hide *;
    BodyLayout(t, l, g);
    var e := |Body(t)|;
    SliceOfFront(Body(t), rest, l, g);
    SliceOfFront(Body(t), rest, 0, l);
    if t.lead { assert Body(t)[0..1] == ":"; }
    assert Body(t)[g] == Body(t)[g..g + 2][0] && Body(t)[g + 1] == Body(t)[g..g + 2][1];
    SliceOfFront(Body(t), rest, g + 2, e);
    assert Body(t)[g + 2..e] == Body(t)[g + 2..];
  }

  lemma {:induction false} NineParts(t: Tree)
    requires NineGroups(t) && t.gap
    ensures WellFormed(t) && (t.lead ==> t.left != [])
    ensures t.right != [] && !EndsInGroup(t.right) && ItemsOk(t.right, true)
    ensures Count(AfterGap(t)) == |Values(t.left)| <= GROUPS && Count(AfterGap(t)) + |Values(t.right)| == GROUPS + 1
    ensures Side(AfterGap(t)) == []
  {
    CountSide(t);
    ValuesLength(t.right, true);
  }

  lemma {:induction false} GapOverruns(t: Tree, rest: string)
    requires NineGroups(t) && t.gap && EndsAddress(rest)
    ensures Scan(Body(t) + rest, 0, START) == Beyond
  {
    var d := Body(t) + rest;
    var l := if t.lead then 1 else 0;
    var g := l + |Join(t.left)|;
    hide Scan, Count, Values, ItemsOk, Join, NineGroups, WellFormed, Body, AfterGap;
    GapOverrunLayout(t, rest, l, g);
    NineParts(t);
    NextStarts(t.right, true);
    assert d[g + 2] == d[g + 2..g + 2 + |Join(t.right)|][0];
    LeftPart(t, d, l, g);
    ItemsOverrun(d, g + 2, AfterGap(t), t.right);
  }

  lemma {:induction false} NinePushed(t: Tree, i: Item)
    requires WellFormed(t) && t.mask.None?
    requires (t.trail <==> EndsInGroup(Side(t))) && (Side(t) == [] || EndsInGroup(Side(t)))
    requires Count(t) == 7 && i.Quad? && ItemOk(i) && (t.lead && t.left == [] ==> !t.gap)
    ensures NineGroups(Push(t, i))
  {
    hide ItemOk, Values;
    CountPush(t, i);
    if t.gap { ItemsOkSnoc(t.right, i, true); } else { ItemsOkSnoc(t.left, i, true); }
  }

  lemma {:induction false} QuadBeyond(d: string, c: nat, t: Tree) returns (u: Tree, rest: string)
    requires AtHead(d, c, t) && c < |d| && Count(t) < GROUPS && QuadTurn(d, c, t) == Stop(Beyond)
    requires var e := RunEnd(Hexadecimal, d, c); e <= c + 4 && e < |d| && d[e] == '.'
    ensures NineGroups(u) && EndsAddress(rest) && d == Body(u) + rest
  {
    hide Ipv4.Parse, RunEnd, Join, Values, ItemOk, Body;
    var q := RunEnd(DotDecimal, d, c);
    QuadOk(d, c, q);
    u, rest := Push(t, Quad(d[c..q])), d[q..];
    NinePushed(t, Quad(d[c..q]));
    RenderPush(t, Quad(d[c..q]));
    assert d == d[..c] + d[c..q] + d[q..];
  }

  lemma {:induction false} BeyondSound(d: string, c: nat, t: Tree) returns (u: Tree, rest: string)
    requires AtHead(d, c, t) && Scan(d, c, t) == Beyond
    ensures NineGroups(u) && EndsAddress(rest) && d == Body(u) + rest
    decreases |d| - c
  {
    var e := RunEnd(Hexadecimal, d, c);
    if e <= c + 4 && e < |d| && d[e] == '.' {
      if QuadTurn(d, c, t).Next? {
        QuadTurnSound(d, c, t);
        StepMoves(d, c, t);
        u, rest := BeyondSound(d, Step(d, c, t).c, Step(d, c, t).tree);
      } else {
        u, rest := QuadBeyond(d, c, t);
      }
    } else {
      GroupTurnSound(d, c, e, t);
      StepMoves(d, c, t);
      u, rest := BeyondSound(d, Step(d, c, t).c, Step(d, c, t).tree);
    }
  }

  lemma {:induction false} StartAtHead(d: string)
    ensures AtHead(d, 0, START)
  {
  }

  /** The scanner writes past its eight groups exactly on an address of seven groups and a dotted quad. */
  lemma {:induction false} OverrunIsNineGroups(d: string)
    ensures Parse(d) == Overrun <==> exists t, rest :: NineGroups(t) && EndsAddress(rest) && d == Body(t) + rest
  {
    hide Scan, NineGroups, Body;
    if Parse(d) == Overrun {
      StartAtHead(d);
      var t, rest := BeyondSound(d, 0, START);
    }
    forall t, rest | NineGroups(t) && EndsAddress(rest) && d == Body(t) + rest
      ensures Parse(d) == Overrun
    {
      if t.gap { GapOverruns(t, rest); } else { FullOverruns(t, rest); }
    }
  }

  // ---------------------------------------------------------------- such a text

  lemma {:induction false} JoinFrom(items: seq<Item>, k: nat)
    requires k < |items|
    ensures Join(items[k..]) == Text(items[k]) + if k == |items| - 1 then "" else ":" + Join(items[k + 1..])
  {
    assert items[k..][0] == items[k] && items[k..][1..] == items[k + 1..];
  }

  lemma {:induction false} GroupValues(items: seq<Item>)
    requires forall i :: 0 <= i < |items| ==> items[i].Group?
    ensures |Values(items)| == |items|
  {
    if items != [] { GroupValues(items[..|items| - 1]); }
  }

  lemma {:induction false} SmallNumber(s: string)
    requires |s| == 1 && IsDigit(s[0])
    ensures Ipv4.IsByteText(s) && ItemOk(Group(s))
  {
    assert s[..0] == "" && DecValue("") == 0;
  }

  lemma {:induction false} QuadExample()
    ensures ItemOk(Quad("1.2.3.4"))
  {
    hide Ipv4.Parse, RunEnd, ItemsOk;
    var d, n := "1.2.3.4", ["1", "2", "3", "4"];
    SmallNumber("1");
    SmallNumber("2");
    SmallNumber("3");
    SmallNumber("4");
    Ipv4.DottedFour(n);
    Ipv4.ScanComplete(d, Ipv4.Text(n, None), "");
    RunUpTo(Hexadecimal, d, 0, 1);
  }

  function SevenGroups(): (items: seq<Item>)
    ensures |items| == 7
  {
    [Group("1"), Group("2"), Group("3"), Group("4"), Group("5"), Group("6"), Group("7")]
  }

  function EightItems(): (items: seq<Item>)
    ensures |items| == 8
  {
    SevenGroups() + [Quad("1.2.3.4")]
  }

  lemma {:induction false} JoinCons(items: seq<Item>, k: nat, head: string, rest: string)
    requires k + 1 < |items| && Text(items[k]) == head && Join(items[k + 1..]) == rest
    ensures Join(items[k..]) == head + ":" + rest
  {
    hide Join;
    JoinFrom(items, k);
  }

  lemma EightTexts()
    ensures var items := EightItems();
      && Text(items[0]) == "1" && Text(items[1]) == "2" && Text(items[2]) == "3" && Text(items[3]) == "4"
      && Text(items[4]) == "5" && Text(items[5]) == "6" && Text(items[6]) == "7" && Text(items[7]) == "1.2.3.4"
  {
  }

  lemma LastText(rest: string)
    requires rest == "1.2.3.4"
    ensures "5" + ":" + ("6" + ":" + ("7" + ":" + rest)) == "5:6:7:1.2.3.4"
  {
  }

  lemma FrontText(rest: string)
    requires rest == "5:6:7:1.2.3.4"
    ensures "3" + ":" + ("4" + ":" + rest) == "3:4:5:6:7:1.2.3.4"
  {
  }

  lemma WholeText(rest: string)
    requires rest == "3:4:5:6:7:1.2.3.4"
    ensures "1" + ":" + ("2" + ":" + rest) == "1:2:3:4:5:6:7:1.2.3.4"
  {
  }

  lemma {:induction false} EightText()
    ensures Join(EightItems()) == "1:2:3:4:5:6:7:1.2.3.4"
  {
    hide Join, EightItems, Text;
    var items := EightItems();
    EightTexts();
    JoinFrom(items, 7);
    var j7 := Join(items[7..]);
    assert j7 == "1.2.3.4" + "" == "1.2.3.4";
    JoinCons(items, 6, "7", j7);
    JoinCons(items, 5, "6", Join(items[6..]));
    JoinCons(items, 4, "5", Join(items[5..]));
    LastText(j7);
    JoinCons(items, 3, "4", Join(items[4..]));
    JoinCons(items, 2, "3", Join(items[3..]));
    FrontText(Join(items[4..]));
    JoinCons(items, 1, "2", Join(items[2..]));
    JoinCons(items, 0, "1", Join(items[1..]));
    WholeText(Join(items[2..]));
    assert items[0..] == items;
  }

  lemma {:induction false} EightOk()
    ensures ItemsOk(EightItems(), true) && |Values(EightItems())| == 9 && !EndsInGroup(EightItems())
  {
    hide ItemOk, Values, ItemValues;
    QuadExample();
    forall i | 0 <= i < 7 ensures ItemOk(EightItems()[i]) && EightItems()[i].Group? {
      SmallNumber(SevenGroups()[i].hex);
    }
    GroupValues(SevenGroups());
    ValuesSnoc(SevenGroups(), Quad("1.2.3.4"));
  }

  lemma NoneOk()
    ensures ItemsOk([], true) && Values([]) == []
  {
  }

  lemma {:induction false} SevenAndQuad() returns (t: Tree)
    ensures NineGroups(t) && Body(t) == "1:2:3:4:5:6:7:1.2.3.4"
  {
    hide ItemsOk, Values, Join, EightItems, EndsInGroup;
    t := Tree(false, EightItems(), false, [], false, None);
    EightOk();
    EightText();
    JoinNone();
    NoneOk();
    var d := "1:2:3:4:5:6:7:1.2.3.4";
    assert "" + d + "" + "" == d;
  }

  lemma NothingAfter(d: string)
    ensures EndsAddress("") && d + "" == d
  {
  }

  /** Seven groups and a dotted quad are written past the array. */
  lemma {:induction false} OverrunExample()
    ensures Parse("1:2:3:4:5:6:7:1.2.3.4") == Overrun
  {
    hide *;
    var d := "1:2:3:4:5:6:7:1.2.3.4";
    var t := SevenAndQuad();
    NothingAfter(d);
    OverrunIsNineGroups(d);
  }
}
