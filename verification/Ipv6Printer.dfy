/** The IPv6 printer: the canonical text of section 4 of RFC 5952, and its round trip. */
module Ipv6Printer {
  import opened Basics
  import opened IpDigits
  import opened Ipv6Value
  import Ipv4
  import Ipv6
  import P = Ipv6Parser

  // ---------------------------------------------------------------- the groups of an address

  function GroupAt(upper: nat, lower: nat, i: nat): (g: nat)
    requires i < 8
    ensures g < GROUP
  {
    var half := if i < 4 then upper else lower;
    (if i % 4 == 0 then half / 0x1_0000_0000_0000 else if i % 4 == 1 then half / 0x1_0000_0000
     else if i % 4 == 2 then half / 0x1_0000 else half) % 0x1_0000
  }

  function GroupsOf(upper: nat, lower: nat): (q: seq<nat>)
    ensures Groups(q)
  {
    seq(8, i requires 0 <= i < 8 => GroupAt(upper, lower, i))
  }

  lemma {:induction false} HalfSplits(h: nat)
    requires h < HALF
    ensures Half(h / 0x1_0000_0000_0000 % 0x1_0000, h / 0x1_0000_0000 % 0x1_0000,
                 h / 0x1_0000 % 0x1_0000, h % 0x1_0000) == h
  {
    assert h / 0x1_0000 / 0x1_0000 == h / 0x1_0000_0000;
    assert h / 0x1_0000_0000 / 0x1_0000 == h / 0x1_0000_0000_0000;
  }

  lemma {:induction false} GroupsMakeAddress(upper: nat, lower: nat)
    requires upper < HALF && lower < HALF
    ensures Upper(GroupsOf(upper, lower)) == upper && Lower(GroupsOf(upper, lower)) == lower
  {
    HalfSplits(upper);
    HalfSplits(lower);
  }

  // ---------------------------------------------------------------- the zero run to compress

  predicate ZeroRun(q: seq<nat>, start: nat, run: nat) {
    start + run <= |q| && forall i :: start <= i < start + run ==> q[i] == 0
  }

  /** The longest run of at least two zero groups, the leftmost of the longest; (0, 0) if there is none. */
  ghost predicate BestRun(q: seq<nat>, start: nat, run: nat) {
    && (run == 0 ==> start == 0)
    && run != 1
    && ZeroRun(q, start, run)
    && forall s: nat, r: nat :: ZeroRun(q, s, r) && r >= 2 ==> r < run || (r == run && start <= s)
  }

  lemma {:induction false} BestRunUnique(q: seq<nat>, s: nat, r: nat, s': nat, r': nat)
    requires BestRun(q, s, r) && BestRun(q, s', r')
    ensures s == s' && r == r'
  {
  }

  /** `start`, `run` is the best of the runs that end by `n`. */
  ghost predicate BestBy(q: seq<nat>, n: nat, start: nat, run: nat) {
    && (run == 0 ==> start == 0) && run != 1 && ZeroRun(q, start, run) && (run > 0 ==> start + run <= n)
    && forall s: nat, r: nat :: ZeroRun(q, s, r) && r >= 2 && s + r <= n ==> r < run || (r == run && start <= s)
  }

  /** The open run at `n` starts at `z`. */
  predicate OpenRun(q: seq<nat>, z: nat, n: nat) {
    z <= n <= |q| && (forall i :: z <= i < n ==> q[i] == 0) && (z == 0 || q[z - 1] != 0)
  }

  lemma {:induction false} RunsInOpen(q: seq<nat>, z: nat, n: nat, s: nat, r: nat)
    requires OpenRun(q, z, n) && ZeroRun(q, s, r) && r >= 1 && s + r <= n
    ensures s + r <= z || s >= z
  {
  }

  lemma {:induction false} CloseRun(q: seq<nat>, z: nat, n: nat, start: nat, run: nat)
    requires OpenRun(q, z, n) && BestBy(q, z, start, run)
    ensures if n - z > 1 && n - z > run then BestBy(q, n, z, n - z) else BestBy(q, n, start, run)
  {
    forall s: nat, r: nat | ZeroRun(q, s, r) && r >= 2 && s + r <= n
      ensures s + r <= z || s >= z
    {
      RunsInOpen(q, z, n, s, r);
    }
  }

  lemma {:induction false} StepOver(q: seq<nat>, n: nat, start: nat, run: nat)
    requires n < |q| && q[n] != 0 && BestBy(q, n, start, run)
    ensures BestBy(q, n + 1, start, run)
  {
    forall s: nat, r: nat | ZeroRun(q, s, r) && r >= 2 && s + r <= n + 1
      ensures s + r <= n
    {
    }
  }

  lemma BestOfNone(q: seq<nat>)
    ensures BestBy(q, 0, 0, 0)
  {
  }

  lemma BestOfAll(q: seq<nat>, start: nat, run: nat)
    requires BestBy(q, |q|, start, run)
    ensures BestRun(q, start, run)
  {
  }

  /** Unpacks the groups, looking for the run to compress on the way. */
  method Unpack(upper: nat, lower: nat) returns (quibbles: array<nat>, zeroStart: nat, zeroRun: nat)
    ensures quibbles[..] == GroupsOf(upper, lower)
    ensures BestRun(GroupsOf(upper, lower), zeroStart, zeroRun)
  {
    hide GroupAt, BestBy;
    ghost var q := GroupsOf(upper, lower);
    quibbles := new nat[8];
    zeroStart, zeroRun := 0, 0;
    BestOfNone(q);
    var thisStart := 8;
    for i := 0 to 8
      invariant quibbles[..i] == q[..i]
      invariant thisStart == 8 || (thisStart < i && OpenRun(q, thisStart, i))
      invariant BestBy(q, if thisStart == 8 then i else thisStart, zeroStart, zeroRun)
      invariant thisStart == 8 ==> i == 0 || q[i - 1] != 0
    {
      quibbles[i] := GroupAt(upper, lower, i);
      assert quibbles[i] == q[i] && q[..i + 1] == q[..i] + [q[i]];
      if quibbles[i] == 0 && thisStart == 8 {
        thisStart := i;
      } else if quibbles[i] != 0 && thisStart != 8 {
        var thisRun := i - thisStart;
        CloseRun(q, thisStart, i, zeroStart, zeroRun);
        if thisRun > 1 && thisRun > zeroRun {
          zeroRun := thisRun;
          zeroStart := thisStart;
        }
        thisStart := 8;
        StepOver(q, i, zeroStart, zeroRun);
      } else if quibbles[i] != 0 {
        StepOver(q, i, zeroStart, zeroRun);
      }
    }
    assert quibbles[..8] == quibbles[..] && q[..8] == q;
    if thisStart != 8 {
      var thisRun := 8 - thisStart;
      CloseRun(q, thisStart, 8, zeroStart, zeroRun);
      if thisRun > 1 && thisRun > zeroRun {
        zeroRun := thisRun;
        zeroStart := thisStart;
      }
    }
    BestOfAll(q, zeroStart, zeroRun);
  }

  // ---------------------------------------------------------------- the canonical text

  function GroupItems(q: seq<nat>): (items: seq<Ipv6.Item>)
    ensures |items| == |q|
  {
    seq(|q|, i requires 0 <= i < |q| => Ipv6.Group(Hex(q[i])))
  }

  /** The three forms whose last two groups are printed as a dotted quad. */
  predicate PrintsQuad(q: seq<nat>, start: nat, run: nat)
    requires |q| == 8
  {
    start == 0 && ((run == 6 && q[7] != 1) || (run == 5 && q[5] == 0xffff) || (run == 4 && q[4] == 0xffff && q[5] == 0))
  }

  function QuadText(q: seq<nat>): string
    requires Groups(q)
  {
    Ipv4.Render(Ipv4.Canonical(q[6] * 0x1_0000 + q[7], Ipv4.DEFAULT_MASK))
  }

  function MaskPart(mask: nat): Option<string> { if mask == 128 then None else Some(Dec(mask)) }

  function RightPart(q: seq<nat>, start: nat, run: nat): seq<Ipv6.Item>
    requires Groups(q) && start + run <= 8
  {
    if PrintsQuad(q, start, run) then GroupItems(q[run..6]) + [Ipv6.Quad(QuadText(q))] else GroupItems(q[start + run..])
  }

  /** What ToStringIPv6 prints when it compresses the given run. */
  function Canonical(q: seq<nat>, start: nat, run: nat, mask: nat): Ipv6.Tree
    requires Groups(q) && start + run <= 8
  {
    if run == 0 then Ipv6.Tree(false, GroupItems(q), false, [], false, MaskPart(mask))
    else Ipv6.Tree(false, GroupItems(q[..start]), true, RightPart(q, start, run), false, MaskPart(mask))
  }

  lemma {:induction false} HexItem(n: nat)
    requires n < GROUP
    ensures Ipv6.ItemOk(Ipv6.Group(Hex(n))) && Ipv6.ItemValues(Ipv6.Group(Hex(n))) == [n]
  {
    HexLength(n);
  }

  lemma {:induction false} GroupItemsOk(q: seq<nat>, quadAllowed: bool)
    requires forall i :: 0 <= i < |q| ==> q[i] < GROUP
    ensures Ipv6.ItemsOk(GroupItems(q), quadAllowed)
    ensures Ipv6.Values(GroupItems(q)) == q
  {
    hide Hex, Ipv6.ItemOk, Ipv6.ItemValues, Ipv6.Values;
    if q == [] {
      P.NoValues();
    } else {
      var front, i := q[..|q| - 1], Ipv6.Group(Hex(q[|q| - 1]));
      GroupItemsOk(front, quadAllowed);
      HexItem(q[|q| - 1]);
      assert GroupItems(q) == GroupItems(front) + [i];
      Ipv6.ItemsOkSnoc(GroupItems(front), i, quadAllowed);
      Ipv6.ValuesSnoc(GroupItems(front), i);
    }
  }

  lemma {:induction false} DottedDigits(n: seq<string>)
    requires forall i :: 0 <= i < |n| ==> All(Decimal, n[i])
    ensures All(DotDecimal, Ipv4.Dotted(n))
  {
    if |n| > 1 { DottedDigits(n[1..]); }
  }

  lemma {:induction false} DecLength(n: nat)
    requires n < 1000
    ensures |Dec(n)| <= 3 && (n < 100 ==> |Dec(n)| <= 2) && (n < 10 ==> |Dec(n)| <= 1)
  {
    if n >= 10 { DecLength(n / 10); }
  }

  /** The first number of a printed quad has at most three digits. */
  lemma {:induction false} QuadTextStarts(t: Ipv4.Text)
    requires Ipv4.Valid(t) && |t.numbers[0]| <= 4
    ensures RunEnd(Hexadecimal, Ipv4.Dotted(t.numbers), 0) <= 4
  {
    var n := t.numbers;
    var d := Ipv4.Dotted(n);
    assert d == n[0] + "." + Ipv4.Dotted(n[1..]);
    assert d[0..|n[0]|] == n[0];
    RunUpTo(Hexadecimal, d, 0, |n[0]|);
  }

  lemma {:induction false} QuadTextIs(a: nat)
    requires a < 0x1_0000_0000
    ensures var s := Ipv4.Render(Ipv4.Canonical(a, Ipv4.DEFAULT_MASK));
      All(DotDecimal, s) && RunEnd(Hexadecimal, s, 0) <= 4
  {
    hide Dec, RunEnd, Ipv4.ByteAt;
    var t := Ipv4.Canonical(a, Ipv4.DEFAULT_MASK);
    assert Ipv4.Render(t) == Ipv4.Dotted(t.numbers);
    DottedDigits(t.numbers);
    DecLength(Ipv4.ByteAt(a, 0));
    QuadTextStarts(t);
  }

  lemma {:induction false} QuadTextOk(q: seq<nat>)
    requires Groups(q)
    ensures Ipv6.ItemOk(Ipv6.Quad(QuadText(q))) && Ipv6.ItemValues(Ipv6.Quad(QuadText(q))) == [q[6], q[7]]
  {
    hide Ipv4.Parse, Ipv4.Canonical, Ipv4.Dotted, Ipv4.Render, Ipv4.Address, RunEnd;
    var a := q[6] * 0x1_0000 + q[7];
    Ipv4.RoundTrip(a, Ipv4.DEFAULT_MASK);
    QuadTextIs(a);
    assert Ipv6.QuadAddress(QuadText(q)) == a;
  }

  lemma NoQuads(q: seq<nat>)
    ensures GroupItems(q) == [] || Ipv6.EndsInGroup(GroupItems(q))
  {
  }

  lemma {:induction false} RightPartOk(q: seq<nat>, start: nat, run: nat)
    requires Groups(q) && start + run <= 8
    ensures Ipv6.ItemsOk(RightPart(q, start, run), true)
    ensures Ipv6.Values(RightPart(q, start, run)) == q[start + run..]
  {
    hide Ipv6.ItemOk, Ipv6.ItemValues, Ipv6.Values, QuadText, GroupItems;
    if PrintsQuad(q, start, run) {
      var i := Ipv6.Quad(QuadText(q));
      var front := GroupItems(q[run..6]);
      GroupItemsOk(q[run..6], true);
      NoQuads(q[run..6]);
      QuadTextOk(q);
      Ipv6.ValuesSnoc(front, i);
      assert q[run..6] + [q[6], q[7]] == q[run..];
      Ipv6.ItemsOkSnoc(front, i, true);
    } else {
      GroupItemsOk(q[start + run..], true);
    }
  }

  lemma {:induction false} MaskPartOk(mask: nat)
    requires mask <= 128
    ensures MaskPart(mask).Some? ==> Ipv6.MaskOk(MaskPart(mask).value) && DecValue(MaskPart(mask).value) == mask
    ensures MaskPart(mask).None? <==> mask == 128
  {
  }

  lemma NoItems()
    ensures Ipv6.ItemsOk([], true)
  {
  }

  lemma GroupItemsLength(q: seq<nat>)
    ensures |GroupItems(q)| == |q|
  {
  }

  /** The printed text is one the parser accepts, and it stands for the groups and the mask. */
  lemma {:induction false} CanonicalMeans(q: seq<nat>, start: nat, run: nat, mask: nat)
    requires Groups(q) && ZeroRun(q, start, run) && mask <= 128
    ensures var t := Canonical(q, start, run, mask);
      Ipv6.Valid(t) && Ipv6.Expand(t) == q && Ipv6.Mask(t) == mask
  {
    hide Ipv6.ItemsOk, Ipv6.Values, Ipv6.MaskOk, RightPart, GroupItems, MaskPart;
    MaskPartOk(mask);
    P.NoValues();
    if run == 0 {
      GroupItemsOk(q, true);
      NoQuads(q);
      NoItems();
      GroupItemsLength(q);
      assert q + [] == q;
    } else {
      GroupItemsOk(q[..start], false);
      RightPartOk(q, start, run);
      assert q == q[..start] + Ipv6.Zeros(run) + q[start + run..];
    }
  }

  // ---------------------------------------------------------------- which addresses end in a dotted quad

  lemma {:induction false} ZeroRunStops(q: seq<nat>, s: nat, r: nat, i: nat)
    requires ZeroRun(q, s, r) && i < |q| && q[i] != 0
    ensures s + r <= i || i < s || r == 0
  {
  }

  /** Zeros at the front up to a group that is not zero, and too few groups after it for a longer run. */
  lemma {:induction false} FrontRun(q: seq<nat>, k: nat)
    requires Groups(q) && 4 <= k < 8 && ZeroRun(q, 0, k) && q[k] != 0
    ensures BestRun(q, 0, k)
  {
    forall s: nat, r: nat | ZeroRun(q, s, r) && r >= 2 ensures r < k || (r == k && 0 <= s) {
      ZeroRunStops(q, s, r, k);
    }
  }

  predicate QuadGroups(q: seq<nat>)
    requires |q| == 8
  {
    && q[0] == q[1] == q[2] == q[3] == 0
    && (|| (q[4] == 0 && q[5] == 0 && q[6] != 0 && q[7] != 1)
        || (q[4] == 0 && q[5] == 0xffff)
        || (q[4] == 0xffff && q[5] == 0))
  }

  lemma {:induction false} QuadGroupsIs(q: seq<nat>, start: nat, run: nat)
    requires Groups(q) && BestRun(q, start, run)
    ensures PrintsQuad(q, start, run) <==> QuadGroups(q)
  {
    if q[0] == q[1] == q[2] == q[3] == 0 {
      var k := if q[4] != 0 then 4 else if q[5] != 0 then 5 else 6;
      if k < 6 || q[6] != 0 {
        FrontRun(q, k);
        BestRunUnique(q, start, run, 0, k);
      } else {
        assert ZeroRun(q, 0, 7);
      }
    }
  }

  lemma {:induction false} HalfIs(a: nat, b: nat, c: nat, d: nat)
    requires a < GROUP && b < GROUP && c < GROUP && d < GROUP
    ensures Half(a, b, c, d) / 0x1_0000_0000 == a * 0x1_0000 + b && Half(a, b, c, d) % 0x1_0000 == d
    ensures Half(a, b, c, d) == 0 <==> a == b == c == d == 0
    ensures 0x1_0000 <= Half(a, b, c, d) < 0x1_0000_0000 <==> a == b == 0 && c != 0
  {
    QuotientIs(Half(a, b, c, d), 0x1_0000_0000, a * 0x1_0000 + b, c * 0x1_0000 + d);
    QuotientIs(Half(a, b, c, d), 0x1_0000, (a * 0x1_0000 + b) * 0x1_0000 + c, d);
  }

  /** The mapped addresses ::ffff:0:0/96, the translated ones ::ffff:0:0:0/96, and most of the deprecated ::/96. */
  predicate QuadForm(upper: nat, lower: nat) {
    && upper == 0
    && (|| lower / 0x1_0000_0000 == 0xffff
        || lower / 0x1_0000_0000 == 0xffff_0000
        || (0x1_0000 <= lower < 0x1_0000_0000 && lower % 0x1_0000 != 1))
  }

  /**
    A dotted quad is printed exactly for the addresses of these forms. The exception for a last group of 1
    is meant for ::1, which has no quad anyway, and only takes it from addresses such as ::1.2.0.1.
   */
  lemma {:induction false} QuadIsPrinted(upper: nat, lower: nat, start: nat, run: nat)
    requires upper < HALF && lower < HALF && BestRun(GroupsOf(upper, lower), start, run)
    ensures PrintsQuad(GroupsOf(upper, lower), start, run) <==> QuadForm(upper, lower)
  {
    hide BestRun, PrintsQuad, GroupsOf, Half;
    var q := GroupsOf(upper, lower);
    GroupsMakeAddress(upper, lower);
    QuadGroupsIs(q, start, run);
    HalfIs(q[0], q[1], q[2], q[3]);
    HalfIs(q[4], q[5], q[6], q[7]);
  }

  // ---------------------------------------------------------------- the printer

  /** What has been printed when the loop reaches group `i`. */
  ghost function PrintedTo(q: seq<nat>, start: nat, run: nat, i: nat): string
    requires Groups(q) && start + run <= 8 && i <= 8 && !(run > 0 && start < i < start + run)
  {
    var left := Ipv6.Join(GroupItems(q[..start]));
    if run == 0 || i <= start then Ipv6.Join(GroupItems(q[..i]))
    else if i == start + run then left + (if i == 8 then "::" else ":")
    else left + "::" + Ipv6.Join(GroupItems(q[start + run..i]))
  }

  lemma {:induction false} JoinGroup(q: seq<nat>, i: nat, j: nat)
    requires Groups(q) && i <= j < 8
    ensures Ipv6.Join(GroupItems(q[i..j + 1]))
         == (if i == j then "" else Ipv6.Join(GroupItems(q[i..j])) + ":") + Hex(q[j])
  {
    hide Hex;
    var items := GroupItems(q[i..j]);
    var last := Ipv6.Group(Hex(q[j]));
    assert GroupItems(q[i..j + 1]) == items + [last];
    if i < j { Ipv6.JoinSnoc(items, last); }
  }

  lemma {:induction false} NothingPrinted(q: seq<nat>)
    ensures Ipv6.Join(GroupItems(q[..0])) == ""
  {
    assert GroupItems(q[..0]) == [];
  }

  /** Printing a group outside the run. */
  lemma {:induction false} PrintGroup(q: seq<nat>, start: nat, run: nat, i: nat)
    requires Groups(q) && start + run <= 8 && i < 8 && !(run > 0 && start <= i < start + run) && run != 1
    ensures PrintedTo(q, start, run, i + 1) == PrintedTo(q, start, run, i) + (if i > 0 then ":" else "") + Hex(q[i])
  {
    hide Hex, GroupItems, Ipv6.Join;
    if run == 0 || i < start {
      JoinGroup(q, 0, i);
      assert q[0..i] == q[..i] && q[0..i + 1] == q[..i + 1];
      if i == 0 { NothingPrinted(q); }
    } else {
      JoinGroup(q, start + run, i);
      var left := Ipv6.Join(GroupItems(q[..start]));
      if i == start + run {
        assert left + "::" + ("" + Hex(q[i])) == left + ":" + ":" + Hex(q[i]);
      } else {
        var r := Ipv6.Join(GroupItems(q[start + run..i]));
        assert left + "::" + (r + ":" + Hex(q[i])) == left + "::" + r + ":" + Hex(q[i]);
      }
    }
  }

  /** Printing the run. */
  lemma {:induction false} PrintRun(q: seq<nat>, start: nat, run: nat)
    requires Groups(q) && run > 1 && start + run <= 8
    ensures PrintedTo(q, start, run, start + run)
         == PrintedTo(q, start, run, start) + ":" + (if start + run == 8 then ":" else "")
    ensures start == 0 ==> PrintedTo(q, start, run, start) == ""
  {
    hide GroupItems, Ipv6.Join;
    if start == 0 { NothingPrinted(q); }
    var left := Ipv6.Join(GroupItems(q[..start]));
    assert left + "::" == left + ":" + ":";
  }

  /** The whole address, printed to the end. */
  lemma {:induction false} PrintedAll(q: seq<nat>, start: nat, run: nat, mask: nat)
    requires Groups(q) && start + run <= 8 && !PrintsQuad(q, start, run)
    ensures PrintedTo(q, start, run, 8) == Ipv6.AddressText(Canonical(q, start, run, mask))
  {
    hide Ipv6.Join;
    Ipv6.JoinNone();
    assert q[..8] == q;
    if run > 0 {
      assert q[start + run..8] == q[start + run..];
      if start + run == 8 { assert GroupItems(q[8..]) == []; }
    }
  }

  lemma {:induction false} OneItem(i: Ipv6.Item)
    ensures Ipv6.Join([i]) == Ipv6.Text(i)
  {
  }

  lemma {:induction false} PrintedQuad(q: seq<nat>, run: nat, mask: nat)
    requires Groups(q) && PrintsQuad(q, 0, run)
    ensures PrintedTo(q, 0, run, 6) + ":" + QuadText(q) == Ipv6.AddressText(Canonical(q, 0, run, mask))
  {
    hide Ipv6.Join, QuadText;
    NothingPrinted(q);
    var front, i := GroupItems(q[run..6]), Ipv6.Quad(QuadText(q));
    if run < 6 {
      Ipv6.JoinSnoc(front, i);
      var f := Ipv6.Join(front);
      assert "" + "::" + (f + ":" + QuadText(q)) == "" + "::" + f + ":" + QuadText(q);
    } else {
      assert front + [i] == [i];
      OneItem(i);
    }
  }

  lemma RunFits(q: seq<nat>, start: nat, run: nat)
    requires |q| == 8 && BestRun(q, start, run)
    ensures start + run <= 8 && run != 1 && (run == 0 ==> start == 0)
  {
  }

  lemma {:induction false} PrintedNone(q: seq<nat>, start: nat, run: nat)
    requires Groups(q) && start + run <= 8
    ensures PrintedTo(q, start, run, 0) == ""
  {
    NothingPrinted(q);
  }

  lemma QuadTextMeans(q: seq<nat>)
    requires Groups(q)
    ensures QuadText(q) == Ipv4.Render(Ipv4.Canonical(q[6] * 0x1_0000 + q[7], Ipv4.DEFAULT_MASK))
  {
  }

  lemma {:induction false} MaskPrinted(q: seq<nat>, start: nat, run: nat, mask: nat)
    requires Groups(q) && start + run <= 8
    ensures var t := Canonical(q, start, run, mask);
      Ipv6.Render(t) == Ipv6.AddressText(t) + (if mask != 128 then "/" + Dec(mask) else "")
  {
  }

  method ToString(upper: nat, lower: nat, mask: nat) returns (result: string, ghost start: nat, ghost run: nat)
    ensures BestRun(GroupsOf(upper, lower), start, run)
    ensures result == Ipv6.Render(Canonical(GroupsOf(upper, lower), start, run, mask))
  {
    hide PrintedTo, GroupsOf, BestRun, Canonical, Ipv6.AddressText, QuadText, Hex, Ipv4.Canonical, Ipv4.Render, Dec;
    var quibbles, zeroStart, zeroRun := Unpack(upper, lower);
    start, run := zeroStart, zeroRun;
    ghost var q := GroupsOf(upper, lower);
    assert forall k :: 0 <= k < 8 ==> quibbles[k] == quibbles[..][k];
    RunFits(q, start, run);
    var zeroEnd := zeroStart + zeroRun;
    var i, finished := 0, false;
    result := "";
    PrintedNone(q, start, run);
    while i < 8 && !finished
      invariant quibbles.Length == 8 && forall k :: 0 <= k < 8 ==> quibbles[k] == q[k]
      invariant i <= 8 && !(run > 0 && start < i < start + run)
      invariant !finished ==> result == PrintedTo(q, start, run, i) && (i > 6 ==> !PrintsQuad(q, start, run))
      invariant finished ==> result == Ipv6.AddressText(Canonical(q, start, run, mask))
      decreases 8 - i, !finished
    {
      ghost var before := result;
      if i > 0 { result := result + ":"; }
      if zeroStart <= i < zeroEnd {
        PrintRun(q, start, run);
        assert i == start;
        if i == 0 { result := result + ":"; }
        i := zeroEnd - 1;
        if i == 7 { result := result + ":"; }
        i := i + 1;
      } else if i == 6 && zeroStart == 0
                && ((zeroEnd == 6 && quibbles[7] != 1) || (zeroEnd == 5 && quibbles[5] == 0xffff)
                    || (zeroEnd == 4 && quibbles[4] == 0xffff && quibbles[5] == 0)) {
        var quad := Ipv4.ToString(quibbles[6] * 0x1_0000 + quibbles[7], Ipv4.DEFAULT_MASK);
        assert quad == QuadText(q) by { QuadTextMeans(q); }
        result := result + quad;
        PrintedQuad(q, run, mask);
        finished := true;
      } else {
        PrintGroup(q, start, run, i);
        result := result + Hex(quibbles[i]);
        i := i + 1;
      }
    }
    if !finished { PrintedAll(q, start, run, mask); }
    MaskPrinted(q, start, run, mask);
    if mask != 128 { result := result + "/" + Dec(mask); }
  }

  /** Reading a printed address gives it back. */
  lemma {:induction false} RoundTrip(upper: nat, lower: nat, mask: nat, start: nat, run: nat)
    requires upper < HALF && lower < HALF && mask <= 128 && BestRun(GroupsOf(upper, lower), start, run)
    ensures var p := Ipv6.Parse(Ipv6.Render(Canonical(GroupsOf(upper, lower), start, run, mask)));
      p.Ok? && Ipv6.Count(p.tree) <= Ipv6.GROUPS && Groups(Ipv6.Expand(p.tree))
      && P.Meaning(p) == P.Accepted(upper, lower, mask)
  {
    hide Ipv6.Parse, Ipv6.Render, Ipv6.Expand, Ipv6.WellFormed, Ipv6.Mask, Canonical, GroupsOf, Upper, Lower;
    var q := GroupsOf(upper, lower);
    var t := Canonical(q, start, run, mask);
    CanonicalMeans(q, start, run, mask);
    Ipv6.ParseComplete(t);
    GroupsMakeAddress(upper, lower);
  }
}
