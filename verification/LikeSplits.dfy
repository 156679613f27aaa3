/** What a glob pattern means: a string matches exactly if it can be divided among the elements of the pattern. */
module LikeSplits {
  import opened Basics
  import opened LikeGlob

  /** What stands between brackets: characters and ranges. */
  datatype Item = Single(c: char) | Span(lo: char, hi: char)

  datatype Element = Star | AnyOne | Plain(c: char) | Escaped(c: char) | Set(invert: bool, items: seq<Item>)

  // ---------------------------------------------------------------- the text of a pattern

  function Head(x: Item): char { if x.Single? then x.c else x.lo }

  function ItemText(x: Item): string { if x.Single? then [x.c] else [x.lo, '-', x.hi] }

  /** The items of a bracket, and what closes it. */
  function ItemsText(items: seq<Item>): string {
    if items == [] then "]" else ItemText(items[0]) + ItemsText(items[1..])
  }

  function Text(e: Element): string {
    match e
    case Star => "*"
    case AnyOne => "?"
    case Plain(c) => [c]
    case Escaped(c) => ['\\', c]
    case Set(invert, items) => (if invert then "[!" else "[") + ItemsText(items)
  }

  /** A bracket closes at the first "]" that is not its first item, and a minus after a character makes a range. */
  predicate ItemsProper(items: seq<Item>, first: bool) {
    items != [] ==>
      && (!first ==> Head(items[0]) != ']')
      && (items[0].Single? && |items| > 1 ==> Head(items[1]) != '-')
      && ItemsProper(items[1..], false)
  }

  predicate Proper(e: Element) {
    match e
    case Plain(c) => c != '*' && c != '?' && c != '[' && c != '\\'
    case Set(invert, items) => items != [] && ItemsProper(items, true) && (invert || Head(items[0]) != '!')
    case _ => true
  }

  predicate AllProper(es: seq<Element>) { forall i :: 0 <= i < |es| ==> Proper(es[i]) }

  function Texts(es: seq<Element>): string { if es == [] then "" else Text(es[0]) + Texts(es[1..]) }

  // ---------------------------------------------------------------- what it matches

  /** Characters are signed bytes, so those from 128 on come before the others. */
  predicate InSpan(c: char, lo: char, hi: char) {
    if (lo as int < 128) == (hi as int < 128) then lo <= c <= hi else lo as int >= 128 && (lo <= c || c <= hi)
  }

  predicate InItem(c: char, x: Item) { if x.Single? then c == x.c else InSpan(c, x.lo, x.hi) }

  predicate Listed(c: char, items: seq<Item>) { exists i :: 0 <= i < |items| && InItem(c, items[i]) }

  predicate Accepts(e: Element, c: char) {
    match e
    case Plain(x) => c == x
    case Escaped(x) => c == x
    case Set(invert, items) => Listed(c, items) != invert
    case _ => true
  }

  /** What part of a string an element can take: a star any, the others one character. */
  predicate Takes(e: Element, s: string) { e.Star? || (|s| == 1 && Accepts(e, s[0])) }

  /** The string can be cut into parts that the elements take, one each. */
  ghost predicate Splits(s: string, es: seq<Element>) {
    if es == [] then s == ""
    else exists k: nat :: k <= |s| && Takes(es[0], s[..k]) && Splits(s[k..], es[1..])
  }

  predicate Bytes(s: string) { forall i :: 0 <= i < |s| ==> s[i] as int < 256 }

  // ---------------------------------------------------------------- stars

  lemma {:induction false} SkipOne(p: string, j: nat)
    requires j < |p|
    ensures SkipStars(p, j) == if p[j] == '*' then SkipStars(p, j + 1) else j
    ensures SkipStars(p, |p|) == |p|
  {
  }

  /** The first position that is no star. */
  lemma {:induction false} SkipsStars(p: string, j: nat)
    requires j <= |p|
    ensures var e := SkipStars(p, j);
      (forall i :: j <= i < e ==> p[i] == '*') && (e < |p| ==> p[e] != '*')
    decreases |p| - j
  {
    if j < |p| && p[j] == '*' { SkipsStars(p, j + 1); }
  }

  lemma GlobsAtEnd(s: string, i: nat, p: string, j: nat)
    requires i <= |s| && j <= |p| && (i == |s| || j == |p|)
    ensures Globs(s, i, p, j) <==> i == |s| && SkipStars(p, j) == |p|
  {
  }

  lemma GlobsStar(s: string, i: nat, p: string, j: nat)
    requires i < |s| && j < |p| && p[j] == '*'
    ensures Globs(s, i, p, j) <==> SkipStars(p, j + 1) == |p| || GlobsLater(s, i, p, SkipStars(p, j + 1))
  {
  }

  /** A star before something else takes any number of characters, and what comes next is matched after it. */
  lemma {:induction false} StarSkips(s: string, i: nat, p: string, j: nat, e: nat)
    requires i <= |s| && j < |p| && p[j] == '*' && e == SkipStars(p, j + 1) < |p|
    ensures Globs(s, i, p, j) <==> exists k: nat :: i <= k < |s| && Globs(s, k, p, e)
  {
    hide Globs, GlobsLater;
    SkipOne(p, j);
    if i == |s| {
      GlobsAtEnd(s, i, p, j);
    } else {
      GlobsStar(s, i, p, j);
      StarTakes(s, i, p, e);
    }
  }

  /** Some rest of the string matches the pattern from `j` on. */
  ghost predicate GlobsFrom(s: string, i: nat, p: string, j: nat)
    requires i <= |s| && j <= |p|
  {
    exists k: nat :: i <= k <= |s| && Globs(s, k, p, j)
  }

  /** Before a pattern that is not all stars the next one that is no star decides. */
  lemma {:induction false} FromSkips(s: string, k: nat, p: string, j: nat, e: nat)
    requires k <= |s| && j <= |p| && e == SkipStars(p, j) < |p| && Globs(s, k, p, j)
    ensures exists m: nat :: k <= m < |s| && Globs(s, m, p, e)
  {
    hide Globs;
    GlobsAtEnd(s, |s|, p, j);
    SkipOne(p, j);
    if p[j] == '*' { StarSkips(s, k, p, j, e); }
  }

  lemma {:induction false} SkipsFrom(s: string, m: nat, p: string, j: nat, e: nat)
    requires m < |s| && j <= |p| && e == SkipStars(p, j) < |p| && Globs(s, m, p, e)
    ensures Globs(s, m, p, j)
  {
    hide Globs;
    SkipOne(p, j);
    if p[j] == '*' { StarSkips(s, m, p, j, e); }
  }

  /** A star takes any number of characters. */
  lemma {:induction false} StarIs(s: string, i: nat, p: string, j: nat)
    requires i <= |s| && j < |p| && p[j] == '*'
    ensures Globs(s, i, p, j) <==> GlobsFrom(s, i, p, j + 1)
  {
    hide Globs, SkipStars;
    var e := SkipStars(p, j + 1);
    SkipOne(p, j);
    GlobsAtEnd(s, |s|, p, j);
    GlobsAtEnd(s, |s|, p, j + 1);
    if e == |p| {
      if i < |s| { GlobsStar(s, i, p, j); }
    } else {
      StarSkips(s, i, p, j, e);
      if Globs(s, i, p, j) {
        var m: nat :| i <= m < |s| && Globs(s, m, p, e);
        SkipsFrom(s, m, p, j + 1, e);
      }
      if GlobsFrom(s, i, p, j + 1) {
        var k: nat :| i <= k <= |s| && Globs(s, k, p, j + 1);
        FromSkips(s, k, p, j + 1, e);
      }
    }
  }

  // ---------------------------------------------------------------- brackets

  lemma SpanIs(c: char, lo: char, hi: char)
    requires c as int < 256 && lo as int < 256 && hi as int < 256
    ensures SignedByte(lo) <= SignedByte(c) <= SignedByte(hi) <==> InSpan(c, lo, hi)
  {
  }

  lemma {:induction false} ListedStep(c: char, items: seq<Item>)
    requires items != []
    ensures Listed(c, items) <==> InItem(c, items[0]) || Listed(c, items[1..])
  {
    hide InItem;
    if Listed(c, items[1..]) {
      var i :| 0 <= i < |items[1..]| && InItem(c, items[1..][i]);
      assert InItem(c, items[i + 1]);
    }
    if Listed(c, items) {
      var i :| 0 <= i < |items| && InItem(c, items[i]);
      if i > 0 { assert items[1..][i - 1] == items[i]; }
    }
  }

  /** Whether a character was found, after the items from here on. */
  function Found(c: char, items: seq<Item>, invert: bool, found: bool): bool {
    if found == invert && Listed(c, items) then !invert else found
  }

  lemma {:induction false} ItemStep(c: char, p: string, j: nat, start: nat, invert: bool, found: bool, x: Item)
    requires At(p, j, ItemText(x)) && c as int < 256 && Bytes(p) && (Head(x) == ']' ==> j <= start)
    requires j + |ItemText(x)| < |p| && (x.Single? ==> p[j + 1] != '-')
    ensures InBracket(c, p, j, start, invert, found)
         == InBracket(c, p, j + |ItemText(x)|, start, invert,
                      if found == invert && InItem(c, x) then !invert else found)
  {
    AtOne(p, j, Head(x));
    if x.Span? {
      AtThree(p, j, x.lo, '-', x.hi);
      SpanIs(c, x.lo, x.hi);
    }
  }

  lemma {:induction false} FoundStep(c: char, items: seq<Item>, invert: bool, found: bool)
    requires items != []
    ensures Found(c, items, invert, found)
         == Found(c, items[1..], invert, if found == invert && InItem(c, items[0]) then !invert else found)
  {
    hide InItem, Listed;
    ListedStep(c, items);
  }

  lemma {:induction false} NextHead(p: string, j: nat, items: seq<Item>)
    requires At(p, j, ItemsText(items))
    ensures j < |p| && p[j] == if items == [] then ']' else Head(items[0])
  {
    assert p[j] == p[j..j + |ItemsText(items)|][0] == ItemsText(items)[0];
  }

  lemma ItemsTextStep(items: seq<Item>)
    requires items != []
    ensures ItemsText(items) == ItemText(items[0]) + ItemsText(items[1..])
  {
  }

  lemma {:induction false} ItemsClose(c: char, p: string, j: nat, start: nat, invert: bool, found: bool)
    requires At(p, j, "]") && start < j
    ensures InBracket(c, p, j, start, invert, found) == if found then Some(j + 1) else None
  {
    AtOne(p, j, ']');
  }

  lemma NoneFound(c: char, invert: bool, found: bool)
    ensures Found(c, [], invert, found) == found
  {
  }

  lemma NoItems()
    ensures ItemsText([]) == "]"
  {
  }

  /** The items of a bracket, and what they say of a character. */
  lemma {:induction false} ItemsIn(c: char, p: string, j: nat, start: nat, invert: bool, found: bool, items: seq<Item>)
    requires At(p, j, ItemsText(items)) && start <= j && (j == start ==> items != [])
    requires c as int < 256 && Bytes(p) && ItemsProper(items, j == start)
    ensures InBracket(c, p, j, start, invert, found)
         == if Found(c, items, invert, found) then Some(j + |ItemsText(items)|) else None
    decreases |items|
  {
    hide InBracket, Bytes, InItem, Found, At, ItemsText;
    if items == [] {
      assert ItemsText([]) == "]" by { NoItems(); }
      ItemsClose(c, p, j, start, invert, found);
      NoneFound(c, invert, found);
    } else {
      var x, rest := items[0], items[1..];
      ItemsTextStep(items);
      AtAppend(p, j, ItemText(x), ItemsText(rest));
      NextHead(p, j + |ItemText(x)|, rest);
      ItemStep(c, p, j, start, invert, found, x);
      ItemsIn(c, p, j + |ItemText(x)|, start, invert, if found == invert && InItem(c, x) then !invert else found, rest);
      FoundStep(c, items, invert, found);
    }
  }

  /** A bracket holds the characters that it lists, or with an exclamation mark the others. */
  lemma {:induction false} BracketIs(c: char, p: string, j: nat, e: Element)
    requires e.Set? && Proper(e) && j > 0 && At(p, j - 1, Text(e)) && c as int < 256 && Bytes(p)
    ensures Bracket(c, p, j) == if Accepts(e, c) then Some(j - 1 + |Text(e)|) else None
  {
    hide InBracket, Listed, Bytes, ItemsText, At;
    AtAppend(p, j - 1, if e.invert then "[!" else "[", ItemsText(e.items));
    AtTwo(p, j - 1, '[', '!');
    var k := if e.invert then j + 1 else j;
    NextHead(p, k, e.items);
    ItemsIn(c, p, k, k, e.invert, e.invert, e.items);
  }

  /** The item that stands at `j`, in a bracket that is closed. */
  function ItemAt(p: string, j: nat): Item
    requires j + 2 < |p| || (j + 1 < |p| && p[j + 1] != '-')
  {
    if p[j + 1] == '-' then Span(p[j], p[j + 2]) else Single(p[j])
  }

  lemma {:induction false} ItemRead(c: char, p: string, j: nat, start: nat, invert: bool, found: bool)
    returns (found': bool)
    requires start <= j && InBracket(c, p, j, start, invert, found).Some? && !(p[j] == ']' && j > start)
    ensures (j + 2 < |p| || (j + 1 < |p| && p[j + 1] != '-')) && At(p, j, ItemText(ItemAt(p, j)))
    ensures InBracket(c, p, j, start, invert, found)
         == InBracket(c, p, j + |ItemText(ItemAt(p, j))|, start, invert, found')
  {
    var matches := if p[j + 1] == '-' then SignedByte(p[j]) <= SignedByte(c) <= SignedByte(p[j + 2]) else p[j] == c;
    found' := if found == invert && matches then !invert else found;
    AtOne(p, j, p[j]);
    if p[j + 1] == '-' { AtThree(p, j, p[j], '-', p[j + 2]); }
  }

  lemma ItemsClosed(c: char, p: string, j: nat, start: nat, invert: bool, found: bool)
    requires InBracket(c, p, j, start, invert, found).Some?
    ensures j < |p|
    ensures p[j] == ']' && j > start ==> InBracket(c, p, j, start, invert, found).value == j + 1
  {
  }

  lemma {:induction false} ItemsRead(c: char, p: string, j: nat, start: nat, invert: bool, found: bool)
    returns (items: seq<Item>)
    requires start <= j && InBracket(c, p, j, start, invert, found).Some?
    ensures At(p, j, ItemsText(items)) && j + |ItemsText(items)| == InBracket(c, p, j, start, invert, found).value
    ensures (j == start ==> items != []) && ItemsProper(items, j == start)
    decreases |p| - j
  {
    hide InBracket, At, ItemsText;
    ItemsClosed(c, p, j, start, invert, found);
    if p[j] == ']' && j > start {
      items := [];
      AtOne(p, j, ']');
      NoItems();
    } else {
      var found' := ItemRead(c, p, j, start, invert, found);
      var x := ItemAt(p, j);
      var k := j + |ItemText(x)|;
      var rest := ItemsRead(c, p, k, start, invert, found');
      items := [x] + rest;
      assert items[1..] == rest;
      NextHead(p, k, rest);
      ItemsTextStep(items);
      AtAppend(p, j, ItemText(x), ItemsText(rest));
    }
  }

  lemma {:induction false} BracketRead(c: char, p: string, j: nat) returns (e: Element)
    requires 0 < j <= |p| && p[j - 1] == '[' && Bracket(c, p, j).Some?
    ensures e.Set? && Proper(e) && At(p, j - 1, Text(e)) && Bracket(c, p, j).value == j - 1 + |Text(e)|
  {
    hide InBracket, ItemsText, At;
    var invert := p[j] == '!';
    var k := if invert then j + 1 else j;
    var items := ItemsRead(c, p, k, k, invert, invert);
    e := Set(invert, items);
    NextHead(p, k, items);
    AtOne(p, j - 1, '[');
    AtTwo(p, j - 1, '[', '!');
    AtAppend(p, j - 1, if invert then "[!" else "[", ItemsText(items));
  }

  // ---------------------------------------------------------------- patterns

  /** The first character of an element says of which kind it is. */
  lemma {:induction false} TextStarts(p: string, j: nat, e: Element)
    requires At(p, j, Text(e))
    ensures j + |Text(e)| <= |p| && Text(e) != ""
    ensures match e
      case Star => p[j] == '*'
      case AnyOne => p[j] == '?'
      case Plain(c) => p[j] == c
      case Escaped(c) => p[j] == '\\' && j + 1 < |p| && p[j + 1] == c
      case Set(_, _) => p[j] == '['
  {
    assert p[j] == p[j..j + |Text(e)|][0] == Text(e)[0];
    if e.Escaped? { AtTwo(p, j, '\\', e.c); }
  }

  lemma GlobsOne(s: string, i: nat, p: string, j: nat)
    requires i < |s| && j < |p| && p[j] != '*'
    ensures p[j] == '?' ==> (Globs(s, i, p, j) <==> Globs(s, i + 1, p, j + 1))
    ensures p[j] == '[' ==>
      (Globs(s, i, p, j) <==> Bracket(s[i], p, j + 1).Some? && Globs(s, i + 1, p, Bracket(s[i], p, j + 1).value))
    ensures p[j] == '\\' ==> (Globs(s, i, p, j) <==> j + 1 < |p| && s[i] == p[j + 1] && Globs(s, i + 1, p, j + 2))
    ensures p[j] != '?' && p[j] != '[' && p[j] != '\\' ==>
      (Globs(s, i, p, j) <==> s[i] == p[j] && Globs(s, i + 1, p, j + 1))
  {
    hide Bracket;
  }

  /** An element that is no star matches one character. */
  lemma {:induction false} ElementIs(s: string, i: nat, p: string, j: nat, e: Element)
    requires i < |s| && At(p, j, Text(e)) && Proper(e) && !e.Star? && Bytes(p) && s[i] as int < 256
    ensures j + |Text(e)| <= |p| && (Globs(s, i, p, j) <==> Accepts(e, s[i]) && Globs(s, i + 1, p, j + |Text(e)|))
  {
    hide Globs, Bracket, Bytes, Listed, ItemsText;
    TextStarts(p, j, e);
    GlobsOne(s, i, p, j);
    if e.Set? { BracketIs(s[i], p, j + 1, e); }
  }

  /** An element takes its part, and the rest goes on. */
  lemma {:induction false} ElementMatches(s: string, i: nat, k: nat, p: string, j: nat, e: Element)
    requires i + k <= |s| && At(p, j, Text(e)) && Bytes(s) && Bytes(p) && Proper(e) && Takes(e, s[i..i + k])
    requires Globs(s, i + k, p, j + |Text(e)|)
    ensures Globs(s, i, p, j)
  {
    hide Globs, Accepts, Proper;
    TextStarts(p, j, e);
    if e.Star? { StarIs(s, i, p, j); } else { ElementIs(s, i, p, j, e); }
  }

  lemma {:induction false} TextsStep(p: string, j: nat, e: Element, es: seq<Element>)
    requires j <= |p|
    ensures p[j..] == Texts([e] + es) <==> At(p, j, Text(e)) && j + |Text(e)| <= |p| && p[j + |Text(e)|..] == Texts(es)
  {
    hide Text;
    var n := |Text(e)|;
    assert ([e] + es)[1..] == es;
    if At(p, j, Text(e)) {
      assert p[j..] == p[j..j + n] + p[j + n..];
    }
    if p[j..] == Texts([e] + es) {
      assert p[j..][..n] == Text(e);
      assert p[j..j + n] == p[j..][..n] && p[j + n..] == p[j..][n..];
    }
  }

  lemma {:induction false} SplitsStep(s: string, i: nat, k: nat, e: Element, es: seq<Element>)
    requires i + k <= |s| && Takes(e, s[i..i + k]) && Splits(s[i + k..], es)
    ensures Splits(s[i..], [e] + es)
  {
    hide Takes;
    assert ([e] + es)[1..] == es;
    assert s[i..][k..] == s[i + k..] && s[i..][..k] == s[i..i + k];
  }

  lemma {:induction false} SplitsFirst(s: string, i: nat, e: Element, es: seq<Element>) returns (k: nat)
    requires i <= |s| && Splits(s[i..], [e] + es)
    ensures i + k <= |s| && Takes(e, s[i..i + k]) && Splits(s[i + k..], es)
  {
    hide Takes;
    assert ([e] + es)[1..] == es && ([e] + es)[0] == e;
    k :| k <= |s[i..]| && Takes(e, s[i..][..k]) && Splits(s[i..][k..], es);
    assert s[i..][k..] == s[i + k..] && s[i..][..k] == s[i..i + k];
  }

  lemma NoElements(s: string, i: nat, p: string, j: nat)
    requires i <= |s| && j <= |p|
    ensures Texts([]) == "" && (Splits(s[i..], []) <==> i == |s|)
    ensures Globs(s, i, p, |p|) <==> i == |s|
  {
  }

  lemma AllNone()
    ensures AllProper([])
  {
  }

  lemma ProperStep(e: Element, es: seq<Element>)
    ensures AllProper([e] + es) <==> Proper(e) && AllProper(es)
  {
    assert ([e] + es)[0] == e && forall i :: 0 <= i < |es| ==> ([e] + es)[i + 1] == es[i];
  }

  lemma {:induction false} SplitsMatch(s: string, i: nat, p: string, j: nat, es: seq<Element>)
    requires i <= |s| && j <= |p| && Bytes(s) && Bytes(p) && AllProper(es) && p[j..] == Texts(es) && Splits(s[i..], es)
    ensures Globs(s, i, p, j)
    decreases |es|
  {
    hide *;
    if es == [] {
      NoElements(s, i, p, j);
    } else {
      var e, rest := es[0], es[1..];
      assert es == [e] + rest;
      ProperStep(e, rest);
      TextsStep(p, j, e, rest);
      TextStarts(p, j, e);
      var k := SplitsFirst(s, i, e, rest);
      SplitsMatch(s, i + k, p, j + |Text(e)|, rest);
      ElementMatches(s, i, k, p, j, e);
    }
  }

  lemma ByteAt(s: string, i: nat)
    requires Bytes(s)
    ensures i < |s| ==> s[i] as int < 256
  {
  }

  /** The next element of a pattern that matches, and what it takes. */
  lemma {:induction false} ElementRead(s: string, i: nat, p: string, j: nat) returns (e: Element, k: nat)
    requires i <= |s| && j < |p| && Bytes(s) && Bytes(p) && Globs(s, i, p, j)
    ensures Proper(e) && At(p, j, Text(e)) && i + k <= |s| && Takes(e, s[i..i + k])
    ensures Globs(s, i + k, p, j + |Text(e)|)
  {
    hide Globs, Bracket, Listed, ItemsText, ItemsProper, At, Bytes, GlobsLater, SkipStars;
    ByteAt(s, i);
    AtOne(p, j, p[j]);
    if p[j] == '*' {
      StarIs(s, i, p, j);
      var m: nat :| i <= m <= |s| && Globs(s, m, p, j + 1);
      e, k := Star, m - i;
    } else {
      assert i < |s| by { if i == |s| { GlobsAtEnd(s, i, p, j); SkipOne(p, j); } }
      GlobsOne(s, i, p, j);
      k := 1;
      if p[j] == '?' {
        e := AnyOne;
      } else if p[j] == '[' {
        e := BracketRead(s[i], p, j + 1);
      } else if p[j] == '\\' {
        e := Escaped(p[j + 1]);
        AtTwo(p, j, '\\', p[j + 1]);
      } else {
        e := Plain(p[j]);
      }
      ElementIs(s, i, p, j, e);
    }
  }

  lemma {:induction false} MatchSplits(s: string, i: nat, p: string, j: nat) returns (es: seq<Element>)
    requires i <= |s| && j <= |p| && Bytes(s) && Bytes(p) && Globs(s, i, p, j)
    ensures AllProper(es) && p[j..] == Texts(es) && Splits(s[i..], es)
    decreases |p| - j
  {
    hide *;
    NoElements(s, i, p, j);
    if j == |p| {
      es := [];
      AllNone();
    } else {
      var e, k := ElementRead(s, i, p, j);
      TextStarts(p, j, e);
      var rest := MatchSplits(s, i + k, p, j + |Text(e)|);
      es := [e] + rest;
      ProperStep(e, rest);
      TextsStep(p, j, e, rest);
      SplitsStep(s, i, k, e, rest);
    }
  }

  /**
    A string matches a pattern exactly if the pattern is a list of stars, question marks, characters and
    brackets among which the string can be divided. Other patterns, those with an open bracket or a
    backslash at the end, match nothing.
   */
  lemma {:induction false} GlobIsSplits(s: string, p: string)
    requires Bytes(s) && Bytes(p)
    ensures Globs(s, 0, p, 0) <==> exists es :: AllProper(es) && p == Texts(es) && Splits(s, es)
  {
    hide Globs, AllProper, Texts, Splits;
    assert s[0..] == s && p[0..] == p;
    if Globs(s, 0, p, 0) { var es := MatchSplits(s, 0, p, 0); }
    forall es | AllProper(es) && p == Texts(es) && Splits(s, es) ensures Globs(s, 0, p, 0) {
      SplitsMatch(s, 0, p, 0, es);
    }
  }
}
