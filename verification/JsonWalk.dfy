/** Evaluation of validated JSON paths: the single value, and the walk with wildcards. */
module JsonWalk {
  import opened Basics
  import opened JsonPath

  datatype Json = Arr(items: seq<Json>) | Obj(members: seq<Member>) | Atom(text: string)

  datatype Member = Member(name: string, value: Json)

  const WORD: int := 0x1_0000_0000_0000_0000

  // ---------------------------------------------------------------- evaluation over tokens

  function Find(members: seq<Member>, name: string): Option<Json> {
    if members == [] then None
    else if members[0].name == name then Some(members[0].value)
    else Find(members[1..], name)
  }

  function Get(items: seq<Json>, i: nat): Option<Json> { if i < |items| then Some(items[i]) else None }

  /** The array position an index stands for, in 64-bit arithmetic. */
  function Position(length: nat, index: nat, fromBack: bool): nat {
    if fromBack && index != 0 then (length - index) % WORD else index
  }

  /** The child of `v` that a token stands for. */
  function Child(v: Json, t: Token): Option<Json> {
    match t
    case Key(name) => if v.Obj? then Find(v.members, name) else None
    case AnyKey => if v.Obj? then Find(v.members, "*") else None
    case Index(i, fromBack) => if v.Arr? then Get(v.items, Position(|v.items|, i, fromBack)) else None
    case AnyIndex => if v.Arr? then Get(v.items, INVALID_INDEX) else None
  }

  function Eval(v: Json, ts: seq<Token>): Option<Json>
    decreases |ts|
  {
    if ts == [] then Some(v)
    else
      var x := Child(v, ts[0]);
      if x.None? then None else Eval(x.value, ts[1..])
  }

  /** The children of `v` that a wildcard ranges over. */
  function Children(v: Json, t: Token): seq<Json> {
    if t.AnyKey? && v.Obj? then seq(|v.members|, i requires 0 <= i < |v.members| => v.members[i].value)
    else if t.AnyIndex? && v.Arr? then v.items
    else []
  }

  function Walk(v: Json, ts: seq<Token>): seq<Json>
    decreases |ts|, 0
  {
    if ts == [] then [v]
    else if IsWild(ts[0]) then WalkAll(Children(v, ts[0]), ts[1..])
    else
      var x := Child(v, ts[0]);
      if x.None? then [] else Walk(x.value, ts[1..])
  }

  function WalkAll(vs: seq<Json>, ts: seq<Token>): seq<Json>
    decreases |ts|, |vs| + 1
  {
    if vs == [] then [] else WalkAll(vs[..|vs| - 1], ts) + Walk(vs[|vs| - 1], ts)
  }

  /** On a path without wildcards the walk gives the value, if there is one. */
  lemma {:induction false} RegularWalk(v: Json, ts: seq<Token>)
    requires Regular(ts)
    ensures Walk(v, ts) == if Eval(v, ts).Some? then [Eval(v, ts).value] else []
    decreases |ts|
  {
    if ts != [] {
      var x := Child(v, ts[0]);
      assert Regular(ts[1..]);
      if x.Some? { RegularWalk(x.value, ts[1..]); }
    }
  }

  // ---------------------------------------------------------------- the evaluators

  /** The next token of a validated path: the conditions that the evaluators assert hold. */
  lemma {:induction false} NextToken(p: string, c: nat)
    requires c < |p| && Lex(p, c).Good?
    ensures c + 1 < |p| && (p[c] == '.' || p[c] == '[')
    ensures LexAt(p, c).Lexeme? && c + 1 < LexAt(p, c).end <= |p|
    ensures Lex(p, LexAt(p, c).end).Good?
    ensures Lex(p, c).tokens == [LexAt(p, c).token] + Lex(p, LexAt(p, c).end).tokens
    ensures Lex(p, c).tokens != [] && Lex(p, c).tokens[0] == LexAt(p, c).token
    ensures Lex(p, c).tokens[1..] == Lex(p, LexAt(p, c).end).tokens
  {
  }

  /** Only a wildcard is the invalid index. */
  lemma WildIndex(p: string, c: nat)
    requires c < |p| && ReadIndexAt(p, c).IndexRead?
    ensures ReadIndexAt(p, c).index == INVALID_INDEX ==> !ReadIndexAt(p, c).fromBack
  {
  }

  method ObjGet(members: seq<Member>, name: string) returns (r: Option<Json>)
    ensures r == Find(members, name)
  {
    for i := 0 to |members|
      invariant Find(members, name) == Find(members[i..], name)
    {
      assert members[i..][1..] == members[i + 1..];
      if members[i].name == name { return Some(members[i].value); }
    }
    return None;
  }

  lemma LexEnd(p: string)
    ensures Lex(p, |p|) == Good([])
  {
  }

  method GetPath(v: Json, p: string) returns (r: Option<Json>)
    requires p != "" && p[0] == '$' && Lex(p, 1).Good?
    ensures r == Eval(v, Lex(p, 1).tokens)
  {
    hide Lex, LexAt, ReadKeyAt, ReadIndexAt, Find;
    var c := 1;
    r := Some(v);
    while r.Some? && c != |p|
      invariant 1 <= c <= |p| && Lex(p, c).Good?
      invariant Eval(v, Lex(p, 1).tokens) == if r.Some? then Eval(r.value, Lex(p, c).tokens) else None
      decreases |p| - c
    {
      NextToken(p, c);
      LexIs(p, c);
      var val, at := r.value, c + 1;
      assert at != |p|;
      match p[c]
      case '.' =>
        if !val.Obj? { return None; }
        var key := ReadKey(p, at);
        assert key.chars != 0;
        c := at + key.chars;
        r := ObjGet(val.members, key.key);
      case '[' =>
        if !val.Arr? { return None; }
        var index := ReadArrayIndex(p, at);
        assert index.IndexRead?;
        WildIndex(p, at);
        c := index.end;
        var i := if index.fromBack && index.index != 0 then (|val.items| - index.index) % WORD else index.index;
        r := if i < |val.items| then Some(val.items[i]) else None;
      case _ =>
        assert false;
    }
    if r.Some? { assert Lex(p, c).tokens == [] by { LexEnd(p); } }
  }

  lemma WalkStep(v: Json, ts: seq<Token>)
    ensures ts == [] ==> Walk(v, ts) == [v]
    ensures ts != [] && IsWild(ts[0]) ==> Walk(v, ts) == WalkAll(Children(v, ts[0]), ts[1..])
    ensures ts != [] && !IsWild(ts[0]) ==>
      Walk(v, ts) == if Child(v, ts[0]).None? then [] else Walk(Child(v, ts[0]).value, ts[1..])
    ensures WalkAll([], ts) == [] && (ts != [] ==> WalkAll([], ts[1..]) == [])
  {
  }

  /** GetWildcardPathInternal: appends what the walk from position `start` of the path finds. */
  method WalkPath(v: Json, p: string, start: nat, found: seq<Json>) returns (vals: seq<Json>)
    requires start <= |p| && Lex(p, start).Good?
    ensures vals == found + Walk(v, Lex(p, start).tokens)
    decreases |p| - start, 0
  {
    hide Lex, LexAt, ReadKeyAt, ReadIndexAt, Find, Walk, WalkAll;
    vals := found;
    var c, r := start, Some(v);
    while r.Some? && c != |p|
      invariant start <= c <= |p| && Lex(p, c).Good? && vals == found
      invariant Walk(v, Lex(p, start).tokens) == if r.Some? then Walk(r.value, Lex(p, c).tokens) else []
      decreases |p| - c
    {
      NextToken(p, c);
      LexIs(p, c);
      WalkStep(r.value, Lex(p, c).tokens);
      var val, at := r.value, c + 1;
      assert at != |p|;
      match p[c]
      case '.' =>
        if !val.Obj? {
          assert Walk(val, Lex(p, c).tokens) == [];
          return;
        }
        var key := ReadKey(p, at);
        assert key.chars != 0;
        c := at + key.chars;
        if key.key == "*" {
          vals := WalkMembers(Children(val, AnyKey), p, c, vals);
          return;
        }
        r := ObjGet(val.members, key.key);
      case '[' =>
        if !val.Arr? {
          assert Walk(val, Lex(p, c).tokens) == [];
          return;
        }
        var index := ReadArrayIndex(p, at);
        assert index.IndexRead?;
        c := index.end;
        if index.index == INVALID_INDEX {
          vals := WalkMembers(val.items, p, c, vals);
          return;
        }
        var i := if index.fromBack && index.index != 0 then (|val.items| - index.index) % WORD else index.index;
        r := if i < |val.items| then Some(val.items[i]) else None;
      case _ =>
        assert false;
    }
    if r.Some? {
      LexEnd(p);
      WalkStep(r.value, []);
      vals := vals + [r.value];
    }
  }

  /** The loop over all members of an object or an array. */
  method WalkMembers(vs: seq<Json>, p: string, start: nat, found: seq<Json>) returns (vals: seq<Json>)
    requires start <= |p| && Lex(p, start).Good?
    ensures vals == found + WalkAll(vs, Lex(p, start).tokens)
    decreases |p| - start, 1
  {
    hide Lex, Walk;
    vals := found;
    ghost var ts := Lex(p, start).tokens;
    for i := 0 to |vs|
      invariant vals == found + WalkAll(vs[..i], ts)
    {
      assert vs[..i + 1][..i] == vs[..i];
      vals := WalkPath(vs[i], p, start, vals);
    }
    assert vs[..|vs|] == vs;
  }

  // ---------------------------------------------------------------- what the walk finds, by position in the document

  function Size(v: Json): nat {
    match v
    case Arr(items) => |items|
    case Obj(members) => |members|
    case Atom(_) => 0
  }

  function Nth(v: Json, k: nat): Json
    requires k < Size(v)
  {
    if v.Arr? then v.items[k] else v.members[k].value
  }

  predicate FirstNamed(members: seq<Member>, name: string, k: nat) {
    k < |members| && members[k].name == name && forall j :: 0 <= j < k ==> members[j].name != name
  }

  /** Child `k` of `v` is one a token asks for: a key's first member, an index from either end, or any child. */
  predicate Asks(v: Json, t: Token, k: nat) {
    k < Size(v) &&
    match t
    case Key(name) => v.Obj? && FirstNamed(v.members, name, k)
    case AnyKey => v.Obj?
    case Index(i, fromBack) => v.Arr? && (if fromBack && i != 0 then k + i == |v.items| else k == i)
    case AnyIndex => v.Arr?
  }

  /** A place in a document: child positions from the root down. */
  type Place = seq<nat>

  predicate Matches(v: Json, ts: seq<Token>, a: Place)
    decreases |ts|
  {
    |a| == |ts| && (ts == [] || (Asks(v, ts[0], a[0]) && Matches(Nth(v, a[0]), ts[1..], a[1..])))
  }

  function ValueAt(v: Json, a: Place): Option<Json>
    decreases |a|
  {
    if a == [] then Some(v) else if a[0] < Size(v) then ValueAt(Nth(v, a[0]), a[1..]) else None
  }

  /** Document order. */
  predicate Before(a: Place, b: Place) {
    a != [] && b != [] && (a[0] < b[0] || (a[0] == b[0] && Before(a[1..], b[1..])))
  }

  /** The places the walk passes through, one by one. */
  function Places(v: Json, ts: seq<Token>): seq<Place>
    decreases |ts|, 0
  {
    if ts == [] then [[]] else PlacesUpTo(v, Size(v), ts)
  }

  function Under(k: nat, places: seq<Place>): seq<Place> {
    seq(|places|, i requires 0 <= i < |places| => [k] + places[i])
  }

  /** The places below the first `n` children. */
  function PlacesUpTo(v: Json, n: nat, ts: seq<Token>): seq<Place>
    requires n <= Size(v) && ts != []
    decreases |ts|, 0, n
  {
    if n == 0 then []
    else PlacesUpTo(v, n - 1, ts) + PlacesBelow(v, n - 1, ts)
  }

  /** The places below child `k`. */
  function PlacesBelow(v: Json, k: nat, ts: seq<Token>): seq<Place>
    requires k < Size(v) && ts != []
    decreases |ts|, 0, 0
  {
    if Asks(v, ts[0], k) then Under(k, Places(Nth(v, k), ts[1..])) else []
  }

  lemma {:induction false} PlacesMatch(v: Json, ts: seq<Token>, a: Place)
    ensures a in Places(v, ts) <==> Matches(v, ts, a)
    decreases |ts|, 1
  {
    if ts != [] { PlacesUpToMatch(v, Size(v), ts, a); }
  }

  lemma {:induction false} InUnder(k: nat, places: seq<Place>, a: Place)
    ensures a in Under(k, places) <==> a != [] && a[0] == k && a[1..] in places
  {
    if a in Under(k, places) {
      var i :| 0 <= i < |places| && a == Under(k, places)[i];
      assert a[1..] == places[i];
    }
    if a != [] && a[0] == k && a[1..] in places {
      var i :| 0 <= i < |places| && places[i] == a[1..];
      assert Under(k, places)[i] == [k] + a[1..] == a;
    }
  }

  lemma {:induction false} PlacesUpToMatch(v: Json, n: nat, ts: seq<Token>, a: Place)
    requires n <= Size(v) && ts != []
    ensures a in PlacesUpTo(v, n, ts) <==> Matches(v, ts, a) && a[0] < n
    decreases |ts|, 0, n
  {
    hide Asks, Under, Places;
    if n > 0 {
      PlacesUpToMatch(v, n - 1, ts, a);
      InUnder(n - 1, Places(Nth(v, n - 1), ts[1..]), a);
      if a != [] { PlacesMatch(Nth(v, n - 1), ts[1..], a[1..]); }
    }
  }

  predicate Ordered(places: seq<Place>) {
    forall i, j :: 0 <= i < j < |places| ==> Before(places[i], places[j])
  }

  lemma {:induction false} PlacesOrdered(v: Json, ts: seq<Token>)
    ensures Ordered(Places(v, ts))
    decreases |ts|, 1
  {
    if ts != [] { PlacesUpToOrdered(v, Size(v), ts); }
  }

  lemma {:induction false} UnderOrdered(k: nat, places: seq<Place>)
    requires Ordered(places)
    ensures Ordered(Under(k, places))
  {
    forall i, j | 0 <= i < j < |places| ensures Before(Under(k, places)[i], Under(k, places)[j]) {
      var a, b := Under(k, places)[i], Under(k, places)[j];
      assert a[1..] == places[i] && b[1..] == places[j];
    }
  }

  /** All places are below children `lo` to `hi`. */
  predicate Starts(places: seq<Place>, lo: nat, hi: nat) {
    forall i :: 0 <= i < |places| ==> places[i] != [] && lo <= places[i][0] < hi
  }

  lemma {:induction false} OrderedConcat(a: seq<Place>, b: seq<Place>, n: nat)
    requires Ordered(a) && Ordered(b)
    requires Starts(a, 0, n) && Starts(b, n, n + 1)
    ensures Ordered(a + b)
  {
  }

  lemma {:induction false} BelowStarts(v: Json, k: nat, ts: seq<Token>)
    requires k < Size(v) && ts != []
    ensures Starts(PlacesBelow(v, k, ts), k, k + 1)
  {
    hide Asks, Places;
  }

  lemma {:induction false} UpToStarts(v: Json, n: nat, ts: seq<Token>)
    requires n <= Size(v) && ts != []
    ensures Starts(PlacesUpTo(v, n, ts), 0, n)
  {
    hide PlacesBelow;
    if n > 0 {
      UpToStarts(v, n - 1, ts);
      BelowStarts(v, n - 1, ts);
    }
  }

  lemma OrderedNone()
    ensures Ordered([])
  {
  }

  lemma {:induction false} PlacesUpToOrdered(v: Json, n: nat, ts: seq<Token>)
    requires n <= Size(v) && ts != []
    ensures Ordered(PlacesUpTo(v, n, ts))
    decreases |ts|, 0, n
  {
    hide Asks, Under, Places, Ordered, Starts;
    OrderedNone();
    if n > 0 {
      PlacesUpToOrdered(v, n - 1, ts);
      var last := PlacesBelow(v, n - 1, ts);
      if Asks(v, ts[0], n - 1) {
        PlacesOrdered(Nth(v, n - 1), ts[1..]);
        UnderOrdered(n - 1, Places(Nth(v, n - 1), ts[1..]));
      }
      BelowStarts(v, n - 1, ts);
      UpToStarts(v, n - 1, ts);
      OrderedConcat(PlacesUpTo(v, n - 1, ts), last, n - 1);
    }
  }

  // ---------------------------------------------------------------- the walk finds the values at the matching places

  const MAX_INDEX: nat := 10_000_000_000_000_000_000

  /** Index literals have at most 19 digits. */
  predicate SmallIndexes(ts: seq<Token>) {
    forall i :: 0 <= i < |ts| ==> ts[i].Index? ==> ts[i].index < MAX_INDEX
  }

  /** Arrays have fewer than 2^62 elements. */
  ghost predicate Fits(v: Json) {
    match v
    case Arr(items) => |items| < 0x4000_0000_0000_0000 && forall i :: 0 <= i < |items| ==> Fits(items[i])
    case Obj(members) => forall i :: 0 <= i < |members| ==> Fits(members[i].value)
    case Atom(_) => true
  }

  lemma {:induction false} FindIs(members: seq<Member>, name: string) returns (k: nat)
    ensures Find(members, name).Some? ==> FirstNamed(members, name, k) && Find(members, name).value == members[k].value
    ensures Find(members, name).None? ==> forall j :: 0 <= j < |members| ==> members[j].name != name
  {
    k := 0;
    if members != [] && members[0].name != name {
      var rest := members[1..];
      k := FindIs(rest, name);
      assert forall j :: 0 <= j < |rest| ==> members[j + 1] == rest[j];
      assert forall j :: 0 < j < |members| ==> members[j] == rest[j - 1];
      k := k + 1;
    }
  }

  /** An index from the back of an array is the one that counting back gives, whatever 64-bit arithmetic does. */
  lemma {:induction false} FromBack(length: nat, index: nat)
    requires length < 0x4000_0000_0000_0000 && 0 < index < MAX_INDEX
    ensures Position(length, index, true) < length <==> index <= length
    ensures index <= length ==> Position(length, index, true) == length - index
  {
    assert index > length ==> (length - index) % WORD == length - index + WORD;
  }

  /** A token without a wildcard asks for one child at most, the one that it evaluates to. */
  lemma {:induction false} ChildIs(v: Json, t: Token) returns (k: nat)
    requires Fits(v) && !IsWild(t) && (t.Index? ==> t.index < MAX_INDEX)
    ensures Child(v, t).Some? ==> Asks(v, t, k) && Nth(v, k) == Child(v, t).value
    ensures Child(v, t).Some? ==> forall j: nat :: Asks(v, t, j) ==> j == k
    ensures Child(v, t).None? ==> forall j: nat :: !Asks(v, t, j)
  {
    hide Find;
    k := 0;
    match t
    case Key(name) =>
      if v.Obj? { k := FindIs(v.members, name); }
    case Index(i, fromBack) =>
      if v.Arr? {
        k := Position(|v.items|, i, fromBack);
        if fromBack && i != 0 { FromBack(|v.items|, i); }
      }
  }

  predicate Located(v: Json, vals: seq<Json>, places: seq<Place>) {
    |vals| == |places| && forall i :: 0 <= i < |vals| ==> ValueAt(v, places[i]) == Some(vals[i])
  }

  lemma {:induction false} LocatedUnder(v: Json, k: nat, vals: seq<Json>, places: seq<Place>)
    requires k < Size(v) && Located(Nth(v, k), vals, places)
    ensures Located(v, vals, Under(k, places))
  {
    forall i | 0 <= i < |vals| ensures ValueAt(v, Under(k, places)[i]) == Some(vals[i]) {
      assert Under(k, places)[i][1..] == places[i];
    }
  }

  lemma LocatedConcat(v: Json, xs: seq<Json>, a: seq<Place>, ys: seq<Json>, b: seq<Place>)
    requires Located(v, xs, a) && Located(v, ys, b)
    ensures Located(v, xs + ys, a + b)
  {
  }

  lemma {:induction false} NoneAsked(v: Json, n: nat, ts: seq<Token>)
    requires n <= Size(v) && ts != [] && forall k: nat :: k < n ==> !Asks(v, ts[0], k)
    ensures PlacesUpTo(v, n, ts) == []
    decreases n
  {
    hide Asks, Places;
    if n > 0 { NoneAsked(v, n - 1, ts); }
  }

  lemma {:induction false} OneAsked(v: Json, n: nat, ts: seq<Token>, k: nat)
    requires n <= Size(v) && ts != [] && k < n && Asks(v, ts[0], k) && forall j: nat :: Asks(v, ts[0], j) ==> j == k
    ensures PlacesUpTo(v, n, ts) == Under(k, Places(Nth(v, k), ts[1..]))
    decreases n
  {
    hide Asks, Places, Under;
    if k == n - 1 {
      NoneAsked(v, n - 1, ts);
      assert [] + Under(k, Places(Nth(v, k), ts[1..])) == Under(k, Places(Nth(v, k), ts[1..]));
    } else {
      OneAsked(v, n - 1, ts, k);
      assert !Asks(v, ts[0], n - 1);
    }
  }

  lemma {:induction false} FitsNth(v: Json, k: nat)
    requires Fits(v) && k < Size(v)
    ensures Fits(Nth(v, k))
  {
  }

  lemma AskedSize(v: Json, t: Token, k: nat)
    requires Asks(v, t, k)
    ensures k < Size(v)
  {
  }

  /** A token asks for every child of `v`. */
  predicate RangesOver(v: Json, t: Token) {
    && |Children(v, t)| == Size(v)
    && forall k: nat :: k < Size(v) ==> Children(v, t)[k] == Nth(v, k) && Asks(v, t, k)
  }

  /** A wildcard ranges over all children of a value of its kind, and over none of any other. */
  lemma {:induction false} WildKind(v: Json, ts: seq<Token>)
    requires ts != [] && IsWild(ts[0])
    ensures RangesOver(v, ts[0]) || (Children(v, ts[0]) == [] && forall k: nat :: !Asks(v, ts[0], k))
  {
  }

  /** The walk returns exactly the values at the matching places, in document order. */
  lemma {:induction false} WalkFindsPlaces(v: Json, ts: seq<Token>)
    requires Fits(v) && SmallIndexes(ts)
    ensures Located(v, Walk(v, ts), Places(v, ts))
    decreases |ts|, 1
  {
    hide Fits, Asks, Child, Under, Children;
    if ts != [] {
      assert SmallIndexes(ts[1..]);
      if IsWild(ts[0]) {
        WildKind(v, ts);
        if RangesOver(v, ts[0]) {
          WalkChildren(v, Size(v), ts);
          assert Children(v, ts[0])[..Size(v)] == Children(v, ts[0]);
        } else {
          NoneAsked(v, Size(v), ts);
        }
      } else {
        var k := ChildIs(v, ts[0]);
        if Child(v, ts[0]).Some? {
          AskedSize(v, ts[0], k);
          FitsNth(v, k);
          WalkFindsPlaces(Nth(v, k), ts[1..]);
          OneAsked(v, Size(v), ts, k);
          LocatedUnder(v, k, Walk(Nth(v, k), ts[1..]), Places(Nth(v, k), ts[1..]));
        } else {
          NoneAsked(v, Size(v), ts);
        }
      }
    }
  }

  lemma LocatedNone(v: Json)
    ensures Located(v, [], [])
  {
  }

  lemma {:induction false} WalkChildren(v: Json, n: nat, ts: seq<Token>)
    requires Fits(v) && ts != [] && SmallIndexes(ts) && IsWild(ts[0]) && n <= Size(v)
    requires RangesOver(v, ts[0])
    ensures Located(v, WalkAll(Children(v, ts[0])[..n], ts[1..]), PlacesUpTo(v, n, ts))
    decreases |ts|, 0, n
  {
    hide Fits, Asks, Child, Under, Children, Places, Walk, Located;
    var vs := Children(v, ts[0]);
    if n == 0 {
      LocatedNone(v);
    } else {
      WalkChildren(v, n - 1, ts);
      assert vs[..n][..n - 1] == vs[..n - 1];
      assert SmallIndexes(ts[1..]);
      FitsNth(v, n - 1);
      WalkFindsPlaces(Nth(v, n - 1), ts[1..]);
      var xs, a := Walk(Nth(v, n - 1), ts[1..]), Places(Nth(v, n - 1), ts[1..]);
      LocatedUnder(v, n - 1, xs, a);
      LocatedConcat(v, WalkAll(vs[..n - 1], ts[1..]), PlacesUpTo(v, n - 1, ts), xs, Under(n - 1, a));
    }
  }
}
