/** The JSON path language: its tokens, and its validator. */
module JsonPath {
  import opened Basics

  /** One step of a path. A key or an index can be a wildcard. */
  datatype Token = Key(name: string) | AnyKey | Index(index: nat, fromBack: bool) | AnyIndex

  /** `Overrun`: the reading position was moved past the end of the path. */
  datatype Path = Good(tokens: seq<Token>) | Bad | Overrun

  const INVALID_INDEX: nat := 0xffff_ffff_ffff_ffff
  const SAFE_DIGITS: nat := 19

  predicate IsDigit(c: char) { '0' <= c <= '9' }

  function DigitValue(c: char): nat
    requires IsDigit(c)
  {
    c as nat - '0' as nat
  }

  // ---------------------------------------------------------------- tokens, as functions of a position

  /** What backslash and `c` stand for in a quoted key. */
  function Unescaped(c: char): string { if c == '"' || c == '\\' then [c] else ['\\', c] }

  function Prepend(s: string, r: Option<(nat, string)>): Option<(nat, string)> {
    if r.Some? then Some((r.value.0, s + r.value.1)) else None
  }

  /** The closing quote of a quoted key, and the key. */
  function ReadQuoted(p: string, c: nat, backslash: bool): (r: Option<(nat, string)>)
    requires c <= |p|
    ensures r.Some? ==> c <= r.value.0 < |p|
    decreases |p| - c
  {
    if c == |p| then None
    else if backslash then Prepend(Unescaped(p[c]), ReadQuoted(p, c + 1, false))
    else if p[c] == '"' then Some((c, ""))
    else if p[c] == '\\' then ReadQuoted(p, c + 1, true)
    else Prepend([p[c]], ReadQuoted(p, c + 1, false))
  }

  function PlainEnd(p: string, c: nat): (e: nat)
    requires c <= |p|
    ensures c <= e <= |p|
    decreases |p| - c
  {
    if c == |p| || p[c] == '.' || p[c] == '[' then c else PlainEnd(p, c + 1)
  }

  /** A key and the number of characters it takes, none if there is no key. */
  datatype KeyRead = KeyRead(chars: nat, key: string)

  function ReadKeyAt(p: string, c: nat): (r: KeyRead)
    requires c < |p|
    ensures c + r.chars <= |p|
  {
    if p[c] == '*' then KeyRead(1, "*")
    else if p[c] == '"' then
      var q := ReadQuoted(p, c + 1, false);
      if q.None? || q.value.0 == c + 1 then KeyRead(0, "") else KeyRead(q.value.0 + 1 - c, q.value.1)
    else KeyRead(PlainEnd(p, c) - c, p[c..PlainEnd(p, c)])
  }

  /** Up to `left` more digits of an index; where they end, and the number. */
  function ReadDigits(p: string, c: nat, left: nat, n: nat): (r: Option<(nat, nat)>)
    requires c <= |p|
    ensures r.Some? ==> c <= r.value.0 <= |p|
    decreases left
  {
    if left == 0 then Some((c, n))
    else if c == |p| then None
    else if p[c] == ']' then Some((c, n))
    else if !IsDigit(p[c]) then None
    else ReadDigits(p, c + 1, left - 1, n * 10 + DigitValue(p[c]))
  }

  datatype IndexRead = NoIndex | IndexRead(end: nat, index: nat, fromBack: bool)

  /** The digits of an index, and whatever character comes after them. */
  function ReadNumber(p: string, c: nat, fromBack: bool): IndexRead
    requires c <= |p|
  {
    var r := ReadDigits(p, c, SAFE_DIGITS, 0);
    if r.None? || r.value.0 == c || r.value.1 >= INVALID_INDEX then NoIndex
    else IndexRead(r.value.0 + 1, r.value.1, fromBack)
  }

  function ReadIndexAt(p: string, c: nat): (r: IndexRead)
    requires c < |p|
    ensures r.IndexRead? ==> c < r.end <= |p| + 1
  {
    if p[c] == '*' then
      if c + 1 == |p| || p[c + 1] != ']' then NoIndex else IndexRead(c + 2, INVALID_INDEX, false)
    else if p[c] == '#' then
      if c + 1 == |p| then NoIndex
      else if p[c + 1] == ']' then IndexRead(c + 2, 0xffff_ffff, false)
      else if p[c + 1] != '-' then NoIndex
      else ReadNumber(p, c + 2, true)
    else if p[c] == '-' then ReadNumber(p, c + 1, true)
    else ReadNumber(p, c, false)
  }

  /** A token, and where the next one starts. */
  datatype Lexeme = NoToken | Lexeme(token: Token, end: nat)

  function KeyToken(key: string): Token { if key == "*" then AnyKey else Key(key) }

  function IndexToken(r: IndexRead): Token
    requires r.IndexRead?
  {
    if r.index == INVALID_INDEX then AnyIndex else Index(r.index, r.fromBack)
  }

  function LexAt(p: string, c: nat): (r: Lexeme)
    requires c < |p|
    ensures r.Lexeme? ==> c + 1 < r.end <= |p| + 1
  {
    if c + 1 == |p| then NoToken
    else if p[c] == '.' then
      var k := ReadKeyAt(p, c + 1);
      if k.chars == 0 then NoToken else Lexeme(KeyToken(k.key), c + 1 + k.chars)
    else if p[c] == '[' then
      var i := ReadIndexAt(p, c + 1);
      if i.NoIndex? then NoToken else Lexeme(IndexToken(i), i.end)
    else NoToken
  }

  function Cons(t: Token, rest: Path): Path { if rest.Good? then Good([t] + rest.tokens) else rest }

  /** The tokens of a path from position `c` on. */
  function Lex(p: string, c: nat): Path
    requires c <= |p|
    decreases |p| - c
  {
    if c == |p| then Good([])
    else
      var l := LexAt(p, c);
      if l.NoToken? then Bad
      else if l.end > |p| then Overrun
      else Cons(l.token, Lex(p, l.end))
  }

  predicate IsWild(t: Token) { t.AnyKey? || t.AnyIndex? }

  predicate Regular(ts: seq<Token>) { forall i :: 0 <= i < |ts| ==> !IsWild(ts[i]) }

  // ---------------------------------------------------------------- the tokenizer

  lemma PrependNothing(r: Option<(nat, string)>)
    ensures Prepend("", r) == r
  {
    if r.Some? { assert "" + r.value.1 == r.value.1; }
  }

  lemma PrependTwice(a: string, b: string, r: Option<(nat, string)>)
    ensures Prepend(a, Prepend(b, r)) == Prepend(a + b, r)
  {
    if r.Some? { assert a + (b + r.value.1) == a + b + r.value.1; }
  }

  lemma UnescapedIs(c: char)
    ensures Unescaped(c) == if c == '"' || c == '\\' then [c] else ['\\', c]
  {
  }

  /** ReadString of a quoted key. */
  method ReadString(p: string, start: nat) returns (chars: nat, key: string)
    requires start <= |p|
    ensures var q := ReadQuoted(p, start, false);
      if q.None? then chars == 0 && key == "" else start + chars == q.value.0 && key == q.value.1
  {
    hide Unescaped;
    var buffer := new char[|p| - start];
    var c, length, backslash := start, 0, false;
    PrependNothing(ReadQuoted(p, start, false));
    assert buffer[..0] == "";
    while c != |p|
      invariant start <= c <= |p| && length + (if backslash then 1 else 0) <= c - start
      invariant ReadQuoted(p, start, false) == Prepend(buffer[..length], ReadQuoted(p, c, backslash))
    {
      ghost var before := buffer[..length];
      PrependTwice(before, Unescaped(p[c]), ReadQuoted(p, c + 1, false));
      PrependTwice(before, [p[c]], ReadQuoted(p, c + 1, false));
      UnescapedIs(p[c]);
      if backslash {
        if p[c] != '"' && p[c] != '\\' {
          buffer[length] := '\\';
          length := length + 1;
          assert buffer[..length] == before + ['\\'];
        }
        backslash := false;
      } else {
        if p[c] == '"' {
          break;
        } else if p[c] == '\\' {
          backslash := true;
          c := c + 1;
          continue;
        }
      }
      ghost var between := buffer[..length];
      buffer[length] := p[c];
      length, c := length + 1, c + 1;
      assert buffer[..length] == between + [p[c - 1]];
      assert before + ['\\'] + [p[c - 1]] == before + ['\\', p[c - 1]];
    }
    if c == |p| || backslash { return 0, ""; }
    return c - start, buffer[..length];
  }

  method ReadPlain(p: string, start: nat) returns (c: nat)
    requires start <= |p|
    ensures c == PlainEnd(p, start)
  {
    c := start;
    while c != |p|
      invariant start <= c <= |p| && PlainEnd(p, start) == PlainEnd(p, c)
    {
      if p[c] == '.' || p[c] == '[' { break; }
      c := c + 1;
    }
  }

  method ReadKey(p: string, c: nat) returns (r: KeyRead)
    requires c < |p|
    ensures r == ReadKeyAt(p, c)
  {
    if p[c] == '*' { return KeyRead(1, "*"); }
    if p[c] == '"' {
      var chars, key := ReadString(p, c + 1);
      if chars == 0 { return KeyRead(0, ""); }
      return KeyRead(chars + 2, key);
    }
    var e := ReadPlain(p, c);
    return KeyRead(e - c, p[c..e]);
  }

  function Pow10(k: nat): nat { if k == 0 then 1 else 10 * Pow10(k - 1) }

  lemma Pow10Grows(a: nat, b: nat)
    requires a <= b
    ensures Pow10(a) <= Pow10(b)
  {
    if a < b { Pow10Grows(a, b - 1); }
  }

  lemma Pow10Safe(k: nat)
    requires k <= SAFE_DIGITS
    ensures Pow10(k) <= 10_000_000_000_000_000_000 < INVALID_INDEX
  {
    assert Pow10(10) == 10_000_000_000;
    assert Pow10(19) == 10_000_000_000_000_000_000;
    Pow10Grows(k, SAFE_DIGITS);
  }

  lemma DigitsStep(p: string, c: nat, left: nat, n: nat)
    requires c <= |p| && left > 0
    ensures c == |p| ==> ReadDigits(p, c, left, n) == None
    ensures c < |p| && p[c] == ']' ==> ReadDigits(p, c, left, n) == Some((c, n))
    ensures c < |p| && p[c] != ']' && !IsDigit(p[c]) ==> ReadDigits(p, c, left, n) == None
    ensures c < |p| && IsDigit(p[c]) ==>
      ReadDigits(p, c, left, n) == ReadDigits(p, c + 1, left - 1, n * 10 + DigitValue(p[c]))
  {
  }

  lemma DigitsEnd(p: string, c: nat, n: nat)
    requires c <= |p|
    ensures ReadDigits(p, c, 0, n) == Some((c, n))
  {
  }

  lemma DigitBound(c: char)
    requires IsDigit(c)
    ensures DigitValue(c) < 10
  {
  }

  lemma Pow10Zero()
    ensures Pow10(0) == 1
  {
  }

  lemma Pow10Next(k: nat)
    ensures Pow10(k + 1) == 10 * Pow10(k)
  {
  }

  /** ReadInteger; a length of zero means that there is no number. */
  method ReadInteger(p: string, start: nat) returns (length: nat, index: nat)
    requires start <= |p|
    ensures var r := ReadDigits(p, start, SAFE_DIGITS, 0);
      if r.None? then length == 0 else start + length == r.value.0 && index == r.value.1 < INVALID_INDEX
  {
    hide Pow10, ReadDigits, DigitValue;
    var c := start;
    index := 0;
    Pow10Safe(0);
    assert Pow10(0) == 1 by { Pow10Zero(); }
    for i := 0 to SAFE_DIGITS
      invariant start <= c <= |p| && index < Pow10(i) <= INVALID_INDEX
      invariant ReadDigits(p, start, SAFE_DIGITS, 0) == ReadDigits(p, c, SAFE_DIGITS - i, index)
    {
      DigitsStep(p, c, SAFE_DIGITS - i, index);
      if c == |p| { return 0, index; }
      if p[c] == ']' {
        Pow10Safe(i);
        return c - start, index;
      }
      if !IsDigit(p[c]) { return 0, index; }
      Pow10Safe(i + 1);
      Pow10Next(i);
      DigitBound(p[c]);
      index := (DigitValue(p[c]) + index * 10) % 0x1_0000_0000_0000_0000;
      c := c + 1;
    }
    Pow10Safe(SAFE_DIGITS);
    DigitsEnd(p, c, index);
    return c - start, index;
  }

  /** ReadArrayIndex */
  method ReadArrayIndex(p: string, start: nat) returns (r: IndexRead)
    requires start < |p|
    ensures r == ReadIndexAt(p, start)
  {
    var c, fromBack := start, false;
    if p[c] == '*' {
      c := c + 1;
      if c == |p| || p[c] != ']' { return NoIndex; }
      return IndexRead(c + 1, INVALID_INDEX, false);
    }
    if p[c] == '#' {
      c := c + 1;
      if c == |p| { return NoIndex; }
      if p[c] == ']' { return IndexRead(c + 1, 0xffff_ffff, false); }
      if p[c] != '-' { return NoIndex; }
      fromBack := true;
    }
    if p[c] == '-' {
      c := c + 1;
      fromBack := true;
    }
    var length, index := ReadInteger(p, c);
    if length == 0 { return NoIndex; }
    return IndexRead(c + length + 1, index, fromBack);
  }

  datatype Validation = Valid(wildcard: bool) | PathError | PastEnd

  function After(read: seq<Token>, rest: Path): Path { if rest.Good? then Good(read + rest.tokens) else rest }

  lemma AfterCons(read: seq<Token>, t: Token, rest: Path)
    ensures After(read, Cons(t, rest)) == After(read + [t], rest)
  {
    if rest.Good? { assert read + ([t] + rest.tokens) == read + [t] + rest.tokens; }
  }

  lemma RegularSnoc(ts: seq<Token>, t: Token)
    ensures Regular(ts + [t]) <==> Regular(ts) && !IsWild(t)
  {
    assert (ts + [t])[|ts|] == t;
    assert Regular(ts + [t]) ==> forall i :: 0 <= i < |ts| ==> ts[i] == (ts + [t])[i];
  }

  lemma LexIs(p: string, c: nat)
    requires c < |p|
    ensures c + 1 < |p| && p[c] == '.' ==>
      LexAt(p, c) == var k := ReadKeyAt(p, c + 1);
        if k.chars == 0 then NoToken else Lexeme(KeyToken(k.key), c + 1 + k.chars)
    ensures c + 1 < |p| && p[c] == '[' ==>
      LexAt(p, c) == var i := ReadIndexAt(p, c + 1); if i.NoIndex? then NoToken else Lexeme(IndexToken(i), i.end)
    ensures c + 1 == |p| || (p[c] != '.' && p[c] != '[') ==> LexAt(p, c) == NoToken
  {
  }

  /** ValidatePath */
  method ValidatePath(p: string) returns (r: Validation)
    requires p != "" && p[0] == '$'
    ensures match Lex(p, 1)
            case Good(ts) => r == Valid(!Regular(ts))
            case Bad => r == PathError
            case Overrun => r == PastEnd
  {
    hide LexAt, ReadKeyAt, ReadIndexAt;
    var wildcard, c := false, 1;
    ghost var read: seq<Token> := [];
    while c != |p|
      invariant 1 <= c <= |p| && wildcard == !Regular(read)
      invariant Lex(p, 1) == After(read, Lex(p, c))
      decreases |p| - c
    {
      LexIs(p, c);
      var at := c + 1;
      if at == |p| { return PathError; }
      match p[c]
      case '.' =>
        var key := ReadKey(p, at);
        if key.chars == 0 { return PathError; }
        if key.key == "*" { wildcard := true; }
        AfterCons(read, KeyToken(key.key), Lex(p, at + key.chars));
        RegularSnoc(read, KeyToken(key.key));
        read := read + [KeyToken(key.key)];
        c := at + key.chars;
      case '[' =>
        var index := ReadArrayIndex(p, at);
        if index.NoIndex? { return PathError; }
        if index.index == INVALID_INDEX { wildcard := true; }
        if index.end > |p| { return PastEnd; }
        AfterCons(read, IndexToken(index), Lex(p, index.end));
        RegularSnoc(read, IndexToken(index));
        read := read + [IndexToken(index)];
        c := index.end;
      case _ =>
        return PathError;
    }
    assert read + [] == read;
    return Valid(wildcard);
  }
}
