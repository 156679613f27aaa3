/** Texts of JSON paths: every path can be written and is read back, and when reading runs past the end. */
module JsonPathText {
  import opened Basics
  import opened JsonPath
  import D = IpDigits
  import JsonWalk

  // ---------------------------------------------------------------- the texts of tokens

  /** A character of a quoted key, or a character after a backslash. */
  datatype Piece = Literal(c: char) | Escaped(c: char)

  datatype Sign = NoSign | Minus | HashMinus

  /** The ways to write a token. An index of 19 digits can be closed by any character. */
  datatype Spelling =
    | PlainKey(name: string)
    | QuotedKey(pieces: seq<Piece>)
    | StarKey
    | Number(sign: Sign, digits: string, close: char)
    | HashIndex
    | StarIndex

  function PieceText(x: Piece): string { if x.Literal? then [x.c] else ['\\', x.c] }

  /** Only quotes and backslashes lose the backslash before them. */
  function PieceKey(x: Piece): string { if x.Literal? || x.c == '"' || x.c == '\\' then [x.c] else ['\\', x.c] }

  function PiecesText(ps: seq<Piece>): string { if ps == [] then "" else PieceText(ps[0]) + PiecesText(ps[1..]) }

  function PiecesKey(ps: seq<Piece>): string { if ps == [] then "" else PieceKey(ps[0]) + PiecesKey(ps[1..]) }

  function SignText(s: Sign): string {
    match s
    case NoSign => ""
    case Minus => "-"
    case HashMinus => "#-"
  }

  function Text(s: Spelling): string {
    match s
    case PlainKey(name) => "." + name
    case QuotedKey(ps) => ".\"" + PiecesText(ps) + "\""
    case StarKey => ".*"
    case Number(sign, digits, close) => "[" + SignText(sign) + digits + [close]
    case HashIndex => "[#]"
    case StarIndex => "[*]"
  }

  predicate Proper(s: Spelling) {
    match s
    case PlainKey(name) =>
      name != "" && name[0] != '*' && name[0] != '"' && forall i :: 0 <= i < |name| ==> name[i] != '.' && name[i] != '['
    case QuotedKey(ps) =>
      ps != [] && forall i :: 0 <= i < |ps| && ps[i].Literal? ==> ps[i].c != '"' && ps[i].c != '\\'
    case Number(_, digits, close) =>
      D.All(D.Decimal, digits) && 1 <= |digits| <= SAFE_DIGITS && (|digits| < SAFE_DIGITS ==> close == ']')
    case _ => true
  }

  /** "[#]" is an index past the end of every array, and a quoted asterisk is the wildcard. */
  function Denotes(s: Spelling): Token {
    match s
    case PlainKey(name) => Key(name)
    case QuotedKey(ps) => if PiecesKey(ps) == "*" then AnyKey else Key(PiecesKey(ps))
    case StarKey => AnyKey
    case Number(sign, digits, _) => Index(D.DecValue(digits), sign != NoSign)
    case HashIndex => Index(0xffff_ffff, false)
    case StarIndex => AnyIndex
  }

  // ---------------------------------------------------------------- keys

  /** `PlainEnd` is the first dot, the first bracket or the end. */
  lemma {:induction false} PlainEndIs(p: string, c: nat, e: nat)
    requires c <= e <= |p|
    ensures PlainEnd(p, c) == e <==>
      && (forall i :: c <= i < e ==> p[i] != '.' && p[i] != '[')
      && (e == |p| || p[e] == '.' || p[e] == '[')
    decreases |p| - c
  {
    if c < |p| && p[c] != '.' && p[c] != '[' && c < e { PlainEndIs(p, c + 1, e); }
  }

  /** A piece takes at least one character. */
  lemma {:induction false} PiecesTextEmpty(ps: seq<Piece>)
    ensures PiecesText(ps) == "" <==> ps == []
  {
  }

  /** A quoted key is read piece by piece. */
  lemma {:induction false} PieceRead(p: string, c: nat, x: Piece)
    requires At(p, c, PieceText(x)) && (x.Literal? ==> x.c != '"' && x.c != '\\')
    ensures c + |PieceText(x)| <= |p|
    ensures ReadQuoted(p, c, false) == Prepend(PieceKey(x), ReadQuoted(p, c + |PieceText(x)|, false))
  {
    AtOne(p, c, x.c);
    AtTwo(p, c, '\\', x.c);
  }

  lemma PiecesStep(ps: seq<Piece>)
    requires ps != []
    ensures PiecesText(ps) == PieceText(ps[0]) + PiecesText(ps[1..])
    ensures PiecesKey(ps) == PieceKey(ps[0]) + PiecesKey(ps[1..])
  {
  }

  lemma QuoteEnds(p: string, c: nat)
    requires At(p, c, "\"")
    ensures ReadQuoted(p, c, false) == Some((c, "")) && PiecesText([]) == "" && PiecesKey([]) == ""
  {
    AtOne(p, c, '"');
  }

  lemma {:induction false} PiecesRead(p: string, c: nat, ps: seq<Piece>)
    requires Proper(QuotedKey(ps)) || ps == []
    requires At(p, c, PiecesText(ps)) && At(p, c + |PiecesText(ps)|, "\"")
    ensures c + |PiecesText(ps)| < |p| && ReadQuoted(p, c, false) == Some((c + |PiecesText(ps)|, PiecesKey(ps)))
    decreases |ps|
  {
    hide At, ReadQuoted, PiecesText, PiecesKey, PieceText, PieceKey;
    AtOne(p, c + |PiecesText(ps)|, '"');
    if ps == [] {
      assert |PiecesText([])| == 0 by { PiecesTextEmpty([]); }
      QuoteEnds(p, c);
    } else {
      PiecesStep(ps);
      AtAppend(p, c, PieceText(ps[0]), PiecesText(ps[1..]));
      PieceRead(p, c, ps[0]);
      PiecesRead(p, c + |PieceText(ps[0])|, ps[1..]);
    }
  }

  /** The piece that stands at `c` in a quoted key. */
  lemma {:induction false} ReadPiece(p: string, c: nat) returns (x: Piece)
    requires c <= |p| && ReadQuoted(p, c, false).Some? && p[c] != '"'
    ensures At(p, c, PieceText(x)) && c + |PieceText(x)| <= |p| && (x.Literal? ==> x.c != '"' && x.c != '\\')
    ensures ReadQuoted(p, c, false) == Prepend(PieceKey(x), ReadQuoted(p, c + |PieceText(x)|, false))
  {
    x := if p[c] == '\\' then Escaped(p[c + 1]) else Literal(p[c]);
    AtOne(p, c, p[c]);
    if x.Escaped? { AtTwo(p, c, '\\', x.c); }
  }

  lemma QuotedWithin(p: string, c: nat)
    requires c <= |p| && ReadQuoted(p, c, false).Some?
    ensures c < |p|
  {
  }

  lemma {:induction false} ReadPieces(p: string, c: nat) returns (ps: seq<Piece>)
    requires c <= |p| && ReadQuoted(p, c, false).Some?
    ensures var q := ReadQuoted(p, c, false).value;
      && At(p, c, PiecesText(ps)) && c + |PiecesText(ps)| == q.0 && p[q.0] == '"' && PiecesKey(ps) == q.1
      && (Proper(QuotedKey(ps)) || ps == [])
    decreases |p| - c
  {
    hide At, ReadQuoted, PiecesText, PiecesKey, PieceKey;
    QuotedWithin(p, c);
    if p[c] == '"' {
      ps := [];
      AtOne(p, c, '"');
      QuoteEnds(p, c);
      AtNothing(p, c);
    } else {
      var x := ReadPiece(p, c);
      var rest := ReadPieces(p, c + |PieceText(x)|);
      ps := [x] + rest;
      assert ps[1..] == rest;
      PiecesStep(ps);
      AtAppend(p, c, PieceText(x), PiecesText(rest));
    }
  }

  // ---------------------------------------------------------------- numbers

  /** One digit more. */
  lemma {:induction false} DigitsSnoc(p: string, s: nat, c: nat)
    requires s <= c < |p| && IsDigit(p[c])
    ensures D.DecValue(p[s..c + 1]) == D.DecValue(p[s..c]) * 10 + DigitValue(p[c])
    ensures D.All(D.Decimal, p[s..c + 1]) <==> D.All(D.Decimal, p[s..c])
  {
    assert p[s..c + 1] == p[s..c] + [p[c]];
    assert p[s..c + 1][..c - s] == p[s..c];
  }

  lemma DigitIn(p: string, s: nat, c: nat, e: nat)
    requires s <= c < e <= |p| && D.All(D.Decimal, p[s..e])
    ensures IsDigit(p[c])
  {
    assert p[c] == p[s..e][c - s];
  }

  lemma {:induction false} DigitsTo(p: string, s: nat, c: nat, e: nat, left: nat)
    requires s <= c <= e <= |p| && D.All(D.Decimal, p[s..e])
    requires e - c == left || (e - c < left && e < |p| && p[e] == ']')
    ensures ReadDigits(p, c, left, D.DecValue(p[s..c])) == Some((e, D.DecValue(p[s..e])))
    decreases e - c
  {
    hide ReadDigits, D.DecValue, D.All;
    var n := D.DecValue(p[s..c]);
    if left == 0 {
      DigitsEnd(p, c, n);
    } else {
      DigitsStep(p, c, left, n);
      if c < e {
        DigitIn(p, s, c, e);
        DigitsSnoc(p, s, c);
        DigitsTo(p, s, c + 1, e, left - 1);
      }
    }
  }

  lemma {:induction false} DigitsFrom(p: string, s: nat, c: nat, left: nat)
    requires s <= c <= |p| && D.All(D.Decimal, p[s..c]) && ReadDigits(p, c, left, D.DecValue(p[s..c])).Some?
    ensures var r := ReadDigits(p, c, left, D.DecValue(p[s..c])).value;
      && c <= r.0 <= |p| && D.All(D.Decimal, p[s..r.0]) && r.1 == D.DecValue(p[s..r.0])
      && (r.0 == c + left || (r.0 < c + left && r.0 < |p| && p[r.0] == ']'))
    decreases left
  {
    hide ReadDigits, D.DecValue, D.All;
    var n := D.DecValue(p[s..c]);
    if left == 0 {
      DigitsEnd(p, c, n);
    } else {
      DigitsStep(p, c, left, n);
      if p[c] != ']' {
        DigitsSnoc(p, s, c);
        DigitsFrom(p, s, c + 1, left - 1);
      }
    }
  }

  lemma Pow10Nineteen()
    ensures Pow10(SAFE_DIGITS) == JsonWalk.MAX_INDEX
  {
    assert Pow10(10) == 10_000_000_000;
    assert Pow10(19) == 10_000_000_000_000_000_000;
  }

  /** Nineteen digits are worth less than the index that stands for a wildcard. */
  lemma {:induction false} DecBound(digits: string)
    ensures D.DecValue(digits) < Pow10(|digits|)
  {
    if digits != "" { DecBound(digits[..|digits| - 1]); }
  }

  lemma {:induction false} DecSafe(digits: string)
    requires |digits| <= SAFE_DIGITS
    ensures D.DecValue(digits) < JsonWalk.MAX_INDEX
  {
    hide Pow10, D.DecValue;
    DecBound(digits);
    Pow10Grows(|digits|, SAFE_DIGITS);
    Pow10Nineteen();
  }

  lemma DecNone()
    ensures D.DecValue("") == 0
  {
  }

  /** A number is read from exactly the digits that a spelling can have. */
  lemma {:induction false} NumberIs(p: string, c: nat, digits: string, fromBack: bool)
    requires At(p, c, digits) && D.All(D.Decimal, digits) && 1 <= |digits| <= SAFE_DIGITS
    requires |digits| < SAFE_DIGITS ==> At(p, c + |digits|, "]")
    ensures ReadNumber(p, c, fromBack) == IndexRead(c + |digits| + 1, D.DecValue(digits), fromBack)
  {
    hide ReadDigits, Pow10, D.DecValue;
    DecSafe(digits);
    AtOne(p, c + |digits|, ']');
    assert p[c..c] == "";
    assert D.DecValue("") == 0 by { DecNone(); }
    DigitsTo(p, c, c, c + |digits|, SAFE_DIGITS);
  }

  lemma {:induction false} NumberFrom(p: string, c: nat, fromBack: bool) returns (digits: string)
    requires c <= |p| && ReadNumber(p, c, fromBack).IndexRead?
    ensures var r := ReadNumber(p, c, fromBack);
      && At(p, c, digits) && D.All(D.Decimal, digits) && 1 <= |digits| <= SAFE_DIGITS
      && r == IndexRead(c + |digits| + 1, D.DecValue(digits), fromBack)
      && (|digits| < SAFE_DIGITS ==> At(p, c + |digits|, "]"))
  {
    hide ReadDigits, D.DecValue;
    assert p[c..c] == "";
    assert D.DecValue("") == 0 by { DecNone(); }
    DigitsFrom(p, c, c, SAFE_DIGITS);
    var r := ReadDigits(p, c, SAFE_DIGITS, 0).value;
    digits := p[c..r.0];
    AtSlice(p, c, r.0);
    AtOne(p, c + |digits|, ']');
  }

  // ---------------------------------------------------------------- tokens

  /** A token can start here, or the path ends. */
  predicate Bounded(p: string, c: nat) { c == |p| || (c < |p| && (p[c] == '.' || p[c] == '[')) }

  lemma {:induction false} PlainLexes(p: string, c: nat, name: string)
    requires Proper(PlainKey(name)) && At(p, c, Text(PlainKey(name))) && Bounded(p, c + 1 + |name|)
    ensures LexAt(p, c) == Lexeme(Key(name), c + 1 + |name|)
  {
    hide PlainEnd;
    AtAppend(p, c, ".", name);
    AtOne(p, c, '.');
    var s, e := c + 1, c + 1 + |name|;
    assert p[s..e] == name;
    assert p[s] == name[0];
    forall i | s <= i < e ensures p[i] != '.' && p[i] != '[' { assert p[i] == name[i - s]; }
    PlainEndIs(p, s, e);
  }

  lemma {:induction false} QuotedLexes(p: string, c: nat, ps: seq<Piece>)
    requires Proper(QuotedKey(ps)) && At(p, c, Text(QuotedKey(ps)))
    ensures LexAt(p, c) == Lexeme(Denotes(QuotedKey(ps)), c + 3 + |PiecesText(ps)|)
  {
    hide PiecesText, PiecesKey, ReadQuoted, At;
    AtAppend(p, c, ".\"" + PiecesText(ps), "\"");
    AtAppend(p, c, ".\"", PiecesText(ps));
    AtTwo(p, c, '.', '"');
    PiecesTextEmpty(ps);
    PiecesRead(p, c + 2, ps);
  }

  lemma FirstDigit(p: string, c: nat, digits: string)
    requires At(p, c, digits) && digits != "" && D.All(D.Decimal, digits)
    ensures c < |p| && IsDigit(p[c])
  {
    assert p[c] == p[c..c + |digits|][0];
  }

  lemma {:induction false} SignIs(p: string, c: nat, sign: Sign)
    ensures At(p, c, "[" + SignText(sign)) <==>
      && c + |SignText(sign)| < |p| && p[c] == '['
      && (sign == Minus ==> p[c + 1] == '-')
      && (sign == HashMinus ==> p[c + 1] == '#' && p[c + 2] == '-')
  {
    AtOne(p, c, '[');
    AtTwo(p, c, '[', '-');
    AtThree(p, c, '[', '#', '-');
    assert "[" + SignText(sign) == if sign == NoSign then "[" else if sign == Minus then "[-" else "[#-";
  }

  /** After its sign an index is a number, unless it is a wildcard or "[#]". */
  lemma {:induction false} SignedIs(p: string, c: nat, sign: Sign)
    requires At(p, c, "[" + SignText(sign)) && c + 1 + |SignText(sign)| < |p|
    requires sign == NoSign ==> p[c + 1] != '*' && p[c + 1] != '#' && p[c + 1] != '-'
    ensures ReadIndexAt(p, c + 1) == ReadNumber(p, c + 1 + |SignText(sign)|, sign != NoSign)
  {
    hide ReadNumber;
    SignIs(p, c, sign);
  }

  lemma {:induction false} IndexLexes(p: string, c: nat)
    requires c + 1 < |p| && p[c] == '['
    ensures LexAt(p, c) ==
      var r := ReadIndexAt(p, c + 1); if r.NoIndex? then NoToken else Lexeme(IndexToken(r), r.end)
  {
    hide ReadIndexAt;
  }

  lemma {:induction false} NumberLexes(p: string, c: nat, s: Spelling)
    requires s.Number? && Proper(s) && At(p, c, Text(s))
    ensures LexAt(p, c) == Lexeme(Denotes(s), c + |Text(s)|)
  {
    hide ReadNumber, ReadIndexAt, LexAt, D.DecValue, At;
    var b := c + 1 + |SignText(s.sign)|;
    AtAppend(p, c, "[" + SignText(s.sign) + s.digits, [s.close]);
    AtAppend(p, c, "[" + SignText(s.sign), s.digits);
    SignIs(p, c, s.sign);
    AtOne(p, b + |s.digits|, s.close);
    FirstDigit(p, b, s.digits);
    SignedIs(p, c, s.sign);
    IndexLexes(p, c);
    NumberIs(p, b, s.digits, s.sign != NoSign);
    DecSafe(s.digits);
  }

  /** Every proper spelling of a token is read as the token that it denotes. */
  lemma {:induction false} SpellingLexes(p: string, c: nat, s: Spelling)
    requires Proper(s) && At(p, c, Text(s)) && Bounded(p, c + |Text(s)|)
    ensures c < |p| && LexAt(p, c) == Lexeme(Denotes(s), c + |Text(s)|)
  {
    hide PiecesText, ReadQuoted, ReadNumber, PlainEnd;
    match s
    case PlainKey(name) => PlainLexes(p, c, name);
    case QuotedKey(ps) => QuotedLexes(p, c, ps);
    case Number(_, _, _) => NumberLexes(p, c, s);
    case StarKey => AtTwo(p, c, '.', '*');
    case HashIndex => AtThree(p, c, '[', '#', ']');
    case StarIndex => AtThree(p, c, '[', '*', ']');
  }

  lemma {:induction false} QuotedSpelled(p: string, c: nat) returns (s: Spelling)
    requires c + 1 < |p| && p[c] == '.' && p[c + 1] == '"' && LexAt(p, c).Lexeme?
    ensures Proper(s) && At(p, c, Text(s)) && LexAt(p, c) == Lexeme(Denotes(s), c + |Text(s)|)
  {
    hide PiecesText, PiecesKey, ReadQuoted, At;
    var ps := ReadPieces(p, c + 2);
    s := QuotedKey(ps);
    PiecesTextEmpty(ps);
    AtTwo(p, c, '.', '"');
    AtOne(p, c + 2 + |PiecesText(ps)|, '"');
    AtAppend(p, c, ".\"", PiecesText(ps));
    AtAppend(p, c, ".\"" + PiecesText(ps), "\"");
  }

  lemma {:induction false} PlainSpelled(p: string, c: nat) returns (s: Spelling)
    requires c + 1 < |p| && p[c] == '.' && p[c + 1] != '*' && p[c + 1] != '"' && LexAt(p, c).Lexeme?
    ensures Proper(s) && At(p, c, Text(s)) && LexAt(p, c) == Lexeme(Denotes(s), c + |Text(s)|)
  {
    hide PlainEnd, At;
    var e := PlainEnd(p, c + 1);
    s := PlainKey(p[c + 1..e]);
    PlainEndIs(p, c + 1, e);
    AtOne(p, c, '.');
    AtSlice(p, c + 1, e);
    AtAppend(p, c, ".", p[c + 1..e]);
  }

  lemma {:induction false} NumberSpelled(p: string, c: nat, b: nat, sign: Sign) returns (s: Spelling)
    requires b == c + 1 + |SignText(sign)| && At(p, c, "[" + SignText(sign))
    requires ReadNumber(p, b, sign != NoSign).IndexRead? && ReadNumber(p, b, sign != NoSign).end <= |p|
    ensures Proper(s) && At(p, c, Text(s)) && s.Number? && s.sign == sign
    ensures ReadNumber(p, b, sign != NoSign) == IndexRead(c + |Text(s)|, D.DecValue(s.digits), sign != NoSign)
  {
    hide ReadNumber, D.DecValue, At;
    SignIs(p, c, sign);
    var digits := NumberFrom(p, b, sign != NoSign);
    s := Number(sign, digits, p[b + |digits|]);
    AtOne(p, b + |digits|, p[b + |digits|]);
    AtOne(p, b + |digits|, ']');
    AtAppend(p, c, "[" + SignText(sign), digits);
    AtAppend(p, c, "[" + SignText(sign) + digits, [p[b + |digits|]]);
  }

  lemma {:induction false} IndexSpelled(p: string, c: nat) returns (s: Spelling)
    requires c + 1 < |p| && p[c] == '[' && LexAt(p, c).Lexeme? && LexAt(p, c).end <= |p|
    ensures Proper(s) && At(p, c, Text(s)) && LexAt(p, c) == Lexeme(Denotes(s), c + |Text(s)|)
  {
    hide ReadNumber, D.DecValue, At, LexAt;
    IndexLexes(p, c);
    if p[c + 1] == '*' {
      s := StarIndex;
      AtThree(p, c, '[', '*', ']');
    } else if p[c + 1] == '#' && p[c + 2] == ']' {
      s := HashIndex;
      AtThree(p, c, '[', '#', ']');
    } else {
      var sign := if p[c + 1] == '#' then HashMinus else if p[c + 1] == '-' then Minus else NoSign;
      SignIs(p, c, sign);
      s := NumberSpelled(p, c, c + 1 + |SignText(sign)|, sign);
      DecSafe(s.digits);
    }
  }

  /** And every token that is read has a proper spelling. */
  lemma {:induction false} TokenSpelled(p: string, c: nat) returns (s: Spelling)
    requires c < |p| && LexAt(p, c).Lexeme? && LexAt(p, c).end <= |p|
    ensures Proper(s) && At(p, c, Text(s)) && LexAt(p, c) == Lexeme(Denotes(s), c + |Text(s)|)
  {
    hide PiecesText, ReadQuoted, PlainEnd, ReadIndexAt;
    if p[c] == '[' {
      s := IndexSpelled(p, c);
    } else if p[c + 1] == '*' {
      s := StarKey;
    } else if p[c + 1] == '"' {
      s := QuotedSpelled(p, c);
    } else {
      s := PlainSpelled(p, c);
    }
  }

  // ---------------------------------------------------------------- paths

  function Texts(ss: seq<Spelling>): string { if ss == [] then "" else Text(ss[0]) + Texts(ss[1..]) }

  /** `ss` spells the tokens `ts`. */
  predicate Spells(ss: seq<Spelling>, ts: seq<Token>) {
    |ss| == |ts| && forall i :: 0 <= i < |ss| ==> Proper(ss[i]) && Denotes(ss[i]) == ts[i]
  }

  lemma TextStarts(s: Spelling)
    ensures Text(s) != "" && (Text(s)[0] == '.' || Text(s)[0] == '[')
  {
  }

  lemma {:induction false} TextsBounded(p: string, c: nat, ss: seq<Spelling>)
    requires c <= |p| && p[c..] == Texts(ss)
    ensures Bounded(p, c)
  {
    if ss != [] {
      TextStarts(ss[0]);
      assert p[c] == p[c..][0] == Text(ss[0])[0];
    }
  }

  lemma {:induction false} SpelledLexes(p: string, c: nat, ss: seq<Spelling>, ts: seq<Token>)
    requires c <= |p| && Spells(ss, ts) && p[c..] == Texts(ss)
    ensures Lex(p, c) == Good(ts)
    decreases |ss|
  {
    hide LexAt, Proper, Text, Denotes;
    if ss != [] {
      var n := |Text(ss[0])|;
      assert p[c..][..n] == Text(ss[0]) && p[c..][n..] == Texts(ss[1..]);
      assert p[c..c + n] == p[c..][..n] && p[c + n..] == p[c..][n..];
      TextsBounded(p, c + n, ss[1..]);
      SpellingLexes(p, c, ss[0]);
      SpelledLexes(p, c + n, ss[1..], ts[1..]);
      assert [ts[0]] + ts[1..] == ts;
    }
  }

  lemma {:induction false} LexedIsSpelled(p: string, c: nat) returns (ss: seq<Spelling>)
    requires c <= |p| && Lex(p, c).Good?
    ensures Spells(ss, Lex(p, c).tokens) && p[c..] == Texts(ss)
    decreases |p| - c
  {
    hide LexAt, Proper, Text, Denotes;
    ss := [];
    if c < |p| {
      var s := TokenSpelled(p, c);
      var rest := LexedIsSpelled(p, LexAt(p, c).end);
      ss := [s] + rest;
      assert p[c..] == p[c..LexAt(p, c).end] + p[LexAt(p, c).end..];
      assert ss[1..] == rest;
    }
  }

  /** A path is read as the tokens `ts` exactly if it is a proper spelling of them, one after another. */
  lemma {:induction false} LexIsGrammar(p: string, c: nat, ts: seq<Token>)
    requires c <= |p|
    ensures Lex(p, c) == Good(ts) <==> exists ss :: Spells(ss, ts) && p[c..] == Texts(ss)
  {
    hide Lex, Spells, Texts;
    if Lex(p, c) == Good(ts) { var ss := LexedIsSpelled(p, c); }
    forall ss | Spells(ss, ts) && p[c..] == Texts(ss) ensures Lex(p, c) == Good(ts) { SpelledLexes(p, c, ss, ts); }
  }

  // ---------------------------------------------------------------- which tokens can be written

  /** The empty key has no text, and the quoted key "*" reads as the wildcard. */
  predicate Writable(t: Token) {
    match t
    case Key(name) => name != "" && name != "*"
    case Index(i, _) => i < JsonWalk.MAX_INDEX
    case _ => true
  }

  predicate AllWritable(ts: seq<Token>) { forall i :: 0 <= i < |ts| ==> Writable(ts[i]) }

  function Pieces(key: string): seq<Piece> {
    if key == "" then []
    else [if key[0] == '"' || key[0] == '\\' then Escaped(key[0]) else Literal(key[0])] + Pieces(key[1..])
  }

  /** The spelling that quotes keys and counts from the back with a minus. */
  function Spell(t: Token): Spelling {
    match t
    case Key(name) => QuotedKey(Pieces(name))
    case AnyKey => StarKey
    case Index(i, fromBack) => Number(if fromBack then Minus else NoSign, D.Dec(i), ']')
    case AnyIndex => StarIndex
  }

  function Render(ts: seq<Token>): string { if ts == [] then "" else Text(Spell(ts[0])) + Render(ts[1..]) }

  lemma {:induction false} PiecesAre(key: string)
    ensures PiecesKey(Pieces(key)) == key && |Pieces(key)| == |key|
    ensures Pieces(key) == [] || Proper(QuotedKey(Pieces(key)))
  {
    if key != "" {
      PiecesAre(key[1..]);
      assert Pieces(key)[1..] == Pieces(key[1..]);
      assert key == [key[0]] + key[1..];
    }
  }

  lemma {:induction false} DecLength(n: nat, k: nat)
    requires k > 0 && n < Pow10(k)
    ensures |D.Dec(n)| <= k
    decreases k
  {
    if n >= 10 { DecLength(n / 10, k - 1); }
  }

  lemma {:induction false} SpellIs(t: Token)
    requires Writable(t)
    ensures Proper(Spell(t)) && Denotes(Spell(t)) == t
  {
    hide Pieces, PiecesKey, D.Dec, Pow10;
    match t
    case Key(name) => PiecesAre(name);
    case Index(i, _) =>
      Pow10Nineteen();
      DecLength(i, SAFE_DIGITS);
    case _ =>
  }

  lemma {:induction false} RenderIs(ts: seq<Token>, ss: seq<Spelling>)
    requires |ss| == |ts| && forall i :: 0 <= i < |ts| ==> ss[i] == Spell(ts[i])
    ensures Render(ts) == Texts(ss)
  {
    hide Text, Spell;
    if ts != [] { RenderIs(ts[1..], ss[1..]); }
  }

  /** Every path of writable tokens is read back from its text. */
  lemma {:induction false} RenderLexes(p: string, c: nat, ts: seq<Token>)
    requires AllWritable(ts) && c <= |p| && p[c..] == Render(ts)
    ensures Lex(p, c) == Good(ts)
  {
    hide Lex, Writable, Proper, Text, Denotes, Spell;
    var ss := seq(|ts|, i requires 0 <= i < |ts| => Spell(ts[i]));
    forall i | 0 <= i < |ts| ensures Proper(ss[i]) && Denotes(ss[i]) == ts[i] { SpellIs(ts[i]); }
    RenderIs(ts, ss);
    SpelledLexes(p, c, ss, ts);
  }

  lemma {:induction false} PiecesKeyEmpty(ps: seq<Piece>)
    ensures PiecesKey(ps) == "" <==> ps == []
  {
  }

  lemma {:induction false} DenotedWritable(s: Spelling)
    requires Proper(s)
    ensures Writable(Denotes(s))
  {
    hide PiecesKey, D.DecValue;
    match s
    case QuotedKey(ps) => PiecesKeyEmpty(ps);
    case Number(_, digits, _) => DecSafe(digits);
    case _ =>
  }

  lemma {:induction false} LexWritable(p: string, c: nat)
    requires c <= |p| && Lex(p, c).Good?
    ensures AllWritable(Lex(p, c).tokens)
  {
    hide Lex, Writable, Proper, Denotes;
    var ss := LexedIsSpelled(p, c);
    forall i | 0 <= i < |ss| ensures Writable(Denotes(ss[i])) { DenotedWritable(ss[i]); }
  }

  /** The token lists of valid paths are exactly the lists of writable tokens. */
  lemma {:induction false} PathsAreWritable(ts: seq<Token>)
    ensures AllWritable(ts) <==> exists p: string :: p != "" && p[0] == '$' && Lex(p, 1) == Good(ts)
  {
    hide Lex, Writable;
    if AllWritable(ts) {
      var p := "$" + Render(ts);
      assert p[1..] == Render(ts);
      RenderLexes(p, 1, ts);
    }
    forall p: string | p != "" && p[0] == '$' && Lex(p, 1) == Good(ts) ensures AllWritable(ts) {
      LexWritable(p, 1);
    }
  }

  lemma {:induction false} LexSmallIndexes(p: string, c: nat)
    requires c <= |p| && Lex(p, c).Good?
    ensures JsonWalk.SmallIndexes(Lex(p, c).tokens)
  {
    hide Lex;
    LexWritable(p, c);
  }

  /**
    Whatever the text of the path, if the validator accepts it, the evaluator that its verdict asks
    for returns the values at the places that match the path, in document order, none twice.
   */
  method Extract(v: JsonWalk.Json, p: string) returns (valid: Validation, vals: seq<JsonWalk.Json>)
    requires p != "" && p[0] == '$' && JsonWalk.Fits(v)
    ensures valid.Valid? <==> Lex(p, 1).Good?
    ensures valid.Valid? ==> var ts := Lex(p, 1).tokens; var places := JsonWalk.Places(v, ts);
      && JsonWalk.Located(v, vals, places) && JsonWalk.Ordered(places)
      && forall a :: a in places <==> JsonWalk.Matches(v, ts, a)
    ensures valid == Valid(false) ==> |vals| <= 1
  {
    hide *;
    vals := [];
    valid := ValidatePath(p);
    if valid.Valid? {
      ghost var ts := Lex(p, 1).tokens;
      if valid.wildcard {
        vals := JsonWalk.WalkPath(v, p, 1, []);
        assert [] + JsonWalk.Walk(v, ts) == JsonWalk.Walk(v, ts);
      } else {
        var found := JsonWalk.GetPath(v, p);
        if found.Some? { vals := [found.value]; }
        JsonWalk.RegularWalk(v, ts);
      }
      LexSmallIndexes(p, 1);
      JsonWalk.WalkFindsPlaces(v, ts);
      JsonWalk.PlacesOrdered(v, ts);
      forall a ensures a in JsonWalk.Places(v, ts) <==> JsonWalk.Matches(v, ts, a) {
        JsonWalk.PlacesMatch(v, ts, a);
      }
    }
  }

  // ---------------------------------------------------------------- when reading runs past the end

  /** An index of 19 digits from `s` to the very end, not closed. */
  predicate OpenIndex(p: string, k: nat, s: nat) {
    && k < s && s + SAFE_DIGITS == |p| && p[k] == '['
    && (s == k + 1 || (s == k + 2 && p[k + 1] == '-') || (s == k + 3 && p[k + 1] == '#' && p[k + 2] == '-'))
    && forall i :: s <= i < |p| ==> IsDigit(p[i])
  }

  lemma {:induction false} DigitsToEnd(p: string, c: nat, left: nat, n: nat)
    requires c <= |p|
    ensures (ReadDigits(p, c, left, n).Some? && ReadDigits(p, c, left, n).value.0 == |p|)
       <==> (c + left == |p| && forall i :: c <= i < |p| ==> IsDigit(p[i]))
    decreases left
  {
    if left > 0 && c < |p| && IsDigit(p[c]) {
      DigitsToEnd(p, c + 1, left - 1, n * 10 + DigitValue(p[c]));
    }
  }

  lemma {:induction false} NumberToEnd(p: string, c: nat, fromBack: bool)
    requires c <= |p|
    ensures (ReadNumber(p, c, fromBack).IndexRead? && ReadNumber(p, c, fromBack).end == |p| + 1)
       <==> (c + SAFE_DIGITS == |p| && forall i :: c <= i < |p| ==> IsDigit(p[i]))
  {
    hide ReadDigits, D.DecValue;
    DigitsToEnd(p, c, SAFE_DIGITS, 0);
    if ReadDigits(p, c, SAFE_DIGITS, 0).Some? {
      assert p[c..c] == "";
      DecNone();
      DigitsFrom(p, c, c, SAFE_DIGITS);
      DecSafe(p[c..ReadDigits(p, c, SAFE_DIGITS, 0).value.0]);
    }
  }

  lemma {:induction false} TokenPastEnd(p: string, k: nat)
    requires k < |p|
    ensures (LexAt(p, k).Lexeme? && LexAt(p, k).end == |p| + 1)
       <==> OpenIndex(p, k, k + 1) || OpenIndex(p, k, k + 2) || OpenIndex(p, k, k + 3)
  {
    hide ReadNumber;
    NumberToEnd(p, k + 1, false);
    if k + 2 <= |p| { NumberToEnd(p, k + 2, true); }
    if k + 3 <= |p| { NumberToEnd(p, k + 3, true); }
  }

  /** Token by token, reading goes from `c` to `k`. */
  predicate Reaches(p: string, c: nat, k: nat)
    requires c <= |p|
    decreases |p| - c
  {
    c == k || (c < |p| && LexAt(p, c).Lexeme? && LexAt(p, c).end <= |p| && Reaches(p, LexAt(p, c).end, k))
  }

  lemma OpenNear(p: string, k: nat, s: nat)
    requires OpenIndex(p, k, s)
    ensures k < |p| && (s == k + 1 || s == k + 2 || s == k + 3)
  {
  }

  /** Reading runs past the end exactly when the last token is an index of 19 digits that nothing closes. */
  lemma {:induction false} OverrunIsOpenIndex(p: string, c: nat)
    requires c <= |p|
    ensures Lex(p, c) == Overrun <==> exists k, s :: Reaches(p, c, k) && OpenIndex(p, k, s)
    decreases |p| - c
  {
    hide LexAt, OpenIndex;
    if c < |p| {
      var l := LexAt(p, c);
      TokenPastEnd(p, c);
      if l.Lexeme? && l.end <= |p| {
        OverrunIsOpenIndex(p, l.end);
        forall k, s | Reaches(p, c, k) && OpenIndex(p, k, s) ensures Reaches(p, l.end, k) {
          if k == c { OpenNear(p, k, s); }
        }
        forall k | Reaches(p, l.end, k) ensures Reaches(p, c, k) { }
      } else {
        forall k, s | Reaches(p, c, k) && OpenIndex(p, k, s)
          ensures k == c && (s == k + 1 || s == k + 2 || s == k + 3)
        {
          OpenNear(p, k, s);
        }
        if l.Lexeme? { assert Reaches(p, c, c); }
      }
    } else {
      forall k, s | Reaches(p, c, k) && OpenIndex(p, k, s) ensures false { OpenNear(p, k, s); }
    }
  }

  /** An index of fewer than 19 digits is closed by a bracket; after 19 any character is taken for one. */
  lemma {:induction false} NumberClosed(p: string, c: nat, fromBack: bool)
    requires c <= |p| && ReadNumber(p, c, fromBack).IndexRead?
    ensures var e := ReadNumber(p, c, fromBack).end - 1; (e < |p| && p[e] == ']') || e == c + SAFE_DIGITS
  {
    hide ReadNumber;
    var digits := NumberFrom(p, c, fromBack);
    AtOne(p, c + |digits|, ']');
  }

  /** An index of 19 digits at the end. */
  lemma {:induction false} OverrunExample()
    ensures Lex("$[1234567890123456789", 1) == Overrun
  {
    hide Lex;
    var p := "$[1234567890123456789";
    assert OpenIndex(p, 1, 2) && Reaches(p, 1, 1);
    OverrunIsOpenIndex(p, 1);
  }
}
