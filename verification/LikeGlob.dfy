/** LikeFun::Glob: matching one component of a path, character by character. */
module LikeGlob {
  import opened Basics

  /** Characters are compared as signed bytes. */
  function SignedByte(c: char): int { if c as int < 128 then c as int else c as int - 256 }

  function SkipStars(p: string, j: nat): (k: nat)
    requires j <= |p|
    ensures j <= k <= |p|
    decreases |p| - j
  {
    if j < |p| && p[j] == '*' then SkipStars(p, j + 1) else j
  }

  /**
    The rest of a bracket from position `j` on. `None` if it is not closed or the character `c` is not in it,
    else the position after it.
   */
  function InBracket(c: char, p: string, j: nat, start: nat, invert: bool, found: bool): (e: Option<nat>)
    ensures e.Some? ==> j < e.value <= |p|
    decreases |p| - j
  {
    if j >= |p| then None
    else if p[j] == ']' && j > start then (if found then Some(j + 1) else None)
    else if j + 1 == |p| then None
    else if p[j + 1] == '-' then
      if j + 2 == |p| then None
      else
        var matches := SignedByte(p[j]) <= SignedByte(c) <= SignedByte(p[j + 2]);
        InBracket(c, p, j + 3, start, invert, if found == invert && matches then !invert else found)
    else InBracket(c, p, j + 1, start, invert, if found == invert && p[j] == c then !invert else found)
  }

  /** A bracket, after its opening character. */
  function Bracket(c: char, p: string, j: nat): (e: Option<nat>)
    ensures e.Some? ==> j < e.value <= |p|
  {
    if j >= |p| then None
    else if p[j] == '!' then InBracket(c, p, j + 1, j + 1, true, true)
    else InBracket(c, p, j, j, false, false)
  }

  /** The string from `i` on matches the pattern from `j` on. */
  predicate Globs(s: string, i: nat, p: string, j: nat)
    requires i <= |s| && j <= |p|
    decreases |p| - j, 0
  {
    if i == |s| || j == |p| then i == |s| && SkipStars(p, j) == |p|
    else if p[j] == '*' then
      var k := SkipStars(p, j + 1);
      k == |p| || GlobsLater(s, i, p, k)
    else if p[j] == '?' then Globs(s, i + 1, p, j + 1)
    else if p[j] == '[' then
      var e := Bracket(s[i], p, j + 1);
      e.Some? && Globs(s, i + 1, p, e.value)
    else if p[j] == '\\' then j + 1 < |p| && s[i] == p[j + 1] && Globs(s, i + 1, p, j + 2)
    else s[i] == p[j] && Globs(s, i + 1, p, j + 1)
  }

  /** Some rest of the string that is not empty matches. */
  predicate GlobsLater(s: string, i: nat, p: string, j: nat)
    requires i <= |s| && j <= |p|
    decreases |p| - j, |s| - i + 1
  {
    i < |s| && (Globs(s, i, p, j) || GlobsLater(s, i + 1, p, j))
  }

  lemma LaterStep(s: string, i: nat, p: string, j: nat)
    requires i < |s| && j <= |p|
    ensures GlobsLater(s, i, p, j) <==> Globs(s, i, p, j) || GlobsLater(s, i + 1, p, j)
    ensures !GlobsLater(s, |s|, p, j)
  {
  }

  /** An asterisk that is not last takes any number of characters, but leaves at least one. */
  lemma {:induction false} StarTakes(s: string, i: nat, p: string, j: nat)
    requires i <= |s| && j <= |p|
    ensures GlobsLater(s, i, p, j) <==> exists k: nat :: i <= k < |s| && Globs(s, k, p, j)
    decreases |s| - i
  {
    if i < |s| {
      hide Globs, GlobsLater;
      LaterStep(s, i, p, j);
      StarTakes(s, i + 1, p, j);
    }
  }

  // ---------------------------------------------------------------- the loops

  method ParseBracket(c: char, p: string, j0: nat) returns (e: Option<nat>)
    requires j0 <= |p|
    ensures e == Bracket(c, p, j0)
  {
    var j := j0;
    if j == |p| { return None; }
    var invert := false;
    if p[j] == '!' {
      invert := true;
      j := j + 1;
    }
    var found, start, closed := invert, j, false;
    while j < |p|
      invariant j <= |p| && !closed && Bracket(c, p, j0) == InBracket(c, p, j, start, invert, found)
      decreases |p| - j
    {
      if p[j] == ']' && j > start {
        closed := true;
        j := j + 1;
        break;
      }
      if j + 1 == |p| { break; }
      var matches;
      ghost var at := j;
      if p[j + 1] == '-' {
        if j + 2 == |p| { break; }
        matches := SignedByte(c) >= SignedByte(p[j]) && SignedByte(c) <= SignedByte(p[j + 2]);
        j := j + 3;
      } else {
        matches := p[j] == c;
        j := j + 1;
      }
      if found == invert && matches { found := !invert; }
    }
    return if closed && found then Some(j) else None;
  }

  method Glob(s: string, i0: nat, p: string, j0: nat) returns (r: bool)
    requires i0 <= |s| && j0 <= |p|
    ensures r == Globs(s, i0, p, j0)
    decreases |p| - j0
  {
    hide Bracket;
    var i, j := i0, j0;
    while i < |s| && j < |p|
      invariant i0 <= i <= |s| && j0 <= j <= |p| && Globs(s, i0, p, j0) == Globs(s, i, p, j)
      decreases |s| - i
    {
      if p[j] == '*' {
        ghost var at := j;
        j := j + 1;
        while j < |p| && p[j] == '*'
          invariant at < j <= |p| && SkipStars(p, at + 1) == SkipStars(p, j)
        {
          j := j + 1;
        }
        if j == |p| { return true; }
        while i < |s|
          invariant i <= |s| && Globs(s, i0, p, j0) == GlobsLater(s, i, p, j)
        {
          var found := Glob(s, i, p, j);
          if found { return true; }
          i := i + 1;
        }
        return false;
      } else if p[j] == '?' {
        j := j + 1;
      } else if p[j] == '[' {
        var e := ParseBracket(s[i], p, j + 1);
        if e.None? { return false; }
        j := e.value;
      } else if p[j] == '\\' {
        if j + 1 == |p| || s[i] != p[j + 1] { return false; }
        j := j + 2;
      } else {
        if s[i] != p[j] { return false; }
        j := j + 1;
      }
      i := i + 1;
    }
    ghost var end := j;
    while j < |p| && p[j] == '*'
      invariant end <= j <= |p| && SkipStars(p, end) == SkipStars(p, j)
    {
      j := j + 1;
    }
    return j == |p| && i == |s|;
  }
}
