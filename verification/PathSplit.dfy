/** Splitting paths at slashes, and the part of a pattern before its first wildcard. */
module PathSplit {

  function NextSlash(s: string, c: nat): (e: nat)
    requires c <= |s|
    ensures c <= e <= |s| && (e < |s| ==> s[e] == '/') && forall i :: c <= i < e ==> s[i] != '/'
    decreases |s| - c
  {
    if c == |s| || s[c] == '/' then c else NextSlash(s, c + 1)
  }

  function Part(s: string, c: nat, e: nat): seq<string>
    requires c <= e <= |s|
  {
    if c < e then [s[c..e]] else []
  }

  /** The parts between slashes that are not empty, from position `c` on. */
  function Components(s: string, c: nat): seq<string>
    requires c <= |s| + 1
    decreases |s| + 1 - c
  {
    if c == |s| + 1 then []
    else Part(s, c, NextSlash(s, c)) + Components(s, NextSlash(s, c) + 1)
  }

  /** The components of a path; the path itself if it has none. */
  function Split(s: string): seq<string> { if Components(s, 0) == [] then [s] else Components(s, 0) }

  lemma ComponentsStep(s: string, c: nat)
    requires c <= |s|
    ensures Components(s, c) == Part(s, c, NextSlash(s, c)) + Components(s, NextSlash(s, c) + 1)
  {
  }

  lemma ComponentsEnd(s: string)
    ensures Components(s, |s| + 1) == []
  {
  }

  lemma Assoc(a: seq<string>, b: seq<string>, c: seq<string>)
    ensures a + (b + c) == a + b + c
  {
  }

  method FindSlash(s: string, c: nat) returns (e: nat)
    requires c <= |s|
    ensures e == NextSlash(s, c)
  {
    e := c;
    while e < |s| && s[e] != '/'
      invariant c <= e <= |s| && NextSlash(s, c) == NextSlash(s, e)
    {
      e := e + 1;
    }
  }

  /** StringUtil::Split at '/' */
  method SplitPath(input: string) returns (splits: seq<string>)
    ensures splits == Split(input)
  {
    hide Components, NextSlash;
    splits := [];
    var last := 0;
    while last <= |input|
      invariant last <= |input| + 1 && splits + Components(input, last) == Components(input, 0)
    {
      var next := FindSlash(input, last);
      ComponentsStep(input, last);
      Assoc(splits, Part(input, last, next), Components(input, next + 1));
      var part := input[last..next];
      if part != "" { splits := splits + [part]; }
      last := next + 1;
    }
    ComponentsEnd(input);
    if splits == [] { splits := [input]; }
  }

  // ---------------------------------------------------------------- joining

  predicate IsName(s: string) { s != "" && forall i :: 0 <= i < |s| ==> s[i] != '/' }

  predicate AllNames(cs: seq<string>) { forall i :: 0 <= i < |cs| ==> IsName(cs[i]) }

  /** A path as the listing gives it: a slash before each component. */
  function Join(cs: seq<string>): string {
    if cs == [] then "" else Join(cs[..|cs| - 1]) + "/" + cs[|cs| - 1]
  }

  lemma {:induction false} SlashIs(u: string, c: nat, e: nat)
    requires c <= e <= |u| && (e < |u| ==> u[e] == '/') && forall i :: c <= i < e ==> u[i] != '/'
    ensures NextSlash(u, c) == e
    decreases e - c
  {
    if c < e { SlashIs(u, c + 1, e); }
  }

  /** A string ends where a slash cuts it: what comes after does not change what comes before. */
  lemma {:induction false} ComponentsCut(s: string, t: string, c: nat)
    requires c <= |s| + 1
    ensures Components(s + "/" + t, c) == Components(s, c) + Components(s + "/" + t, |s| + 1)
    decreases |s| + 1 - c
  {
    hide Components, NextSlash;
    var u := s + "/" + t;
    if c <= |s| {
      var e := NextSlash(s, c);
      SlashIs(u, c, e);
      assert u[c..e] == s[c..e];
      ComponentsStep(s, c);
      ComponentsStep(u, c);
      ComponentsCut(s, t, e + 1);
      Assoc(Part(s, c, e), Components(s, e + 1), Components(u, |s| + 1));
    } else {
      ComponentsEnd(s);
      assert [] + Components(u, |s| + 1) == Components(u, |s| + 1);
    }
  }

  lemma {:induction false} LastComponent(u: string, c: nat)
    requires c < |u| && forall i :: c <= i < |u| ==> u[i] != '/'
    ensures Components(u, c) == [u[c..]]
  {
    hide Components, NextSlash;
    SlashIs(u, c, |u|);
    assert u[c..|u|] == u[c..];
    ComponentsStep(u, c);
    ComponentsEnd(u);
  }

  lemma NoComponents()
    ensures Components("", 0) == []
  {
    assert Components("", 1) == [];
  }

  /** The components of a joined path are the ones that were joined. */
  lemma {:induction false} SplitJoined(cs: seq<string>)
    requires AllNames(cs)
    ensures Components(Join(cs), 0) == cs
  {
    hide Components;
    if cs == [] {
      NoComponents();
    } else {
      var front, last := cs[..|cs| - 1], cs[|cs| - 1];
      var s := Join(front);
      var u := s + "/" + last;
      SplitJoined(front);
      ComponentsCut(s, last, 0);
      assert IsName(last) && u[|s| + 1..] == last;
      LastComponent(u, |s| + 1);
      assert front + [last] == cs;
    }
  }

  // ---------------------------------------------------------------- the part before the first wildcard

  predicate IsWildcard(c: char) { c == '*' || c == '[' || c == '\\' }

  predicate HasWildcard(s: string) { exists i :: 0 <= i < |s| && IsWildcard(s[i]) }

  /** The first wildcard of a pattern. */
  predicate IsFirstWildcard(s: string, w: nat) {
    w < |s| && IsWildcard(s[w]) && forall i :: 0 <= i < w ==> !IsWildcard(s[i])
  }

  /** The last slash before position `w`, or the start if there is none. */
  predicate IsLastSlash(s: string, w: nat, cut: nat)
    requires w <= |s|
  {
    cut <= w && (cut > 0 ==> cut < w && s[cut] == '/') && forall i :: cut < i < w ==> s[i] != '/'
  }

  /** Where the directory part before the first wildcard ends: at the last slash before it. */
  ghost predicate IsCut(pattern: string, cut: nat) {
    exists w: nat :: IsFirstWildcard(pattern, w) && IsLastSlash(pattern, w, cut)
  }

  lemma {:induction false} CutUnique(pattern: string, a: nat, b: nat)
    requires IsCut(pattern, a) && IsCut(pattern, b)
    ensures a == b
  {
    var v: nat :| IsFirstWildcard(pattern, v) && IsLastSlash(pattern, v, a);
    var w: nat :| IsFirstWildcard(pattern, w) && IsLastSlash(pattern, w, b);
    assert v == w;
  }

  /** The directory part of a pattern before its first wildcard. */
  method SharedPath(pattern: string) returns (wild: bool, cut: nat)
    ensures wild <==> HasWildcard(pattern)
    ensures wild ==> IsCut(pattern, cut)
  {
    var w := 0;
    while w < |pattern| && !IsWildcard(pattern[w])
      invariant w <= |pattern| && forall i :: 0 <= i < w ==> !IsWildcard(pattern[i])
    {
      w := w + 1;
    }
    wild := w < |pattern|;
    if !wild { return wild, 0; }
    cut := w;
    while cut > 0 && pattern[cut] != '/'
      invariant cut <= w && forall i :: cut < i <= w ==> pattern[i] != '/'
    {
      cut := cut - 1;
    }
    assert IsFirstWildcard(pattern, w) && IsLastSlash(pattern, w, cut);
  }
}
