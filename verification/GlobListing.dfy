/** A glob over a remote tree: list below the part of the pattern that has no wildcards, then match. */
module GlobListing {
  import opened Basics
  import opened PathMatch
  import opened PathSplit
  import opened Listing
  import opened LikeGlob

  predicate IsPlain(s: string) { forall i :: 0 <= i < |s| ==> !IsWildcard(s[i]) }

  /** A component without wildcards matches itself, where "?" stands for any character. */
  predicate PlainMatch(s: string, e: string) {
    |s| == |e| && forall i :: 0 <= i < |e| ==> e[i] == '?' || s[i] == e[i]
  }

  /** What LikeFun::Glob does with components that have no wildcards. */
  ghost predicate PlainGlob(glob: Glob) {
    forall s, e :: IsPlain(e) ==> (glob(s, e) <==> PlainMatch(s, e))
  }

  /** LikeFun::Glob on whole components. */
  predicate Like(s: string, e: string) { Globs(s, 0, e, 0) }

  lemma {:induction false} PlainMatchStep(s: string, e: string)
    requires s != "" && e != ""
    ensures PlainMatch(s, e) <==> (e[0] == '?' || s[0] == e[0]) && PlainMatch(s[1..], e[1..])
  {
    if PlainMatch(s[1..], e[1..]) && (e[0] == '?' || s[0] == e[0]) {
      forall i | 0 <= i < |e| ensures e[i] == '?' || s[i] == e[i] {
        if i > 0 { assert e[1..][i - 1] == '?' || s[1..][i - 1] == e[1..][i - 1]; }
      }
    }
  }

  lemma {:induction false} PlainGlobs(s: string, i: nat, e: string, j: nat)
    requires i <= |s| && j <= |e| && IsPlain(e)
    ensures Globs(s, i, e, j) <==> PlainMatch(s[i..], e[j..])
    decreases |e| - j
  {
    if i < |s| && j < |e| {
      PlainGlobs(s, i + 1, e, j + 1);
      PlainMatchStep(s[i..], e[j..]);
      assert s[i..][1..] == s[i + 1..] && e[j..][1..] == e[j + 1..];
    }
  }

  /** A component without wildcards and "?" matches itself only. */
  ghost predicate LiteralGlob(glob: Glob) {
    forall s, e :: IsPlain(e) && '?' !in e ==> (glob(s, e) <==> s == e)
  }

  lemma {:induction false} PlainIsLiteral(glob: Glob)
    requires PlainGlob(glob)
    ensures LiteralGlob(glob)
  {
    forall s, e | IsPlain(e) && '?' !in e ensures glob(s, e) <==> s == e {
      assert PlainMatch(s, e) <==> s == e;
    }
  }

  /** LikeFun::Glob does with components without wildcards what is asked of the glob here. */
  lemma {:induction false} LikeIsPlain()
    ensures PlainGlob(Like) && LiteralGlob(Like)
  {
    hide Globs, PlainMatch;
    forall s, e | IsPlain(e) ensures Like(s, e) <==> PlainMatch(s, e) {
      PlainGlobs(s, 0, e, 0);
      assert s[0..] == s && e[0..] == e;
    }
    PlainIsLiteral(Like);
  }

  // ---------------------------------------------------------------- the shared part of a pattern

  lemma {:induction false} LiteralStep(glob: Glob, key: Path, pattern: seq<string>)
    requires LiteralGlob(glob) && pattern != [] && IsPlain(pattern[0]) && '?' !in pattern[0]
    requires Matches(glob, key, pattern)
    ensures key != [] && key[0] == pattern[0] && Matches(glob, key[1..], pattern[1..])
  {
    assert ANY[0] == '*';
  }

  /** A key that matches starts with the literal components that the pattern starts with. */
  lemma {:induction false} LiteralPrefix(glob: Glob, key: Path, pattern: seq<string>, n: nat)
    requires LiteralGlob(glob) && n <= |pattern| && Matches(glob, key, pattern)
    requires forall i :: 0 <= i < n ==> IsPlain(pattern[i]) && '?' !in pattern[i]
    ensures n <= |key| && Matches(glob, key[n..], pattern[n..])
    ensures forall i :: 0 <= i < n ==> key[i] == pattern[i]
    decreases n
  {
    hide Matches, LiteralGlob, IsPlain;
    if n == 0 {
      assert key[0..] == key && pattern[0..] == pattern;
    } else {
      LiteralStep(glob, key, pattern);
      var key', pattern' := key[1..], pattern[1..];
      assert forall i :: 0 <= i < n - 1 ==> pattern'[i] == pattern[i + 1];
      LiteralPrefix(glob, key', pattern', n - 1);
      assert key'[n - 1..] == key[n..] && pattern'[n - 1..] == pattern[n..];
      forall i | 0 <= i < n ensures key[i] == pattern[i] {
        if i > 0 { assert key'[i - 1] == pattern'[i - 1]; }
      }
    }
  }

  predicate PrefixHolds(key: Path, pattern: seq<string>, n: nat)
    requires n <= |pattern|
  {
    n <= |key| && forall i :: 0 <= i < n ==> PlainMatch(key[i], pattern[i])
  }

  lemma {:induction false} PlainStep(glob: Glob, key: Path, pattern: seq<string>)
    requires PlainGlob(glob) && pattern != [] && IsPlain(pattern[0])
    ensures Matches(glob, key, pattern) <==>
      key != [] && PlainMatch(key[0], pattern[0]) && Matches(glob, key[1..], pattern[1..])
  {
    hide PlainMatch;
    assert ANY[0] == '*';
  }

  lemma {:induction false} PrefixStep(key: Path, pattern: seq<string>, n: nat)
    requires 0 < n <= |pattern| && key != []
    ensures PrefixHolds(key, pattern, n) <==>
      PlainMatch(key[0], pattern[0]) && PrefixHolds(key[1..], pattern[1..], n - 1)
  {
    hide PlainMatch;
    if PlainMatch(key[0], pattern[0]) && PrefixHolds(key[1..], pattern[1..], n - 1) {
      forall i | 0 <= i < n ensures PlainMatch(key[i], pattern[i]) {
        if i > 0 { assert PlainMatch(key[1..][i - 1], pattern[1..][i - 1]); }
      }
    }
    if PrefixHolds(key, pattern, n) {
      forall i | 0 <= i < n - 1 ensures PlainMatch(key[1..][i], pattern[1..][i]) {
        assert PlainMatch(key[i + 1], pattern[i + 1]);
      }
    }
  }

  lemma PrefixLength(key: Path, pattern: seq<string>, n: nat)
    requires n <= |pattern|
    ensures PrefixHolds(key, pattern, n) ==> n <= |key|
  {
  }

  /** A key matches exactly if its first components match the plain ones of the pattern and the rest the rest. */
  lemma {:induction false} PrefixMatches(glob: Glob, key: Path, pattern: seq<string>, n: nat)
    requires PlainGlob(glob) && n <= |pattern| && forall i :: 0 <= i < n ==> IsPlain(pattern[i])
    ensures Matches(glob, key, pattern) <==>
      PrefixHolds(key, pattern, n) && Matches(glob, key[n..], pattern[n..])
    decreases n
  {
    hide Matches, PlainGlob, IsPlain, PlainMatch;
    if n == 0 {
      assert key[0..] == key && pattern[0..] == pattern;
    } else {
      PlainStep(glob, key, pattern);
      if key != [] {
        hide PrefixHolds;
        PrefixStep(key, pattern, n);
        assert forall i :: 0 <= i < n - 1 ==> pattern[1..][i] == pattern[i + 1];
        PrefixMatches(glob, key[1..], pattern[1..], n - 1);
        PrefixLength(key, pattern, n);
        PrefixLength(key[1..], pattern[1..], n - 1);
        if n <= |key| { assert key[1..][n - 1..] == key[n..] && pattern[1..][n - 1..] == pattern[n..]; }
      }
    }
  }

  lemma {:induction false} HasComponent(s: string, c: nat, w: nat)
    requires c <= w < |s| && s[w] != '/'
    ensures exists k :: 0 <= k < |Components(s, c)| && s[w] in Components(s, c)[k]
    decreases |s| - c
  {
    hide Components;
    ComponentsStep(s, c);
    var e := NextSlash(s, c);
    var rest := Components(s, e + 1);
    if w < e {
      assert s[c..e][w - c] == s[w];
      assert Components(s, c)[0] == s[c..e];
    } else {
      HasComponent(s, e + 1, w);
      var k :| 0 <= k < |rest| && s[w] in rest[k];
      assert Components(s, c)[|Part(s, c, e)| + k] == rest[k];
    }
  }

  /** The characters of components are characters of the path. */
  lemma {:induction false} ComponentChars(s: string, c: nat, ch: char)
    requires c <= |s| + 1 && ch !in s
    ensures forall i :: 0 <= i < |Components(s, c)| ==> ch !in Components(s, c)[i]
    decreases |s| + 1 - c
  {
    hide Components, NextSlash;
    if c <= |s| {
      ComponentsStep(s, c);
      ComponentChars(s, NextSlash(s, c) + 1, ch);
    } else {
      ComponentsEnd(s);
    }
  }

  lemma {:induction false} PlainComponents(s: string)
    requires IsPlain(s)
    ensures forall i :: 0 <= i < |Components(s, 0)| ==> IsPlain(Components(s, 0)[i])
  {
    hide Components;
    ComponentChars(s, 0, '*');
    ComponentChars(s, 0, '[');
    ComponentChars(s, 0, '\\');
  }

  /** The components of the shared part come first in the pattern, and others follow. */
  lemma {:induction false} SharedComponents(pattern: string, cut: nat)
    requires IsCut(pattern, cut)
    ensures cut < |pattern| && IsPlain(pattern[..cut])
    ensures var cs, all := Components(pattern[..cut], 0), Components(pattern, 0);
      |cs| < |all| && all[..|cs|] == cs && Split(pattern) == all
  {
    hide Components;
    var w: nat :| IsFirstWildcard(pattern, w) && IsLastSlash(pattern, w, cut);
    HasComponent(pattern, 0, w);
    if cut == 0 {
      assert pattern[..cut] == "";
      NoComponents();
    } else {
      var shared, rest := pattern[..cut], pattern[cut + 1..];
      assert pattern == shared + "/" + rest;
      ComponentsCut(shared, rest, 0);
      HasComponent(pattern, cut + 1, w);
    }
  }

  /** The components of the shared part. */
  function Shared(pattern: string, cut: nat): Path
    requires cut <= |pattern|
  {
    Components(pattern[..cut], 0)
  }

  /** What a match is, apart from the shared part. */
  lemma {:induction false} SharedMatches(glob: Glob, pattern: string, cut: nat, p: Path)
    requires IsCut(pattern, cut) && PlainGlob(glob)
    ensures cut <= |pattern|
    ensures var cs, all := Shared(pattern, cut), Split(pattern);
      |cs| < |all| && (Matches(glob, p, all) <==> PrefixHolds(p, cs, |cs|) && Matches(glob, p[|cs|..], all[|cs|..]))
  {
    hide Components, Matches, IsPlain, PlainMatch, Split;
    SharedComponents(pattern, cut);
    PlainComponents(pattern[..cut]);
    var cs, all := Shared(pattern, cut), Split(pattern);
    assert forall i :: 0 <= i < |cs| ==> all[i] == all[..|cs|][i];
    PrefixMatches(glob, p, all, |cs|);
  }

  lemma NothingMatchesNothing(glob: Glob, key: Path, pattern: seq<string>)
    requires Matches(glob, key, pattern) && pattern != []
    ensures key != []
  {
  }

  /** Without "?" in the shared part, a file that matches is below it. */
  lemma {:induction false} MatchIsShared(glob: Glob, pattern: string, cut: nat, p: Path)
    requires IsCut(pattern, cut) && LiteralGlob(glob) && Matches(glob, p, Split(pattern))
    ensures cut <= |pattern| && ('?' !in pattern[..cut] ==> Under(Shared(pattern, cut), p))
  {
    hide Components, Matches, Split, IsPlain, LiteralGlob, IsCut;
    SharedComponents(pattern, cut);
    if '?' !in pattern[..cut] {
      var cs, all := Shared(pattern, cut), Split(pattern);
      PlainComponents(pattern[..cut]);
      ComponentChars(pattern[..cut], 0, '?');
      assert forall i :: 0 <= i < |cs| ==> all[i] == all[..|cs|][i];
      LiteralPrefix(glob, p, all, |cs|);
      NothingMatchesNothing(glob, p[|cs|..], all[|cs|..]);
      assert p[..|cs|] == cs;
    }
  }

  /** A path that matches and is not below a shared part with "?" in it, made from one that matches. */
  lemma {:induction false} MatchNotShared(glob: Glob, pattern: string, cut: nat, p: Path) returns (q: Path)
    requires IsCut(pattern, cut) && PlainGlob(glob) && Matches(glob, p, Split(pattern))
    requires cut <= |pattern| && '?' in pattern[..cut]
    ensures Matches(glob, q, Split(pattern)) && !Under(Shared(pattern, cut), q)
  {
    hide Components, Matches, Split, IsPlain;
    SharedMatches(glob, pattern, cut, p);
    var cs := Shared(pattern, cut);
    var w :| 0 <= w < cut && pattern[..cut][w] == '?';
    HasComponent(pattern[..cut], 0, w);
    var k :| 0 <= k < |cs| && '?' in cs[k];
    var i :| 0 <= i < |cs[k]| && cs[k][i] == '?';
    assert PlainMatch(p[k], cs[k]);
    q := p[k := p[k][i := 'a']];
    assert q[k][i] != cs[k][i] && (|cs| < |q| ==> q[..|cs|][k] == q[k]);
    assert PlainMatch(q[k], cs[k]);
    assert q[|cs|..] == p[|cs|..];
    SharedMatches(glob, pattern, cut, q);
  }

  /** If the pattern matches anything, all its matches are below the shared part exactly if that has no "?". */
  lemma {:induction false} SharedIsExact(glob: Glob, pattern: string, cut: nat, some: Path)
    requires IsCut(pattern, cut) && PlainGlob(glob) && Matches(glob, some, Split(pattern))
    ensures cut <= |pattern|
    ensures (forall p :: Matches(glob, p, Split(pattern)) ==> Under(Shared(pattern, cut), p))
       <==> '?' !in pattern[..cut]
  {
    hide Matches, Split, Shared, PlainGlob, LiteralGlob;
    PlainIsLiteral(glob);
    MatchIsShared(glob, pattern, cut, some);
    if '?' in pattern[..cut] {
      var q := MatchNotShared(glob, pattern, cut, some);
    } else {
      forall p | Matches(glob, p, Split(pattern)) ensures Under(Shared(pattern, cut), p) {
        MatchIsShared(glob, pattern, cut, p);
      }
    }
  }

  // ---------------------------------------------------------------- what is lost

  /** How often the glob returns a path: as often as the tree holds it, if it matches and is below the shared part. */
  ghost function Returned(glob: Glob, root: Directory, pattern: string, cut: nat, p: Path): nat
    requires cut <= |pattern|
  {
    if Matches(glob, p, Split(pattern)) && Under(Shared(pattern, cut), p) then Entries(root, [])[File(p)] else 0
  }

  /** How often it should. */
  ghost function Matching(glob: Glob, root: Directory, pattern: string, p: Path): nat {
    if Matches(glob, p, Split(pattern)) then Entries(root, [])[File(p)] else 0
  }

  /** Without "?" in the shared part nothing is lost. */
  lemma {:induction false} SharedLosesNothing(glob: Glob, root: Directory, pattern: string, cut: nat, p: Path)
    requires IsCut(pattern, cut) && LiteralGlob(glob)
    ensures cut <= |pattern|
    ensures '?' !in pattern[..cut] ==> Returned(glob, root, pattern, cut, p) == Matching(glob, root, pattern, p)
    ensures Returned(glob, root, pattern, cut, p) != Matching(glob, root, pattern, p) <==>
      Matches(glob, p, Split(pattern)) && File(p) in Entries(root, []) && !Under(Shared(pattern, cut), p)
  {
    hide Matches, Split, Shared, LiteralGlob, Entries;
    SharedComponents(pattern, cut);
    if Matches(glob, p, Split(pattern)) { MatchIsShared(glob, pattern, cut, p); }
  }

  lemma {:induction false} OnePage(d: Directory, path: Path)
    requires |d.pages| == 1
    ensures Entries(d, path)
         == multiset{Visited(path)} + multiset(FileEntries(d.pages[0].files, path)) + Below(d.pages[0].dirs, path)
  {
    hide Below, OnPage;
    assert d.pages[1..] == [];
    assert OnPages([], path) == multiset{};
    OnPageIs(d.pages[0], path);
    EntriesAre(d, path);
  }

  lemma {:induction false} OneBelow(d: Directory, path: Path)
    ensures Below([], path) == multiset{} && Below([d], path) == Entries(d, path + [d.name])
  {
    hide Entries;
    assert [d][..0] == [];
  }

  function Inner(): Directory { Directory("ab", [Page(["x"], [])]) }

  /** A tree that holds the file "ab/x" and nothing else. */
  function OneFile(): Directory { Directory("", [Page([], [Inner()])]) }

  lemma {:induction false} OneFileHolds()
    ensures Entries(OneFile(), [])[File(["ab", "x"])] == 1
  {
    hide Entries, Below;
    OnePage(Inner(), ["ab"]);
    OnePage(OneFile(), []);
    OneBelow(Inner(), ["ab"]);
    OneBelow(Inner(), []);
    assert ["ab"] + ["x"] == ["ab", "x"];
    assert FileEntries(["x"], ["ab"]) == [File(["ab", "x"])];
    assert [] + ["ab"] == ["ab"] && FileEntries([], []) == [];
  }

  lemma {:induction false} TwoMatch(glob: Glob)
    requires glob("ab", "a?") && glob("x", "*")
    ensures Matches(glob, ["ab", "x"], ["a?", "*"])
  {
    assert Matches(glob, [], []);
    assert ["ab", "x"][1..] == ["x"] && ["x"][1..] == [] && ["a?", "*"][1..] == ["*"] && ["*"][1..] == [];
    assert Matches(glob, ["x"], ["*"]);
  }

  lemma {:induction false} QuestionSplits()
    ensures IsCut("/a?/*", 3) && Split("/a?/*") == ["a?", "*"] && Shared("/a?/*", 3) == ["a?"]
  {
    hide Components;
    assert IsFirstWildcard("/a?/*", 4) && IsLastSlash("/a?/*", 4, 3);
    assert Join([]) == "" && ["a?"][..0] == [] && ["a?", "*"][..1] == ["a?"];
    assert Join(["a?"]) == "/a?" == "/a?/*"[..3];
    assert Join(["a?", "*"]) == "/a?/*";
    SplitJoined(["a?"]);
    SplitJoined(["a?", "*"]);
  }

  /** In that tree a pattern with "?" in its directory matches the file and loses it. */
  lemma {:induction false} QuestionMarkLoses(glob: Glob)
    requires glob("ab", "a?") && glob("x", "*")
    ensures IsCut("/a?/*", 3) && Matching(glob, OneFile(), "/a?/*", ["ab", "x"]) == 1
    ensures Returned(glob, OneFile(), "/a?/*", 3, ["ab", "x"]) == 0
  {
    hide Shared, Split, Matches, Entries, OneFile, IsCut;
    QuestionSplits();
    TwoMatch(glob);
    OneFileHolds();
    assert ["ab", "x"][..1][0] == "ab" && "ab"[1] != "a?"[1];
  }

  /** LikeFun::Glob is such a glob. */
  lemma {:induction false} LikeLoses()
    ensures Matching(Like, OneFile(), "/a?/*", ["ab", "x"]) == 1 && IsCut("/a?/*", 3)
    ensures Returned(Like, OneFile(), "/a?/*", 3, ["ab", "x"]) == 0
  {
    assert Like("ab", "a?") by {
      assert Globs("ab", 2, "a?", 2);
      assert Globs("ab", 1, "a?", 1);
    }
    assert Like("x", "*");
    hide Like, Matching, Returned, IsCut;
    QuestionMarkLoses(Like);
  }

  // ---------------------------------------------------------------- the glob

  datatype Result = NoWildcard | NotFound | Files(paths: seq<Path>)

  ghost predicate MatchesEntry(glob: Glob, pattern: seq<string>, e: Entry) { e.File? && Matches(glob, e.path, pattern) }

  /** The files among the entries that match. */
  ghost function Kept(glob: Glob, found: seq<Entry>, pattern: seq<string>): seq<Path> {
    if found == [] then []
    else
      var e := found[|found| - 1];
      Kept(glob, found[..|found| - 1], pattern) + if MatchesEntry(glob, pattern, e) then [e.path] else []
  }

  lemma {:induction false} KeptCount(glob: Glob, found: seq<Entry>, pattern: seq<string>, p: Path)
    ensures multiset(Kept(glob, found, pattern))[p] == if Matches(glob, p, pattern) then multiset(found)[File(p)] else 0
  {
    hide Matches;
    if found != [] {
      var n := |found| - 1;
      KeptCount(glob, found[..n], pattern, p);
      assert found == found[..n] + [found[n]];
    }
  }

  method KeepMatching(glob: Glob, found: seq<Entry>, pattern: seq<string>) returns (paths: seq<Path>)
    requires forall i :: 0 <= i < |found| && found[i].File? ==> AllNames(found[i].path) && found[i].path != []
    ensures paths == Kept(glob, found, pattern)
  {
    paths := [];
    for i := 0 to |found|
      invariant paths == Kept(glob, found[..i], pattern)
    {
      assert found[..i + 1][..i] == found[..i];
      match found[i]
      case File(path) =>
        SplitJoined(path);
        var splits := SplitPath(Join(path));
        var isMatch := Match(glob, splits, 0, pattern, 0);
        assert splits[0..] == splits && pattern[0..] == pattern;
        if isMatch { paths := paths + [path]; }
      case Visited(_) =>
    }
    assert found[..|found|] == found;
  }

  lemma {:induction false} FoundInRoot(root: Directory, cs: Path, start: Directory, p: Path)
    requires Unambiguous(root, cs) && Lookup(root, cs) == Some(start)
    ensures File(p) in Entries(start, cs) ==> File(p) in Entries(root, [])
  {
    hide Entries, Lookup, Unambiguous;
    EntriesUnder(start, cs, p);
    if Under(cs, p) {
      assert [] + cs == cs;
      LookupKeepsFiles(root, [], cs, p);
    }
  }

  /** Below the shared part the tree is listed as often as from its root. */
  lemma {:induction false} ListedFrom(root: Directory, cs: Path, p: Path)
    requires Unambiguous(root, cs)
    ensures var start := Lookup(root, cs);
      (if start.Some? then Entries(start.value, cs)[File(p)] else 0)
      == if Under(cs, p) then Entries(root, [])[File(p)] else 0
  {
    hide Entries, Lookup, Unambiguous;
    assert [] + cs == cs;
    if Under(cs, p) {
      LookupKeepsFiles(root, [], cs, p);
    } else if Lookup(root, cs).Some? {
      EntriesUnder(Lookup(root, cs).value, cs, p);
    }
  }

  lemma NoCut(pattern: string)
    requires !HasWildcard(pattern)
    ensures forall cut: nat :: !IsCut(pattern, cut)
  {
  }

  /** HuggingFaceFileSystem::Glob on the path of a URL. */
  method GlobFiles(glob: Glob, root: Directory, pattern: string) returns (r: Result)
    requires forall p :: File(p) in Entries(root, []) ==> AllNames(p) && p != []
    requires forall cut: nat :: IsCut(pattern, cut) ==> cut <= |pattern| && Unambiguous(root, Shared(pattern, cut))
    ensures r == NoWildcard <==> !HasWildcard(pattern)
    ensures forall cut: nat :: IsCut(pattern, cut) ==> (r == NotFound <==> Lookup(root, Shared(pattern, cut)).None?)
    ensures forall cut: nat, p :: IsCut(pattern, cut) ==>
      (if r.Files? then multiset(r.paths)[p] else 0) == Returned(glob, root, pattern, cut, p)
  {
    hide Shared, Matches, Entries, Lookup, Unambiguous, AllNames, IsCut, Split, Under, HasWildcard;
    var wild, cut := SharedPath(pattern);
    if !wild {
      NoCut(pattern);
      return NoWildcard;
    }
    forall c: nat | IsCut(pattern, c) ensures c == cut {
      CutUnique(pattern, c, cut);
    }
    var cs := Shared(pattern, cut);
    var start := Lookup(root, cs);
    forall p ensures Returned(glob, root, pattern, cut, p) ==
      if Matches(glob, p, Split(pattern)) && start.Some? then Entries(start.value, cs)[File(p)] else 0
    {
      ListedFrom(root, cs, p);
    }
    if start.None? { return NotFound; }
    var found := ListAll(start.value, cs);
    forall i | 0 <= i < |found| && found[i].File? ensures AllNames(found[i].path) && found[i].path != [] {
      FoundInRoot(root, cs, start.value, found[i].path);
      assert found[i] in multiset(found);
    }
    var splits := SplitPath(pattern);
    var paths := KeepMatching(glob, found, splits);
    forall p: Path
      ensures multiset(paths)[p] == if Matches(glob, p, splits) then Entries(start.value, cs)[File(p)] else 0
    {
      KeptCount(glob, found, splits, p);
    }
    return Files(paths);
  }
}
