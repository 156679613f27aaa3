/** Matching a path, split at its slashes, against a glob pattern with "**". */
module PathMatch {

  /** LikeFun::Glob on one component: a parameter, as it is foreign code. */
  type Glob = (string, string) -> bool

  const ANY: string := "**"

  // ---------------------------------------------------------------- what a match is

  /** Pattern element `i` takes the components `from` to `to`. */
  predicate Takes(glob: Glob, key: seq<string>, pattern: seq<string>, i: nat, from: nat, to: nat)
    requires i < |pattern| && from <= to <= |key|
  {
    if pattern[i] == ANY then i == |pattern| - 1 ==> from < to
    else to == from + 1 && glob(key[from], pattern[i])
  }

  predicate Cut(glob: Glob, key: seq<string>, pattern: seq<string>, cuts: seq<nat>, i: nat)
    requires |cuts| == |pattern| + 1 && i < |pattern|
  {
    cuts[i] <= cuts[i + 1] <= |key| && Takes(glob, key, pattern, i, cuts[i], cuts[i + 1])
  }

  /** `cuts` splits the key among the elements of the pattern. */
  predicate Splits(glob: Glob, key: seq<string>, pattern: seq<string>, cuts: seq<nat>) {
    && |cuts| == |pattern| + 1 && cuts[0] == 0 && cuts[|pattern|] == |key|
    && forall i :: 0 <= i < |pattern| ==> Cut(glob, key, pattern, cuts, i)
  }

  // ---------------------------------------------------------------- the same by recursion

  predicate Matches(glob: Glob, key: seq<string>, pattern: seq<string>)
    decreases |pattern|, |key|
  {
    if pattern == [] then key == []
    else if key == [] then false
    else if pattern[0] == ANY then
      |pattern| == 1 || Matches(glob, key, pattern[1..]) || Matches(glob, key[1..], pattern)
    else glob(key[0], pattern[0]) && Matches(glob, key[1..], pattern[1..])
  }

  lemma {:induction false} Increasing(glob: Glob, key: seq<string>, pattern: seq<string>, cuts: seq<nat>)
    requires pattern != [] && Splits(glob, key, pattern, cuts)
    ensures forall i :: 1 <= i <= |pattern| ==> cuts[1] <= cuts[i]
  {
    var n := 1;
    while n < |pattern|
      invariant 1 <= n <= |pattern| && forall i :: 1 <= i <= n ==> cuts[1] <= cuts[i]
    {
      assert Cut(glob, key, pattern, cuts, n);
      n := n + 1;
    }
  }

  lemma {:induction false} SplitsTail(glob: Glob, key: seq<string>, pattern: seq<string>, cuts: seq<nat>)
    returns (rest: seq<nat>)
    requires pattern != [] && Splits(glob, key, pattern, cuts)
    ensures cuts[1] <= |key| && Splits(glob, key[cuts[1]..], pattern[1..], rest)
  {
    var c := cuts[1];
    Increasing(glob, key, pattern, cuts);
    rest := seq(|pattern|, i requires 0 <= i < |pattern| => if cuts[i + 1] >= c then cuts[i + 1] - c else 0);
    forall i | 0 <= i < |pattern| - 1
      ensures Cut(glob, key[c..], pattern[1..], rest, i)
    {
      assert Cut(glob, key, pattern, cuts, i + 1);
    }
  }

  lemma {:induction false} SplitsCons(glob: Glob, key: seq<string>, pattern: seq<string>, c: nat, rest: seq<nat>)
    returns (cuts: seq<nat>)
    requires pattern != [] && c <= |key| && Takes(glob, key, pattern, 0, 0, c)
    requires Splits(glob, key[c..], pattern[1..], rest)
    ensures Splits(glob, key, pattern, cuts)
  {
    cuts := [0] + seq(|pattern|, i requires 0 <= i < |pattern| => rest[i] + c);
    forall i | 0 <= i < |pattern|
      ensures Cut(glob, key, pattern, cuts, i)
    {
      if i > 0 { assert Cut(glob, key[c..], pattern[1..], rest, i - 1); }
    }
  }

  lemma {:induction false} MatchSplits(glob: Glob, key: seq<string>, pattern: seq<string>) returns (cuts: seq<nat>)
    requires Matches(glob, key, pattern)
    ensures Splits(glob, key, pattern, cuts)
    decreases |pattern|, |key|
  {
    if pattern == [] {
      cuts := [0];
    } else if pattern[0] == ANY {
      if |pattern| == 1 {
        cuts := [0, |key|];
      } else if Matches(glob, key, pattern[1..]) {
        var rest := MatchSplits(glob, key, pattern[1..]);
        assert key[0..] == key;
        cuts := SplitsCons(glob, key, pattern, 0, rest);
      } else {
        var after := MatchSplits(glob, key[1..], pattern);
        var rest := SplitsTail(glob, key[1..], pattern, after);
        assert key[1..][after[1]..] == key[after[1] + 1..];
        cuts := SplitsCons(glob, key, pattern, after[1] + 1, rest);
      }
    } else {
      var rest := MatchSplits(glob, key[1..], pattern[1..]);
      cuts := SplitsCons(glob, key, pattern, 1, rest);
    }
  }

  lemma {:induction false} AnyMatches(glob: Glob, key: seq<string>, pattern: seq<string>, c: nat)
    requires |pattern| > 1 && pattern[0] == ANY && c <= |key| && Matches(glob, key[c..], pattern[1..])
    ensures Matches(glob, key, pattern)
    decreases |key|
  {
    if c == 0 {
      assert key[0..] == key;
    } else {
      assert key[1..][c - 1..] == key[c..];
      AnyMatches(glob, key[1..], pattern, c - 1);
    }
  }

  lemma {:induction false} SplitsMatch(glob: Glob, key: seq<string>, pattern: seq<string>, cuts: seq<nat>)
    requires Splits(glob, key, pattern, cuts)
    ensures Matches(glob, key, pattern)
    decreases |pattern|, |key|
  {
    if pattern != [] {
      var rest := SplitsTail(glob, key, pattern, cuts);
      assert Cut(glob, key, pattern, cuts, 0);
      var c := cuts[1];
      if pattern[0] == ANY && |pattern| > 1 {
        SplitsMatch(glob, key[c..], pattern[1..], rest);
        AnyMatches(glob, key, pattern, c);
      } else if pattern[0] == ANY {
      } else {
        SplitsMatch(glob, key[1..], pattern[1..], rest);
      }
    }
  }

  /** The recursion finds a match exactly when the key can be split. */
  lemma {:induction false} MatchesIsSplits(glob: Glob, key: seq<string>, pattern: seq<string>)
    ensures Matches(glob, key, pattern) <==> exists cuts :: Splits(glob, key, pattern, cuts)
    decreases |pattern|, |key|
  {
    if Matches(glob, key, pattern) { var cuts := MatchSplits(glob, key, pattern); }
    forall cuts | Splits(glob, key, pattern, cuts) ensures Matches(glob, key, pattern) {
      SplitsMatch(glob, key, pattern, cuts);
    }
  }

  // ---------------------------------------------------------------- the matcher

  /** Some suffix of the key from `k` on matches. */
  predicate SuffixMatches(glob: Glob, key: seq<string>, pattern: seq<string>)
    decreases |key|
  {
    key != [] && (Matches(glob, key, pattern) || SuffixMatches(glob, key[1..], pattern))
  }

  lemma {:induction false} AnyIsSuffix(glob: Glob, key: seq<string>, pattern: seq<string>)
    requires |pattern| > 1 && pattern[0] == ANY
    ensures Matches(glob, key, pattern) <==> SuffixMatches(glob, key, pattern[1..])
    decreases |key|
  {
    if key != [] { AnyIsSuffix(glob, key[1..], pattern); }
  }

  /** The recursive matcher, from component `key0` of the key and element `pattern0` of the pattern on. */
  method Match(glob: Glob, keys: seq<string>, key0: nat, patterns: seq<string>, pattern0: nat) returns (r: bool)
    requires key0 <= |keys| && pattern0 <= |patterns|
    ensures r == Matches(glob, keys[key0..], patterns[pattern0..])
    decreases |patterns| - pattern0
  {
    var key, pattern := key0, pattern0;
    while key != |keys| && pattern != |patterns|
      invariant key0 <= key <= |keys| && pattern0 <= pattern <= |patterns|
      invariant Matches(glob, keys[key0..], patterns[pattern0..]) == Matches(glob, keys[key..], patterns[pattern..])
      decreases |keys| - key
    {
      assert patterns[pattern..][1..] == patterns[pattern + 1..] && keys[key..][1..] == keys[key + 1..];
      if patterns[pattern] == ANY {
        if pattern + 1 == |patterns| { return true; }
        AnyIsSuffix(glob, keys[key..], patterns[pattern..]);
        while key != |keys|
          invariant key0 <= key <= |keys|
          invariant Matches(glob, keys[key0..], patterns[pattern0..])
                 == SuffixMatches(glob, keys[key..], patterns[pattern + 1..])
        {
          hide Matches;
          assert keys[key..][1..] == keys[key + 1..];
          var found := Match(glob, keys, key, patterns, pattern + 1);
          if found { return true; }
          key := key + 1;
        }
        return false;
      }
      if !glob(keys[key], patterns[pattern]) { return false; }
      key, pattern := key + 1, pattern + 1;
    }
    return key == |keys| && pattern == |patterns|;
  }
}
