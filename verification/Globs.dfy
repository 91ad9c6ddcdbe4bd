/** Path patterns, the syntactic containment test between them, and how a match falls apart into parts. */
module Globs {
  import opened Paths

  /** Leading slashes are dropped. */
  function TrimSlashes(s: string): string {
    if s != "" && s[0] == '/' then TrimSlashes(s[1..]) else s
  }

  function NonEmpty(segs: seq<string>): seq<string> {
    if segs == [] then []
    else (if segs[0] == "" then [] else [segs[0]]) + NonEmpty(segs[1..])
  }

  predicate MatchChars(p: string, s: string)
    decreases |p|
  {
    if p == "" then s == ""
    else if p[0] == '*' then exists i | 0 <= i <= |s| :: MatchChars(p[1..], s[i..])
    else if p[0] == '?' then s != "" && MatchChars(p[1..], s[1..])
    else s != "" && s[0] == p[0] && MatchChars(p[1..], s[1..])
  }

  /** `**` takes any number of components, every other segment exactly one. */
  predicate MatchSegments(pat: seq<string>, segs: seq<string>)
    decreases |pat|
  {
    if pat == [] then segs == []
    else if pat[0] == "**" then exists i | 0 <= i <= |segs| :: MatchSegments(pat[1..], segs[i..])
    else segs != [] && MatchChars(pat[0], segs[0]) && MatchSegments(pat[1..], segs[1..])
  }

  /** A slash-free pattern asks only for the last component of a path. */
  predicate Matches(pattern: string, path: string) {
    var pattern, path := TrimSlashes(pattern), TrimSlashes(path);
    if '/' !in pattern then MatchSegments(["**", pattern], Split(path))
    else MatchSegments(NonEmpty(Split(pattern)), NonEmpty(Split(path)))
  }

  predicate AnyMatch(patterns: seq<string>, path: string) {
    exists i | 0 <= i < |patterns| :: Matches(patterns[i], path)
  }

  predicate Wild(pattern: string) {
    '*' in pattern || '?' in pattern
  }

  predicate EndsInStars(pattern: string) {
    |pattern| >= 2 && pattern[|pattern| - 2..] == "**"
  }

  predicate Contained(child: string, parent: string) {
    || child == parent
    || (EndsInStars(parent) && parent[..|parent| - 2] <= child)
    || (!Wild(child) && Matches(parent, child))
  }

  // ------------------------------------------------------------------ matching

  lemma {:induction false} LiteralChars(p: string, s: string)
    requires !Wild(p)
    ensures MatchChars(p, s) <==> p == s
  {
    if p != "" {
      assert p[0] in p;
      if s != "" {
        LiteralChars(p[1..], s[1..]);
        assert p == [p[0]] + p[1..] && s == [s[0]] + s[1..];
      }
    }
  }

  lemma {:induction false} LiteralSegments(pat: seq<string>, segs: seq<string>)
    requires forall p | p in pat :: !Wild(p)
    ensures MatchSegments(pat, segs) <==> pat == segs
  {
    if pat != [] {
      assert pat[0] in pat;
      assert pat[0] != "**" by {
        assert "**"[0] == '*';
      }
      if segs != [] {
        LiteralChars(pat[0], segs[0]);
        LiteralSegments(pat[1..], segs[1..]);
        assert pat == [pat[0]] + pat[1..] && segs == [segs[0]] + segs[1..];
      }
    }
  }

  /** The first segment of a pattern takes the first `j` components. */
  predicate Takes(p: string, segs: seq<string>, j: nat) {
    j <= |segs| && (p == "**" || (j == 1 && MatchChars(p, segs[0])))
  }

  lemma FirstTakes(pat: seq<string>, segs: seq<string>) returns (j: nat)
    requires pat != [] && MatchSegments(pat, segs)
    ensures Takes(pat[0], segs, j) && MatchSegments(pat[1..], segs[j..])
  {
    j := 1;
    if pat[0] == "**" {
      j :| 0 <= j <= |segs| && MatchSegments(pat[1..], segs[j..]);
    }
  }

  lemma TakesFirst(pat: seq<string>, segs: seq<string>, j: nat)
    requires pat != [] && Takes(pat[0], segs, j) && MatchSegments(pat[1..], segs[j..])
    ensures MatchSegments(pat, segs)
  {}

  lemma SliceTwice<T>(s: seq<T>, j: nat, k: nat)
    requires j + k <= |s|
    ensures s[..j + k][j..] == s[j..][..k] && s[j + k..] == s[j..][k..]
  {}

  /** A pattern in two parts matches a path cut at some component. */
  lemma {:induction false} MatchSplits(a: seq<string>, b: seq<string>, segs: seq<string>) returns (i: nat)
    requires MatchSegments(a + b, segs)
    ensures i <= |segs| && MatchSegments(a, segs[..i]) && MatchSegments(b, segs[i..])
    decreases |a|
  {
    if a == [] {
      assert a + b == b && segs[0..] == segs;
      i := 0;
    } else {
      var j := FirstTakes(a + b, segs);
      assert (a + b)[1..] == a[1..] + b;
      var k := MatchSplits(a[1..], b, segs[j..]);
      i := j + k;
      SliceTwice(segs, j, k);
      TakesFirst(a, segs[..i], j);
    }
  }

  lemma {:induction false} MatchJoins(a: seq<string>, b: seq<string>, segs: seq<string>, i: nat)
    requires i <= |segs| && MatchSegments(a, segs[..i]) && MatchSegments(b, segs[i..])
    ensures MatchSegments(a + b, segs)
    decreases |a|
  {
    if a == [] {
      assert a + b == b && segs[i..] == segs;
    } else {
      var j := FirstTakes(a, segs[..i]);
      SliceTwice(segs, j, i - j);
      MatchJoins(a[1..], b, segs[j..], i - j);
      assert (a + b)[1..] == a[1..] + b;
      TakesFirst(a + b, segs, j);
    }
  }

  /** Anything below a prefix is matched by the prefix and `**`. */
  lemma {:induction false} StarsCoverSuffix(a: seq<string>, b: seq<string>, segs: seq<string>)
    requires MatchSegments(a + b, segs)
    ensures MatchSegments(a + ["**"], segs)
  {
    var i := MatchSplits(a, b, segs);
    StarsMatchAll(segs[i..]);
    MatchJoins(a, ["**"], segs, i);
  }

  lemma StarsMatchAll(segs: seq<string>)
    ensures MatchSegments(["**"], segs)
  {
    assert ["**"][1..] == [];
    assert MatchSegments(["**"][1..], segs[|segs|..]);
  }

  lemma DoubleStarsMatchAll(segs: seq<string>)
    ensures MatchSegments(["**", "**"], segs)
  {
    StarsMatchAll(segs);
    assert ["**", "**"][1..] == ["**"];
    assert MatchSegments(["**", "**"][1..], segs[0..]);
  }

  lemma {:induction false} NonEmptyConcat(a: seq<string>, b: seq<string>)
    ensures NonEmpty(a + b) == NonEmpty(a) + NonEmpty(b)
  {
    if a == [] {
      assert a + b == b;
    } else {
      assert (a + b)[1..] == a[1..] + b;
      NonEmptyConcat(a[1..], b);
    }
  }

  lemma {:induction false} NonEmptyId(segs: seq<string>)
    requires forall s | s in segs :: s != ""
    ensures NonEmpty(segs) == segs
  {
    if segs != [] {
      assert segs[0] in segs;
      assert forall s | s in segs[1..] :: s in segs;
      NonEmptyId(segs[1..]);
    }
  }

  /** Trimming leading slashes only removes empty components. */
  lemma {:induction false} TrimKeepsSegments(s: string)
    ensures NonEmpty(Split(TrimSlashes(s))) == NonEmpty(Split(s))
  {
    if s != "" && s[0] == '/' {
      TrimKeepsSegments(s[1..]);
      NonEmptyConcat([""], Split(s[1..]));
    }
  }

  lemma LeadingSlash(path: string)
    requires path != "" && path[0] == '/'
    ensures "" in Split(path)
  {
    assert Split(path)[0] == "";
  }

  lemma NormalFacts(path: string)
    requires NormalPath(path)
    ensures TrimSlashes(path) == path && NonEmpty(Split(path)) == Split(path)
    ensures path == "" || path[0] != '/'
  {
    if path != "" && path[0] == '/' {
      LeadingSlash(path);
    }
    NonEmptyId(Split(path));
  }

  lemma SegmentsAtSlash(a: string, b: string)
    ensures NonEmpty(Split(a + "/" + b)) == NonEmpty(Split(a)) + NonEmpty(Split(b))
  {
    SplitAtSlash(a, b);
    NonEmptyConcat(Split(a), Split(b));
  }

  lemma SegmentsOfDir(a: string)
    ensures NonEmpty(Split(a + "/")) == NonEmpty(Split(a))
  {
    SegmentsAtSlash(a, "");
    assert a + "/" + "" == a + "/";
    assert NonEmpty([""]) == [];
  }

  lemma SegmentsOfPrefix(prefix: string, rest: string)
    requires prefix != "" && prefix[|prefix| - 1] == '/'
    ensures NonEmpty(Split(prefix + rest)) == NonEmpty(Split(prefix)) + NonEmpty(Split(rest))
  {
    var a := prefix[..|prefix| - 1];
    assert prefix == a + "/";
    SegmentsAtSlash(a, rest);
    SegmentsOfDir(a);
  }

  lemma {:induction false} WildSegments(pattern: string)
    requires !Wild(pattern)
    ensures forall s | s in Split(pattern) :: !Wild(s)
  {
    if pattern != "" {
      WildSegments(pattern[1..]);
      var rest := Split(pattern[1..]);
      assert rest[0] in rest;
    }
  }
}
