/**
 When the containment test between two patterns may be trusted to mean that
 every path the child matches the parent matches: which pairs it is right about,
 and that it is wrong about the others.
 */
module Containment {
  import opened Paths
  import opened Globs

  /** Every ordinary path the child matches, the parent matches. */
  ghost predicate Includes(child: string, parent: string) {
    forall path | NormalPath(path) && Matches(child, path) :: Matches(parent, path)
  }

  // ------------------------------------------------------- what a caller checks

  /** The text before a trailing `**`. */
  function Stem(parent: string): string
    requires EndsInStars(parent)
  {
    parent[..|parent| - 2]
  }

  /** A trailing `**` that is only the end of a segment. */
  predicate Cut(parent: string) {
    EndsInStars(parent) && |parent| > 2 && parent[|parent| - 3] != '/'
  }

  function Last(parts: seq<string>): string
    requires parts != []
  {
    parts[|parts| - 1]
  }

  function Marks(seg: string): nat {
    if seg == "" then 0 else (if seg[0] == '?' then 1 else 0) + Marks(seg[1..])
  }

  /** Stars and at most one question mark: such a segment takes any name. */
  predicate AnyName(seg: string) {
    (forall c | c in seg :: c == '*' || c == '?') && '*' in seg && Marks(seg) <= 1
  }

  /** A child without a slash matches names at any depth; a parent with one has to begin with anything. */
  predicate SafeName(parent: string) {
    '/' !in parent || (NormalPath(parent) && (Split(parent)[0] == "**" || AnyName(Split(parent)[0])))
  }

  /** Under a cut parent the child may only go on within the segment that was cut. */
  predicate SafeCut(child: string, parent: string)
    requires Cut(parent)
  {
    || (!Wild(child) && Matches(parent, child))
    || (Stem(parent) <= child
        && if '/' in parent then '/' !in child[|parent| - 2..] && Last(Split(child)) != "**"
           else Stem(parent) <= Last(Split(child)))
  }

  /** The pairs the containment test is right about. */
  predicate Safe(child: string, parent: string) {
    || child == parent
    || if '/' !in child then SafeName(parent)
       else NormalPath(child) && (Cut(parent) ==> SafeCut(child, parent))
  }

  // -------------------------------------------------------- within one segment

  lemma {:induction false} CharsSplit(a: string, b: string, s: string) returns (i: nat)
    requires MatchChars(a + b, s)
    ensures i <= |s| && MatchChars(a, s[..i]) && MatchChars(b, s[i..])
    decreases |a|
  {
    if a == "" {
      assert a + b == b && s[0..] == s;
      i := 0;
    } else {
      assert (a + b)[0] == a[0] && (a + b)[1..] == a[1..] + b;
      var j: nat := 1;
      if a[0] == '*' {
        j :| 0 <= j <= |s| && MatchChars((a + b)[1..], s[j..]);
      }
      var k := CharsSplit(a[1..], b, s[j..]);
      i := j + k;
      assert s[..i][j..] == s[j..][..k] && s[i..] == s[j..][k..];
    }
  }

  lemma {:induction false} CharsJoin(a: string, b: string, s: string, i: nat)
    requires i <= |s| && MatchChars(a, s[..i]) && MatchChars(b, s[i..])
    ensures MatchChars(a + b, s)
    decreases |a|
  {
    if a == "" {
      assert a + b == b && s[i..] == s;
    } else {
      assert (a + b)[0] == a[0] && (a + b)[1..] == a[1..] + b;
      var j: nat := 1;
      if a[0] == '*' {
        j :| 0 <= j <= i && MatchChars(a[1..], s[..i][j..]);
      }
      assert s[..i][j..] == s[j..][..i - j] && s[i..] == s[j..][i - j..];
      CharsJoin(a[1..], b, s[j..], i - j);
    }
  }

  lemma {:induction false} StarsTakeAny(s: string)
    ensures MatchChars("**", s) && MatchChars("*", s)
  {
    assert "**"[1..] == "*" && "*"[1..] == "";
    assert MatchChars("*"[1..], s[|s|..]);
    assert s[0..] == s;
    assert MatchChars("**"[1..], s[0..]);
  }

  /** A name is all that a stem and `**` ask, whatever followed the stem. */
  lemma CharsCover(stem: string, rest: string, s: string)
    requires MatchChars(stem + rest, s)
    ensures MatchChars(stem + "**", s)
  {
    var i := CharsSplit(stem, rest, s);
    StarsTakeAny(s[i..]);
    CharsJoin(stem, "**", s, i);
  }

  // ------------------------------------------------------------ last component

  lemma OneSegment(p: string, s: string)
    ensures MatchSegments([p], [s]) <==> MatchChars(p, s)
  {
    assert [p][1..] == [] && [s][1..] == [];
    if p == "**" {
      StarsMatchAll([s]);
      StarsTakeAny(s);
    }
  }

  /** Whatever a pattern matches, its last segment takes the last component. */
  lemma {:induction false} LastTaken(pat: seq<string>, segs: seq<string>)
    requires pat != [] && segs != [] && MatchSegments(pat, segs)
    ensures MatchChars(Last(pat), Last(segs))
  {
    var front := pat[..|pat| - 1];
    assert pat == front + [Last(pat)];
    if Last(pat) == "**" {
      StarsTakeAny(Last(segs));
    } else {
      var i := MatchSplits(front, [Last(pat)], segs);
      assert [Last(pat)][1..] == [];
      assert segs[i..] == [Last(segs)];
    }
  }

  /** A slash-free pattern asks for the last component only. */
  lemma NameMatches(p: string, path: string)
    requires '/' !in p && NormalPath(path)
    ensures Matches(p, path) <==> MatchChars(p, Last(Split(path)))
  {
    NormalFacts(path);
    SlashFree(p);
    LastAsked(p, Split(path));
  }

  /** `**` and a segment ask only that the segment takes the last component. */
  lemma LastAsked(p: string, segs: seq<string>)
    requires segs != []
    ensures MatchSegments(["**", p], segs) <==> MatchChars(p, Last(segs))
  {
    if MatchSegments(["**", p], segs) {
      LastTaken(["**", p], segs);
    }
    if MatchChars(p, Last(segs)) {
      var k := |segs| - 1;
      OneSegment(p, Last(segs));
      StarsMatchAll(segs[..k]);
      assert segs[k..] == [Last(segs)];
      MatchJoins(["**"], [p], segs, k);
      assert ["**"] + [p] == ["**", p];
    }
  }

  lemma SlashFree(p: string)
    requires '/' !in p
    ensures TrimSlashes(p) == p
  {
    assert p != "" ==> p[0] in p;
  }

  lemma SlashedMatches(p: string, path: string)
    requires NormalPath(p) && '/' in p && NormalPath(path)
    ensures Matches(p, path) <==> MatchSegments(Split(p), Split(path))
  {
    NormalFacts(p);
    NormalFacts(path);
  }

  lemma NameIsPath(name: string)
    requires name != "" && '/' !in name
    ensures NormalPath(name) && Split(name) == [name]
  {
    SplitPlain(name);
  }

  lemma LastOfNormal(path: string)
    requires NormalPath(path)
    ensures Last(Split(path)) != "" && '/' !in Last(Split(path))
  {
    SplitComponents(path);
    assert Last(Split(path)) in Split(path);
  }

  // ------------------------------------------------------------------ soundness

  lemma StemCovers(child: string, parent: string, name: string)
    requires EndsInStars(parent) && Stem(parent) <= child && MatchChars(child, name)
    ensures MatchChars(parent, name)
  {
    var stem, rest := Stem(parent), child[|parent| - 2..];
    assert parent == stem + "**";
    assert child == stem + rest;
    CharsCover(stem, rest, name);
  }

  lemma NameCovers(child: string, parent: string, name: string)
    requires '/' !in child && '/' !in parent && Contained(child, parent) && MatchChars(child, name) && name != ""
    ensures MatchChars(parent, name)
  {
    if EndsInStars(parent) && Stem(parent) <= child {
      StemCovers(child, parent, name);
    } else if child != parent {
      LiteralChars(child, name);
      NameIsPath(name);
      NameMatches(parent, name);
    }
  }

  /** Between patterns without a slash the test is always right. */
  lemma {:induction false} NamesContained(child: string, parent: string, path: string)
    requires '/' !in child && '/' !in parent && Contained(child, parent)
    requires NormalPath(path) && Matches(child, path)
    ensures Matches(parent, path)
  {
    NameMatches(child, path);
    NameMatches(parent, path);
    LastOfNormal(path);
    NameCovers(child, parent, Last(Split(path)));
  }

  lemma {:induction false} StarsEnd(pat: seq<string>, segs: seq<string>)
    requires pat != [] && MatchSegments(pat, [])
    ensures MatchSegments(pat, segs)
  {
    assert pat[0] == "**" && MatchSegments(pat[1..], []);
    if |pat| > 1 {
      StarsEnd(pat[1..], segs);
      assert segs[0..] == segs;
    } else {
      assert segs[|segs|..] == [];
    }
  }

  lemma {:induction false} MarksMatch(seg: string, s: string)
    requires (forall c | c in seg :: c == '?') && Marks(seg) == |s|
    ensures MatchChars(seg, s)
  {
    if seg != "" {
      assert seg[0] in seg && forall c | c in seg[1..] :: c in seg;
      MarksMatch(seg[1..], s[1..]);
    }
  }

  lemma {:induction false} WildTakes(seg: string, s: string)
    requires (forall c | c in seg :: c == '*' || c == '?') && '*' in seg && Marks(seg) <= |s|
    ensures MatchChars(seg, s)
    decreases |seg|
  {
    var tail := seg[1..];
    assert seg[0] in seg && forall c | c in tail :: c in seg;
    if seg[0] == '?' {
      WildTakes(tail, s[1..]);
    } else if '*' in tail {
      WildTakes(tail, s);
      assert s[0..] == s;
    } else {
      MarksMatch(tail, s[|s| - Marks(tail)..]);
    }
  }

  lemma LiteralParentless(child: string, parent: string)
    requires '/' !in child && '/' in parent && Contained(child, parent) && NormalPath(parent)
    ensures !Wild(child) && (child != "" ==> MatchSegments(Split(parent), [child]))
  {
    if EndsInStars(parent) {
      assert parent == Stem(parent) + "**";
      assert "**"[0] == '*' && "**"[1] == '*';
      assert '/' in Stem(parent);
    }
    if child != "" {
      NameIsPath(child);
      SlashedMatches(parent, child);
    }
  }

  /** A literal name is contained in a parent with directories: right when those may be any. */
  lemma {:induction false} NameUnderDirs(child: string, parent: string, path: string)
    requires '/' !in child && '/' in parent && Contained(child, parent) && SafeName(parent)
    requires NormalPath(path) && Matches(child, path)
    ensures Matches(parent, path)
  {
    var pat, segs := Split(parent), Split(path);
    NameMatches(child, path);
    LastOfNormal(path);
    LiteralParentless(child, parent);
    LiteralChars(child, Last(segs));
    SlashedMatches(parent, path);
    if pat[0] == "**" {
      var i :| 0 <= i <= 1 && MatchSegments(pat[1..], [child][i..]);
      assert segs[|segs| - 1 + i..] == [child][i..];
    } else {
      assert [child][1..] == [];
      SplitComponents(parent);
      StarsEnd(pat[1..], segs[1..]);
      assert segs[0] in segs;
      WildTakes(pat[0], segs[0]);
    }
  }

  /** Text without a slash only lengthens the last component. */
  lemma {:induction false} SplitAppend(a: string, x: string)
    requires '/' !in x
    ensures Split(a + x) == Split(a)[..|Split(a)| - 1] + [Last(Split(a)) + x]
  {
    if a == "" {
      SplitPlain(x);
      assert a + x == x && "" + x == x;
    } else {
      assert (a + x)[0] == a[0] && (a + x)[1..] == a[1..] + x;
      SplitAppend(a[1..], x);
      if a[0] != '/' {
        var rest := Split(a[1..]);
        if |rest| == 1 {
          assert [a[0]] + (rest[0] + x) == [a[0]] + rest[0] + x;
        }
      }
    }
  }

  lemma CutSegments(child: string, parent: string)
    requires Cut(parent) && Stem(parent) <= child && NormalPath(child) && '/' !in child[|parent| - 2..]
    ensures var front, name := Split(Stem(parent))[..|Split(Stem(parent))| - 1], Last(Split(Stem(parent)));
            Split(child) == front + [name + child[|parent| - 2..]] && Split(parent) == front + [name + "**"]
    ensures NormalPath(parent)
  {
    assert parent == Stem(parent) + "**" && child == Stem(parent) + child[|parent| - 2..];
    SplitAppend(Stem(parent), "**");
    SplitAppend(Stem(parent), child[|parent| - 2..]);
    var front := Split(Stem(parent))[..|Split(Stem(parent))| - 1];
    assert forall c | c in front :: c in Split(child);
  }

  lemma {:induction false} CutWithin(child: string, parent: string, path: string)
    requires Cut(parent) && '/' in child && '/' in parent && NormalPath(child)
    requires Stem(parent) <= child && '/' !in child[|parent| - 2..] && Last(Split(child)) != "**"
    requires NormalPath(path) && Matches(child, path)
    ensures Matches(parent, path)
  {
    CutSegments(child, parent);
    SlashedMatches(child, path);
    SlashedMatches(parent, path);
    var segs, rest := Split(path), child[|parent| - 2..];
    var front, name := Split(Stem(parent))[..|Split(Stem(parent))| - 1], Last(Split(Stem(parent)));
    var i := MatchSplits(front, [name + rest], segs);
    assert [name + rest][1..] == [];
    assert segs[i..] == [segs[i]];
    CharsCover(name, rest, segs[i]);
    OneSegment(name + "**", segs[i]);
    MatchJoins(front, [name + "**"], segs, i);
  }

  lemma {:induction false} CutName(child: string, parent: string, path: string)
    requires Cut(parent) && '/' in child && '/' !in parent && NormalPath(child)
    requires Stem(parent) <= Last(Split(child)) && NormalPath(path) && Matches(child, path)
    ensures Matches(parent, path)
  {
    var last := Last(Split(child));
    SlashedMatches(child, path);
    LastTaken(Split(child), Split(path));
    assert last == Stem(parent) + last[|parent| - 2..] && parent == Stem(parent) + "**";
    CharsCover(Stem(parent), last[|parent| - 2..], Last(Split(path)));
    NameMatches(parent, path);
  }

  /** A literal path the parent matches is the only path the child matches. */
  lemma {:induction false} LiteralPath(child: string, parent: string, path: string)
    requires !Wild(child) && NormalPath(child) && '/' in child && NormalPath(path) && Matches(child, path)
    ensures child == path
  {
    SlashedMatches(child, path);
    WildSegments(child);
    LiteralSegments(Split(child), Split(path));
    JoinSplit(child);
    JoinSplit(path);
  }

  lemma {:induction false} StarsContain(prefix: string, rest: string, path: string)
    requires prefix == "" || prefix[|prefix| - 1] == '/'
    requires NormalPath(prefix + rest) && '/' in prefix + rest && NormalPath(path) && Matches(prefix + rest, path)
    ensures Matches(prefix + "**", path)
  {
    var child, parent := prefix + rest, prefix + "**";
    NormalFacts(child);
    NormalFacts(path);
    if prefix == "" {
      SplitComponents(parent);
      DoubleStarsMatchAll(Split(path));
      assert TrimSlashes(parent) == "**";
    } else {
      assert child[0] == prefix[0] == parent[0];
      assert TrimSlashes(parent) == parent;
      assert parent[|prefix| - 1] in parent;
      SegmentsOfPrefix(prefix, rest);
      SegmentsOfPrefix(prefix, "**");
      SplitPlain("**");
      StarsCoverSuffix(NonEmpty(Split(prefix)), NonEmpty(Split(rest)), Split(path));
    }
  }

  /** Containment of a safe pair is inclusion. */
  lemma {:induction false} ContainedSound(child: string, parent: string, path: string)
    requires Contained(child, parent) && Safe(child, parent) && NormalPath(path) && Matches(child, path)
    ensures Matches(parent, path)
  {
    if child == parent {
    } else if '/' !in child {
      if '/' in parent {
        NameUnderDirs(child, parent, path);
      } else {
        NamesContained(child, parent, path);
      }
    } else if !Wild(child) && Matches(parent, child) {
      LiteralPath(child, parent, path);
    } else if !Cut(parent) {
      var prefix := Stem(parent);
      assert parent == prefix + "**" && child == prefix + child[|prefix|..];
      StarsContain(prefix, child[|prefix|..], path);
    } else if '/' in parent {
      CutWithin(child, parent, path);
    } else {
      CutName(child, parent, path);
    }
  }

  // ------------------------------------------------- what the other pairs miss

  /** A name for a segment: stars and marks become one character each, unlike the one to avoid there. */
  function Filled(seg: string, unlike: string): string {
    if seg == "" then ""
    else
      [if seg[0] == '*' || seg[0] == '?' then Other(unlike) else seg[0]]
      + Filled(seg[1..], if unlike == "" then "" else unlike[1..])
  }

  function Other(unlike: string): char {
    if unlike != "" && unlike[0] == 'a' then 'b' else 'a'
  }

  lemma {:induction false} FilledMatches(seg: string, unlike: string)
    ensures MatchChars(seg, Filled(seg, unlike)) && |Filled(seg, unlike)| == |seg|
    ensures '/' !in seg ==> '/' !in Filled(seg, unlike)
  {
    if seg != "" {
      FilledMatches(seg[1..], if unlike == "" then "" else unlike[1..]);
      var name := Filled(seg, unlike);
      assert seg == [seg[0]] + seg[1..];
      assert name[1..] == Filled(seg[1..], if unlike == "" then "" else unlike[1..]);
    }
  }

  /** Only a segment that begins with the literal stem has nothing but names that do. */
  lemma {:induction false} FilledAvoids(seg: string, stem: string)
    requires !Wild(stem) && stem <= Filled(seg, stem)
    ensures stem <= seg
  {
    if stem != "" {
      var name := Filled(seg, stem);
      assert stem[0] == name[0] && stem[0] in stem;
      assert name[1..] == Filled(seg[1..], stem[1..]) && stem[1..] <= name[1..];
      assert forall c | c in stem[1..] :: c in stem;
      FilledAvoids(seg[1..], stem[1..]);
      assert seg == [seg[0]] + seg[1..] && stem == [stem[0]] + stem[1..];
    }
  }

  /** Components a pattern matches, each `**` taking `k`, no one beginning with the given literal by accident. */
  function Sample(pat: seq<string>, k: nat, unlike: string): seq<string> {
    if pat == [] then []
    else (if pat[0] == "**" then seq(k, _ => Filled("*", unlike)) else [Filled(pat[0], unlike)])
         + Sample(pat[1..], k, unlike)
  }

  function Stars(pat: seq<string>): nat {
    if pat == [] then 0 else (if pat[0] == "**" then 1 else 0) + Stars(pat[1..])
  }

  lemma {:induction false} StarsSeen(pat: seq<string>)
    ensures Stars(pat) == 0 <==> "**" !in pat
  {
    if pat != [] {
      StarsSeen(pat[1..]);
      assert pat == [pat[0]] + pat[1..];
    }
  }

  lemma {:induction false} SampleMatches(pat: seq<string>, k: nat, unlike: string)
    ensures MatchSegments(pat, Sample(pat, k, unlike))
    ensures |Sample(pat, k, unlike)| == |pat| - Stars(pat) + k * Stars(pat)
  {
    if pat != [] {
      var first := if pat[0] == "**" then seq(k, _ => Filled("*", unlike)) else [Filled(pat[0], unlike)];
      var rest := Sample(pat[1..], k, unlike);
      SampleMatches(pat[1..], k, unlike);
      FilledMatches(pat[0], unlike);
      assert (first + rest)[|first|..] == rest;
      assert k * (1 + Stars(pat[1..])) == k + k * Stars(pat[1..]);
    }
  }

  lemma {:induction false} SampleNames(pat: seq<string>, k: nat, unlike: string)
    requires forall c | c in pat :: c != "" && '/' !in c
    ensures forall c | c in Sample(pat, k, unlike) :: c != "" && '/' !in c
  {
    if pat != [] {
      assert pat[0] in pat && forall c | c in pat[1..] :: c in pat;
      SampleNames(pat[1..], k, unlike);
      FilledMatches(pat[0], unlike);
      FilledMatches("*", unlike);
    }
  }

  lemma {:induction false} SampleLast(pat: seq<string>, k: nat, unlike: string)
    requires pat != [] && k > 0
    ensures Sample(pat, k, unlike) != []
    ensures Last(Sample(pat, k, unlike)) == Filled(if Last(pat) == "**" then "*" else Last(pat), unlike)
  {
    if |pat| > 1 {
      SampleLast(pat[1..], k, unlike);
    }
  }

  /** A path a slashed pattern matches. */
  lemma {:induction false} SamplePath(p: string, k: nat, unlike: string) returns (path: string)
    requires NormalPath(p) && '/' in p && k > 0
    ensures NormalPath(path) && Matches(p, path) && Split(path) == Sample(Split(p), k, unlike)
  {
    var names := Sample(Split(p), k, unlike);
    SplitComponents(p);
    SampleNames(Split(p), k, unlike);
    SampleMatches(Split(p), k, unlike);
    SampleLast(Split(p), k, unlike);
    path := Join(names);
    SplitJoin(names);
    SlashedMatches(p, path);
  }

  lemma {:induction false} FixedLength(pat: seq<string>, segs: seq<string>)
    requires "**" !in pat && MatchSegments(pat, segs)
    ensures |segs| == |pat|
  {
    if pat != [] {
      assert pat[0] in pat;
      assert forall c | c in pat[1..] :: c in pat;
      FixedLength(pat[1..], segs[1..]);
    }
  }

  lemma {:induction false} SplitLength(a: string, b: string)
    ensures |Split(a + b)| == |Split(a)| + |Split(b)| - 1
  {
    if a == "" {
      assert a + b == b;
    } else {
      assert (a + b)[0] == a[0] && (a + b)[1..] == a[1..] + b;
      SplitLength(a[1..], b);
    }
  }

  /** All the child's samples are as deep as the parent. */
  lemma SampleDepth(child: string, parent: string, k: nat)
    requires NormalPath(child) && NormalPath(parent) && '/' in child && '/' in parent && k > 0
    requires "**" !in Split(parent) && Includes(child, parent)
    ensures |Split(parent)| == |Split(child)| - Stars(Split(child)) + k * Stars(Split(child))
  {
    var path := SamplePath(child, k, "");
    SlashedMatches(parent, path);
    FixedLength(Split(parent), Split(path));
    SampleMatches(Split(child), k, "");
  }

  /** Without a `**` above the cut, a child that leaves the segment matches paths of other depths. */
  lemma {:induction false} CutMisses(child: string, parent: string)
    requires NormalPath(child) && NormalPath(parent) && '/' in child && '/' in parent
    requires Cut(parent) && "**" !in Split(parent) && Stem(parent) <= child && Includes(child, parent)
    ensures '/' !in child[|parent| - 2..] && Last(Split(child)) != "**"
  {
    SampleDepth(child, parent, 1);
    SampleDepth(child, parent, 2);
    StarsSeen(Split(child));
    assert Last(Split(child)) in Split(child);
    assert parent == Stem(parent) + "**" && child == Stem(parent) + child[|parent| - 2..];
    SplitLength(Stem(parent), "**");
    SplitLength(Stem(parent), child[|parent| - 2..]);
    SplitPlain("**");
    SplitComponents(child[|parent| - 2..]);
  }

  /** Under a cut parent without a slash, a last segment that does not begin with the stem has other names. */
  lemma {:induction false} CutNameMisses(child: string, parent: string)
    requires NormalPath(child) && '/' in child && '/' !in parent
    requires Cut(parent) && !Wild(Stem(parent)) && Includes(child, parent)
    ensures Stem(parent) <= Last(Split(child))
  {
    var stem, last := Stem(parent), Last(Split(child));
    var path := SamplePath(child, 1, stem);
    SampleLast(Split(child), 1, stem);
    NameMatches(parent, path);
    assert parent == stem + "**";
    var i := CharsSplit(stem, "**", Last(Split(path)));
    LiteralChars(stem, Last(Split(path))[..i]);
    var seg := if last == "**" then "*" else last;
    FilledAvoids(seg, stem);
  }

  lemma {:induction false} NeedsChar(seg: string, c: char, s: string)
    requires MatchChars(seg, s) && c in seg && c != '*' && c != '?'
    ensures c in s
    decreases |seg|
  {
    if seg[0] == '*' {
      var i :| 0 <= i <= |s| && MatchChars(seg[1..], s[i..]);
      NeedsChar(seg[1..], c, s[i..]);
    } else if seg[0] != c {
      NeedsChar(seg[1..], c, s[1..]);
    }
  }

  lemma {:induction false} NeedsLength(seg: string, s: string)
    requires MatchChars(seg, s)
    ensures Marks(seg) <= |s| && ('*' !in seg ==> |s| == |seg|)
    decreases |seg|
  {
    if seg != "" {
      assert seg == [seg[0]] + seg[1..];
      var j: nat := 1;
      if seg[0] == '*' {
        j :| 0 <= j <= |s| && MatchChars(seg[1..], s[j..]);
      }
      NeedsLength(seg[1..], s[j..]);
    }
  }

  /** A segment that is not made to take any name misses one. */
  lemma {:induction false} MissedName(seg: string) returns (name: string)
    requires !AnyName(seg)
    ensures name != "" && '/' !in name && !MatchChars(seg, name)
  {
    if c :| c in seg && c != '*' && c != '?' {
      name := if c == 'a' then "b" else "a";
      if MatchChars(seg, name) {
        NeedsChar(seg, c, name);
      }
    } else {
      name := if '*' !in seg && |seg| == 1 then "aa" else "a";
      if MatchChars(seg, name) {
        NeedsLength(seg, name);
      }
    }
  }

  /** A name is found at any depth. */
  lemma {:induction false} NameBelow(child: string, dir: string) returns (path: string)
    requires NormalPath(child) && '/' !in child && !Wild(child) && dir != "" && '/' !in dir
    ensures NormalPath(path) && Split(path) == [dir, child] && Matches(child, path)
  {
    SplitPlain(child);
    assert Split(child) == [child];
    path := Join([dir, child]);
    SplitJoin([dir, child]);
    LiteralChars(child, child);
    NameMatches(child, path);
  }

  /** A literal name is also found below a directory the parent cannot begin with. */
  lemma {:induction false} NameMisses(child: string, parent: string)
    requires NormalPath(child) && NormalPath(parent) && '/' !in child && '/' in parent
    requires Contained(child, parent) && Includes(child, parent)
    ensures SafeName(parent)
  {
    var first := Split(parent)[0];
    if first != "**" && !AnyName(first) {
      var dir := MissedName(first);
      LiteralParentless(child, parent);
      var path := NameBelow(child, dir);
      SlashedMatches(parent, path);
    }
  }

  /**
   The text before the cut is plain: no `**` among the directories or, if there
   are none, no wildcard at all.
   */
  predicate PlainCut(parent: string)
    requires Cut(parent)
  {
    if '/' in parent then "**" !in Split(parent) else !Wild(Stem(parent))
  }

  /** Between patterns without stray slashes the test is right about a pair exactly when it is safe. */
  lemma {:induction false} ContainedExactly(child: string, parent: string)
    requires NormalPath(child) && NormalPath(parent) && Contained(child, parent)
    requires '/' in child && Cut(parent) ==> PlainCut(parent)
    ensures Includes(child, parent) <==> Safe(child, parent)
  {
    if Safe(child, parent) {
      forall path | NormalPath(path) && Matches(child, path) ensures Matches(parent, path) {
        ContainedSound(child, parent, path);
      }
    } else if Includes(child, parent) {
      if '/' !in child {
        NameMisses(child, parent);
      } else if '/' in parent {
        CutMisses(child, parent);
      } else {
        CutNameMisses(child, parent);
      }
    }
  }

  // ------------------------------------------------------------------ examples

  lemma SplitTwo(a: string, b: string)
    requires a != "" && b != "" && '/' !in a && '/' !in b
    ensures Split(a + "/" + b) == [a, b] && NormalPath(a + "/" + b) && '/' in a + "/" + b
  {
    SplitPlain(a);
    SplitPlain(b);
    SplitAtSlash(a, b);
    assert (a + "/" + b)[|a|] == '/';
  }

  lemma UnderName(name: string, segs: seq<string>)
    requires !Wild(name) && segs != []
    ensures MatchSegments([name, "**"], segs) <==> segs[0] == name
  {
    assert [name, "**"][1..] == ["**"];
    assert name != "**" by {
      assert "**"[0] == '*';
    }
    StarsMatchAll(segs[1..]);
    LiteralChars(name, segs[0]);
  }

  /** A slash-free child is tested as one path, yet it matches at any depth. */
  lemma {:induction false} NameEscapes(name: string, dir: string)
    requires name != "" && dir != "" && '/' !in name && '/' !in dir && !Wild(name) && name != dir
    ensures Contained(name, name + "/" + "**")
    ensures Matches(name, dir + "/" + name) && !Matches(name + "/" + "**", dir + "/" + name)
  {
    SplitTwo(name, "**");
    SplitTwo(dir, name);
    NameIsPath(name);
    SlashedMatches(name + "/" + "**", name);
    SlashedMatches(name + "/" + "**", dir + "/" + name);
    UnderName(name, [name]);
    UnderName(name, [dir, name]);
    LiteralChars(name, name);
    NameMatches(name, dir + "/" + name);
  }

  lemma SlashFreeChildEscapes()
    ensures Contained("x", "x/**") && Matches("x", "a/x") && !Matches("x/**", "a/x")
  {
    assert !Wild("x");
    NameEscapes("x", "a");
    assert "x" + "/" + "**" == "x/**" && "a" + "/" + "x" == "a/x";
  }

  /** A `**` inside a segment is cut as if it were whole, yet takes one name only. */
  lemma {:induction false} CutEscapes(stem: string, name: string)
    requires stem != "" && name != "" && '/' !in stem && '/' !in name && !Wild(stem) && !Wild(name) && !(stem <= name)
    ensures Contained(stem + "/" + name, stem + "**")
    ensures Matches(stem + "/" + name, stem + "/" + name) && !Matches(stem + "**", stem + "/" + name)
  {
    var child, parent := stem + "/" + name, stem + "**";
    SplitTwo(stem, name);
    assert parent[..|parent| - 2] == stem <= child;
    SlashedMatches(child, child);
    LiteralSegments([stem, name], [stem, name]);
    NameMatches(parent, child);
    if MatchChars(parent, name) {
      var i := CharsSplit(stem, "**", name);
      LiteralChars(stem, name[..i]);
    }
  }

  lemma SplitStarsEscape()
    ensures Contained("s/y", "s**") && Matches("s/y", "s/y") && !Matches("s**", "s/y")
  {
    assert !Wild("s") && !Wild("y") && "s"[0] != "y"[0];
    CutEscapes("s", "y");
    assert "s" + "/" + "y" == "s/y" && "s" + "**" == "s**";
  }
}
