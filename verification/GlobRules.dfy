/**
 What a pattern matches, said without trying its wildcards: the text falls apart into
 one piece for each character of a segment, and the path into one for each segment.
 */
module GlobRules {
  import opened Paths
  import opened Globs

  function Joined<T>(parts: seq<seq<T>>): seq<T> {
    if parts == [] then [] else parts[0] + Joined(parts[1..])
  }

  /** `*` takes any text, `?` one character, any other character itself. */
  predicate CharTakes(c: char, piece: string) {
    c == '*' || (|piece| == 1 && (c == '?' || c == piece[0]))
  }

  ghost predicate CharsCut(p: string, pieces: seq<string>) {
    |pieces| == |p| && forall i | 0 <= i < |p| :: CharTakes(p[i], pieces[i])
  }

  ghost predicate CharsTake(p: string, s: string) {
    exists pieces :: CharsCut(p, pieces) && Joined(pieces) == s
  }

  /** `**` takes any components, any other segment one whose text it takes. */
  ghost predicate SegmentTakes(p: string, part: seq<string>) {
    p == "**" || (|part| == 1 && CharsTake(p, part[0]))
  }

  ghost predicate SegmentsCut(pat: seq<string>, parts: seq<seq<string>>) {
    |parts| == |pat| && forall i | 0 <= i < |pat| :: SegmentTakes(pat[i], parts[i])
  }

  ghost predicate SegmentsTake(pat: seq<string>, segs: seq<string>) {
    exists parts :: SegmentsCut(pat, parts) && Joined(parts) == segs
  }

  lemma CutMore<T>(head: seq<T>, parts: seq<seq<T>>)
    ensures Joined([head] + parts) == head + Joined(parts)
  {
    assert ([head] + parts)[1..] == parts;
  }

  lemma {:induction false} CharsMatched(p: string, s: string)
    requires MatchChars(p, s)
    ensures CharsTake(p, s)
    decreases |p|
  {
    if p == "" {
      assert CharsCut(p, []) && Joined<char>([]) == s;
    } else {
      var n: nat := 1;
      if p[0] == '*' {
        n :| 0 <= n <= |s| && MatchChars(p[1..], s[n..]);
      }
      CharsMatched(p[1..], s[n..]);
      var rest :| CharsCut(p[1..], rest) && Joined(rest) == s[n..];
      CutMore(s[..n], rest);
      assert CharsCut(p, [s[..n]] + rest) && s[..n] + s[n..] == s;
    }
  }

  lemma {:induction false} CharsMatch(p: string, pieces: seq<string>)
    requires CharsCut(p, pieces)
    ensures MatchChars(p, Joined(pieces))
    decreases |p|
  {
    if p != "" {
      var s, n := Joined(pieces), |pieces[0]|;
      assert CharTakes(p[0], pieces[0]);
      forall i | 0 <= i < |p[1..]| ensures CharTakes(p[1..][i], pieces[1..][i]) {
        assert CharTakes(p[i + 1], pieces[i + 1]);
      }
      CharsMatch(p[1..], pieces[1..]);
      assert s[n..] == Joined(pieces[1..]);
    }
  }

  lemma CharsExactly(p: string, s: string)
    ensures MatchChars(p, s) <==> CharsTake(p, s)
  {
    if MatchChars(p, s) {
      CharsMatched(p, s);
    }
    if pieces :| CharsCut(p, pieces) && Joined(pieces) == s {
      CharsMatch(p, pieces);
    }
  }

  lemma {:induction false} SegmentsMatched(pat: seq<string>, segs: seq<string>)
    requires MatchSegments(pat, segs)
    ensures SegmentsTake(pat, segs)
    decreases |pat|
  {
    if pat == [] {
      assert SegmentsCut(pat, []) && Joined<string>([]) == segs;
    } else {
      var n := FirstTakes(pat, segs);
      SegmentsMatched(pat[1..], segs[n..]);
      var rest :| SegmentsCut(pat[1..], rest) && Joined(rest) == segs[n..];
      if pat[0] != "**" {
        CharsExactly(pat[0], segs[0]);
      }
      FirstCut(pat, segs[..n], rest);
      assert segs[..n] + segs[n..] == segs;
    }
  }

  lemma FirstCut(pat: seq<string>, first: seq<string>, rest: seq<seq<string>>)
    requires pat != [] && SegmentTakes(pat[0], first) && SegmentsCut(pat[1..], rest)
    ensures SegmentsCut(pat, [first] + rest) && Joined([first] + rest) == first + Joined(rest)
  {
    CutMore(first, rest);
    forall i | 0 <= i < |pat| ensures SegmentTakes(pat[i], ([first] + rest)[i]) {
      assert i > 0 ==> pat[i] == pat[1..][i - 1];
    }
  }

  lemma {:induction false} SegmentsMatch(pat: seq<string>, parts: seq<seq<string>>)
    requires SegmentsCut(pat, parts)
    ensures MatchSegments(pat, Joined(parts))
    decreases |pat|
  {
    if pat != [] {
      var segs, n := Joined(parts), |parts[0]|;
      assert SegmentTakes(pat[0], parts[0]);
      if pat[0] != "**" {
        CharsExactly(pat[0], parts[0][0]);
      }
      forall i | 0 <= i < |pat[1..]| ensures SegmentTakes(pat[1..][i], parts[1..][i]) {
        assert SegmentTakes(pat[i + 1], parts[i + 1]);
      }
      SegmentsMatch(pat[1..], parts[1..]);
      assert segs[n..] == Joined(parts[1..]);
      TakesFirst(pat, segs, n);
    }
  }

  lemma SegmentsExactly(pat: seq<string>, segs: seq<string>)
    ensures MatchSegments(pat, segs) <==> SegmentsTake(pat, segs)
  {
    if MatchSegments(pat, segs) {
      SegmentsMatched(pat, segs);
    }
    if parts :| SegmentsCut(pat, parts) && Joined(parts) == segs {
      SegmentsMatch(pat, parts);
    }
  }

  /** `t` is what follows the leading slashes of `s`. */
  ghost predicate Trims(s: string, t: string) {
    exists a :: s == a + t && (forall c | c in a :: c == '/') && (t != "" ==> t[0] != '/')
  }

  lemma {:induction false} TrimGives(s: string) returns (a: string)
    ensures s == a + TrimSlashes(s) && forall c | c in a :: c == '/'
    ensures TrimSlashes(s) != "" ==> TrimSlashes(s)[0] != '/'
  {
    if s != "" && s[0] == '/' {
      var rest := TrimGives(s[1..]);
      a := "/" + rest;
      assert s == [s[0]] + s[1..];
    } else {
      a := "";
    }
  }

  lemma {:induction false} TrimIs(a: string, t: string)
    requires (forall c | c in a :: c == '/') && (t != "" ==> t[0] != '/')
    ensures TrimSlashes(a + t) == t
  {
    if a == "" {
      assert a + t == t;
    } else {
      assert a[0] in a && (a + t)[1..] == a[1..] + t;
      assert forall c | c in a[1..] :: c in a;
      TrimIs(a[1..], t);
    }
  }

  lemma TrimExactly(s: string, t: string)
    ensures Trims(s, t) <==> TrimSlashes(s) == t
  {
    var before := TrimGives(s);
    if a :| s == a + t && (forall c | c in a :: c == '/') && (t != "" ==> t[0] != '/') {
      TrimIs(a, t);
    }
  }

  /** A pattern of one segment asks only for the last component, one with directories for all that are not empty. */
  lemma MatchesExactly(pattern: string, path: string, p: string, t: string)
    requires Trims(pattern, p) && Trims(path, t)
    ensures '/' !in p ==> (Matches(pattern, path) <==> p == "**" || CharsTake(p, Split(t)[|Split(t)| - 1]))
    ensures '/' in p ==> (Matches(pattern, path) <==> SegmentsTake(NonEmpty(Split(p)), NonEmpty(Split(t))))
  {
    TrimExactly(pattern, p);
    TrimExactly(path, t);
    if '/' in p {
      SegmentsExactly(NonEmpty(Split(p)), NonEmpty(Split(t)));
    } else {
      var segs := Split(t);
      var last := segs[|segs| - 1];
      CharsExactly(p, last);
      LastComponent(p, segs);
    }
  }

  lemma {:induction false} LastComponent(p: string, segs: seq<string>)
    requires segs != []
    ensures MatchSegments(["**", p], segs) <==> p == "**" || MatchChars(p, segs[|segs| - 1])
  {
    var pat := ["**", p];
    assert pat[1..] == [p] && [p][1..] == [];
    if p == "**" {
      DoubleStarsMatchAll(segs);
    } else {
      forall i | 0 <= i <= |segs|
        ensures MatchSegments([p], segs[i..]) <==> i == |segs| - 1 && MatchChars(p, segs[|segs| - 1])
      {
        if i < |segs| {
          assert segs[i..][0] == segs[i] && segs[i..][1..] == segs[i + 1..];
        }
      }
      if MatchChars(p, segs[|segs| - 1]) {
        assert MatchSegments(pat[1..], segs[|segs| - 1..]);
      }
    }
  }
}
