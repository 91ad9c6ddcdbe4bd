/** Slash-separated paths: splitting into components and joining them again. */
module Paths {

  /** Components between slashes; the empty text has one empty component. */
  function Split(s: string): (r: seq<string>)
    ensures r != []
  {
    if s == "" then [""]
    else if s[0] == '/' then [""] + Split(s[1..])
    else
      var rest := Split(s[1..]);
      [[s[0]] + rest[0]] + rest[1..]
  }

  function Join(parts: seq<string>): string
    requires parts != []
  {
    if |parts| == 1 then parts[0] else parts[0] + "/" + Join(parts[1..])
  }

  /** A path all of whose components are non-empty, so without stray slashes. */
  predicate NormalPath(s: string) {
    forall c | c in Split(s) :: c != ""
  }

  lemma {:induction false} SplitComponents(s: string)
    ensures forall c | c in Split(s) :: '/' !in c
    ensures |Split(s)| == 1 <==> '/' !in s
  {
    if s != "" {
      SplitComponents(s[1..]);
      if s[0] == '/' {
        assert s[0] in s;
      } else {
        var rest := Split(s[1..]);
        assert s == [s[0]] + s[1..];
        assert rest[0] in rest;
      }
    }
  }

  lemma JoinPrepend(c: char, parts: seq<string>)
    requires parts != []
    ensures Join([[c] + parts[0]] + parts[1..]) == [c] + Join(parts)
  {
    var longer := [[c] + parts[0]] + parts[1..];
    assert longer[1..] == parts[1..];
    if |parts| > 1 {
      assert [c] + parts[0] + "/" + Join(parts[1..]) == [c] + (parts[0] + "/" + Join(parts[1..]));
    }
  }

  lemma JoinEmptyFirst(parts: seq<string>)
    requires parts != []
    ensures Join([""] + parts) == ['/'] + Join(parts)
  {
    assert ([""] + parts)[1..] == parts;
    assert "" + "/" + Join(parts) == ['/'] + Join(parts);
  }

  lemma {:induction false} JoinSplit(s: string)
    ensures Join(Split(s)) == s
  {
    if s != "" {
      JoinSplit(s[1..]);
      if s[0] == '/' {
        JoinEmptyFirst(Split(s[1..]));
      } else {
        JoinPrepend(s[0], Split(s[1..]));
      }
      assert s == [s[0]] + s[1..];
    }
  }

  lemma SplitSlash(s: string)
    ensures Split(['/'] + s) == [""] + Split(s)
  {
    assert (['/'] + s)[1..] == s;
  }

  lemma SplitCons(c: char, s: string)
    requires c != '/'
    ensures Split([c] + s) == [[c] + Split(s)[0]] + Split(s)[1..]
  {
    assert ([c] + s)[1..] == s;
  }

  /** A slash ends one component and begins the next. */
  lemma {:induction false} SplitAtSlash(a: string, b: string)
    ensures Split(a + "/" + b) == Split(a) + Split(b)
  {
    if a == "" {
      assert a + "/" + b == ['/'] + b;
      SplitSlash(b);
    } else {
      var c, rest := a[0], a[1..] + "/" + b;
      assert a == [c] + a[1..] && a + "/" + b == [c] + rest;
      SplitAtSlash(a[1..], b);
      if c == '/' {
        SplitSlash(rest);
        SplitSlash(a[1..]);
        assert [""] + (Split(a[1..]) + Split(b)) == [""] + Split(a[1..]) + Split(b);
      } else {
        SplitCons(c, rest);
        SplitCons(c, a[1..]);
        ConsFirst(c, Split(a[1..]), Split(b));
      }
    }
  }

  lemma ConsFirst(c: char, x: seq<string>, y: seq<string>)
    requires x != []
    ensures [[c] + (x + y)[0]] + (x + y)[1..] == [[c] + x[0]] + x[1..] + y
  {
    assert (x + y)[0] == x[0] && (x + y)[1..] == x[1..] + y;
  }

  lemma {:induction false} SplitPlain(s: string)
    requires '/' !in s
    ensures Split(s) == [s]
  {
    if s != "" {
      assert s == [s[0]] + s[1..];
      SplitPlain(s[1..]);
    }
  }

  lemma {:induction false} SplitJoin(parts: seq<string>)
    requires parts != [] && forall c | c in parts :: '/' !in c
    ensures Split(Join(parts)) == parts
  {
    SplitPlain(parts[0]);
    if |parts| > 1 {
      SplitJoin(parts[1..]);
      SplitAtSlash(parts[0], Join(parts[1..]));
      assert parts == [parts[0]] + parts[1..];
    }
  }
}
