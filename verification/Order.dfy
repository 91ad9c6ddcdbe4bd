/** String order, and sorting by a string key. */
module Order {

  /** Code point order, which is the byte order of UTF-8 text. */
  predicate Less(a: string, b: string) {
    b != [] && (a == [] || a[0] < b[0] || (a[0] == b[0] && Less(a[1..], b[1..])))
  }

  lemma {:induction false} LessTotal(a: string, b: string)
    ensures Less(a, b) || a == b || Less(b, a)
    ensures !(Less(a, b) && Less(b, a)) && !Less(a, a)
  {
    if a != [] && b != [] && a[0] == b[0] {
      LessTotal(a[1..], b[1..]);
      assert a == [a[0]] + a[1..] && b == [b[0]] + b[1..];
    }
    if a != [] {
      LessTotal(a[1..], a[1..]);
    }
  }

  /** A text is before another where it first differs from it by a lower character, or ends. */
  lemma {:induction false} LessExactly(a: string, b: string)
    ensures Less(a, b) <==>
            exists i :: 0 <= i <= |a| && i < |b| && a[..i] == b[..i] && (i == |a| || a[i] < b[i])
  {
    if b != [] && a != [] && a[0] == b[0] {
      LessExactly(a[1..], b[1..]);
      if i :| 0 <= i <= |a[1..]| && i < |b[1..]| && a[1..][..i] == b[1..][..i] &&
              (i == |a[1..]| || a[1..][i] < b[1..][i]) {
        DiffersOneOn(a, b, i);
      }
      if i :| 0 <= i <= |a| && i < |b| && a[..i] == b[..i] && (i == |a| || a[i] < b[i]) {
        assert a[1..][..i - 1] == a[..i][1..] && b[1..][..i - 1] == b[..i][1..];
      }
    } else if b != [] {
      assert a[..0] == b[..0];
      if i :| 0 <= i <= |a| && i < |b| && a[..i] == b[..i] && (i == |a| || a[i] < b[i]) {
        assert i > 0 ==> a[..i][0] == b[..i][0];
      }
    }
  }

  lemma DiffersOneOn(a: string, b: string, i: nat)
    requires a != [] && b != [] && a[0] == b[0] && i <= |a[1..]| && i < |b[1..]| && a[1..][..i] == b[1..][..i]
    ensures a[..i + 1] == b[..i + 1]
  {
    assert a[..i + 1] == [a[0]] + a[1..][..i] && b[..i + 1] == [b[0]] + b[1..][..i];
  }

  lemma {:induction false} LessTransitive(a: string, b: string, c: string)
    requires Less(a, b) && Less(b, c)
    ensures Less(a, c)
  {
    if a != [] && a[0] == b[0] && b[0] == c[0] {
      LessTransitive(a[1..], b[1..], c[1..]);
    }
  }

  // ------------------------------------------------------------------- sorting

  ghost predicate SortedBy<T(!new)>(s: seq<T>, key: T -> string) {
    forall i, j | 0 <= i < j < |s| :: Less(key(s[i]), key(s[j]))
  }

  ghost predicate DistinctBy<T(!new)>(s: seq<T>, key: T -> string) {
    forall i, j | 0 <= i < j < |s| :: key(s[i]) != key(s[j])
  }

  /** Inserted before the first element whose key is greater. */
  function InsertBy<T(!new)>(x: T, s: seq<T>, key: T -> string): (r: seq<T>)
    ensures multiset(r) == multiset{x} + multiset(s)
  {
    if s == [] then [x]
    else if Less(key(x), key(s[0])) then
      assert [x] + s == [x] + s;
      [x] + s
    else
      assert s == [s[0]] + s[1..];
      [s[0]] + InsertBy(x, s[1..], key)
  }

  /** A stable sort. */
  function SortBy<T(!new)>(s: seq<T>, key: T -> string): (r: seq<T>)
    ensures multiset(r) == multiset(s)
  {
    if s == [] then []
    else
      assert s == s[..|s| - 1] + [s[|s| - 1]];
      InsertBy(s[|s| - 1], SortBy(s[..|s| - 1], key), key)
  }

  lemma SameMembers<T>(a: seq<T>, b: seq<T>)
    requires multiset(a) == multiset(b)
    ensures forall x :: x in a <==> x in b
    ensures |a| == |b|
  {
    assert |multiset(a)| == |a| && |multiset(b)| == |b|;
    forall x ensures x in a <==> x in b {
      assert x in a <==> x in multiset(a);
      assert x in b <==> x in multiset(b);
    }
  }

  lemma {:induction false} InsertSorted<T(!new)>(x: T, s: seq<T>, key: T -> string)
    requires SortedBy(s, key) && forall y | y in s :: key(y) != key(x)
    ensures SortedBy(InsertBy(x, s, key), key)
  {
    var r := InsertBy(x, s, key);
    if s == [] {
    } else if Less(key(x), key(s[0])) {
      forall y | y in s ensures Less(key(x), key(y)) {
        var j :| 0 <= j < |s| && s[j] == y;
        if j > 0 {
          LessTransitive(key(x), key(s[0]), key(s[j]));
        }
      }
    } else {
      LessTotal(key(x), key(s[0]));
      InsertSorted(x, s[1..], key);
      forall y | y in r[1..] ensures Less(key(s[0]), key(y)) {
        assert y in multiset(InsertBy(x, s[1..], key));
        if y != x {
          assert y in multiset(s[1..]);
          var j :| 0 <= j < |s[1..]| && s[1..][j] == y;
          assert s[j + 1] == y;
        }
      }
    }
  }

  lemma {:induction false} SortSorted<T(!new)>(s: seq<T>, key: T -> string)
    requires DistinctBy(s, key)
    ensures SortedBy(SortBy(s, key), key)
  {
    if s != [] {
      var init, last := s[..|s| - 1], s[|s| - 1];
      SortSorted(init, key);
      SameMembers(init, SortBy(init, key));
      InsertSorted(last, SortBy(init, key), key);
    }
  }

  /** One strictly sorted listing per set of elements. */
  lemma {:induction false} SortedUnique<T(!new)>(a: seq<T>, b: seq<T>, key: T -> string)
    requires SortedBy(a, key) && SortedBy(b, key) && forall x :: x in a <==> x in b
    ensures a == b
  {
    assert a != [] ==> a[0] in a;
    assert b != [] ==> b[0] in b;
    if a != [] {
      FirstIsLeast(a, key, b[0]);
      FirstIsLeast(b, key, a[0]);
      LessTotal(key(a[0]), key(b[0]));
      forall x ensures x in a[1..] <==> x in b[1..] {
        TailMember(a, key, x);
        TailMember(b, key, x);
      }
      SortedUnique(a[1..], b[1..], key);
      assert a == [a[0]] + a[1..] && b == [b[0]] + b[1..];
    }
  }

  lemma FirstIsLeast<T(!new)>(s: seq<T>, key: T -> string, x: T)
    requires SortedBy(s, key) && x in s
    ensures x == s[0] || Less(key(s[0]), key(x))
  {}

  lemma TailMember<T(!new)>(s: seq<T>, key: T -> string, x: T)
    requires SortedBy(s, key) && s != []
    ensures x in s[1..] <==> x in s && x != s[0]
  {
    assert s == [s[0]] + s[1..];
    if x in s[1..] {
      var j :| 0 <= j < |s[1..]| && s[1..][j] == x;
      assert Less(key(s[0]), key(s[j + 1]));
      LessTotal(key(x), key(x));
    }
  }

  // --------------------------------------------------------- sets of strings

  ghost predicate IsFirst(s: set<string>, m: string) {
    m in s && forall x | x in s && x != m :: Less(m, x)
  }

  lemma {:induction false} FirstExists(s: set<string>)
    requires s != {}
    ensures exists m :: IsFirst(s, m)
  {
    var y :| y in s;
    if s == {y} {
      assert IsFirst(s, y);
    } else {
      FirstExists(s - {y});
      var n :| IsFirst(s - {y}, n);
      LessTotal(y, n);
      if Less(y, n) {
        forall x | x in s && x != y && x != n ensures Less(y, x) {
          LessTransitive(y, n, x);
        }
        assert IsFirst(s, y);
      } else {
        assert IsFirst(s, n);
      }
    }
  }

  ghost predicate Rising(r: seq<string>) {
    forall i, j | 0 <= i < j < |r| :: Less(r[i], r[j])
  }

  /** The listing an ordered map or set iterates in. */
  ghost function Listed(s: set<string>): (r: seq<string>)
    ensures forall x :: x in r <==> x in s
    ensures Rising(r)
  {
    if s == {} then []
    else
      FirstExists(s);
      var m :| IsFirst(s, m);
      [m] + Listed(s - {m})
  }

  lemma {:induction false} RisingDistinct(r: seq<string>, i: nat, j: nat)
    requires Rising(r) && i < |r| && j < |r| && i != j
    ensures r[i] != r[j]
  {
    LessTotal(r[i], r[i]);
    assert i < j ==> Less(r[i], r[j]);
    assert j < i ==> Less(r[j], r[i]);
  }

  function Same(x: string): string { x }

  lemma InsertRising(x: string, r: seq<string>)
    requires Rising(r) && x !in r
    ensures Rising(InsertBy(x, r, Same))
    ensures forall y :: y in InsertBy(x, r, Same) <==> y == x || y in r
  {
    InsertSorted(x, r, Same);
    var longer := InsertBy(x, r, Same);
    forall i, j | 0 <= i < j < |longer| ensures Less(longer[i], longer[j]) {
      assert Less(Same(longer[i]), Same(longer[j]));
    }
    SameMembers(longer, [x] + r);
  }

  lemma {:induction false} RisingUnique(a: seq<string>, b: seq<string>)
    requires Rising(a) && Rising(b) && forall x :: x in a <==> x in b
    ensures a == b
  {
    SortedUnique(a, b, Same);
  }

  /** Sorting and dropping repeats: what the listing of a set comes from. */
  method List(s: set<string>) returns (r: seq<string>)
    ensures r == Listed(s)
  {
    r := [];
    var rest := s;
    while rest != {}
      invariant rest <= s
      invariant Rising(r) && forall x :: x in r <==> x in s - rest
      decreases rest
    {
      var x :| x in rest;
      InsertRising(x, r);
      r := InsertBy(x, r, Same);
      rest := rest - {x};
    }
    RisingUnique(r, Listed(s));
  }
}
