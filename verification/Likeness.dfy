/** How much two units resemble each other: the overlap of their sorted shingle sets. */
module Likeness {
  import opened Ids

  function Elements(s: seq<nat>): set<nat> {
    if s == [] then {} else {s[0]} + Elements(s[1..])
  }

  /** The Jaccard overlap: shared elements to all elements; nothing resembles an empty set. */
  function Overlap(a: set<nat>, b: set<nat>): real {
    if a == {} || b == {} then 0.0 else Ratio(|a * b|, |a + b|)
  }

  function Ratio(part: nat, whole: nat): real
    requires whole > 0
  {
    part as real / whole as real
  }

  lemma UnionSize(a: set<nat>, b: set<nat>)
    ensures |a + b| == |a| + |b| - |a * b|
    ensures a != {} ==> |a + b| > 0
  {
    assert a + b == a + (b - a) && |b| == |b - a| + |a * b| by {
      assert b == (b - a) + a * b;
    }
    if a != {} {
      assert a <= a + b;
    }
  }

  lemma {:induction false} Below(s: seq<nat>, x: nat)
    requires Rises(s) && (s != [] ==> x < s[0])
    ensures x !in Elements(s)
  {
    if s != [] {
      Below(s[1..], x);
    }
  }

  lemma {:induction false} ElementsSize(s: seq<nat>)
    requires Rises(s)
    ensures |Elements(s)| == |s|
  {
    if s != [] {
      ElementsSize(s[1..]);
      Below(s[1..], s[0]);
    }
  }

  /** What two lists share from a position in each on. */
  ghost function Shared(a: seq<nat>, b: seq<nat>, i: nat, j: nat): nat
    requires i <= |a| && j <= |b|
  {
    |Elements(a[i..]) * Elements(b[j..])|
  }

  lemma SharedSwaps(a: seq<nat>, b: seq<nat>, i: nat, j: nat)
    requires i <= |a| && j <= |b|
    ensures Shared(a, b, i, j) == Shared(b, a, j, i)
  {
    assert Elements(a[i..]) * Elements(b[j..]) == Elements(b[j..]) * Elements(a[i..]);
  }

  lemma FirstElement(a: seq<nat>, i: nat)
    requires Rises(a) && i < |a|
    ensures Elements(a[i..]) == {a[i]} + Elements(a[i + 1..]) && a[i] !in Elements(a[i + 1..])
  {
    assert a[i..][1..] == a[i + 1..];
    Below(a[i + 1..], a[i]);
  }

  lemma OneOut(e: nat, x: set<nat>, y: set<nat>)
    requires e !in y
    ensures ({e} + x) * y == x * y
  {}

  lemma OneShared(e: nat, x: set<nat>, y: set<nat>)
    requires e !in x && e !in y
    ensures |({e} + x) * ({e} + y)| == 1 + |x * y|
  {
    assert ({e} + x) * ({e} + y) == {e} + x * y;
  }

  lemma SkipFirst(a: seq<nat>, b: seq<nat>, i: nat, j: nat)
    requires Rises(a) && Rises(b) && i < |a| && j < |b| && a[i] < b[j]
    ensures Shared(a, b, i, j) == Shared(a, b, i + 1, j)
  {
    FirstElement(a, i);
    Below(b[j..], a[i]);
    OneOut(a[i], Elements(a[i + 1..]), Elements(b[j..]));
  }

  lemma ShareFirst(a: seq<nat>, b: seq<nat>, i: nat, j: nat)
    requires Rises(a) && Rises(b) && i < |a| && j < |b| && a[i] == b[j]
    ensures Shared(a, b, i, j) == 1 + Shared(a, b, i + 1, j + 1)
  {
    FirstElement(a, i);
    FirstElement(b, j);
    OneShared(a[i], Elements(a[i + 1..]), Elements(b[j + 1..]));
  }

  lemma NoneShared(a: seq<nat>, b: seq<nat>, i: nat, j: nat)
    requires i <= |a| && j <= |b| && (i == |a| || j == |b|)
    ensures Shared(a, b, i, j) == 0
  {}

  lemma AllShared(a: seq<nat>, b: seq<nat>)
    requires Rises(a) && Rises(b) && a != [] && b != []
    ensures var both := Shared(a, b, 0, 0);
            && both < |a| + |b|
            && Ratio(both, |a| + |b| - both) == Overlap(Elements(a), Elements(b))
  {
    assert a[0..] == a && b[0..] == b;
    ElementsSize(a);
    ElementsSize(b);
    UnionSize(Elements(a), Elements(b));
  }

  /** Of what either list has, the share that both have; nothing where one is empty. */
  ghost function ShareOf(a: seq<nat>, b: seq<nat>): real {
    var x, y := set e | e in a, set e | e in b;
    if a == [] || b == [] then 0.0
    else
      assert a[0] in x + y && |x + y| > 0;
      |x * y| as real / |x + y| as real
  }

  lemma {:induction false} ElementsIn(s: seq<nat>)
    ensures Elements(s) == set e | e in s
  {
    if s != [] {
      ElementsIn(s[1..]);
      assert forall e :: e in s <==> e == s[0] || e in s[1..];
    }
  }

  lemma ShareExactly(a: seq<nat>, b: seq<nat>)
    ensures ShareOf(a, b) == Overlap(Elements(a), Elements(b))
  {
    ElementsIn(a);
    ElementsIn(b);
    if a != [] && b != [] {
      assert a[0] in Elements(a) && b[0] in Elements(b);
    }
  }

  /** The walk over two sorted, duplicate-free lists computes the overlap of their sets. */
  method Jaccard(a: seq<nat>, b: seq<nat>) returns (r: real)
    requires Rises(a) && Rises(b)
    ensures r == Overlap(Elements(a), Elements(b)) == ShareOf(a, b)
  {
    ShareExactly(a, b);
    if a == [] || b == [] {
      return 0.0;
    }
    var i, j, both: nat := 0, 0, 0;
    while i < |a| && j < |b|
      invariant i <= |a| && j <= |b| && both + Shared(a, b, i, j) == Shared(a, b, 0, 0)
    {
      if a[i] < b[j] {
        SkipFirst(a, b, i, j);
        i := i + 1;
      } else if b[j] < a[i] {
        SharedSwaps(a, b, i, j);
        SkipFirst(b, a, j, i);
        SharedSwaps(a, b, i, j + 1);
        j := j + 1;
      } else {
        ShareFirst(a, b, i, j);
        i, j, both := i + 1, j + 1, both + 1;
      }
    }
    NoneShared(a, b, i, j);
    AllShared(a, b);
    r := Ratio(both, |a| + |b| - both);
  }

  /** A whole resembles itself wholly, and nothing more than that. */
  lemma OverlapBounds(a: set<nat>, b: set<nat>)
    ensures 0.0 <= Overlap(a, b) <= 1.0 && Overlap(a, b) == Overlap(b, a)
    ensures a != {} && b != {} ==> (Overlap(a, b) == 1.0 <==> a == b)
  {
    assert a * b == b * a && a + b == b + a;
    if a != {} && b != {} {
      UnionSize(a, b);
      Within(a * b, a + b);
      assert a * b == a + b <==> a == b by {
        if a * b == a + b {
          assert forall x :: x in a <==> x in b;
        }
      }
    }
  }

  lemma Within(s: set<nat>, t: set<nat>)
    requires s <= t && t != {}
    ensures 0.0 <= Ratio(|s|, |t|) <= 1.0 && (Ratio(|s|, |t|) == 1.0 <==> s == t)
  {
    assert t == s + (t - s) && |t| == |s| + |t - s|;
    assert t - s == {} <==> s == t;
    assert t != {} ==> |t| > 0;
  }
}
