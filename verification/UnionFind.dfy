/**
 Union-find over an array of parents: finding a root while compressing the path
 to it, and linking roots so that items share one exactly when edges join them.
 */
module UnionFind {

  /** Parents lead down in rank, so to a root. */
  ghost predicate Forest(p: seq<nat>, rank: seq<nat>) {
    && |rank| == |p|
    && forall i | 0 <= i < |p| :: p[i] < |p| && (p[i] != i ==> rank[p[i]] < rank[i])
  }

  ghost function RootOf(p: seq<nat>, rank: seq<nat>, i: nat): (r: nat)
    requires Forest(p, rank) && i < |p|
    ensures r < |p| && p[r] == r && rank[r] <= rank[i]
    decreases rank[i]
  {
    if p[i] == i then i else RootOf(p, rank, p[i])
  }

  ghost predicate SameRoots(p: seq<nat>, q: seq<nat>, rank: seq<nat>) {
    && Forest(p, rank) && Forest(q, rank)
    && forall i: nat | i < |p| :: RootOf(p, rank, i) == RootOf(q, rank, i)
  }

  /** Pointing an item straight at its root changes no root. */
  lemma {:induction false} Compress(p: seq<nat>, rank: seq<nat>, c: nat)
    requires Forest(p, rank) && c < |p| && RootOf(p, rank, c) != c
    ensures SameRoots(p, p[c := RootOf(p, rank, c)], rank)
  {
    var q := p[c := RootOf(p, rank, c)];
    assert rank[RootOf(p, rank, c)] <= rank[p[c]];
    forall i: nat | i < |p| ensures RootOf(p, rank, i) == RootOf(q, rank, i) {
      CompressedRoot(p, rank, c, i);
    }
  }

  lemma {:induction false} CompressedRoot(p: seq<nat>, rank: seq<nat>, c: nat, i: nat)
    requires Forest(p, rank) && c < |p| && i < |p| && RootOf(p, rank, c) != c
    requires Forest(p[c := RootOf(p, rank, c)], rank)
    ensures RootOf(p[c := RootOf(p, rank, c)], rank, i) == RootOf(p, rank, i)
    decreases rank[i]
  {
    if i != c && p[i] != i {
      CompressedRoot(p, rank, c, p[i]);
    }
  }

  /** The root of `i`; every item on the way is pointed straight at it. */
  method Find(p: array<nat>, i: nat, ghost rank: seq<nat>) returns (r: nat)
    requires Forest(p[..], rank) && i < p.Length
    modifies p
    ensures SameRoots(old(p[..]), p[..], rank)
    ensures r == RootOf(p[..], rank, i) && (p[i] == r)
  {
    r := i;
    while p[r] != r
      invariant r < p.Length && RootOf(p[..], rank, r) == RootOf(p[..], rank, i)
      decreases rank[r]
    {
      r := p[r];
    }
    var c: nat := i;
    while p[c] != r
      invariant c < p.Length && SameRoots(old(p[..]), p[..], rank)
      invariant RootOf(p[..], rank, i) == RootOf(p[..], rank, c) == r
      invariant c == i || p[i] == r
      decreases rank[c]
    {
      var next := p[c];
      Compress(p[..], rank, c);
      ghost var before := p[..];
      p[c] := r;
      assert p[..] == before[c := r];
      c := next;
    }
  }

  // --------------------------------------------------------------------- linking

  type Edges = seq<(nat, nat)>

  /** Joined by edges taken in either direction. */
  ghost predicate Joined(edges: Edges, i: nat, j: nat) {
    if edges == [] then i == j
    else
      var init := edges[..|edges| - 1];
      var (a, b) := edges[|edges| - 1];
      || Joined(init, i, j)
      || (Joined(init, i, a) && Joined(init, b, j))
      || (Joined(init, i, b) && Joined(init, a, j))
  }

  lemma {:induction false} JoinedReflexive(edges: Edges, i: nat)
    ensures Joined(edges, i, i)
  {
    if edges != [] {
      JoinedReflexive(edges[..|edges| - 1], i);
    }
  }

  lemma {:induction false} JoinedSymmetric(edges: Edges, i: nat, j: nat)
    requires Joined(edges, i, j)
    ensures Joined(edges, j, i)
  {
    if edges != [] {
      var init := edges[..|edges| - 1];
      var (a, b) := edges[|edges| - 1];
      if Joined(init, i, j) {
        JoinedSymmetric(init, i, j);
      } else if Joined(init, i, a) && Joined(init, b, j) {
        JoinedSymmetric(init, i, a);
        JoinedSymmetric(init, b, j);
      } else {
        JoinedSymmetric(init, i, b);
        JoinedSymmetric(init, a, j);
      }
    }
  }

  lemma {:induction false} JoinedTransitive(edges: Edges, i: nat, j: nat, k: nat)
    requires Joined(edges, i, j) && Joined(edges, j, k)
    ensures Joined(edges, i, k)
  {
    if edges != [] {
      var init := edges[..|edges| - 1];
      var (a, b) := edges[|edges| - 1];
      forall x: nat, y: nat, z: nat | Joined(init, x, y) && Joined(init, y, z) ensures Joined(init, x, z) {
        JoinedTransitive(init, x, y, z);
      }
      forall x: nat, y: nat | Joined(init, x, y) ensures Joined(init, y, x) {
        JoinedSymmetric(init, x, y);
      }
    }
  }

  /** Every edge joins its ends. */
  lemma {:induction false} EdgesJoin(edges: Edges, e: nat)
    requires e < |edges|
    ensures Joined(edges, edges[e].0, edges[e].1)
  {
    var init := edges[..|edges| - 1];
    var (a, b) := edges[|edges| - 1];
    if e < |init| {
      EdgesJoin(init, e);
    } else {
      JoinedReflexive(init, a);
      JoinedReflexive(init, b);
    }
  }

  /** Joined is the least such relation: it never leaves a set no edge crosses. */
  lemma {:induction false} JoinedLeast(edges: Edges, s: set<nat>, i: nat, j: nat)
    requires (forall e | 0 <= e < |edges| :: edges[e].0 in s <==> edges[e].1 in s) && Joined(edges, i, j)
    ensures i in s <==> j in s
  {
    if edges != [] {
      var init := edges[..|edges| - 1];
      var (a, b) := edges[|edges| - 1];
      assert edges[|edges| - 1].0 in s <==> edges[|edges| - 1].1 in s;
      if Joined(init, i, j) {
        JoinedLeast(init, s, i, j);
      } else if Joined(init, i, a) && Joined(init, b, j) {
        JoinedLeast(init, s, i, a);
        JoinedLeast(init, s, b, j);
      } else {
        JoinedLeast(init, s, i, b);
        JoinedLeast(init, s, a, j);
      }
    }
  }

  /** Two items share a root exactly when the edges join them. */
  ghost predicate Tracks(p: seq<nat>, rank: seq<nat>, edges: Edges) {
    && Forest(p, rank)
    && forall i: nat, j: nat | i < |p| && j < |p| :: RootOf(p, rank, i) == RootOf(p, rank, j) <==> Joined(edges, i, j)
  }

  /** Ranks that let root `a` stand above root `b`. */
  ghost function Raised(p: seq<nat>, rank: seq<nat>, a: nat, b: nat): (r: seq<nat>)
    requires Forest(p, rank) && a < |p| && b < |p|
    ensures |r| == |p|
    ensures forall i: nat | i < |p| :: r[i] == rank[i] + if RootOf(p, rank, i) == a then rank[b] + 1 else 0
  {
    seq(|p|, i requires 0 <= i < |p| => rank[i] + if RootOf(p, rank, i) == a then rank[b] + 1 else 0)
  }

  lemma {:induction false} LinkedForest(p: seq<nat>, rank: seq<nat>, a: nat, b: nat)
    requires Forest(p, rank) && a < |p| && b < |p| && p[a] == a && p[b] == b && a != b
    ensures Forest(p[a := b], Raised(p, rank, a, b))
  {}

  lemma {:induction false} LinkedRoot(p: seq<nat>, rank: seq<nat>, a: nat, b: nat, i: nat)
    requires Forest(p, rank) && a < |p| && b < |p| && p[a] == a && p[b] == b && a != b && i < |p|
    requires Forest(p[a := b], Raised(p, rank, a, b))
    ensures RootOf(p[a := b], Raised(p, rank, a, b), i) ==
            if RootOf(p, rank, i) == a then b else RootOf(p, rank, i)
    decreases rank[i]
  {
    if p[i] != i {
      LinkedRoot(p, rank, a, b, p[i]);
    }
  }

  lemma TracksOwn(p: seq<nat>, rank: seq<nat>)
    requires |p| == |rank| && forall i | 0 <= i < |p| :: p[i] == i
    ensures Tracks(p, rank, [])
  {}

  lemma JoinedSnoc(edges: Edges, x: nat, y: nat, i: nat, j: nat)
    ensures Joined(edges + [(x, y)], i, j) <==>
            || Joined(edges, i, j)
            || (Joined(edges, i, x) && Joined(edges, y, j))
            || (Joined(edges, i, y) && Joined(edges, x, j))
  {
    assert (edges + [(x, y)])[..|edges|] == edges;
  }

  /** Linking the roots of an edge's ends tracks the edge. */
  lemma {:induction false} LinkTracks(p: seq<nat>, rank: seq<nat>, edges: Edges, x: nat, y: nat)
    requires Tracks(p, rank, edges) && x < |p| && y < |p|
    ensures var a, b := RootOf(p, rank, x), RootOf(p, rank, y);
            if a == b then Tracks(p, rank, edges + [(x, y)])
            else Tracks(p[a := b], Raised(p, rank, a, b), edges + [(x, y)])
  {
    var a, b := RootOf(p, rank, x), RootOf(p, rank, y);
    var q, high := if a == b then p else p[a := b], if a == b then rank else Raised(p, rank, a, b);
    if a != b {
      LinkedForest(p, rank, a, b);
    }
    forall i: nat, j: nat | i < |p| && j < |p|
      ensures RootOf(q, high, i) == RootOf(q, high, j) <==> Joined(edges + [(x, y)], i, j)
    {
      JoinedSnoc(edges, x, y, i, j);
      if a != b {
        LinkedRoot(p, rank, a, b, i);
        LinkedRoot(p, rank, a, b, j);
      }
    }
  }

  /** Add one edge. */
  method Link(p: array<nat>, x: nat, y: nat, ghost rank: seq<nat>, ghost edges: Edges) returns (ghost high: seq<nat>)
    requires Tracks(p[..], rank, edges) && x < p.Length && y < p.Length
    modifies p
    ensures Tracks(p[..], high, edges + [(x, y)])
  {
    var a := Find(p, x, rank);
    ghost var first := p[..];
    var b := Find(p, y, rank);
    LinkTracks(p[..], rank, edges, x, y);
    high := rank;
    if a != b {
      high := Raised(p[..], rank, a, b);
      ghost var before := p[..];
      p[a] := b;
      assert p[..] == before[a := b];
    }
  }
}
