/**
 Greedy balancing: each item, largest first, goes to the lightest group. How far
 the groups can end apart, and how far the heaviest from any other assignment.
 */
module Balance {

  /** The weight the first `k` items put on group `b`. */
  function Load(w: seq<nat>, to: seq<nat>, k: nat, b: nat): nat
    requires k <= |w| && k <= |to|
  {
    if k == 0 then 0 else Load(w, to, k - 1, b) + if to[k - 1] == b then w[k - 1] else 0
  }

  function Total(w: seq<nat>, k: nat): nat
    requires k <= |w|
  {
    if k == 0 then 0 else Total(w, k - 1) + w[k - 1]
  }

  /** The first `m` groups' loads together. */
  function Loads(w: seq<nat>, to: seq<nat>, k: nat, m: nat): nat
    requires k <= |w| && k <= |to|
  {
    if m == 0 then 0 else Loads(w, to, k, m - 1) + Load(w, to, k, m - 1)
  }

  predicate Assigns(to: seq<nat>, n: nat, m: nat) {
    |to| == n && forall i | 0 <= i < n :: to[i] < m
  }

  /** Every item goes where the load is least. */
  ghost predicate Greedy(w: seq<nat>, to: seq<nat>, m: nat) {
    Assigns(to, |w|, m) && forall i | 0 <= i < |w| :: ToLightest(w, to, m, i)
  }

  ghost predicate ToLightest(w: seq<nat>, to: seq<nat>, m: nat, i: nat)
    requires i < |w| && i < |to|
  {
    AllAtLeast(w, to, i, m, Load(w, to, i, to[i]))
  }

  ghost predicate AllAtLeast(w: seq<nat>, to: seq<nat>, k: nat, m: nat, x: nat)
    requires k <= |w| && k <= |to|
  {
    forall b: nat | b < m :: Load(w, to, k, b) >= x
  }

  ghost predicate AllAtMost(w: seq<nat>, to: seq<nat>, k: nat, m: nat, x: nat)
    requires k <= |w| && k <= |to|
  {
    forall b: nat | b < m :: Load(w, to, k, b) <= x
  }

  predicate Descending(w: seq<nat>) {
    forall i, j | 0 <= i < j < |w| :: w[i] >= w[j]
  }

  ghost predicate Within(w: seq<nat>, to: seq<nat>, m: nat, t: nat) {
    Assigns(to, |w|, m) && AllAtMost(w, to, |w|, m, t)
  }

  lemma {:induction false} LoadsSnoc(w: seq<nat>, to: seq<nat>, k: nat, m: nat)
    requires k < |w| && k < |to|
    ensures Loads(w, to, k + 1, m) == Loads(w, to, k, m) + if to[k] < m then w[k] else 0
  {
    if m > 0 {
      LoadsSnoc(w, to, k, m - 1);
    }
  }

  /** The groups share out exactly the weight there is. */
  lemma {:induction false} LoadsTotal(w: seq<nat>, to: seq<nat>, k: nat, m: nat)
    requires k <= |w| && k <= |to| && forall i | 0 <= i < k :: to[i] < m
    ensures Loads(w, to, k, m) == Total(w, k)
  {
    if k == 0 {
      LoadsZero(w, to, m);
    } else {
      LoadsTotal(w, to, k - 1, m);
      LoadsSnoc(w, to, k - 1, m);
    }
  }

  lemma {:induction false} LoadsZero(w: seq<nat>, to: seq<nat>, m: nat)
    ensures Loads(w, to, 0, m) == 0
  {
    if m > 0 {
      LoadsZero(w, to, m - 1);
    }
  }

  lemma {:induction false} LoadsAtLeast(w: seq<nat>, to: seq<nat>, k: nat, m: nat, x: nat)
    requires k <= |w| && k <= |to| && AllAtLeast(w, to, k, m, x)
    ensures Loads(w, to, k, m) >= m * x
  {
    if m > 0 {
      LoadsAtLeast(w, to, k, m - 1, x);
      assert m * x == (m - 1) * x + x;
    }
  }

  lemma {:induction false} LoadsAtMost(w: seq<nat>, to: seq<nat>, k: nat, m: nat, x: nat)
    requires k <= |w| && k <= |to| && AllAtMost(w, to, k, m, x)
    ensures Loads(w, to, k, m) <= m * x
  {
    if m > 0 {
      LoadsAtMost(w, to, k, m - 1, x);
      assert m * x == (m - 1) * x + x;
    }
  }

  lemma {:induction false} LoadGrows(w: seq<nat>, to: seq<nat>, k: nat, l: nat, b: nat)
    requires k <= l <= |w| && l <= |to|
    ensures Load(w, to, k, b) <= Load(w, to, l, b)
  {
    if k < l {
      LoadGrows(w, to, k, l - 1, b);
    }
  }

  // ------------------------------------------------------------ sizes stay close

  /** No two groups are ever further apart than the heaviest item. */
  lemma {:induction false} LoadsClose(w: seq<nat>, to: seq<nat>, m: nat, k: nat, largest: nat, a: nat, b: nat)
    requires Greedy(w, to, m) && k <= |w| && (forall i | 0 <= i < |w| :: w[i] <= largest) && a < m && b < m
    ensures Load(w, to, k, a) <= Load(w, to, k, b) + largest
  {
    if k > 0 {
      LoadsClose(w, to, m, k - 1, largest, a, b);
      if to[k - 1] == a {
        assert ToLightest(w, to, m, k - 1);
      }
    }
  }

  // ------------------------------------------- against every other assignment

  /** The item that brought group `a` to its final load. */
  lemma {:induction false} LastItem(w: seq<nat>, to: seq<nat>, k: nat, a: nat) returns (j: nat)
    requires k <= |w| && k <= |to| && Load(w, to, k, a) > 0
    ensures j < k && to[j] == a && Load(w, to, k, a) == Load(w, to, j, a) + w[j]
  {
    if to[k - 1] == a {
      j := k - 1;
    } else {
      j := LastItem(w, to, k - 1, a);
    }
  }

  /** An item counts twice when no item of weight at least `c` fits beside it under `t`. */
  function Counts(w: seq<nat>, c: nat, t: nat): (r: seq<nat>)
    ensures |r| == |w| && forall i | 0 <= i < |w| :: r[i] == if w[i] + c > t then 2 else 1
  {
    seq(|w|, i requires 0 <= i < |w| => if w[i] + c > t then 2 else 1)
  }

  /** Under `t` a group holds at most a count of two, when three items of `c` do not fit. */
  lemma {:induction false} FullCounts(w: seq<nat>, to: seq<nat>, k: nat, b: nat, c: nat, t: nat)
    requires k <= |w| && k <= |to| && 3 * c > t && forall i | 0 <= i < k :: w[i] >= c
    ensures var count := Load(Counts(w, c, t), to, k, b);
            && (count >= 1 ==> Load(w, to, k, b) >= c)
            && (count >= 2 ==> Load(w, to, k, b) + c > t)
            && (count >= 3 ==> Load(w, to, k, b) > t)
  {
    if k > 0 {
      FullCounts(w, to, k - 1, b, c, t);
    }
  }

  /** A group with a count below two could still take `c` under `t`. */
  lemma {:induction false} SparseCounts(w: seq<nat>, to: seq<nat>, k: nat, b: nat, c: nat, t: nat)
    requires k <= |w| && k <= |to| && c <= t
    ensures Load(Counts(w, c, t), to, k, b) == 0 ==> Load(w, to, k, b) == 0
    ensures Load(Counts(w, c, t), to, k, b) < 2 ==> Load(w, to, k, b) + c <= t
  {
    if k > 0 {
      SparseCounts(w, to, k - 1, b, c, t);
    }
  }

  lemma ItemFits(w: seq<nat>, to: seq<nat>, m: nat, t: nat, j: nat)
    requires Within(w, to, m, t) && j < |w|
    ensures w[j] <= t
  {
    LoadGrows(w, to, j + 1, |w|, to[j]);
  }

  lemma CountsAtMostTwo(w: seq<nat>, m: nat, j: nat, other: seq<nat>, t: nat)
    requires Descending(w) && Within(w, other, m, t) && j < |w| && 3 * w[j] > t
    ensures AllAtMost(Counts(w, w[j], t), other, j + 1, m, 2)
  {
    var counts, k := Counts(w, w[j], t), j + 1;
    forall b: nat | b < m ensures Load(counts, other, k, b) <= 2 {
      FullCounts(w, other, k, b, w[j], t);
      LoadGrows(w, other, k, |w|, b);
    }
  }

  /** When the last item is over a third of `t`, counting shows the greedy load is within `t`. */
  lemma {:induction false} LargeLastFits(w: seq<nat>, to: seq<nat>, m: nat, j: nat, other: seq<nat>, t: nat)
    requires Descending(w) && Greedy(w, to, m) && Within(w, other, m, t) && j < |w| && 3 * w[j] > t
    ensures Load(w, to, j, to[j]) + w[j] <= t
  {
    var c := w[j];
    var counts := Counts(w, c, t);
    ItemFits(w, other, m, t, j);
    if Load(w, to, j, to[j]) + c > t {
      assert AllAtMost(counts, other, j + 1, m, 2) by {
        CountsAtMostTwo(w, m, j, other, t);
      }
      assert ToLightest(w, to, m, j);
      forall b: nat | b < m ensures Load(counts, to, j, b) >= 2 {
        SparseCounts(w, to, j, b, c, t);
      }
      LoadsTotal(counts, other, j + 1, m);
      LoadsAtMost(counts, other, j + 1, m, 2);
      LoadsTotal(counts, to, j, m);
      LoadsAtLeast(counts, to, j, m, 2);
    }
  }

  /** When it is at most a third, the average bounds the greedy load. */
  lemma {:induction false} SmallLastBound(w: seq<nat>, to: seq<nat>, m: nat, j: nat, other: seq<nat>, t: nat)
    requires Greedy(w, to, m) && Within(w, other, m, t) && j < |w| && 3 * w[j] <= t
    ensures 3 * m * (Load(w, to, j, to[j]) + w[j]) <= (4 * m - 1) * t
  {
    var x, c := Load(w, to, j, to[j]), w[j];
    assert ToLightest(w, to, m, j);
    var k := j + 1;
    forall b: nat | b < m ensures Load(w, other, k, b) <= t {
      LoadGrows(w, other, k, |w|, b);
    }
    LoadsTotal(w, to, j, m);
    LoadsAtLeast(w, to, j, m, x);
    LoadsTotal(w, other, j + 1, m);
    LoadsAtMost(w, other, j + 1, m, t);
    assert m * x + c <= m * t;
    SmallArithmetic(m, x, c, t);
  }

  lemma SmallArithmetic(m: nat, x: nat, c: nat, t: nat)
    requires m >= 1 && m * x + c <= m * t && 3 * c <= t
    ensures 3 * m * (x + c) <= (4 * m - 1) * t
  {
    Scale(m - 1, 3 * c, t);
    assert 3 * m * (x + c) == 3 * (m * x) + 3 * (m * c);
    assert (m - 1) * (3 * c) == 3 * (m * c) - 3 * c;
    assert (m - 1) * t == m * t - t;
    assert (4 * m - 1) * t == 4 * (m * t) - t;
  }

  lemma Scale(m: nat, x: nat, y: nat)
    requires x <= y
    ensures m * x <= m * y
  {}

  /**
   Largest-first greedy is within 4/3 - 1/(3m) of every other way to keep the
   items whole in m groups.
   */
  lemma {:induction false} GreedyNearBest(w: seq<nat>, to: seq<nat>, m: nat, a: nat, other: seq<nat>, t: nat)
    requires Descending(w) && Greedy(w, to, m) && a < m && Within(w, other, m, t)
    ensures 3 * m * Load(w, to, |w|, a) <= (4 * m - 1) * t
  {
    if Load(w, to, |w|, a) > 0 {
      var j := LastItem(w, to, |w|, a);
      if 3 * w[j] <= t {
        SmallLastBound(w, to, m, j, other, t);
      } else {
        LargeLastFits(w, to, m, j, other, t);
        WholeBound(m, Load(w, to, |w|, a), t);
      }
    } else {
      WholeBound(m, 0, t);
    }
  }

  lemma WholeBound(m: nat, x: nat, t: nat)
    requires x <= t && m >= 1
    ensures 3 * m * x <= (4 * m - 1) * t
  {
    Scale(3 * m, x, t);
    assert (4 * m - 1) * t == 3 * m * t + (m - 1) * t;
    Scale(m - 1, 0, t);
  }
}
