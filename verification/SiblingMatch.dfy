/**
 Which of its former units each unit of a sibling group is: first those of equal
 body are paired in order, then the rest by the gaps left between them.
 */
module SiblingMatch {
  import opened Options
  import opened Ids

  type Slots = seq<Option<nat>>

  function CountBody(s: seq<Oid>, b: Oid): nat {
    if s == [] then 0 else CountBody(s[..|s| - 1], b) + if s[|s| - 1] == b then 1 else 0
  }

  /** How many members of body `b` have a slot. */
  function CountFilled(slot: Slots, ms: seq<Oid>, b: Oid): nat
    requires |slot| <= |ms|
  {
    if slot == [] then 0
    else
      var k := |slot| - 1;
      CountFilled(slot[..k], ms, b) + if slot[k].Some? && ms[k] == b then 1 else 0
  }

  /** How many previous units of body `b` are taken. */
  function CountTaken(taken: seq<bool>, ps: seq<Oid>, b: Oid): nat
    requires |taken| <= |ps|
  {
    if taken == [] then 0
    else
      var k := |taken| - 1;
      CountTaken(taken[..k], ps, b) + if taken[k] && ps[k] == b then 1 else 0
  }

  /** How many members of body `b` took a previous unit of body `b`. */
  function CountSame(slot: Slots, ms: seq<Oid>, ps: seq<Oid>, b: Oid): nat
    requires |slot| <= |ms|
  {
    if slot == [] then 0
    else
      var k := |slot| - 1;
      CountSame(slot[..k], ms, ps, b)
      + if slot[k].Some? && slot[k].value < |ps| && ms[k] == b && ps[slot[k].value] == b then 1 else 0
  }

  function Min(a: nat, b: nat): nat { if a <= b then a else b }

  /** How many units of its body come before the unit. */
  function Nth(s: seq<Oid>, m: nat): nat
    requires m < |s|
  {
    CountBody(s[..m], s[m])
  }

  /** Units are paired exactly when they are of one body and as many of it come before each. */
  ghost predicate PairedInOrder(slot: Slots, ms: seq<Oid>, ps: seq<Oid>)
    requires |slot| <= |ms|
  {
    forall m: nat, q: nat | m < |slot| && q < |ps| && ms[m] == ps[q] :: slot[m] == Some(q) <==> Nth(ms, m) == Nth(ps, q)
  }

  /** Taken are those of which fewer come before than the members so far have of their body. */
  ghost predicate TakenInOrder(taken: seq<bool>, ms: seq<Oid>, ps: seq<Oid>, n: nat)
    requires n <= |ms| && |taken| == |ps|
  {
    forall q: nat | q < |ps| :: taken[q] <==> Nth(ps, q) < CountBody(ms[..n], ps[q])
  }

  lemma {:induction false} CountGrows(s: seq<Oid>, m: nat, n: nat, b: Oid)
    requires m <= n <= |s|
    ensures CountBody(s[..m], b) <= CountBody(s[..n], b)
    ensures m < n && s[m] == b ==> CountBody(s[..m], b) < CountBody(s[..n], b)
  {
    if m < n {
      CountGrows(s, m, n - 1, b);
      assert s[..n][..n - 1] == s[..n - 1];
    }
  }

  lemma {:induction false} NthEarlier(s: seq<Oid>, n: nat, b: Oid, c: nat) returns (q: nat)
    requires n <= |s| && c < CountBody(s[..n], b)
    ensures q < n && s[q] == b && Nth(s, q) == c
  {
    assert s[..n][..n - 1] == s[..n - 1];
    if s[n - 1] == b && CountBody(s[..n - 1], b) == c {
      q := n - 1;
    } else {
      q := NthEarlier(s, n - 1, b, c);
    }
  }

  /** The first free one of a body is the one with as many before it as members had it. */
  lemma FirstFreeIsNth(taken: seq<bool>, ms: seq<Oid>, ps: seq<Oid>, m: nat, q: nat)
    requires m < |ms| && |taken| == |ps| && TakenInOrder(taken, ms, ps, m)
    requires q < |ps| && !taken[q] && ps[q] == ms[m] && forall k | 0 <= k < q :: taken[k] || ps[k] != ms[m]
    ensures Nth(ps, q) == Nth(ms, m)
  {
    if Nth(ps, q) > Nth(ms, m) {
      var r := NthEarlier(ps, q, ms[m], Nth(ms, m));
    }
  }

  lemma NthOnce(s: seq<Oid>, q: nat, r: nat)
    requires q < |s| && r < |s| && s[q] == s[r] && Nth(s, q) == Nth(s, r)
    ensures q == r
  {
    if q < r {
      CountGrows(s, q, r, s[q]);
    } else if r < q {
      CountGrows(s, r, q, s[q]);
    }
  }

  lemma TakenStep(taken: seq<bool>, ms: seq<Oid>, ps: seq<Oid>, m: nat, q: nat)
    requires m < |ms| && |taken| == |ps| && TakenInOrder(taken, ms, ps, m)
    requires q < |ps| && ps[q] == ms[m] && Nth(ps, q) == Nth(ms, m)
    ensures TakenInOrder(taken[q := true], ms, ps, m + 1)
  {
    assert ms[..m + 1][..m] == ms[..m];
    forall r: nat | r < |ps| ensures taken[q := true][r] <==> Nth(ps, r) < CountBody(ms[..m + 1], ps[r]) {
      if r != q && ps[r] == ps[q] && Nth(ps, r) == Nth(ps, q) {
        NthOnce(ps, q, r);
      }
    }
  }

  lemma SkipStep(taken: seq<bool>, ms: seq<Oid>, ps: seq<Oid>, m: nat)
    requires m < |ms| && |taken| == |ps| && TakenInOrder(taken, ms, ps, m)
    requires forall k | 0 <= k < |ps| :: taken[k] || ps[k] != ms[m]
    ensures TakenInOrder(taken, ms, ps, m + 1)
  {
    assert ms[..m + 1][..m] == ms[..m];
    forall r: nat | r < |ps| ensures taken[r] <==> Nth(ps, r) < CountBody(ms[..m + 1], ps[r]) {
    }
  }

  lemma PairStep(slot: Slots, ms: seq<Oid>, ps: seq<Oid>, q: nat)
    requires |slot| < |ms| && PairedInOrder(slot, ms, ps)
    requires q < |ps| && ps[q] == ms[|slot|] && Nth(ps, q) == Nth(ms, |slot|)
    ensures PairedInOrder(slot + [Some(q)], ms, ps)
  {
    var next := slot + [Some(q)];
    forall m: nat, r: nat | m < |next| && r < |ps| && ms[m] == ps[r]
      ensures next[m] == Some(r) <==> Nth(ms, m) == Nth(ps, r)
    {
      if m == |slot| && Nth(ms, m) == Nth(ps, r) {
        NthOnce(ps, q, r);
      }
    }
  }

  lemma NonePairs(slot: Slots, taken: seq<bool>, ms: seq<Oid>, ps: seq<Oid>)
    requires |slot| < |ms| && |taken| == |ps| && PairedInOrder(slot, ms, ps) && TakenInOrder(taken, ms, ps, |slot|)
    requires forall k | 0 <= k < |ps| :: taken[k] || ps[k] != ms[|slot|]
    ensures PairedInOrder(slot + [None], ms, ps)
  {
    forall q: nat | q < |ps| && ps[q] == ms[|slot|] ensures Nth(ps, q) < Nth(ms, |slot|) {
      assert taken[q];
    }
  }

  predicate InUse(slot: Slots, q: nat) {
    exists k | 0 <= k < |slot| :: slot[k] == Some(q)
  }

  /** Slots name previous units, each at most once, exactly those that are taken. */
  ghost predicate Injective(slot: Slots, taken: seq<bool>) {
    && (forall m | 0 <= m < |slot| && slot[m].Some? :: slot[m].value < |taken| && taken[slot[m].value])
    && (forall q | 0 <= q < |taken| && taken[q] :: InUse(slot, q))
    && (forall m, n | 0 <= m < n < |slot| && slot[m].Some? && slot[n].Some? :: slot[m].value != slot[n].value)
  }

  ghost predicate SameBodies(slot: Slots, ms: seq<Oid>, ps: seq<Oid>)
    requires |slot| <= |ms|
  {
    forall m | 0 <= m < |slot| && slot[m].Some? :: slot[m].value < |ps| && ms[m] == ps[slot[m].value]
  }

  /** A member is left without a slot only when every previous unit of its body is taken. */
  ghost predicate Exhausted(slot: Slots, taken: seq<bool>, ms: seq<Oid>, ps: seq<Oid>)
    requires |slot| <= |ms| && |taken| == |ps|
  {
    forall m, q | 0 <= m < |slot| && slot[m].None? && 0 <= q < |ps| && ps[q] == ms[m] :: taken[q]
  }

  lemma {:induction false} TakeOne(taken: seq<bool>, ps: seq<Oid>, q: nat, b: Oid)
    requires q < |taken| <= |ps| && !taken[q]
    ensures CountTaken(taken[q := true], ps, b) == CountTaken(taken, ps, b) + if ps[q] == b then 1 else 0
  {
    var k := |taken| - 1;
    if q < k {
      TakeOne(taken[..k], ps, q, b);
      assert taken[q := true][..k] == taken[..k][q := true];
    } else {
      assert taken[q := true][..k] == taken[..k];
    }
  }

  /** The first free previous unit of that body. */
  method FindBody(taken: seq<bool>, ps: seq<Oid>, b: Oid) returns (q: Option<nat>)
    requires |taken| == |ps|
    ensures q.Some? ==> q.value < |ps| && !taken[q.value] && ps[q.value] == b
    ensures q.Some? ==> forall k | 0 <= k < q.value :: taken[k] || ps[k] != b
    ensures q.None? ==> forall k | 0 <= k < |ps| :: taken[k] || ps[k] != b
  {
    for k := 0 to |ps|
      invariant forall j | 0 <= j < k :: taken[j] || ps[j] != b
    {
      if !taken[k] && ps[k] == b {
        return Some(k);
      }
    }
    q := None;
  }

  /** What the first pass keeps after `slot`. */
  ghost predicate ByBody(slot: Slots, taken: seq<bool>, ms: seq<Oid>, ps: seq<Oid>) {
    && |slot| <= |ms| && |taken| == |ps|
    && Injective(slot, taken) && SameBodies(slot, ms, ps) && Exhausted(slot, taken, ms, ps)
    && (forall b :: CountFilled(slot, ms, b) == CountTaken(taken, ps, b))
    && (ms == ps ==>
          && (forall m | 0 <= m < |slot| :: slot[m] == Some(m))
          && forall q | 0 <= q < |ps| :: taken[q] <==> q < |slot|)
  }

  lemma SlotSnoc(slot: Slots, ms: seq<Oid>, s: Option<nat>, b: Oid)
    requires |slot| < |ms|
    ensures CountFilled(slot + [s], ms, b) == CountFilled(slot, ms, b) + if s.Some? && ms[|slot|] == b then 1 else 0
  {
    assert (slot + [s])[..|slot|] == slot;
  }

  lemma ByBodyStep(slot: Slots, taken: seq<bool>, ms: seq<Oid>, ps: seq<Oid>, q: nat)
    requires ByBody(slot, taken, ms, ps) && |slot| < |ms| && q < |ps| && !taken[q] && ps[q] == ms[|slot|]
    requires forall k | 0 <= k < q :: taken[k] || ps[k] != ms[|slot|]
    ensures ByBody(slot + [Some(q)], taken[q := true], ms, ps)
  {
    forall b ensures CountFilled(slot + [Some(q)], ms, b) == CountTaken(taken[q := true], ps, b) {
      SlotSnoc(slot, ms, Some(q), b);
      TakeOne(taken, ps, q, b);
    }
    UseSnoc(slot, Some(q), q);
    forall r | 0 <= r < |ps| && taken[r] ensures InUse(slot + [Some(q)], r) {
      UseSnoc(slot, Some(q), r);
    }
  }

  lemma UseSnoc(slot: Slots, s: Option<nat>, q: nat)
    ensures InUse(slot + [s], q) <==> InUse(slot, q) || s == Some(q)
  {
    var all := slot + [s];
    assert all[|slot|] == s;
    if k :| 0 <= k < |slot| && slot[k] == Some(q) {
      assert all[k] == Some(q);
    }
  }

  lemma ByBodySkip(slot: Slots, taken: seq<bool>, ms: seq<Oid>, ps: seq<Oid>)
    requires ByBody(slot, taken, ms, ps) && |slot| < |ms|
    requires forall k | 0 <= k < |ps| :: taken[k] || ps[k] != ms[|slot|]
    ensures ByBody(slot + [None], taken, ms, ps)
  {
    forall b ensures CountFilled(slot + [None], ms, b) == CountTaken(taken, ps, b) {
      SlotSnoc(slot, ms, None, b);
    }
    forall r | 0 <= r < |ps| && taken[r] ensures InUse(slot + [None], r) {
      UseSnoc(slot, None, r);
    }
    assert |slot| < |ps| ==> taken[|slot|] || ps[|slot|] != ms[|slot|];
  }

  lemma {:induction false} NothingTaken(ps: seq<Oid>, b: Oid, n: nat)
    requires n <= |ps|
    ensures CountTaken(seq(n, _ => false), ps, b) == 0
  {
    if n > 0 {
      NothingTaken(ps, b, n - 1);
      assert seq(n, _ => false)[..n - 1] == seq(n - 1, _ => false);
    }
  }

  method MatchBodies(ms: seq<Oid>, ps: seq<Oid>) returns (slot: Slots, taken: seq<bool>)
    ensures |slot| == |ms| && ByBody(slot, taken, ms, ps) && PairedInOrder(slot, ms, ps)
  {
    slot, taken := [], seq(|ps|, _ => false);
    forall b ensures CountTaken(taken, ps, b) == 0 {
      NothingTaken(ps, b, |ps|);
    }
    for m := 0 to |ms|
      invariant |slot| == m && ByBody(slot, taken, ms, ps)
      invariant PairedInOrder(slot, ms, ps) && TakenInOrder(taken, ms, ps, m)
    {
      var q := FindBody(taken, ps, ms[m]);
      if q.Some? {
        FirstFreeIsNth(taken, ms, ps, m, q.value);
        PairStep(slot, ms, ps, q.value);
        TakenStep(taken, ms, ps, m, q.value);
        ByBodyStep(slot, taken, ms, ps, q.value);
        slot, taken := slot + [q], taken[q.value := true];
      } else {
        NonePairs(slot, taken, ms, ps);
        SkipStep(taken, ms, ps, m);
        ByBodySkip(slot, taken, ms, ps);
        slot := slot + [None];
      }
    }
  }

  // ------------------------------------------------------------------- position

  /** Just past the slot of the nearest member before `m` that has one. */
  function LowEnd(slot: Slots, m: nat): nat
    requires m <= |slot|
  {
    if m == 0 then 0 else if slot[m - 1].Some? then slot[m - 1].value + 1 else LowEnd(slot, m - 1)
  }

  /** The slot of the nearest member after `m` that has one, or the end. */
  function HighEnd(slot: Slots, m: nat, limit: nat): nat
    requires m < |slot|
    decreases |slot| - m
  {
    if m + 1 == |slot| then limit
    else if slot[m + 1].Some? then slot[m + 1].value
    else HighEnd(slot, m + 1, limit)
  }

  /** The nearest member before `m` that has a slot has the one just below `lo`; without any, `lo` is 0. */
  lemma {:induction false} LowEndExactly(slot: Slots, m: nat, lo: nat)
    requires m <= |slot|
    ensures lo == LowEnd(slot, m) <==>
            || (lo == 0 && forall j | 0 <= j < m :: slot[j].None?)
            || (lo > 0 && exists k | 0 <= k < m :: slot[k] == Some(lo - 1) && forall j | k < j < m :: slot[j].None?)
  {
    if m > 0 && slot[m - 1].None? {
      LowEndExactly(slot, m - 1, lo);
    }
  }

  /** The nearest member after `m` that has a slot has `hi`; without any, `hi` is the end. */
  lemma {:induction false} HighEndExactly(slot: Slots, m: nat, limit: nat, hi: nat)
    requires m < |slot|
    ensures hi == HighEnd(slot, m, limit) <==>
            || (hi == limit && forall j | m < j < |slot| :: slot[j].None?)
            || exists k | m < k < |slot| :: slot[k] == Some(hi) && forall j | m < j < k :: slot[j].None?
    decreases |slot| - m
  {
    if m + 1 < |slot| && slot[m + 1].None? {
      HighEndExactly(slot, m + 1, limit, hi);
    }
  }

  method After(slot: Slots, m: nat) returns (lo: nat)
    requires m < |slot|
    ensures lo == LowEnd(slot, m)
  {
    for k := m downto 0
      invariant LowEnd(slot, m) == LowEnd(slot, k)
    {
      if slot[k].Some? {
        return slot[k].value + 1;
      }
    }
    lo := 0;
  }

  method Before(slot: Slots, m: nat, limit: nat) returns (hi: nat)
    requires m < |slot|
    ensures hi == HighEnd(slot, m, limit)
  {
    for k := m + 1 to |slot|
      invariant HighEnd(slot, m, limit) == HighEnd(slot, k - 1, limit)
    {
      if slot[k].Some? {
        return slot[k].value;
      }
    }
    hi := limit;
  }

  method FirstFree(taken: seq<bool>, lo: nat, hi: nat) returns (q: Option<nat>)
    requires hi <= |taken|
    ensures q.Some? ==> lo <= q.value < hi && !taken[q.value] && forall r | lo <= r < q.value :: taken[r]
    ensures q.None? ==> forall r | lo <= r < hi :: taken[r]
  {
    var k := lo;
    while k < hi
      invariant lo <= k && forall r | lo <= r < k && r < hi :: taken[r]
    {
      if !taken[k] {
        return Some(k);
      }
      k := k + 1;
    }
    q := None;
  }

  /** Taken when `m` has its turn: by the first pass, or in this one by a member before it. */
  predicate TakenBefore(slot: Slots, was: Slots, m: nat, q: nat)
    requires |slot| == |was|
  {
    exists k | 0 <= k < |slot| :: slot[k] == Some(q) && (k < m || was[k].Some?)
  }

  /**
   A member the first pass left over has the first free place between the members
   placed around it, and none only when nothing there is free.
   */
  ghost predicate Decided(slot: Slots, was: Slots, limit: nat, m: nat)
    requires |slot| == |was| && m < |was|
  {
    if was[m].Some? then slot[m] == was[m]
    else
      var lo, hi := LowEnd(slot, m), HighEnd(was, m, limit);
      match slot[m]
      case Some(q) =>
        lo <= q < hi && !TakenBefore(slot, was, m, q) && forall r: nat | lo <= r < q :: TakenBefore(slot, was, m, r)
      case None => forall r: nat | lo <= r < hi :: TakenBefore(slot, was, m, r)
  }

  ghost predicate DecidedTo(slot: Slots, was: Slots, limit: nat, done: nat) {
    && |slot| == |was|
    && (forall m: nat | m < done && m < |was| :: Decided(slot, was, limit, m))
    && (forall m: nat | done <= m < |was| :: slot[m] == was[m])
  }

  lemma {:induction false} LowEndSame(a: Slots, b: Slots, m: nat)
    requires m <= |a| && m <= |b| && a[..m] == b[..m]
    ensures LowEnd(a, m) == LowEnd(b, m)
  {
    if m > 0 {
      assert a[m - 1] == a[..m][m - 1] == b[m - 1];
      assert a[..m - 1] == a[..m][..m - 1] == b[..m - 1];
      LowEndSame(a, b, m - 1);
    }
  }

  lemma {:induction false} HighEndSame(a: Slots, b: Slots, m: nat, limit: nat)
    requires |a| == |b| && m < |a| && forall k | m < k < |a| :: a[k] == b[k]
    ensures HighEnd(a, m, limit) == HighEnd(b, m, limit)
    decreases |a| - m
  {
    if m + 1 < |a| && a[m + 1].None? {
      HighEndSame(a, b, m + 1, limit);
    }
  }

  lemma {:induction false} HighEndBound(slot: Slots, m: nat, limit: nat)
    requires m < |slot| && forall k | 0 <= k < |slot| && slot[k].Some? :: slot[k].value < limit
    ensures HighEnd(slot, m, limit) <= limit
    decreases |slot| - m
  {
    if m + 1 < |slot| && slot[m + 1].None? {
      HighEndBound(slot, m + 1, limit);
    }
  }

  /** What has been decided stays so when a later member gets its place. */
  lemma {:induction false} StillDecided(slot: Slots, was: Slots, limit: nat, m: nat, s: Option<nat>, n: nat)
    requires DecidedTo(slot, was, limit, m) && n < m < |was| && was[m].None?
    ensures Decided(slot[m := s], was, limit, n)
  {
    var next := slot[m := s];
    assert Decided(slot, was, limit, n);
    assert next[..n] == slot[..n];
    LowEndSame(next, slot, n);
    forall q: nat ensures TakenBefore(next, was, n, q) <==> TakenBefore(slot, was, n, q) {
      if k :| 0 <= k < |slot| && slot[k] == Some(q) && (k < n || was[k].Some?) {
        assert next[k] == Some(q);
      }
      if k :| 0 <= k < |next| && next[k] == Some(q) && (k < n || was[k].Some?) {
        assert slot[k] == Some(q);
      }
    }
  }

  /** The member whose turn it is: in the current state, taken is what a slot names. */
  lemma {:induction false} NowDecided(slot: Slots, was: Slots, taken: seq<bool>, m: nat, s: Option<nat>)
    requires DecidedTo(slot, was, |taken|, m) && m < |was| && was[m].None? && Injective(slot, taken)
    requires var lo, hi := LowEnd(slot, m), HighEnd(slot, m, |taken|);
             && hi <= |taken|
             && (s.Some? ==> lo <= s.value < hi && !taken[s.value] && forall r | lo <= r < s.value :: taken[r])
             && (s.None? ==> forall r | lo <= r < hi :: taken[r])
    ensures Decided(slot[m := s], was, |taken|, m)
  {
    var next := slot[m := s];
    assert next[..m] == slot[..m];
    LowEndSame(next, slot, m);
    HighEndSame(slot, was, m, |taken|);
    forall q: nat | q < |taken| ensures TakenBefore(next, was, m, q) <==> taken[q] {
      if k :| 0 <= k < |next| && next[k] == Some(q) && (k < m || was[k].Some?) {
        assert slot[k] == Some(q);
      }
      if taken[q] {
        assert InUse(slot, q);
        var k :| 0 <= k < |slot| && slot[k] == Some(q);
        assert next[k] == Some(q);
      }
    }
  }

  lemma DecideStep(slot: Slots, was: Slots, taken: seq<bool>, m: nat, s: Option<nat>)
    requires DecidedTo(slot, was, |taken|, m) && m < |was| && was[m].None? && Injective(slot, taken)
    requires var lo, hi := LowEnd(slot, m), HighEnd(slot, m, |taken|);
             && hi <= |taken|
             && (s.Some? ==> lo <= s.value < hi && !taken[s.value] && forall r | lo <= r < s.value :: taken[r])
             && (s.None? ==> forall r | lo <= r < hi :: taken[r])
    ensures DecidedTo(slot[m := s], was, |taken|, m + 1)
  {
    var next := slot[m := s];
    NowDecided(slot, was, taken, m, s);
    forall n: nat | n < m ensures Decided(next, was, |taken|, n) {
      StillDecided(slot, was, |taken|, m, s, n);
    }
  }

  lemma TakeStep(slot: Slots, taken: seq<bool>, m: nat, q: nat)
    requires Injective(slot, taken) && m < |slot| && slot[m].None? && q < |taken| && !taken[q]
    ensures Injective(slot[m := Some(q)], taken[q := true])
  {
    var next := slot[m := Some(q)];
    assert next[m] == Some(q);
    forall r | 0 <= r < |taken| && taken[r] ensures InUse(next, r) {
      assert InUse(slot, r);
      var k :| 0 <= k < |slot| && slot[k] == Some(r);
      assert next[k] == Some(r);
    }
  }

  /** Slots already filled stay, and what is filled now was free. */
  ghost predicate Extends(slot: Slots, taken: seq<bool>, was: Slots, wasTaken: seq<bool>) {
    && |slot| == |was| && |taken| == |wasTaken|
    && (forall m | 0 <= m < |was| && was[m].Some? :: slot[m] == was[m])
    && (forall m | 0 <= m < |was| && was[m].None? && slot[m].Some? ::
        slot[m].value < |wasTaken| && !wasTaken[slot[m].value])
    && (forall q | 0 <= q < |wasTaken| && wasTaken[q] :: taken[q])
  }

  /** The place of the member whose turn it is, if it has none. */
  method Place(was: Slots, slot: Slots, taken: seq<bool>, m: nat) returns (slot': Slots, taken': seq<bool>)
    requires Injective(slot, taken) && DecidedTo(slot, was, |taken|, m) && m < |was|
    ensures Injective(slot', taken') && DecidedTo(slot', was, |taken|, m + 1)
    ensures Extends(slot', taken', slot, taken)
  {
    slot', taken' := slot, taken;
    if slot[m].None? {
      var lo := After(slot, m);
      var hi := Before(slot, m, |taken|);
      HighEndBound(slot, m, |taken|);
      var q := FirstFree(taken, lo, hi);
      DecideStep(slot, was, taken, m, q);
      if q.Some? {
        TakeStep(slot, taken, m, q.value);
        slot', taken' := slot[m := q], taken[q.value := true];
      } else {
        assert slot[m := q] == slot;
      }
    }
  }

  lemma ExtendsFurther(slot: Slots, taken: seq<bool>, mid: Slots, midTaken: seq<bool>, was: Slots, wasTaken: seq<bool>)
    requires Extends(slot, taken, mid, midTaken) && Extends(mid, midTaken, was, wasTaken)
    ensures Extends(slot, taken, was, wasTaken)
  {}

  /** Members left over take what is free between the slots around them. */
  method MatchPositions(was: Slots, wasTaken: seq<bool>) returns (slot: Slots)
    requires Injective(was, wasTaken)
    ensures DecidedTo(slot, was, |wasTaken|, |was|)
    ensures exists taken :: Injective(slot, taken) && Extends(slot, taken, was, wasTaken)
  {
    slot := was;
    var taken := wasTaken;
    for m := 0 to |was|
      invariant Injective(slot, taken) && Extends(slot, taken, was, wasTaken) && DecidedTo(slot, was, |taken|, m)
    {
      ghost var mid, midTaken := slot, taken;
      slot, taken := Place(was, slot, taken, m);
      ExtendsFurther(slot, taken, mid, midTaken, was, wasTaken);
    }
  }

  // -------------------------------------------------------------- what it gives

  lemma {:induction false} TakenAtMost(taken: seq<bool>, ps: seq<Oid>, b: Oid)
    requires |taken| <= |ps|
    ensures CountTaken(taken, ps, b) <= CountBody(ps[..|taken|], b)
    ensures (forall q | 0 <= q < |taken| && ps[q] == b :: taken[q]) ==>
        CountTaken(taken, ps, b) == CountBody(ps[..|taken|], b)
  {
    if taken != [] {
      var k := |taken| - 1;
      TakenAtMost(taken[..k], ps, b);
      assert ps[..|taken|][..k] == ps[..k];
    }
  }

  lemma {:induction false} FilledAtMost(slot: Slots, ms: seq<Oid>, b: Oid)
    requires |slot| <= |ms|
    ensures CountFilled(slot, ms, b) <= CountBody(ms[..|slot|], b)
    ensures (forall m | 0 <= m < |slot| && ms[m] == b :: slot[m].Some?) ==>
        CountFilled(slot, ms, b) == CountBody(ms[..|slot|], b)
  {
    if slot != [] {
      var k := |slot| - 1;
      FilledAtMost(slot[..k], ms, b);
      assert ms[..|slot|][..k] == ms[..k];
    }
  }

  /** The first pass pairs as many units of each body as there are on the scarcer side. */
  lemma {:induction false} ByBodyMost(slot: Slots, taken: seq<bool>, ms: seq<Oid>, ps: seq<Oid>, b: Oid)
    requires |slot| == |ms| && ByBody(slot, taken, ms, ps)
    ensures CountFilled(slot, ms, b) == Min(CountBody(ms, b), CountBody(ps, b))
  {
    TakenAtMost(taken, ps, b);
    FilledAtMost(slot, ms, b);
    assert ms[..|slot|] == ms && ps[..|taken|] == ps;
    assert CountFilled(slot, ms, b) == CountTaken(taken, ps, b);
    if m: nat :| m < |slot| && ms[m] == b && slot[m].None? {
      assert forall q | 0 <= q < |taken| && ps[q] == b :: taken[q];
    }
  }

  /** What the second pass fills never pairs units of one body. */
  lemma {:induction false} SameStaysAsFilled(k: nat, slot: Slots, was: Slots, taken: seq<bool>, wasTaken: seq<bool>,
                                            ms: seq<Oid>, ps: seq<Oid>, b: Oid)
    requires k <= |was| == |ms| && ByBody(was, wasTaken, ms, ps) && Extends(slot, taken, was, wasTaken)
    ensures CountSame(slot[..k], ms, ps, b) == CountFilled(was[..k], ms, b)
  {
    if k > 0 {
      SameStaysAsFilled(k - 1, slot, was, taken, wasTaken, ms, ps, b);
      assert slot[..k][..k - 1] == slot[..k - 1] && was[..k][..k - 1] == was[..k - 1];
    }
  }

  ghost predicate Once(slot: Slots, limit: nat) {
    && (forall m | 0 <= m < |slot| && slot[m].Some? :: slot[m].value < limit)
    && (forall m, n | 0 <= m < n < |slot| && slot[m].Some? && slot[n].Some? :: slot[m].value != slot[n].value)
  }

  /** The slots that join units of one body. */
  function SameOnly(slot: Slots, ms: seq<Oid>, ps: seq<Oid>): (r: Slots)
    requires |slot| == |ms|
    ensures |r| == |slot|
  {
    seq(|slot|, m requires 0 <= m < |slot| =>
      if slot[m].Some? && slot[m].value < |ps| && ms[m] == ps[slot[m].value] then slot[m] else None)
  }

  lemma SameOnlyIsFirst(slot: Slots, was: Slots, taken: seq<bool>, wasTaken: seq<bool>, ms: seq<Oid>, ps: seq<Oid>)
    requires |was| == |ms| && ByBody(was, wasTaken, ms, ps) && Extends(slot, taken, was, wasTaken)
    ensures SameOnly(slot, ms, ps) == was
  {}

  /** What matching a group gives: each clause is a rule of `MatchGroup`. */
  ghost predicate Matched(ms: seq<Oid>, ps: seq<Oid>, slot: Slots) {
    && |slot| == |ms| && Once(slot, |ps|) && PairedInOrder(slot, ms, ps)
    && DecidedTo(slot, SameOnly(slot, ms, ps), |ps|, |ms|)
  }

  /**
   No previous unit is taken twice; of each body the first unit takes the first, the
   second the second, as long as both sides have one; each other unit in turn takes the
   first one free between those placed around it, and an unchanged group is matched to
   itself.
   */
  method MatchGroup(ms: seq<Oid>, ps: seq<Oid>) returns (slot: Slots)
    ensures Matched(ms, ps, slot)
    ensures forall b :: CountSame(slot, ms, ps, b) == Min(CountBody(ms, b), CountBody(ps, b))
    ensures ms == ps ==> forall m | 0 <= m < |ms| :: slot[m] == Some(m)
  {
    var was, wasTaken := MatchBodies(ms, ps);
    slot := MatchPositions(was, wasTaken);
    ghost var taken :| Injective(slot, taken) && Extends(slot, taken, was, wasTaken);
    SameOnlyIsFirst(slot, was, taken, wasTaken, ms, ps);
    forall b ensures CountSame(slot, ms, ps, b) == Min(CountBody(ms, b), CountBody(ps, b)) {
      ByBodyMost(was, wasTaken, ms, ps, b);
      SameStaysAsFilled(|was|, slot, was, taken, wasTaken, ms, ps, b);
      assert slot[..|was|] == slot && was[..|was|] == was;
    }
  }
}
