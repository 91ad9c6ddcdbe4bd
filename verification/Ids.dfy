/**
 Identities. Object IDs are 256-bit hashes and entity IDs 128-bit random values,
 both compared as big-endian numbers; hashing is an injective function given by
 the environment.
 */
module Ids {

  type Oid = nat
  type EntityId = nat

  function Members(s: seq<nat>): set<nat> {
    set x | x in s
  }

  predicate IsLeast(s: set<nat>, m: nat) {
    m in s && forall x | x in s :: m <= x
  }

  lemma {:induction false} LeastExists(s: set<nat>)
    requires s != {}
    ensures exists m: nat :: IsLeast(s, m)
  {
    var y :| y in s;
    if s == {y} {
      assert IsLeast(s, y);
    } else {
      LeastExists(s - {y});
      var n: nat :| IsLeast(s - {y}, n);
      assert forall x | x in s :: x == y || x in s - {y};
      assert IsLeast(s, if y < n then y else n);
    }
  }

  /** Strictly ascending. */
  ghost predicate Rises(ids: seq<nat>) {
    forall i, j | 0 <= i < j < |ids| :: ids[i] < ids[j]
  }

  lemma AfterFirst(x: seq<nat>, id: nat)
    requires Rises(x) && x != []
    ensures id in x[1..] <==> id in x && id != x[0]
  {
    assert x == [x[0]] + x[1..];
    if id in x[1..] {
      var i :| 0 <= i < |x[1..]| && x[1..][i] == id;
      assert x[i + 1] == id;
    }
  }

  lemma FirstIn(x: seq<nat>)
    ensures x != [] ==> x[0] in x
  {}

  /** One ascending listing per set. */
  lemma {:induction false} RisesOnce(x: seq<nat>, y: seq<nat>)
    requires Rises(x) && Rises(y) && forall id :: id in x <==> id in y
    ensures x == y
  {
    FirstIn(x);
    FirstIn(y);
    if x != [] && y != [] {
      forall id ensures id in x[1..] <==> id in y[1..] {
        AfterFirst(x, id);
        AfterFirst(y, id);
      }
      RisesOnce(x[1..], y[1..]);
      assert x == [x[0]] + x[1..] && y == [y[0]] + y[1..];
    }
  }

  /** The strictly ascending listing of a set of IDs. */
  function Ascending(s: set<nat>): (r: seq<nat>)
    ensures forall x :: x in r <==> x in s
    ensures forall i, j | 0 <= i < j < |r| :: r[i] < r[j]
  {
    if s == {} then []
    else
      LeastExists(s);
      var m :| m in s && IsLeast(s, m);
      [m] + Ascending(s - {m})
  }

  lemma {:induction false} AscendingStep(s: set<nat>, m: nat)
    requires IsLeast(s, m)
    ensures Ascending(s) == [m] + Ascending(s - {m})
  {}

  /** The sorted listing an ordered set gives: the least member first. */
  method SortIds(s: set<nat>) returns (r: seq<nat>)
    ensures r == Ascending(s)
  {
    if s == {} {
      return [];
    }
    LeastExists(s);
    var m :| m in s && IsLeast(s, m);
    AscendingStep(s, m);
    var rest := SortIds(s - {m});
    return [m] + rest;
  }
}
