/**
 The difference of two trees, found by walking both at once and never entering
 what is equal, against the difference of the flat maps.
 */
module TreeDiff {
  import opened Options
  import opened Order
  import opened Paths
  import opened Trees

  ghost function Height(node: Node): nat
    decreases node, 1
  {
    if node.File? then 0 else 1 + Tallest(node, node.kids.Keys)
  }

  ghost function Tallest(node: Node, names: set<string>): nat
    requires node.Dir? && names <= node.kids.Keys
    decreases node, 0, |names|
  {
    if names == {} then 0
    else
      var n :| n in names;
      var rest := Tallest(node, names - {n});
      if Height(node.kids[n]) > rest then Height(node.kids[n]) else rest
  }

  lemma {:induction false} KidLower(node: Node, names: set<string>, name: string)
    requires node.Dir? && names <= node.kids.Keys && name in names
    ensures Height(node.kids[name]) <= Tallest(node, names)
    decreases |names|
  {
    var n :| n in names && Tallest(node, names) ==
      if Height(node.kids[n]) > Tallest(node, names - {n}) then Height(node.kids[n]) else Tallest(node, names - {n});
    if name != n {
      KidLower(node, names - {n}, name);
    }
  }

  function Kid(node: Node, name: string): Option<Node>
    requires node.Dir?
  {
    if name in node.kids then Some(node.kids[name]) else None
  }

  /** An absent directory differs as an empty one does. */
  function OrNothing(kid: Option<Node>): Node {
    kid.GetOr(NOTHING)
  }

  ghost predicate Descends(a: Option<Node>, b: Option<Node>) {
    && (a.Some? || b.Some?)
    && (a.Some? ==> a.value.Dir?) && (b.Some? ==> b.value.Dir?)
  }

  lemma {:induction false} DescentLower(o: Node, n: Node, name: string)
    requires o.Dir? && n.Dir? && Descends(Kid(o, name), Kid(n, name))
    ensures Height(OrNothing(Kid(o, name))) + Height(OrNothing(Kid(n, name))) < Height(o) + Height(n)
  {
    if name in o.kids { KidLower(o, o.kids.Keys, name); }
    if name in n.kids { KidLower(n, n.kids.Keys, name); }
  }

  /** The paths one name contributes. */
  ghost function DiffOne(o: Node, n: Node, name: string, prefix: string): seq<string>
    requires o.Dir? && n.Dir?
    decreases Height(o) + Height(n), 0
  {
    var a, b := Kid(o, name), Kid(n, name);
    if a == b then []
    else if Descends(a, b) then
      DescentLower(o, n, name);
      DiffDirs(OrNothing(a), OrNothing(b), Under(prefix, name))
    else [Under(prefix, name)]
  }

  ghost function DiffNames(o: Node, n: Node, names: seq<string>, prefix: string): seq<string>
    requires o.Dir? && n.Dir?
    decreases Height(o) + Height(n), 1, |names|
  {
    if names == [] then [] else DiffOne(o, n, names[0], prefix) + DiffNames(o, n, names[1..], prefix)
  }

  ghost function DiffDirs(o: Node, n: Node, prefix: string): seq<string>
    requires o.Dir? && n.Dir?
    decreases Height(o) + Height(n), 2
  {
    if o == n then [] else DiffNames(o, n, Listed(o.kids.Keys + n.kids.Keys), prefix)
  }

  // ------------------------------------------------------------ what it reports

  /** The leaves at `q` differ, and neither tree has a leaf where `q` has a directory. */
  ghost predicate Differs(o: Node, n: Node, q: seq<string>) {
    && Get(o, q) != Get(n, q)
    && forall r {:trigger Get(o, r)} {:trigger Get(n, r)} | r < q :: Get(o, r).None? && Get(n, r).None?
  }

  ghost predicate Reports(o: Node, n: Node, names: seq<string>, pre: seq<string>, parts: seq<string>) {
    pre < parts && parts[|pre|] in names && Differs(o, n, parts[|pre|..])
  }

  lemma GetKid(node: Node, q: seq<string>)
    requires node.Dir? && q != []
    ensures Get(node, q) == if Kid(node, q[0]).Some? then Get(Kid(node, q[0]).value, q[1..]) else None
  {}

  lemma GetDescended(node: Node, q: seq<string>)
    requires node.Dir? && q != [] && (Kid(node, q[0]).Some? ==> Kid(node, q[0]).value.Dir?)
    ensures Get(node, q) == Get(OrNothing(Kid(node, q[0])), q[1..])
  {
  }

  /** Below a name that is a directory, or absent, on both sides. */
  lemma DiffersBelow(o: Node, n: Node, q: seq<string>)
    requires o.Dir? && n.Dir? && q != [] && Descends(Kid(o, q[0]), Kid(n, q[0]))
    ensures Differs(o, n, q) <==> Differs(OrNothing(Kid(o, q[0])), OrNothing(Kid(n, q[0])), q[1..])
  {
    var a, b := OrNothing(Kid(o, q[0])), OrNothing(Kid(n, q[0]));
    GetDescended(o, q);
    GetDescended(n, q);
    if Differs(o, n, q) {
      forall r | r < q[1..] ensures Get(a, r).None? && Get(b, r).None? {
        var whole := [q[0]] + r;
        assert whole[1..] == r && whole < q;
        GetDescended(o, whole);
        GetDescended(n, whole);
      }
    }
    if Differs(a, b, q[1..]) {
      forall r | r < q ensures Get(o, r).None? && Get(n, r).None? {
        if r != [] {
          GetDescended(o, r);
          GetDescended(n, r);
          assert r[1..] < q[1..];
        }
      }
    }
  }

  /** At a name that is a leaf on some side. */
  lemma DiffersHere(o: Node, n: Node, q: seq<string>)
    requires o.Dir? && n.Dir? && q != [] && Kid(o, q[0]) != Kid(n, q[0]) && !Descends(Kid(o, q[0]), Kid(n, q[0]))
    ensures Differs(o, n, q) <==> |q| == 1
  {
    var here := [q[0]];
    GetKid(o, here);
    GetKid(n, here);
    if |q| == 1 {
      assert q == here;
    } else {
      assert here < q;
    }
  }

  lemma DiffersNowhere(o: Node, n: Node, q: seq<string>)
    requires o.Dir? && n.Dir? && (q == [] || Kid(o, q[0]) == Kid(n, q[0]))
    ensures !Differs(o, n, q)
  {
    if q != [] {
      GetKid(o, q);
      GetKid(n, q);
    }
  }

  ghost predicate Walkable(o: Node, n: Node, prefix: string, pre: seq<string>) {
    && o.Dir? && n.Dir? && Canon(o) && Canon(n)
    && Names(prefix, pre) && NoSlashes(pre) && (pre == [] ==> NamedRoot(o) && NamedRoot(n))
  }

  lemma {:induction false} LeafReports(o: Node, n: Node, name: string, prefix: string, pre: seq<string>, p: string)
    requires Walkable(o, n, prefix, pre) && (name in o.kids || name in n.kids)
    requires Kid(o, name) != Kid(n, name) && !Descends(Kid(o, name), Kid(n, name))
    ensures p == Under(prefix, name) <==> Reports(o, n, [name], pre, Split(p))
  {
    var parts := Split(p);
    UnderNames(prefix, pre, name);
    SplitJoin(pre + [name]);
    JoinSplit(p);
    if pre < parts && parts[|pre|] == name {
      DiffersHere(o, n, parts[|pre|..]);
      assert |parts| == |pre| + 1 ==> parts == pre + [name];
    } else {
      assert parts != pre + [name];
    }
  }

  lemma {:induction false} DescentReports(o: Node, n: Node, name: string, prefix: string, pre: seq<string>, p: string)
    requires Walkable(o, n, prefix, pre) && (name in o.kids || name in n.kids)
    requires Kid(o, name) != Kid(n, name) && Descends(Kid(o, name), Kid(n, name))
    ensures p in DiffOne(o, n, name, prefix) <==> Reports(o, n, [name], pre, Split(p))
    decreases Height(o) + Height(n), 0
  {
    var a, b, parts := OrNothing(Kid(o, name)), OrNothing(Kid(n, name)), Split(p);
    UnderNames(prefix, pre, name);
    DescentLower(o, n, name);
    DirsReport(a, b, Under(prefix, name), pre + [name], p);
    StepDown(a, b, name, pre, parts);
    if pre < parts && parts[|pre|] == name {
      DiffersBelow(o, n, parts[|pre|..]);
    }
  }

  lemma {:induction false} OneReports(o: Node, n: Node, name: string, prefix: string, pre: seq<string>, p: string)
    requires Walkable(o, n, prefix, pre) && (name in o.kids || name in n.kids)
    ensures p in DiffOne(o, n, name, prefix) <==> Reports(o, n, [name], pre, Split(p))
    decreases Height(o) + Height(n), 1
  {
    if Kid(o, name) == Kid(n, name) {
      if pre < Split(p) && Split(p)[|pre|] == name {
        DiffersNowhere(o, n, Split(p)[|pre|..]);
      }
    } else if Descends(Kid(o, name), Kid(n, name)) {
      DescentReports(o, n, name, prefix, pre, p);
    } else {
      LeafReports(o, n, name, prefix, pre, p);
    }
  }

  lemma StepDown(a: Node, b: Node, name: string, pre: seq<string>, parts: seq<string>)
    requires a.Dir? && b.Dir?
    ensures (pre + [name] < parts && Differs(a, b, parts[|pre| + 1..])) <==>
            (pre < parts && parts[|pre|] == name && Differs(a, b, parts[|pre|..][1..]))
  {
    if pre < parts && parts[|pre|] == name {
      assert pre + [name] <= parts && parts[|pre|..][1..] == parts[|pre| + 1..];
      if parts == pre + [name] {
        DiffersNowhere(a, b, []);
        assert parts[|pre| + 1..] == [];
      }
    }
  }

  lemma {:induction false} NamesReport(o: Node, n: Node, names: seq<string>, prefix: string, pre: seq<string>,
                                       p: string)
    requires Walkable(o, n, prefix, pre) && forall name | name in names :: name in o.kids || name in n.kids
    ensures p in DiffNames(o, n, names, prefix) <==> Reports(o, n, names, pre, Split(p))
    decreases Height(o) + Height(n), 2, |names|
  {
    if names != [] {
      OneReports(o, n, names[0], prefix, pre, p);
      NamesReport(o, n, names[1..], prefix, pre, p);
      assert names == [names[0]] + names[1..];
    }
  }

  /** The walk reports exactly the paths that differ and have no leaf above them on either side. */
  lemma {:induction false} DirsReport(o: Node, n: Node, prefix: string, pre: seq<string>, p: string)
    requires Walkable(o, n, prefix, pre)
    ensures p in DiffDirs(o, n, prefix) <==> pre < Split(p) && Differs(o, n, Split(p)[|pre|..])
    decreases Height(o) + Height(n), 3
  {
    var parts, names := Split(p), Listed(o.kids.Keys + n.kids.Keys);
    if o != n {
      NamesReport(o, n, names, prefix, pre, p);
      if pre < parts && parts[|pre|] !in names {
        DiffersNowhere(o, n, parts[|pre|..]);
      }
    }
  }

  ghost predicate Once(s: seq<string>) {
    forall i, j | 0 <= i < j < |s| :: s[i] != s[j]
  }

  lemma OnceConcat(a: seq<string>, b: seq<string>)
    requires Once(a) && Once(b) && forall x | x in a :: x !in b
    ensures Once(a + b)
  {
    var c := a + b;
    forall i, j | 0 <= i < j < |c| ensures c[i] != c[j] {
      assert i < |a| ==> c[i] in a;
      assert j >= |a| ==> c[j] in b;
    }
  }

  lemma {:induction false} NamesOnce(o: Node, n: Node, names: seq<string>, prefix: string, pre: seq<string>)
    requires Walkable(o, n, prefix, pre) && Rising(names) && forall name | name in names ::
        name in o.kids || name in n.kids
    ensures Once(DiffNames(o, n, names, prefix))
    decreases Height(o) + Height(n), 1, |names|
  {
    if names != [] {
      var name, a, b := names[0], Kid(o, names[0]), Kid(n, names[0]);
      if a != b && Descends(a, b) {
        UnderNames(prefix, pre, name);
        DescentLower(o, n, name);
        DirsOnce(OrNothing(a), OrNothing(b), Under(prefix, name), pre + [name]);
      }
      RisingDistinctTail(names);
      NamesOnce(o, n, names[1..], prefix, pre);
      forall p | p in DiffOne(o, n, name, prefix) ensures p !in DiffNames(o, n, names[1..], prefix) {
        OneReports(o, n, name, prefix, pre, p);
        NamesReport(o, n, names[1..], prefix, pre, p);
      }
      OnceConcat(DiffOne(o, n, name, prefix), DiffNames(o, n, names[1..], prefix));
    }
  }

  lemma {:induction false} DirsOnce(o: Node, n: Node, prefix: string, pre: seq<string>)
    requires Walkable(o, n, prefix, pre)
    ensures Once(DiffDirs(o, n, prefix))
    decreases Height(o) + Height(n), 2
  {
    NamesOnce(o, n, Listed(o.kids.Keys + n.kids.Keys), prefix, pre);
  }

  // ------------------------------------------------------- against the flat maps

  ghost predicate Buildable(flat: Flat) {
    Plain(flat) && NoDirLeaves(flat) && forall p | p in flat :: !Slashed(p)
  }

  /** The paths at which two flat maps differ. */
  ghost function FlatDiff(a: Flat, b: Flat): set<string> {
    set p | p in a.Keys + b.Keys && AtPath(a, p) != AtPath(b, p)
  }

  /** A path strictly below one that is a leaf in either map. */
  ghost predicate BelowLeaf(a: Flat, b: Flat, p: string) {
    exists r :: r in a.Keys + b.Keys && Split(r) < Split(p)
  }

  /** Under a leaf of either map nothing is reported. */
  lemma LeafOnTheWay(a: Flat, b: Flat, p: string, r: string)
    requires Buildable(a) && Buildable(b) && r in a.Keys + b.Keys && Split(r) < Split(p)
    ensures !Differs(BuildNode(a), BuildNode(b), Split(p))
  {
    BuildGets(a, Split(p));
    BuildGets(b, Split(p));
    BuildGets(a, Split(r));
    BuildGets(b, Split(r));
    JoinSplit(r);
  }

  lemma NoLeafOnTheWay(a: Flat, b: Flat, p: string, r: seq<string>)
    requires Buildable(a) && Buildable(b) && !BelowLeaf(a, b, p) && r < Split(p)
    ensures Get(BuildNode(a), r).None? && Get(BuildNode(b), r).None?
  {
    BuildGets(a, r);
    BuildGets(b, r);
  }

  lemma LeafAbove(a: Flat, b: Flat, p: string)
    requires Buildable(a) && Buildable(b)
    ensures Differs(BuildNode(a), BuildNode(b), Split(p)) <==> AtPath(a, p) != AtPath(b, p) && !BelowLeaf(a, b, p)
  {
    var o, n := BuildNode(a), BuildNode(b);
    GetsAtPath(a, p);
    GetsAtPath(b, p);
    if r :| r in a.Keys + b.Keys && Split(r) < Split(p) {
      LeafOnTheWay(a, b, p, r);
    } else {
      forall r | r < Split(p) ensures Get(o, r).None? && Get(n, r).None? {
        NoLeafOnTheWay(a, b, p, r);
      }
    }
  }

  lemma GetsAtPath(flat: Flat, p: string)
    requires Buildable(flat)
    ensures Get(BuildNode(flat), Split(p)) == AtPath(flat, p)
  {
    BuildGets(flat, Split(p));
    JoinSplit(p);
  }

  /**
   On built trees the pruned walk reports each path once, and reports exactly the
   paths whose leaves differ and that no leaf of either map stands above.
   */
  lemma {:induction false} ChangedPathsExact(a: Flat, b: Flat, p: string)
    requires Buildable(a) && Buildable(b)
    ensures var changed := DiffDirs(BuildNode(a), BuildNode(b), "");
            && (p in changed <==> p in FlatDiff(a, b) && !BelowLeaf(a, b, p))
            && Once(changed)
  {
    BuiltWalkable(a, b);
    DirsReport(BuildNode(a), BuildNode(b), "", [], p);
    assert Split(p)[0..] == Split(p);
    LeafAbove(a, b, p);
    DirsOnce(BuildNode(a), BuildNode(b), "", []);
  }

  lemma BuiltWalkable(a: Flat, b: Flat)
    requires Buildable(a) && Buildable(b)
    ensures Walkable(BuildNode(a), BuildNode(b), "", [])
  {
    BuiltRootNamed(a);
    BuiltRootNamed(b);
    BuildFromCanon(a, Listed(a.Keys));
    BuildFromCanon(b, Listed(b.Keys));
  }

  /** No leaf of one map is a directory of the other. */
  ghost predicate NoClash(a: Flat, b: Flat) {
    forall p, q | p in a && q in b :: !(Split(p) < Split(q)) && !(Split(q) < Split(p))
  }

  lemma NothingAbove(a: Flat, b: Flat, p: string)
    requires Plain(a) && Plain(b) && NoClash(a, b) && (p in a || p in b)
    ensures !BelowLeaf(a, b, p)
  {}

  lemma {:induction false} ClashLost(a: Flat, b: Flat, p: string, q: string)
    requires p in a && q in b && (Split(p) < Split(q) || Split(q) < Split(p)) && Buildable(a) && Buildable(b)
    ensures exists r :: r in FlatDiff(a, b) && BelowLeaf(a, b, r)
  {
    if Split(p) < Split(q) {
      assert q !in a;
      assert q in FlatDiff(a, b) && BelowLeaf(a, b, q);
    } else {
      assert p !in b;
      assert p in FlatDiff(a, b) && BelowLeaf(a, b, p);
    }
  }

  /**
   The pruned walk and the flat comparison agree if and only if no leaf on one side
   is a directory on the other.
   */
  lemma {:induction false} DiffsAgree(a: Flat, b: Flat)
    requires Buildable(a) && Buildable(b)
    ensures (set p | p in DiffDirs(BuildNode(a), BuildNode(b), "")) == FlatDiff(a, b) <==> NoClash(a, b)
  {
    var changed := set p | p in DiffDirs(BuildNode(a), BuildNode(b), "");
    forall p ensures p in changed <==> p in FlatDiff(a, b) && !BelowLeaf(a, b, p) {
      ChangedPathsExact(a, b, p);
    }
    if NoClash(a, b) {
      forall p | p in FlatDiff(a, b) ensures !BelowLeaf(a, b, p) {
        NothingAbove(a, b, p);
      }
    } else {
      var p, q :| p in a && q in b && (Split(p) < Split(q) || Split(q) < Split(p));
      ClashLost(a, b, p, q);
    }
  }
}
