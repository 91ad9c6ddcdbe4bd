/**
 Trees as nested directories and as flat path maps: building one from the other,
 flattening back, and the difference of two trees found by walking both.
 */
module Trees {
  import opened Options
  import opened Ids
  import opened Order
  import opened Paths

  datatype Kind = FileKind | DirKind | SymlinkKind | ArtifactKind | ConflictKind

  datatype Term = Term(sign: int, kind: Kind, mode: Option<nat>, ref: Oid)

  datatype Leaf = Leaf(kind: Kind, mode: Option<nat>, ref: Option<Oid>, terms: Option<seq<Term>>)

  type Flat = map<string, Leaf>

  datatype Node = File(leaf: Leaf) | Dir(kids: map<string, Node>)

  const NOTHING := Dir(map[])

  /** The leaf at a path given by its components. */
  function Get(node: Node, parts: seq<string>): Option<Leaf>
    decreases parts
  {
    if parts == [] then (if node.File? then Some(node.leaf) else None)
    else if node.Dir? && parts[0] in node.kids then Get(node.kids[parts[0]], parts[1..])
    else None
  }

  function AtPath(flat: Flat, path: string): Option<Leaf> {
    if path in flat then Some(flat[path]) else None
  }

  // ------------------------------------------------------------------ building

  /** Descend to the path's directory, creating what is missing, and add the leaf there. */
  function Add(node: Node, parts: seq<string>, leaf: Leaf): Node
    requires node.Dir? && parts != []
    decreases parts
  {
    if |parts| == 1 then Dir(node.kids[parts[0] := File(leaf)])
    else
      var sub := if parts[0] in node.kids && node.kids[parts[0]].Dir? then node.kids[parts[0]] else NOTHING;
      Dir(node.kids[parts[0] := Add(sub, parts[1..], leaf)])
  }

  function BuildFrom(flat: Flat, paths: seq<string>): (r: Node)
    requires forall p | p in paths :: p in flat
    ensures r.Dir?
  {
    if paths == [] then NOTHING
    else
      var last := paths[|paths| - 1];
      Add(BuildFrom(flat, paths[..|paths| - 1]), Split(last), flat[last])
  }

  ghost function BuildNode(flat: Flat): Node {
    BuildFrom(flat, Listed(flat.Keys))
  }

  /** No path is a directory on the way to another. */
  ghost predicate Plain(flat: Flat) {
    forall p, q | p in flat && q in flat && p != q :: !(Split(p) <= Split(q))
  }

  /** Nothing is at a directory above `parts`, and `parts` is above nothing. */
  ghost predicate Free(node: Node, parts: seq<string>) {
    forall q {:trigger Get(node, q)} | q < parts || parts < q :: Get(node, q).None?
  }

  lemma FreeBelow(node: Node, parts: seq<string>, sub: Node)
    requires node.Dir? && |parts| > 1 && Free(node, parts)
    requires sub == if parts[0] in node.kids && node.kids[parts[0]].Dir? then node.kids[parts[0]] else NOTHING
    ensures Free(sub, parts[1..])
  {
    forall q | q < parts[1..] || parts[1..] < q ensures Get(sub, q).None? {
      if sub == NOTHING {
      } else {
        var whole := [parts[0]] + q;
        assert whole[1..] == q && parts == [parts[0]] + parts[1..];
        assert whole < parts || parts < whole;
        assert Get(node, whole) == Get(sub, q);
      }
    }
  }

  /** Adding a leaf changes what is at its path, and nothing else. */
  lemma {:induction false} GetAdd(node: Node, parts: seq<string>, leaf: Leaf, q: seq<string>)
    requires node.Dir? && parts != [] && Free(node, parts)
    ensures Get(Add(node, parts, leaf), q) == if q == parts then Some(leaf) else Get(node, q)
    decreases parts
  {
    if q == [] || q[0] != parts[0] {
    } else if |parts| == 1 {
      if |q| > 1 {
        assert parts < q;
      } else {
        assert q == parts;
      }
    } else {
      var sub := if parts[0] in node.kids && node.kids[parts[0]].Dir? then node.kids[parts[0]] else NOTHING;
      FreeBelow(node, parts, sub);
      GetAdd(sub, parts[1..], leaf, q[1..]);
      assert q == [q[0]] + q[1..] && parts == [parts[0]] + parts[1..];
      if parts[0] in node.kids && node.kids[parts[0]].File? {
        assert Get(node, [parts[0]]) == Get(node.kids[parts[0]], []);
        assert [parts[0]] < parts;
      }
    }
  }

  /** The flat map as a tree reads it. */
  function Listing(flat: Flat, paths: seq<string>, q: seq<string>): Option<Leaf>
    requires forall p | p in paths :: p in flat
  {
    if q != [] && Join(q) in paths && Split(Join(q)) == q then Some(flat[Join(q)]) else None
  }

  lemma {:induction false} BuildFromGets(flat: Flat, paths: seq<string>, q: seq<string>)
    requires Plain(flat) && Rising(paths) && forall p | p in paths :: p in flat
    ensures Get(BuildFrom(flat, paths), q) == Listing(flat, paths, q)
    decreases |paths|
  {
    if paths != [] {
      var init, last := paths[..|paths| - 1], paths[|paths| - 1];
      var node, parts := BuildFrom(flat, init), Split(last);
      assert paths == init + [last];
      forall r | r < parts || parts < r ensures Get(node, r).None? {
        BuildFromGets(flat, init, r);
      }
      GetAdd(node, parts, flat[last], q);
      BuildFromGets(flat, init, q);
      JoinSplit(last);
    }
  }

  /** A built tree holds each leaf of the map at its path, and no others. */
  lemma {:induction false} BuildGets(flat: Flat, q: seq<string>)
    requires Plain(flat)
    ensures Get(BuildNode(flat), q) == if q != [] && Split(Join(q)) == q then AtPath(flat, Join(q)) else None
  {
    BuildFromGets(flat, Listed(flat.Keys), q);
  }

  // ------------------------------------------------------------ canonical trees

  /** Names hold no slash, leaves are not directories, and no directory but the root is empty. */
  ghost predicate Canon(node: Node)
    decreases node
  {
    match node
    case File(leaf) => leaf.kind != DirKind
    case Dir(kids) => forall k | k in kids :: '/' !in k && Canon(kids[k]) && kids[k] != NOTHING
  }

  lemma {:induction false} AddCanon(node: Node, parts: seq<string>, leaf: Leaf)
    requires Canon(node) && node.Dir? && parts != [] && leaf.kind != DirKind && forall c | c in parts :: '/' !in c
    ensures Canon(Add(node, parts, leaf)) && Add(node, parts, leaf) != NOTHING
    decreases parts
  {
    if |parts| > 1 {
      var sub := if parts[0] in node.kids && node.kids[parts[0]].Dir? then node.kids[parts[0]] else NOTHING;
      AddCanon(sub, parts[1..], leaf);
    }
    assert parts[0] in Add(node, parts, leaf).kids;
  }

  predicate NoDirLeaves(flat: Flat) {
    forall p | p in flat :: flat[p].kind != DirKind
  }

  lemma {:induction false} BuildFromCanon(flat: Flat, paths: seq<string>)
    requires NoDirLeaves(flat) && forall p | p in paths :: p in flat
    ensures Canon(BuildFrom(flat, paths))
    decreases |paths|
  {
    if paths != [] {
      var init, last := paths[..|paths| - 1], paths[|paths| - 1];
      BuildFromCanon(flat, init);
      SplitComponents(last);
      AddCanon(BuildFrom(flat, init), Split(last), flat[last]);
    }
  }

  /** A directory below the root leads to some leaf. */
  lemma {:induction false} Inhabited(node: Node) returns (q: seq<string>)
    requires Canon(node) && node != NOTHING
    ensures Get(node, q).Some? && (node.Dir? ==> q != [])
    decreases node
  {
    match node
    case File(_) => q := [];
    case Dir(kids) =>
      var k :| k in kids;
      var rest := Inhabited(kids[k]);
      q := [k] + rest;
      assert q[1..] == rest;
  }

  lemma GetBelow(node: Node, k: string, q: seq<string>)
    requires node.Dir? && k in node.kids
    ensures Get(node, [k] + q) == Get(node.kids[k], q)
  {
    assert ([k] + q)[1..] == q;
  }

  ghost predicate SameLeaves(a: Node, b: Node) {
    forall q {:trigger Get(a, q)} {:trigger Get(b, q)} :: Get(a, q) == Get(b, q)
  }

  lemma NameIn(a: Node, b: Node, k: string)
    requires Canon(a) && a.Dir? && b.Dir? && SameLeaves(a, b) && k in a.kids
    ensures k in b.kids
  {
    var q := Inhabited(a.kids[k]);
    GetBelow(a, k, q);
    assert Get(b, [k] + q).Some?;
  }

  /** The leaves determine the tree. */
  lemma {:induction false} CanonUnique(a: Node, b: Node)
    requires Canon(a) && Canon(b) && SameLeaves(a, b) && (a.Dir? <==> b.Dir?)
    ensures a == b
    decreases a
  {
    if a.File? {
      assert Get(a, []) == Get(b, []);
    } else {
      forall k ensures k in a.kids <==> k in b.kids {
        if k in a.kids { NameIn(a, b, k); }
        if k in b.kids { NameIn(b, a, k); }
      }
      forall k | k in a.kids ensures a.kids[k] == b.kids[k] {
        KidsAgree(a, b, k);
        CanonUnique(a.kids[k], b.kids[k]);
      }
      assert a.kids == b.kids;
    }
  }

  lemma KidsAgree(a: Node, b: Node, k: string)
    requires Canon(a) && Canon(b) && a.Dir? && b.Dir? && SameLeaves(a, b) && k in a.kids && k in b.kids
    ensures SameLeaves(a.kids[k], b.kids[k]) && (a.kids[k].Dir? <==> b.kids[k].Dir?)
  {
    forall q ensures Get(a.kids[k], q) == Get(b.kids[k], q) {
      GetBelow(a, k, q);
      GetBelow(b, k, q);
    }
    assert Get(a.kids[k], []) == Get(b.kids[k], []);
  }

  /** Distinct maps build distinct trees, whatever order they list their paths in. */
  lemma {:induction false} BuildInjective(a: Flat, b: Flat)
    requires Plain(a) && Plain(b)
    ensures BuildNode(a) == BuildNode(b) <==> a == b
  {
    if BuildNode(a) == BuildNode(b) {
      forall p ensures AtPath(a, p) == AtPath(b, p) {
        JoinSplit(p);
        BuildGets(a, Split(p));
        BuildGets(b, Split(p));
      }
      forall p ensures p in a <==> p in b {
        assert AtPath(a, p) == AtPath(b, p);
      }
      forall p | p in a ensures a[p] == b[p] {
        assert AtPath(a, p) == AtPath(b, p);
      }
    }
  }

  // ---------------------------------------------------------------- flattening

  function Under(prefix: string, name: string): string {
    if prefix == "" then name else prefix + "/" + name
  }

  /** The walk: each entry in name order, a directory's leaves in place of it. */
  ghost function Walk(node: Node, names: seq<string>, prefix: string, out: Flat): Flat
    requires node.Dir? && forall n | n in names :: n in node.kids
    decreases node, |names|
  {
    if names == [] then out
    else
      var path := Under(prefix, names[0]);
      var next :=
        match node.kids[names[0]]
        case File(leaf) => out[path := leaf]
        case Dir(kids) => WalkDir(node.kids[names[0]], path, out);
      Walk(node, names[1..], prefix, next)
  }

  ghost function WalkDir(node: Node, prefix: string, out: Flat): Flat
    requires node.Dir?
    decreases node
  {
    Walk(node, Listed(node.kids.Keys), prefix, out)
  }

  ghost function Flatten(node: Node): Flat
    requires node.Dir?
  {
    WalkDir(node, "", map[])
  }

  /** The text of a directory's path; below the root it is never empty. */
  ghost predicate Names(prefix: string, pre: seq<string>) {
    if pre == [] then prefix == "" else prefix == Join(pre) && prefix != ""
  }

  lemma {:induction false} JoinSnoc(pre: seq<string>, name: string)
    requires pre != []
    ensures Join(pre + [name]) == Join(pre) + "/" + name
  {
    if |pre| > 1 {
      JoinSnoc(pre[1..], name);
      assert (pre + [name])[1..] == pre[1..] + [name];
      assert pre[0] + "/" + (Join(pre[1..]) + "/" + name) == pre[0] + "/" + Join(pre[1..]) + "/" + name;
    } else {
      assert (pre + [name])[1..] == [name];
    }
  }

  lemma UnderNames(prefix: string, pre: seq<string>, name: string)
    requires Names(prefix, pre)
    ensures Under(prefix, name) == Join(pre + [name])
    ensures pre != [] || name != "" ==> Names(Under(prefix, name), pre + [name])
  {
    if pre != [] {
      JoinSnoc(pre, name);
    } else {
      assert pre + [name] == [name];
    }
  }

  /** What a walk from the directory `pre` puts at a path, given the names it visits. */
  ghost function Visits(node: Node, names: seq<string>, pre: seq<string>, parts: seq<string>): Option<Leaf> {
    if pre < parts && parts[|pre|] in names then Get(node, parts[|pre|..]) else None
  }

  ghost function Or(a: Option<Leaf>, b: Option<Leaf>): Option<Leaf> {
    if a.Some? then a else b
  }

  predicate NoSlashes(parts: seq<string>) {
    forall c | c in parts :: '/' !in c
  }

  /** The root has no directory without a name. */
  predicate NamedRoot(node: Node) {
    node.Dir? && !("" in node.kids && node.kids[""].Dir?)
  }

  lemma {:induction false} WalkFinds(node: Node, names: seq<string>, prefix: string, pre: seq<string>, out: Flat,
                                     p: string)
    requires Canon(node) && node.Dir? && (forall n | n in names :: n in node.kids) && Rising(names)
    requires Names(prefix, pre) && NoSlashes(pre) && (pre == [] ==> NamedRoot(node))
    ensures AtPath(Walk(node, names, prefix, out), p) == Or(Visits(node, names, pre, Split(p)), AtPath(out, p))
    decreases node, |names|
  {
    if names != [] {
      var next := Entered(node, names[0], prefix, out);
      EnteredFinds(node, names[0], prefix, pre, out, p);
      RisingDistinctTail(names);
      WalkFinds(node, names[1..], prefix, pre, next, p);
    }
  }

  /** The map after one entry of a walk. */
  ghost function Entered(node: Node, name: string, prefix: string, out: Flat): Flat
    requires node.Dir? && name in node.kids
  {
    match node.kids[name]
    case File(leaf) => out[Under(prefix, name) := leaf]
    case Dir(_) => WalkDir(node.kids[name], Under(prefix, name), out)
  }

  lemma {:induction false} EnteredFinds(node: Node, name: string, prefix: string, pre: seq<string>, out: Flat,
                                        p: string)
    requires Canon(node) && node.Dir? && name in node.kids
    requires Names(prefix, pre) && NoSlashes(pre) && (pre == [] ==> NamedRoot(node))
    ensures AtPath(Entered(node, name, prefix, out), p) == Or(Visits(node, [name], pre, Split(p)), AtPath(out, p))
    decreases node, 0
  {
    var kid := node.kids[name];
    UnderNames(prefix, pre, name);
    if kid.Dir? {
      WalkFinds(kid, Listed(kid.kids.Keys), Under(prefix, name), pre + [name], out, p);
      VisitsKid(node, name, pre, Split(p));
    } else {
      SplitJoin(pre + [name]);
      JoinSplit(p);
      VisitsFile(node, name, pre, Split(p));
    }
  }

  lemma RisingDistinctTail(names: seq<string>)
    requires Rising(names) && names != []
    ensures Rising(names[1..]) && names[0] !in names[1..]
    ensures forall n :: n in names <==> n == names[0] || n in names[1..]
  {
    if names[0] in names[1..] {
      var i :| 0 <= i < |names[1..]| && names[1..][i] == names[0];
      RisingDistinct(names, 0, i + 1);
    }
    assert names == [names[0]] + names[1..];
  }

  lemma VisitsKid(node: Node, name: string, pre: seq<string>, parts: seq<string>)
    requires node.Dir? && name in node.kids && node.kids[name].Dir?
    ensures Visits(node.kids[name], Listed(node.kids[name].kids.Keys), pre + [name], parts) ==
        Visits(node, [name], pre, parts)
  {
    if pre < parts && parts[|pre|] == name {
      assert parts[|pre|..] == [name] + parts[|pre| + 1..];
      GetBelow(node, name, parts[|pre| + 1..]);
      assert pre + [name] <= parts;
    }
  }

  lemma VisitsFile(node: Node, name: string, pre: seq<string>, parts: seq<string>)
    requires node.Dir? && name in node.kids && node.kids[name].File?
    ensures Visits(node, [name], pre, parts) == if parts == pre + [name] then Some(node.kids[name].leaf) else None
  {
    if pre < parts && parts[|pre|] == name {
      assert parts[|pre|..] == [name] + parts[|pre| + 1..];
      GetBelow(node, name, parts[|pre| + 1..]);
      if |parts| == |pre| + 1 {
        assert parts == pre + [name];
      }
    }
  }

  /** Flattening lists every leaf at its path. */
  lemma {:induction false} FlattenGets(node: Node, p: string)
    requires Canon(node) && NamedRoot(node)
    ensures AtPath(Flatten(node), p) == Get(node, Split(p))
  {
    WalkFinds(node, Listed(node.kids.Keys), "", [], map[], p);
    assert Split(p)[0..] == Split(p);
  }

  predicate Slashed(path: string) {
    path != "" && path[0] == '/'
  }

  /** No walk ever lists a path that begins with a slash. */
  lemma {:induction false} WalkUnslashed(node: Node, names: seq<string>, prefix: string, out: Flat)
    requires Canon(node) && node.Dir? && (forall n | n in names :: n in node.kids)
    requires !Slashed(prefix) && forall p | p in out :: !Slashed(p)
    ensures forall p | p in Walk(node, names, prefix, out) :: !Slashed(p)
    decreases node, |names|
  {
    if names != [] {
      var path, kid := Under(prefix, names[0]), node.kids[names[0]];
      if kid.Dir? {
        WalkUnslashed(kid, Listed(kid.kids.Keys), path, out);
        WalkUnslashed(node, names[1..], prefix, WalkDir(kid, path, out));
      } else {
        WalkUnslashed(node, names[1..], prefix, out[path := kid.leaf]);
      }
    }
  }

  /** A directory without a name at the root comes only from a path that begins with a slash. */
  lemma {:induction false} BuiltRootNamed(flat: Flat)
    requires Plain(flat) && NoDirLeaves(flat) && forall p | p in flat :: !Slashed(p)
    ensures NamedRoot(BuildNode(flat))
  {
    var node := BuildNode(flat);
    BuildFromCanon(flat, Listed(flat.Keys));
    if "" in node.kids && node.kids[""].Dir? {
      var q := Inhabited(node.kids[""]);
      GetBelow(node, "", q);
      JoinEmptyFirst(q);
      BuildGets(flat, [""] + q);
    }
  }

  /**
   Building a tree from a map and flattening it gives the map back if and only if
   no path begins with a slash.
   */
  lemma {:induction false} RoundTrip(flat: Flat)
    requires Plain(flat) && NoDirLeaves(flat)
    ensures Flatten(BuildNode(flat)) == flat <==> forall p | p in flat :: !Slashed(p)
  {
    var node := BuildNode(flat);
    BuildFromCanon(flat, Listed(flat.Keys));
    WalkUnslashed(node, Listed(node.kids.Keys), "", map[]);
    if forall p | p in flat :: !Slashed(p) {
      BuiltRootNamed(flat);
      forall p ensures AtPath(Flatten(node), p) == AtPath(flat, p) {
        FlattenGets(node, p);
        BuildGets(flat, Split(p));
        JoinSplit(p);
      }
      SameFlat(Flatten(node), flat);
    }
  }

  lemma SameFlat(a: Flat, b: Flat)
    requires forall p :: AtPath(a, p) == AtPath(b, p)
    ensures a == b
  {
    forall p ensures p in a <==> p in b {
      assert AtPath(a, p) == AtPath(b, p);
    }
    forall p | p in a ensures a[p] == b[p] {
      assert AtPath(a, p) == AtPath(b, p);
    }
  }
}
