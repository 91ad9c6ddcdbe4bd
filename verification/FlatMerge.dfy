/** The file-level three-way merge of flat trees, and the conflicts it records. */
module FlatMerge {
  import opened Options
  import opened Ids
  import opened Order
  import opened Trees

  /** A side of a conflict; an absent object ID is written as zero. */
  function TermOf(sign: int, leaf: Leaf): Term {
    Term(sign, leaf.kind, leaf.mode, leaf.ref.GetOr(0))
  }

  function Side(sign: int, leaf: Option<Leaf>): seq<Term> {
    if leaf.None? then [] else [TermOf(sign, leaf.value)]
  }

  function Count(ts: seq<Term>, positive: bool): nat {
    if ts == [] then 0
    else Count(ts[..|ts| - 1], positive) + if (ts[|ts| - 1].sign > 0) == positive then 1 else 0
  }

  /** Terms padded with empty files until the positive ones outnumber the rest. */
  function Padded(ts: seq<Term>, empty: Oid): seq<Term>
    decreases Count(ts, false) + 1 - Count(ts, true)
  {
    if Count(ts, true) < Count(ts, false) + 1 then Padded(ts + [Term(1, FileKind, Some(0), empty)], empty) else ts
  }

  function ConflictLeaf(base: Option<Leaf>, a: Option<Leaf>, b: Option<Leaf>, empty: Oid): Leaf {
    Leaf(ConflictKind, None, None, Some(Padded(Side(-1, base) + Side(1, a) + Side(1, b), empty)))
  }

  /** Each side changed the path, and differently. */
  predicate Conflicts(base: Option<Leaf>, a: Option<Leaf>, b: Option<Leaf>) {
    a != base && b != base && a != b
  }

  function MergeLeaf(base: Option<Leaf>, a: Option<Leaf>, b: Option<Leaf>, empty: Oid): Option<Leaf> {
    if a == base then b
    else if b == base || a == b then a
    else Some(ConflictLeaf(base, a, b, empty))
  }

  function MergedAt(base: Flat, a: Flat, b: Flat, empty: Oid, p: string): Option<Leaf> {
    MergeLeaf(AtPath(base, p), AtPath(a, p), AtPath(b, p), empty)
  }

  predicate ConflictsAt(base: Flat, a: Flat, b: Flat, p: string) {
    Conflicts(AtPath(base, p), AtPath(a, p), AtPath(b, p))
  }

  ghost predicate MergedFlat(base: Flat, a: Flat, b: Flat, empty: Oid, out: Flat) {
    forall p :: AtPath(out, p) == MergedAt(base, a, b, empty, p)
  }

  /** A side of a conflict as it is recorded: the leaf's kind, mode and object, or zero where it has none. */
  predicate Records(t: Term, sign: int, leaf: Leaf) {
    t.sign == sign && t.kind == leaf.kind && t.mode == leaf.mode &&
    t.ref == if leaf.ref.Some? then leaf.ref.value else 0
  }

  /**
   A conflict records the base against both sides in turn. Where one side removed the
   path an empty file stands after the other, and what both added has no negative term.
   */
  predicate RecordsAll(base: Option<Leaf>, a: Option<Leaf>, b: Option<Leaf>, empty: Oid, ts: seq<Term>) {
    var kept := if a.Some? then a else b;
    if base.None? then
      |ts| == 2 && a.Some? && b.Some? && Records(ts[0], 1, a.value) && Records(ts[1], 1, b.value)
    else
      && |ts| == 3 && Records(ts[0], -1, base.value) && kept.Some? && Records(ts[1], 1, kept.value)
      && if a.Some? && b.Some? then Records(ts[2], 1, b.value)
         else ts[2] == Term(1, FileKind, Some(0), empty)
  }

  /** A path: the one side's change, or a conflict of both. */
  predicate PathRuled(base: Option<Leaf>, a: Option<Leaf>, b: Option<Leaf>, empty: Oid, r: Option<Leaf>) {
    && (a == base ==> r == b) && (b == base ==> r == a) && (a == b ==> r == a)
    && (Conflicts(base, a, b) ==>
          && r.Some? && r.value.kind == ConflictKind && r.value.mode.None? && r.value.ref.None? && r.value.terms.Some?
          && RecordsAll(base, a, b, empty, r.value.terms.value))
  }

  lemma PadOnce(ts: seq<Term>, empty: Oid)
    requires Count(ts, true) == Count(ts, false)
    ensures Padded(ts, empty) == ts + [Term(1, FileKind, Some(0), empty)]
  {
    var more := ts + [Term(1, FileKind, Some(0), empty)];
    assert more[..|ts|] == ts;
  }

  lemma ConflictRecords(base: Option<Leaf>, a: Option<Leaf>, b: Option<Leaf>, empty: Oid)
    requires Conflicts(base, a, b)
    ensures RecordsAll(base, a, b, empty, ConflictLeaf(base, a, b, empty).terms.value)
  {
    var ts := Side(-1, base) + Side(1, a) + Side(1, b);
    CountThree(base, a, b);
    if base.Some? && (a.None? || b.None?) {
      PadOnce(ts, empty);
    }
  }

  /** A merged path follows the rules, and nothing else does. */
  lemma PathExactly(base: Option<Leaf>, a: Option<Leaf>, b: Option<Leaf>, empty: Oid, r: Option<Leaf>)
    ensures PathRuled(base, a, b, empty, r) <==> r == MergeLeaf(base, a, b, empty)
  {
    if Conflicts(base, a, b) {
      ConflictRecords(base, a, b, empty);
      TermsOnce(base, a, b, empty, ConflictLeaf(base, a, b, empty).terms.value);
    }
  }

  lemma TermsOnce(base: Option<Leaf>, a: Option<Leaf>, b: Option<Leaf>, empty: Oid, ts: seq<Term>)
    requires RecordsAll(base, a, b, empty, ts)
    ensures forall xs :: RecordsAll(base, a, b, empty, xs) ==> xs == ts
  {
    forall xs | RecordsAll(base, a, b, empty, xs) ensures xs == ts {
      assert |xs| == |ts| && xs[0] == ts[0] && xs[1] == ts[1] && xs[|xs| - 1] == ts[|ts| - 1];
    }
  }

  ghost predicate PathsRuled(base: Flat, a: Flat, b: Flat, empty: Oid, out: Flat) {
    forall p {:trigger AtPath(out, p)} ::
      PathRuled(AtPath(base, p), AtPath(a, p), AtPath(b, p), empty, AtPath(out, p))
  }

  method Merge3(base: Flat, a: Flat, b: Flat, empty: Oid) returns (out: Flat, conflicts: seq<string>)
    ensures MergedFlat(base, a, b, empty, out) && PathsRuled(base, a, b, empty, out)
    ensures Rising(conflicts)
    ensures forall p :: p in conflicts <==> ConflictsAt(base, a, b, p)
  {
    var paths := List(base.Keys + a.Keys + b.Keys);
    out, conflicts := map[], [];
    for i := 0 to |paths|
      invariant MergedTo(base, a, b, empty, paths[..i], out)
      invariant ConflictsTo(base, a, b, paths[..i], conflicts)
    {
      out, conflicts := MergePath(base, a, b, empty, paths, i, out, conflicts);
    }
    assert paths[..|paths|] == paths;
    forall p ensures PathRuled(AtPath(base, p), AtPath(a, p), AtPath(b, p), empty, AtPath(out, p)) {
      PathExactly(AtPath(base, p), AtPath(a, p), AtPath(b, p), empty, AtPath(out, p));
    }
  }

  method MergePath(base: Flat, a: Flat, b: Flat, empty: Oid, paths: seq<string>, i: nat, out: Flat,
                   conflicts: seq<string>)
    returns (next: Flat, found: seq<string>)
    requires Rising(paths) && i < |paths|
    requires MergedTo(base, a, b, empty, paths[..i], out) && ConflictsTo(base, a, b, paths[..i], conflicts)
    ensures MergedTo(base, a, b, empty, paths[..i + 1], next) && ConflictsTo(base, a, b, paths[..i + 1], found)
  {
    var p := paths[i];
    assert paths[..i + 1] == paths[..i] + [p];
    var pick, conflict := Pick(AtPath(base, p), AtPath(a, p), AtPath(b, p), empty);
    RisingRepeats(paths, i);
    ConflictsStep(base, a, b, paths, i, conflicts);
    found := conflicts + if conflict then [p] else [];
    next := if pick.Some? then out[p := pick.value] else out;
  }

  method Pick(was: Option<Leaf>, left: Option<Leaf>, right: Option<Leaf>, empty: Oid)
    returns (pick: Option<Leaf>, conflict: bool)
    ensures pick == MergeLeaf(was, left, right, empty) && conflict == Conflicts(was, left, right)
  {
    conflict := false;
    if left == was {
      pick := right;
    } else if right == was || left == right {
      pick := left;
    } else {
      var terms := Pad(Side(-1, was) + Side(1, left) + Side(1, right), empty);
      pick, conflict := Some(Leaf(ConflictKind, None, None, Some(terms))), true;
    }
  }

  lemma RisingRepeats(paths: seq<string>, i: nat)
    requires Rising(paths) && i < |paths|
    ensures paths[i] !in paths[..i]
  {
    if j :| 0 <= j < i && paths[j] == paths[i] {
      RisingDistinct(paths, i, j);
    }
  }

  /** The merge of the paths done so far. */
  ghost predicate MergedTo(base: Flat, a: Flat, b: Flat, empty: Oid, done: seq<string>, out: Flat) {
    forall p :: AtPath(out, p) == if p in done then MergedAt(base, a, b, empty, p) else None
  }

  ghost predicate ConflictsTo(base: Flat, a: Flat, b: Flat, done: seq<string>, conflicts: seq<string>) {
    Rising(conflicts) && forall p :: p in conflicts <==> p in done && ConflictsAt(base, a, b, p)
  }

  lemma ConflictsStep(base: Flat, a: Flat, b: Flat, paths: seq<string>, i: nat, conflicts: seq<string>)
    requires Rising(paths) && i < |paths| && ConflictsTo(base, a, b, paths[..i], conflicts)
    ensures ConflictsTo(base, a, b, paths[..i] + [paths[i]],
                        conflicts + if ConflictsAt(base, a, b, paths[i]) then [paths[i]] else [])
  {
    if ConflictsAt(base, a, b, paths[i]) {
      RisingSnoc(conflicts, paths, i);
    }
  }

  lemma RisingSnoc(some: seq<string>, paths: seq<string>, i: nat)
    requires Rising(some) && Rising(paths) && i < |paths| && forall p | p in some :: p in paths[..i]
    ensures Rising(some + [paths[i]])
  {
    forall p | p in some ensures Less(p, paths[i]) {
      var j :| 0 <= j < i && paths[j] == p;
    }
  }

  method Pad(ts: seq<Term>, empty: Oid) returns (r: seq<Term>)
    ensures r == Padded(ts, empty)
  {
    r := ts;
    while Count(r, true) < Count(r, false) + 1
      invariant Padded(r, empty) == Padded(ts, empty)
      decreases Count(r, false) + 1 - Count(r, true)
    {
      r := r + [Term(1, FileKind, Some(0), empty)];
    }
  }

  // ------------------------------------------------------------------ properties

  lemma CountThree(base: Option<Leaf>, a: Option<Leaf>, b: Option<Leaf>)
    ensures var ts := Side(-1, base) + Side(1, a) + Side(1, b);
            && Count(ts, false) == |Side(-1, base)| && Count(ts, true) == |Side(1, a)| + |Side(1, b)|
  {
    CountConcat(Side(-1, base) + Side(1, a), Side(1, b));
    CountConcat(Side(-1, base), Side(1, a));
    assert forall leaf :: |Side(1, leaf)| <= 1 && |Side(-1, leaf)| <= 1;
  }

  lemma {:induction false} CountConcat(x: seq<Term>, y: seq<Term>)
    ensures forall positive :: Count(x + y, positive) == Count(x, positive) + Count(y, positive)
    decreases |y|
  {
    if y == [] {
      assert x + y == x;
    } else {
      assert (x + y)[..|x + y| - 1] == x + y[..|y| - 1];
      CountConcat(x, y[..|y| - 1]);
    }
  }

  lemma {:induction false} PaddedCounts(ts: seq<Term>, empty: Oid)
    ensures Count(Padded(ts, empty), false) == Count(ts, false)
    ensures Count(Padded(ts, empty), true) ==
            if Count(ts, true) < Count(ts, false) + 1 then Count(ts, false) + 1 else Count(ts, true)
    decreases Count(ts, false) + 1 - Count(ts, true)
  {
    if Count(ts, true) < Count(ts, false) + 1 {
      var more := ts + [Term(1, FileKind, Some(0), empty)];
      assert more[..|more| - 1] == ts;
      PaddedCounts(more, empty);
    }
  }

  /**
   The positive terms of a conflict outnumber the negative ones by one if and only
   if the base has the path; when both sides add it there are two and no negative.
   */
  lemma {:induction false} ConflictBalance(base: Option<Leaf>, a: Option<Leaf>, b: Option<Leaf>, empty: Oid)
    requires Conflicts(base, a, b)
    ensures var ts := ConflictLeaf(base, a, b, empty).terms.value;
            && Count(ts, true) >= Count(ts, false) + 1
            && (Count(ts, true) == Count(ts, false) + 1 <==> base.Some?)
  {
    CountThree(base, a, b);
    PaddedCounts(Side(-1, base) + Side(1, a) + Side(1, b), empty);
  }

  /** Both sides are there at a conflict, and would be written as different terms. */
  predicate TermsDiffer(base: Option<Leaf>, a: Option<Leaf>, b: Option<Leaf>) {
    Conflicts(base, a, b) && a.Some? && b.Some? && TermOf(1, a.value) != TermOf(1, b.value)
  }

  lemma PaddedStarts(ts: seq<Term>, empty: Oid)
    ensures ts <= Padded(ts, empty)
    decreases Count(ts, false) + 1 - Count(ts, true)
  {
    if Count(ts, true) < Count(ts, false) + 1 {
      PaddedStarts(ts + [Term(1, FileKind, Some(0), empty)], empty);
    }
  }

  /**
   Swapping the sides gives the same leaf unless both are there and would be recorded
   as different terms.
   */
  lemma {:induction false} MergeLeafSwaps(base: Option<Leaf>, a: Option<Leaf>, b: Option<Leaf>, empty: Oid)
    ensures MergeLeaf(base, a, b, empty) == MergeLeaf(base, b, a, empty) <==> !TermsDiffer(base, a, b)
  {
    if Conflicts(base, a, b) {
      var n, x, y := Side(-1, base), Side(1, a), Side(1, b);
      PaddedStarts(n + x + y, empty);
      PaddedStarts(n + y + x, empty);
      if a.Some? && b.Some? {
        assert (n + x + y)[|n|] == TermOf(1, a.value);
        assert (n + y + x)[|n|] == TermOf(1, b.value);
      } else {
        assert n + x + y == n + y + x;
      }
    }
  }

  /** A merge is the same with its sides swapped exactly when no conflict records two different terms. */
  lemma {:induction false} MergeSwaps(base: Flat, a: Flat, b: Flat, empty: Oid, ab: Flat, ba: Flat)
    requires MergedFlat(base, a, b, empty, ab) && MergedFlat(base, b, a, empty, ba)
    ensures ab == ba <==> forall p :: !TermsDiffer(AtPath(base, p), AtPath(a, p), AtPath(b, p))
  {
    forall p ensures AtPath(ab, p) == AtPath(ba, p) <==> !TermsDiffer(AtPath(base, p), AtPath(a, p), AtPath(b, p)) {
      MergeLeafSwaps(AtPath(base, p), AtPath(a, p), AtPath(b, p), empty);
    }
    if forall p :: AtPath(ab, p) == AtPath(ba, p) {
      SameFlat(ab, ba);
    }
  }

  /** Merging with an unchanged side gives the other side. */
  lemma {:induction false} MergeUnchanged(base: Flat, a: Flat, empty: Oid, out: Flat)
    requires MergedFlat(base, a, base, empty, out) || MergedFlat(base, base, a, empty, out)
    ensures out == a
  {
    forall p ensures AtPath(out, p) == AtPath(a, p) {
      assert AtPath(out, p) in {MergeLeaf(AtPath(base, p), AtPath(a, p), AtPath(base, p), empty),
                                MergeLeaf(AtPath(base, p), AtPath(base, p), AtPath(a, p), empty)};
    }
    SameFlat(out, a);
  }
}
