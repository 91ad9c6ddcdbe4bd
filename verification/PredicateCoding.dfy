/**
 Predicates inside predicates, as they are kept: under the argument `preds`, an
 array of maps with a kind and perhaps a name and arguments.
 */
module PredicateCoding {
  import opened Options
  import opened Order
  import opened Predicates

  type Entries = seq<(Value, Value)>

  // ------------------------------------------------------------------- encoding

  function EncodeArgs(args: map<string, Value>, keys: seq<string>): Entries
    requires forall k | k in keys :: k in args
  {
    if keys == [] then []
    else
      assert keys[0] in keys;
      [(Text(keys[0]), args[keys[0]])] + EncodeArgs(args, keys[1..])
  }

  /** All arguments, the predicates among them. */
  ghost function WholeArgs(p: Pred): map<string, Value>
    requires p.args.Some?
    decreases p, 1
  {
    if p.preds.Subs? then p.args.value["preds" := Array(EncodeAll(p.preds.list))] else p.args.value
  }

  ghost function EncodeAll(ps: seq<Pred>): seq<Value>
    decreases ps
  {
    if ps == [] then [] else [Encode(ps[0])] + EncodeAll(ps[1..])
  }

  ghost function Encode(p: Pred): Value
    decreases p, 2
  {
    Map([(Text("kind"), Text(p.kind))] + NameEntries(p)
        + if p.args.Some? then [(Text("args"), Map(EncodeArgs(WholeArgs(p), Listed(WholeArgs(p).Keys))))] else [])
  }

  function NameEntries(p: Pred): Entries {
    if p.name.Some? then [(Text("name"), Text(p.name.value))] else []
  }

  // ------------------------------------------------------------------- decoding

  /** The value of a field, if it is there exactly once. */
  function Field(entries: Entries, name: string): (r: Option<Value>)
    ensures r.Some? ==> exists i | 0 <= i < |entries| :: entries[i] == (Text(name), r.value)
  {
    if entries == [] then None
    else
      var last, before := entries[|entries| - 1], Field(entries[..|entries| - 1], name);
      if last.0 == Text(name) then Some(last.1) else before
  }

  function Times(entries: Entries, name: string): nat {
    if entries == [] then 0
    else Times(entries[..|entries| - 1], name) + if entries[|entries| - 1].0 == Text(name) then 1 else 0
  }

  /** A map keyed by text; of a repeated key the last counts. */
  function DecodeArgs(entries: Entries): (r: Option<map<string, Value>>)
    ensures r.Some? ==> forall k | k in r.value :: exists i | 0 <= i < |entries| :: entries[i] == (Text(k), r.value[k])
  {
    if entries == [] then Some(map[])
    else
      var last, before := entries[|entries| - 1], DecodeArgs(entries[..|entries| - 1]);
      if before.None? || !last.0.Text? then None else Some(before.value[last.0.t := last.1])
  }

  predicate NameFits(name: Option<Value>) {
    name.None? || name.value.Text?
  }

  /** Arguments without the predicates, and the predicates; what does not decode is read as none. */
  ghost function DecodeParts(v: Value): Option<(map<string, Value>, Subs)>
    requires v.Map?
    decreases v, 0
  {
    var args := DecodeArgs(v.entries);
    if args.None? then None
    else if "preds" !in args.value then Some((args.value, NoSubs))
    else
      var i :| 0 <= i < |v.entries| && v.entries[i] == (Text("preds"), args.value["preds"]);
      var list := if v.entries[i].1.Array? then DecodeFirst(v.entries[i].1, |v.entries[i].1.items|) else None;
      Some((args.value - {"preds"}, Subs(list.GetOr([]))))
  }

  /** The first `n` predicates of an array; none when one does not decode. */
  ghost function DecodeFirst(v: Value, n: nat): Option<seq<Pred>>
    requires v.Array? && n <= |v.items|
    decreases v, n
  {
    if n == 0 then Some([])
    else
      var before, last := DecodeFirst(v, n - 1), Decode(v.items[n - 1]);
      if before.None? || last.None? then None else Some(before.value + [last.value])
  }

  ghost function Decode(v: Value): Option<Pred>
    decreases v, 1
  {
    if !v.Map? || Times(v.entries, "kind") > 1 || Times(v.entries, "name") > 1 || Times(v.entries, "args") > 1 then None
    else
      var kind, name, args := Field(v.entries, "kind"), Field(v.entries, "name"), Field(v.entries, "args");
      if kind.None? || !kind.value.Text? || !NameFits(name) || (args.Some? && !args.value.Map?) then None
      else
        var text := if name.Some? then Some(name.value.t) else None;
        if args.None? then Some(Pred(kind.value.t, text, None, NoSubs))
        else
          var i :| 0 <= i < |v.entries| && v.entries[i] == (Text("args"), args.value);
          var parts := DecodeParts(v.entries[i].1);
          if parts.None? then None else Some(Pred(kind.value.t, text, Some(parts.value.0), parts.value.1))
  }

  // ----------------------------------------------------------------- round trip

  /** Predicates are kept apart from the other arguments, and only beside some. */
  ghost predicate Kept(p: Pred)
    decreases p
  {
    && (p.args.Some? ==> "preds" !in p.args.value)
    && (p.preds.Subs? ==> p.args.Some? && forall i | 0 <= i < |p.preds.list| :: Kept(p.preds.list[i]))
  }

  lemma {:induction false} EncodeArgsSnoc(args: map<string, Value>, keys: seq<string>, k: string)
    requires k in args && forall x | x in keys :: x in args
    ensures EncodeArgs(args, keys + [k]) == EncodeArgs(args, keys) + [(Text(k), args[k])]
  {
    if keys != [] {
      assert (keys + [k])[1..] == keys[1..] + [k];
      assert keys[0] in keys;
      EncodeArgsSnoc(args, keys[1..], k);
    }
  }

  function Taken(args: map<string, Value>, keys: seq<string>): (r: map<string, Value>)
    requires forall k | k in keys :: k in args
    ensures forall k :: k in r <==> k in keys
    ensures forall k | k in r :: r[k] == args[k]
  {
    if keys == [] then map[]
    else
      var last := keys[|keys| - 1];
      assert last in keys && keys == keys[..|keys| - 1] + [last];
      Taken(args, keys[..|keys| - 1])[last := args[last]]
  }

  lemma DecodeSnoc(entries: Entries, k: string, v: Value)
    requires DecodeArgs(entries).Some?
    ensures DecodeArgs(entries + [(Text(k), v)]) == Some(DecodeArgs(entries).value[k := v])
  {
    assert (entries + [(Text(k), v)])[..|entries|] == entries;
  }

  lemma {:induction false} ArgsRoundTrip(args: map<string, Value>, keys: seq<string>)
    requires forall k | k in keys :: k in args
    ensures DecodeArgs(EncodeArgs(args, keys)) == Some(Taken(args, keys))
    decreases |keys|
  {
    if keys != [] {
      var init, last := keys[..|keys| - 1], keys[|keys| - 1];
      assert keys == init + [last] && last in keys && forall k | k in init :: k in keys;
      ArgsRoundTrip(args, init);
      EncodeArgsSnoc(args, init, last);
      DecodeSnoc(EncodeArgs(args, init), last, args[last]);
    }
  }

  lemma TakenAll(args: map<string, Value>, keys: seq<string>)
    requires forall k :: k in keys <==> k in args
    ensures Taken(args, keys) == args
  {
    var taken := Taken(args, keys);
    assert taken.Keys == args.Keys;
  }

  lemma AllArgsRoundTrip(args: map<string, Value>, keys: seq<string>)
    requires forall k :: k in keys <==> k in args
    ensures DecodeArgs(EncodeArgs(args, keys)) == Some(args)
  {
    ArgsRoundTrip(args, keys);
    TakenAll(args, keys);
  }

  lemma PartsWithPreds(v: Value, args: map<string, Value>, items: Value, list: seq<Pred>)
    requires v.Map? && DecodeArgs(v.entries) == Some(args) && "preds" in args && args["preds"] == items
    requires items.Array? && DecodeFirst(items, |items.items|) == Some(list)
    ensures DecodeParts(v) == Some((args - {"preds"}, Subs(list)))
  {}

  lemma {:induction false} EncodeAt(ps: seq<Pred>, i: nat)
    requires i < |ps|
    ensures i < |EncodeAll(ps)| && EncodeAll(ps)[i] == Encode(ps[i])
  {
    if i > 0 {
      EncodeAt(ps[1..], i - 1);
    }
  }

  lemma {:induction false} EncodeLength(ps: seq<Pred>)
    ensures |EncodeAll(ps)| == |ps|
  {
    if ps != [] {
      EncodeLength(ps[1..]);
    }
  }

  ghost predicate Stands(v: Value, p: Pred) {
    Decode(v) == Some(p)
  }

  lemma {:induction false} FirstDecodes(items: seq<Value>, ps: seq<Pred>, n: nat)
    requires n <= |ps| == |items| && forall i | 0 <= i < |ps| :: Stands(items[i], ps[i])
    ensures DecodeFirst(Array(items), n) == Some(ps[..n])
  {
    if n > 0 {
      FirstDecodes(items, ps, n - 1);
      assert Stands(items[n - 1], ps[n - 1]);
      assert ps[..n] == ps[..n - 1] + [ps[n - 1]];
    }
  }

  lemma {:induction false} AllRoundTrip(ps: seq<Pred>)
    requires forall i | 0 <= i < |ps| :: Kept(ps[i])
    ensures DecodeFirst(Array(EncodeAll(ps)), |EncodeAll(ps)|) == Some(ps)
    decreases ps, 2
  {
    var items := EncodeAll(ps);
    EncodeLength(ps);
    forall i | 0 <= i < |ps| ensures Stands(items[i], ps[i]) {
      EncodeAt(ps, i);
      CodingRoundTrips(ps[i]);
    }
    FirstDecodes(items, ps, |ps|);
    assert ps[..|ps|] == ps;
  }

  lemma WithoutPreds(args: map<string, Value>, v: Value)
    requires "preds" !in args
    ensures args["preds" := v] - {"preds"} == args
  {}

  lemma {:induction false} PartsRoundTrip(p: Pred, entries: Entries)
    requires Kept(p) && p.args.Some? && DecodeArgs(entries) == Some(WholeArgs(p))
    ensures DecodeParts(Map(entries)) == Some((p.args.value, p.preds))
    decreases p, 0
  {
    if p.preds.Subs? {
      var items := EncodeAll(p.preds.list);
      AllRoundTrip(p.preds.list);
      PartsWithPreds(Map(entries), p.args.value["preds" := Array(items)], Array(items), p.preds.list);
      WithoutPreds(p.args.value, Array(items));
    }
  }

  lemma FieldsOfThree(a: (Value, Value), b: Entries, c: Entries, kind: string)
    requires a == (Text("kind"), Text(kind))
    requires b == [] || exists n :: b == [(Text("name"), Text(n))]
    requires c == [] || exists m :: c == [(Text("args"), Map(m))]
    ensures var es := [a] + b + c;
            && Times(es, "kind") == 1 && Field(es, "kind") == Some(Text(kind))
            && Times(es, "name") == |b| && Field(es, "name") == (if b == [] then None else Some(b[0].1))
            && Times(es, "args") == |c| && Field(es, "args") == (if c == [] then None else Some(c[0].1))
  {
    var es := [a] + b + c;
    FieldSnoc([], a);
    assert [] + [a] == [a];
    if b != [] {
      FieldSnoc([a], b[0]);
      assert [a] + b == [a] + [b[0]];
    } else {
      assert [a] + b == [a];
    }
    if c != [] {
      FieldSnoc([a] + b, c[0]);
      assert es == [a] + b + [c[0]];
    } else {
      assert es == [a] + b;
    }
  }

  lemma FieldSnoc(es: Entries, e: (Value, Value))
    ensures forall n :: Times(es + [e], n) == Times(es, n) + if e.0 == Text(n) then 1 else 0
    ensures forall n :: Field(es + [e], n) == if e.0 == Text(n) then Some(e.1) else Field(es, n)
  {
    assert (es + [e])[..|es|] == es;
  }

  /** Kept in an argument and taken out again, a predicate is the same, however nested. */
  lemma {:induction false} CodingRoundTrips(p: Pred)
    requires Kept(p)
    ensures Decode(Encode(p)) == Some(p)
    decreases p, 1
  {
    var args: Entries :=
      if p.args.Some? then [(Text("args"), Map(EncodeArgs(WholeArgs(p), Listed(WholeArgs(p).Keys))))] else [];
    FieldsOfThree((Text("kind"), Text(p.kind)), NameEntries(p), args, p.kind);
    if p.args.Some? {
      var whole := WholeArgs(p);
      AllArgsRoundTrip(whole, Listed(whole.Keys));
      PartsRoundTrip(p, EncodeArgs(whole, Listed(whole.Keys)));
    }
  }
}
