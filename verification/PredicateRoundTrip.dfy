/** Reading back what printing wrote. */
module PredicateRoundTrip {
  import opened Options
  import opened Order
  import opened Predicates

  /** Text free of the delimiters, with no white space around it. */
  predicate Plain(t: string) {
    Trimmed(t) && '(' !in t && ')' !in t && ',' !in t
  }

  predicate PlainKey(k: string) {
    Plain(k) && '=' !in k && k != "preds"
  }

  /** A value that prints as itself: text must not read as a boolean or an integer. */
  predicate PlainValue(v: Value) {
    match v
    case Bool(_) => true
    case Int(n) => Fits(n)
    case Text(t) => Plain(t) && t != "true" && t != "false" && ParseInt(t).None?
    case _ => false
  }

  predicate PlainArgs(args: Option<map<string, Value>>) {
    args.Some? ==> args.value != map[] && forall k | k in args.value :: PlainKey(k) && PlainValue(args.value[k])
  }

  /** A predicate whose text names it. */
  predicate Printable(p: Pred) {
    && Plain(p.kind)
    && if Combinator(p.kind) then
         && p.name.None? && p.args == Some(map[]) && p.preds.Subs?
         && forall i | 0 <= i < |p.preds.list| :: Printable(p.preds.list[i])
       else
         && p.preds.NoSubs? && PlainArgs(p.args)
         && (p.name.Some? ==> Plain(p.name.value) && p.name.value != "" && '=' !in p.name.value)
  }

  // ------------------------------------------------------------------- nesting

  /** Reading `s` leads from `d` open parentheses to `e`, with every comma inside some. */
  predicate Walks(s: string, d: nat, e: nat) {
    if s == "" then d == e
    else if s[0] == '(' then Walks(s[1..], d + 1, e)
    else if s[0] == ')' then d > 0 && Walks(s[1..], d - 1, e)
    else (s[0] == ',' ==> d > 0) && Walks(s[1..], d, e)
  }

  lemma {:induction false} WalksConcat(a: string, b: string, d: nat, e: nat, f: nat)
    requires Walks(a, d, e) && Walks(b, e, f)
    ensures Walks(a + b, d, f)
  {
    if a == "" {
      assert a + b == b;
    } else {
      assert (a + b)[1..] == a[1..] + b;
      if a[0] == '(' {
        WalksConcat(a[1..], b, d + 1, e, f);
      } else if a[0] == ')' {
        WalksConcat(a[1..], b, d - 1, e, f);
      } else {
        WalksConcat(a[1..], b, d, e, f);
      }
    }
  }

  /** Under one more open parenthesis the same text walks one deeper. */
  lemma {:induction false} WalksDeeper(s: string, d: nat, e: nat)
    requires Walks(s, d, e)
    ensures Walks(s, d + 1, e + 1)
  {
    if s != "" {
      if s[0] == '(' {
        WalksDeeper(s[1..], d + 1, e);
      } else if s[0] == ')' {
        WalksDeeper(s[1..], d - 1, e);
      } else {
        WalksDeeper(s[1..], d, e);
      }
    }
  }

  lemma {:induction false} PlainWalks(t: string, d: nat)
    requires '(' !in t && ')' !in t && ',' !in t
    ensures Walks(t, d, d)
  {
    if t != "" {
      assert t == [t[0]] + t[1..];
      PlainWalks(t[1..], d);
    }
  }

  /** A split reads through such text as through one piece. */
  lemma {:induction false} SplitWalks(s: string, d: nat, e: nat, rest: string, cur: string)
    requires Walks(s, d, e)
    ensures SplitFrom(s + rest, d, cur) == SplitFrom(rest, e, cur + s)
  {
    if s == "" {
      assert s + rest == rest && cur + s == cur;
    } else {
      assert (s + rest)[1..] == s[1..] + rest && cur + s == (cur + [s[0]]) + s[1..];
      if s[0] == '(' {
        SplitWalks(s[1..], d + 1, e, rest, cur + [s[0]]);
      } else if s[0] == ')' {
        SplitWalks(s[1..], d - 1, e, rest, cur + [s[0]]);
      } else {
        SplitWalks(s[1..], d, e, rest, cur + [s[0]]);
      }
    }
  }

  /** A part that survives splitting and trimming. */
  predicate Part(s: string) {
    s != "" && Trimmed(s) && Walks(s, 0, 0)
  }

  lemma CommaStep(rest: string, cur: string)
    ensures SplitFrom(", " + rest, 0, cur) == [Trim(cur)] + SplitFrom(rest, 0, " ")
  {
    assert (", " + rest)[1..] == " " + rest && (" " + rest)[1..] == rest;
    assert "" + [' '] == " ";
  }

  lemma OneSplits(s: string, cur: string)
    requires Part(s) && (cur == "" || cur == " ")
    ensures SplitFrom(s, 0, cur) == [s]
  {
    TrimmedTrim(s);
    assert cur + s == s || cur + s == " " + s;
    SplitWalks(s, 0, 0, "", cur);
    assert s + "" == s;
  }

  lemma FirstSplits(s: string, rest: string, cur: string)
    requires Part(s) && (cur == "" || cur == " ")
    ensures SplitFrom(s + (", " + rest), 0, cur) == [s] + SplitFrom(rest, 0, " ")
  {
    TrimmedTrim(s);
    assert cur + s == s || cur + s == " " + s;
    SplitWalks(s, 0, 0, ", " + rest, cur);
    CommaStep(rest, cur + s);
  }

  /** Splitting at the commas that joined parts gives the parts. */
  lemma {:induction false} SplitCommas(parts: seq<string>, cur: string)
    requires (forall s | s in parts :: Part(s)) && (cur == "" || (cur == " " && parts != []))
    ensures SplitFrom(Commas(parts), 0, cur) == parts
  {
    if parts != [] {
      assert parts[0] in parts;
      if |parts| == 1 {
        OneSplits(parts[0], cur);
      } else {
        var rest := Commas(parts[1..]);
        assert Commas(parts) == parts[0] + (", " + rest);
        FirstSplits(parts[0], rest, cur);
        SplitCommas(parts[1..], " ");
      }
    }
  }

  lemma {:induction false} CommasWalk(parts: seq<string>)
    requires forall s | s in parts :: Part(s)
    ensures Walks(Commas(parts), 1, 1)
  {
    if parts != [] {
      assert parts[0] in parts;
      WalksDeeper(parts[0], 0, 0);
      if |parts| > 1 {
        CommasWalk(parts[1..]);
        assert Walks(", ", 1, 1) by {
          assert ", "[1..] == " " && " "[1..] == "";
        }
        WalksConcat(parts[0], ", ", 1, 1, 1);
        WalksConcat(parts[0] + ", ", Commas(parts[1..]), 1, 1, 1);
      }
    }
  }

  // -------------------------------------------------------------------- numbers

  lemma DigitReads(d: nat)
    requires d < 10
    ensures IsDigit(Digit(d)) && Digit(d) as nat - '0' as nat == d
  {}

  lemma DigitsSnoc(front: string, c: char)
    requires DigitsValue(front).Some? && IsDigit(c)
    ensures DigitsValue(front + [c]) == Some(10 * DigitsValue(front).value + (c as nat - '0' as nat))
  {
    assert (front + [c])[..|front|] == front;
  }

  lemma DigitsOne(c: char)
    requires IsDigit(c)
    ensures DigitsValue([c]) == Some(c as nat - '0' as nat)
  {}

  lemma TextOfNat(n: nat)
    ensures NatText(n) == if n < 10 then [Digit(n)] else NatText(n / 10) + [Digit(n % 10)]
  {}

  lemma DigitOut(front: string, c: char)
    requires (forall x | x in front :: IsDigit(x)) && IsDigit(c)
    ensures forall x | x in front + [c] :: IsDigit(x)
  {}

  lemma {:induction false} NatTextDigits(n: nat)
    ensures NatText(n) != "" && forall c | c in NatText(n) :: IsDigit(c)
    ensures DigitsValue(NatText(n)) == Some(n)
  {
    var last := n % 10;
    TextOfNat(n);
    DigitReads(last);
    DigitsOne(Digit(last));
    if n >= 10 {
      var front := NatText(n / 10);
      NatTextDigits(n / 10);
      DigitsSnoc(front, Digit(last));
      DigitOut(front, Digit(last));
    }
  }

  lemma {:induction false} IntTextParses(n: int)
    requires Fits(n)
    ensures ParseInt(IntText(n)) == Some(n)
  {
    var digits := NatText(if n < 0 then -n else n);
    NatTextDigits(if n < 0 then -n else n);
    assert IsDigit(digits[0]) by {
      assert digits[0] in digits;
    }
    if n < 0 {
      assert IntText(n)[1..] == digits;
    }
  }

  lemma {:induction false} IntTextPlain(n: int)
    ensures Plain(IntText(n)) && IntText(n) != "" && IntText(n)[0] != 't' && IntText(n)[0] != 'f'
  {
    var digits := NatText(if n < 0 then -n else n);
    NatTextDigits(if n < 0 then -n else n);
    assert digits[0] in digits && digits[|digits| - 1] in digits;
    assert IsDigit(digits[0]) && IsDigit(digits[|digits| - 1]);
  }

  lemma {:induction false} ValueParses(v: Value, debug: Value -> string)
    requires PlainValue(v)
    ensures ParseValue(ValueText(v, debug)) == v && Plain(ValueText(v, debug))
  {
    if v.Int? {
      IntTextParses(v.n);
      IntTextPlain(v.n);
      assert "true"[0] == 't' && "false"[0] == 'f';
    }
  }

  // ------------------------------------------------------------------ arguments

  lemma {:induction false} FindFirst(a: string, c: char, b: string)
    requires c !in a
    ensures Find(a + [c] + b, c) == |a|
  {
    if a != "" {
      assert (a + [c] + b)[1..] == a[1..] + [c] + b && a[0] in a;
      FindFirst(a[1..], c, b);
    }
  }

  function ArgText(k: string, v: Value, debug: Value -> string): string {
    k + "=" + ValueText(v, debug)
  }

  lemma {:induction false} ArgReads(k: string, v: Value, debug: Value -> string)
    requires PlainKey(k) && PlainValue(v)
    ensures var part := ArgText(k, v, debug);
            && Part(part) && Find(part, '=') == |k| < |part|
            && Trim(part[..|k|]) == k && ParseValue(Trim(part[|k| + 1..])) == v
  {
    var text := ValueText(v, debug);
    var part := ArgText(k, v, debug);
    ValueParses(v, debug);
    FindFirst(k, '=', text);
    assert part[..|k|] == k && part[|k| + 1..] == text;
    TrimmedTrim(k);
    TrimmedTrim(text);
    PlainWalks(part, 0);
  }

  lemma {:induction false} ArgTextsSnoc(p: Pred, keys: seq<string>, k: string, debug: Value -> string)
    requires forall x | x in keys + [k] :: x in ArgKeys(p)
    requires k in keys + [k] && k != "preds"
    ensures p.args.Some? && k in p.args.value
    ensures forall x | x in keys :: x in ArgKeys(p)
    ensures ArgTexts(p, keys + [k], debug) == ArgTexts(p, keys, debug) + [ArgText(k, p.args.value[k], debug)]
  {
    assert k in ArgKeys(p);
    forall x | x in keys ensures x in ArgKeys(p) {
      assert x in keys + [k];
    }
    if keys != [] {
      assert (keys + [k])[1..] == keys[1..] + [k];
      assert k in keys[1..] + [k] && forall x | x in keys[1..] + [k] :: x in keys + [k];
      ArgTextsSnoc(p, keys[1..], k, debug);
    }
  }

  /** The arguments of `p` named in `keys`. */
  function Picked(p: Pred, keys: seq<string>): map<string, Value> {
    if p.args.None? then map[] else map k | k in keys && k in p.args.value :: p.args.value[k]
  }

  function Lead(p: Pred): seq<string> {
    if p.name.Some? then [p.name.value] else []
  }

  lemma PartsSnoc(parts: seq<string>, part: string)
    ensures ParseParts(parts + [part]) == ParsePart(ParseParts(parts), Trim(part), parts == [])
  {
    assert (parts + [part])[..|parts|] == parts;
  }

  lemma ArgAppended(parts: seq<string>, named: Named, k: string, v: Value, debug: Value -> string)
    requires PlainKey(k) && PlainValue(v) && ParseParts(parts) == Some(named)
    ensures ParseParts(parts + [ArgText(k, v, debug)]) == Some(Named(named.name, named.args[k := v]))
  {
    var part := ArgText(k, v, debug);
    ArgReads(k, v, debug);
    TrimmedTrim(part);
    PartsSnoc(parts, part);
  }

  lemma PickedSnoc(p: Pred, init: seq<string>, k: string)
    requires p.args.Some? && k in p.args.value
    ensures Picked(p, init + [k]) == Picked(p, init)[k := p.args.value[k]]
  {}

  lemma {:induction false} ArgsRead(p: Pred, keys: seq<string>, debug: Value -> string)
    requires Printable(p) && !Combinator(p.kind) && forall k | k in keys :: k in ArgKeys(p)
    ensures ParseParts(Lead(p) + ArgTexts(p, keys, debug)) == Some(Named(p.name, Picked(p, keys)))
    decreases |keys|
  {
    if keys == [] {
      NameReads(p);
      assert Lead(p) + [] == Lead(p);
    } else {
      var init, k := keys[..|keys| - 1], keys[|keys| - 1];
      assert keys == init + [k] && k in keys && k in ArgKeys(p);
      ArgsRead(p, init, debug);
      ArgReadLast(p, init, k, debug);
      PickedSnoc(p, init, k);
    }
  }

  lemma ArgReadLast(p: Pred, init: seq<string>, k: string, debug: Value -> string)
    requires Printable(p) && !Combinator(p.kind) && k in ArgKeys(p) && forall x | x in init :: x in ArgKeys(p)
    requires ParseParts(Lead(p) + ArgTexts(p, init, debug)) == Some(Named(p.name, Picked(p, init)))
    ensures p.args.Some? && k in p.args.value
    ensures ParseParts(Lead(p) + ArgTexts(p, init + [k], debug)) ==
            Some(Named(p.name, Picked(p, init)[k := p.args.value[k]]))
  {
    var before, v := Lead(p) + ArgTexts(p, init, debug), p.args.value[k];
    ArgTextsSnoc(p, init, k, debug);
    ArgAppended(before, Named(p.name, Picked(p, init)), k, v, debug);
    assert Lead(p) + ArgTexts(p, init + [k], debug) == before + [ArgText(k, v, debug)];
  }

  lemma {:induction false} ArgsAreParts(p: Pred, keys: seq<string>, debug: Value -> string)
    requires Printable(p) && !Combinator(p.kind) && forall k | k in keys :: k in ArgKeys(p)
    ensures forall s | s in ArgTexts(p, keys, debug) :: Part(s)
    decreases |keys|
  {
    if keys != [] {
      assert keys[0] in keys && keys[0] in ArgKeys(p);
      ArgReads(keys[0], p.args.value[keys[0]], debug);
      ArgsAreParts(p, keys[1..], debug);
    }
  }

  lemma NameReads(p: Pred)
    requires Printable(p) && !Combinator(p.kind)
    ensures ParseParts(Lead(p)) == Some(Named(p.name, map[])) && forall s | s in Lead(p) :: Part(s)
  {
    if p.name.Some? {
      var n := p.name.value;
      PlainWalks(n, 0);
      TrimmedTrim(n);
      assert [n][..0] == [];
    }
  }

  // -------------------------------------------------------------- the round trip

  /** Text of the shape a predicate prints in is read at its first parenthesis. */
  lemma {:induction false} ShapeReads(kind: string, inner: string)
    requires Plain(kind) && Walks(inner, 1, 1)
    ensures var text := kind + "(" + inner + ")";
            && Part(text) && Trim(text) == text && Find(text, '(') == |kind|
            && text[..|kind|] == kind && text[|kind| + 1..|text| - 1] == inner
            && text[|text| - 1] == ')' && Trim(kind) == kind
  {
    var text := kind + "(" + inner + ")";
    TrimmedTrim(text);
    TrimmedTrim(kind);
    FindFirst(kind, '(', inner + ")");
    assert text == kind + ['('] + (inner + ")");
    PlainWalks(kind, 0);
    assert Walks("(", 0, 1) && Walks(")", 1, 0) by {
      assert "("[1..] == "" && ")"[1..] == "";
    }
    WalksConcat(kind, "(", 0, 0, 1);
    WalksConcat(kind + "(", inner, 0, 1, 1);
    WalksConcat(kind + "(" + inner, ")", 0, 1, 0);
  }

  /** The text of well-formed parts under a plain kind is read as that kind and those parts. */
  lemma {:induction false} ShapeParses(kind: string, parts: seq<string>)
    requires Plain(kind) && forall s | s in parts :: Part(s)
    ensures var text := kind + "(" + Commas(parts) + ")";
            && Part(text) && (forall s | s in parts :: |s| < |text|)
            && ParsePredicate(text) == ParseKind(kind, parts, |text|)
  {
    var inner := Commas(parts);
    var text := kind + "(" + inner + ")";
    forall s | s in parts ensures |s| < |text| {
      CommasLonger(parts, s);
    }
    CommasWalk(parts);
    ShapeReads(kind, inner);
    SplitCommas(parts, "");
  }

  /** Printing a well-formed predicate and reading the text gives it back. */
  lemma {:induction false} PredicateRoundTrips(p: Pred, debug: Value -> string)
    requires Printable(p)
    ensures ParsePredicate(Describe(p, debug)) == Some(p) && Part(Describe(p, debug))
    decreases p, 1
  {
    if Combinator(p.kind) {
      CombinatorInner(p, debug);
      DescriptionsAreParts(p.preds.list, debug);
      ShapeParses(p.kind, Descriptions(p.preds.list, debug));
      PredicatesRoundTrip(p.preds.list, debug, |Describe(p, debug)|);
    } else {
      SimpleRoundTrips(p, debug);
    }
  }

  lemma {:induction false} SimpleRoundTrips(p: Pred, debug: Value -> string)
    requires Printable(p) && !Combinator(p.kind)
    ensures ParsePredicate(Describe(p, debug)) == Some(p) && Part(Describe(p, debug))
  {
    var keys := Listed(ArgKeys(p));
    ArgsRead(p, keys, debug);
    NameReads(p);
    ArgsAreParts(p, keys, debug);
    ShapeParses(p.kind, Lead(p) + ArgTexts(p, keys, debug));
    PickedAll(p);
  }

  lemma {:induction false} ParsesOneMore(s: string, p: Pred, parts: seq<string>, ps: seq<Pred>, bound: nat)
    requires |s| < bound && (forall x | x in parts :: |x| < bound)
    requires ParsePredicate(s) == Some(p) && ParsePreds(parts, bound) == Some(ps)
    ensures ParsePreds([s] + parts, bound) == Some([p] + ps)
  {
    assert ([s] + parts)[1..] == parts;
  }

  lemma {:induction false} PredicatesRoundTrip(ps: seq<Pred>, debug: Value -> string, bound: nat)
    requires (forall i | 0 <= i < |ps| :: Printable(ps[i])) && forall s | s in Descriptions(ps, debug) :: |s| < bound
    ensures ParsePreds(Descriptions(ps, debug), bound) == Some(ps)
    decreases ps, 0
  {
    if ps != [] {
      var first, rest := Describe(ps[0], debug), Descriptions(ps[1..], debug);
      assert Descriptions(ps, debug) == [first] + rest;
      PredicateRoundTrips(ps[0], debug);
      PredicatesRoundTrip(ps[1..], debug, bound);
      ParsesOneMore(first, ps[0], rest, ps[1..], bound);
      assert [ps[0]] + ps[1..] == ps;
    }
  }

  lemma {:induction false} DescriptionsAreParts(ps: seq<Pred>, debug: Value -> string)
    requires forall i | 0 <= i < |ps| :: Printable(ps[i])
    ensures forall s | s in Descriptions(ps, debug) :: Part(s)
    decreases ps, 0
  {
    if ps != [] {
      PredicateRoundTrips(ps[0], debug);
      DescriptionsAreParts(ps[1..], debug);
    }
  }

  lemma {:induction false} CommasLonger(parts: seq<string>, s: string)
    requires s in parts
    ensures |s| <= |Commas(parts)|
  {
    if |parts| > 1 && s != parts[0] {
      CommasLonger(parts[1..], s);
    }
  }

  lemma PickedAll(p: Pred)
    requires Printable(p) && !Combinator(p.kind)
    ensures (if Picked(p, Listed(ArgKeys(p))) == map[] then None else Some(Picked(p, Listed(ArgKeys(p))))) == p.args
  {
    if p.args.Some? {
      assert Picked(p, Listed(ArgKeys(p))) == p.args.value;
    }
  }

  lemma CombinatorInner(p: Pred, debug: Value -> string)
    requires Printable(p) && Combinator(p.kind)
    ensures Describe(p, debug) == p.kind + "(" + Commas(Descriptions(p.preds.list, debug)) + ")"
  {
    assert ArgKeys(p) == {"preds"};
    RisingUnique(Listed(ArgKeys(p)), ["preds"]);
    assert ArgTexts(p, [], debug) == [];
  }
}
