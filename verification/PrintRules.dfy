/** Which text a predicate prints as, said of the text: its parts, what stands between them, and their order. */
module PrintRules {
  import opened Options
  import opened Order
  import opened Predicates
  import opened PredicateRoundTrip
  import opened PredicateRules

  /** The parts in order, `sep` between each two. */
  ghost function Between(parts: seq<string>, sep: string): string {
    if parts == [] then ""
    else if |parts| == 1 then parts[0]
    else Between(parts[..|parts| - 1], sep) + sep + parts[|parts| - 1]
  }

  /** Decimal digits without a leading zero. */
  ghost predicate ShowsNat(n: nat, s: string) {
    Digits(s, n) && (|s| > 1 ==> s[0] != '0')
  }

  ghost predicate ShowsInt(n: int, s: string) {
    if n < 0 then s != "" && s[0] == '-' && ShowsNat(-n, s[1..]) else ShowsNat(n, s)
  }

  /** Text as it is, an array in brackets with spaces; `debug` prints what has no plain form. */
  ghost predicate Shows(v: Value, debug: Value -> string, s: string)
    decreases v, 0
  {
    match v
    case Text(t) => s == t
    case Bool(b) => s == if b then "true" else "false"
    case Int(n) => ShowsInt(n, s)
    case Array(items) => exists texts :: ShowsAll(items, debug, texts) && s == "[" + Between(texts, " ") + "]"
    case _ => s == debug(v)
  }

  ghost predicate ShowsAll(items: seq<Value>, debug: Value -> string, texts: seq<string>)
    decreases items
  {
    |texts| == |items| && forall i | 0 <= i < |items| :: Shows(items[i], debug, texts[i])
  }

  // -------------------------------------------------------------------- values

  lemma {:induction false} NatShown(n: nat)
    ensures ShowsNat(n, NatText(n))
    decreases n
  {
    NatTextDigits(n);
    DigitsExactly(NatText(n), n);
    TextOfNat(n);
    if n >= 10 {
      NatShown(n / 10);
      NatTextDigits(n / 10);
      NoZero(n / 10);
    }
  }

  lemma {:induction false} NoZero(n: nat)
    requires n > 0
    ensures NatText(n) != "" && NatText(n)[0] != '0'
  {
    TextOfNat(n);
    if n >= 10 {
      NoZero(n / 10);
    }
  }

  lemma DigitOf(c: char)
    requires IsDigit(c)
    ensures Digit(c as nat - '0' as nat) == c
  {}

  lemma AnotherDigit(m: nat, d: nat)
    requires m > 0 && d < 10
    ensures NatText(10 * m + d) == NatText(m) + [Digit(d)]
  {
    TextOfNat(10 * m + d);
    assert (10 * m + d) / 10 == m && (10 * m + d) % 10 == d;
  }

  lemma LastDigit(s: string)
    requires s != "" && forall c | c in s :: IsDigit(c)
    ensures var front, c := s[..|s| - 1], s[|s| - 1];
            && IsDigit(c) && (forall x | x in front :: IsDigit(x))
            && Worth(s) == 10 * Worth(front) + (c as nat - '0' as nat)
  {
    assert s[|s| - 1] in s;
  }

  lemma {:induction false} ShownOnce(n: nat, s: string)
    requires ShowsNat(n, s)
    ensures s == NatText(n)
    decreases |s|
  {
    var front, c := s[..|s| - 1], s[|s| - 1];
    LastDigit(s);
    DigitOf(c);
    assert s == front + [c];
    if front == "" {
      TextOfNat(n);
    } else {
      var m := Worth(front);
      ShownOnce(m, front);
      assert m > 0 by {
        TextOfNat(0);
      }
      AnotherDigit(m, c as nat - '0' as nat);
    }
  }

  lemma NatExactly(n: nat, s: string)
    ensures ShowsNat(n, s) <==> s == NatText(n)
  {
    NatShown(n);
    if ShowsNat(n, s) {
      ShownOnce(n, s);
    }
  }

  lemma IntTextExactly(n: int, s: string)
    ensures ShowsInt(n, s) <==> s == IntText(n)
  {
    if n < 0 {
      NatExactly(-n, if s == "" then "" else s[1..]);
      assert IntText(n)[1..] == NatText(-n);
      if s != "" {
        assert s == [s[0]] + s[1..];
      }
    } else {
      NatExactly(n, s);
    }
  }

  lemma {:induction false} BetweenFirst(x: string, rest: seq<string>, sep: string)
    ensures Between([x] + rest, sep) == if rest == [] then x else x + sep + Between(rest, sep)
    decreases |rest|
  {
    var all := [x] + rest;
    if |rest| == 1 {
      assert all[..1] == [x];
    } else if |rest| > 1 {
      var init, last := rest[..|rest| - 1], rest[|rest| - 1];
      assert all[..|all| - 1] == [x] + init;
      BetweenFirst(x, init, sep);
      assert x + sep + Between(init, sep) + sep + last == x + sep + (Between(init, sep) + sep + last);
    }
  }

  ghost function Texts(items: seq<Value>, debug: Value -> string): seq<string> {
    seq(|items|, i requires 0 <= i < |items| => ValueText(items[i], debug))
  }

  lemma {:induction false} ItemsBetween(items: seq<Value>, debug: Value -> string)
    ensures ItemsText(items, debug) == Between(Texts(items, debug), " ")
    decreases |items|
  {
    if |items| > 1 {
      ItemsBetween(items[1..], debug);
      assert Texts(items, debug) == [ValueText(items[0], debug)] + Texts(items[1..], debug);
      BetweenFirst(ValueText(items[0], debug), Texts(items[1..], debug), " ");
    }
  }

  /** A value prints as exactly one text. */
  lemma {:induction false} ShowsExactly(v: Value, debug: Value -> string, s: string)
    ensures Shows(v, debug, s) <==> s == ValueText(v, debug)
    decreases v
  {
    match v
    case Int(n) => IntTextExactly(n, s);
    case Array(items) =>
      ItemsBetween(items, debug);
      forall i, t | 0 <= i < |items| ensures Shows(items[i], debug, t) <==> t == ValueText(items[i], debug) {
        ShowsExactly(items[i], debug, t);
      }
      assert ShowsAll(items, debug, Texts(items, debug));
      forall texts | ShowsAll(items, debug, texts) ensures texts == Texts(items, debug) {
        assert forall i | 0 <= i < |items| :: Shows(items[i], debug, texts[i]) && texts[i] == Texts(items, debug)[i];
      }
    case _ =>
  }

  // ---------------------------------------------------------------- predicates

  /** The arguments' keys in order, `preds` among them where there are predicates. */
  ghost predicate Keys(p: Pred, keys: seq<string>) {
    Rising(keys) && forall k :: k in keys <==> (p.args.Some? && k in p.args.value) || (k == "preds" && p.preds.Subs?)
  }

  /** One argument: `key=value`, or the predicates with commas. */
  ghost predicate PrintsArg(p: Pred, k: string, debug: Value -> string, s: string)
    decreases p, 0
  {
    if k == "preds" then
      if p.preds.Subs? then exists texts :: PrintsAll(p.preds.list, debug, texts) && s == Between(texts, ", ")
      else s == ""
    else p.args.Some? && k in p.args.value && exists t :: Shows(p.args.value[k], debug, t) && s == k + "=" + t
  }

  ghost predicate PrintsAll(ps: seq<Pred>, debug: Value -> string, texts: seq<string>)
    decreases ps
  {
    |texts| == |ps| && forall i | 0 <= i < |ps| :: Prints(ps[i], debug, texts[i])
  }

  ghost predicate PrintsArgs(p: Pred, keys: seq<string>, debug: Value -> string, texts: seq<string>)
    decreases p, 1
  {
    |texts| == |keys| && forall i | 0 <= i < |keys| :: PrintsArg(p, keys[i], debug, texts[i])
  }

  /** The kind, and in parentheses the name and the arguments by key, with commas. */
  ghost predicate Prints(p: Pred, debug: Value -> string, s: string)
    decreases p, 2
  {
    exists keys, texts ::
      && Keys(p, keys) && PrintsArgs(p, keys, debug, texts)
      && s == p.kind + "(" + Between((if p.name.Some? then [p.name.value] else []) + texts, ", ") + ")"
  }

  lemma {:induction false} CommasBetween(parts: seq<string>)
    ensures Commas(parts) == Between(parts, ", ")
  {
    if |parts| > 1 {
      CommasBetween(parts[1..]);
      assert parts == [parts[0]] + parts[1..];
      BetweenFirst(parts[0], parts[1..], ", ");
    }
  }

  lemma {:induction false} ArgExactly(p: Pred, k: string, debug: Value -> string, s: string)
    requires k in ArgKeys(p)
    ensures PrintsArg(p, k, debug, s) <==> [s] == ArgTexts(p, [k], debug)
    decreases p, 0
  {
    assert [k][1..] == [] && ArgTexts(p, [], debug) == [];
    var text := ArgTexts(p, [k], debug)[0];
    assert ArgTexts(p, [k], debug) == [text] && ([s] == [text] <==> [s][0] == text);
    if k != "preds" {
      forall t ensures Shows(p.args.value[k], debug, t) <==> t == ValueText(p.args.value[k], debug) {
        ShowsExactly(p.args.value[k], debug, t);
      }
    } else if p.preds.Subs? {
      var list := p.preds.list;
      CommasBetween(Descriptions(list, debug));
      forall texts ensures PrintsAll(list, debug, texts) <==> texts == Descriptions(list, debug) {
        AllExactly(list, debug, texts);
      }
      assert text == Between(Descriptions(list, debug), ", ");
    }
  }

  lemma {:induction false} AllExactly(ps: seq<Pred>, debug: Value -> string, texts: seq<string>)
    ensures PrintsAll(ps, debug, texts) <==> texts == Descriptions(ps, debug)
    decreases ps
  {
    if ps != [] && texts != [] {
      PrintExactly(ps[0], debug, texts[0]);
      AllExactly(ps[1..], debug, texts[1..]);
      assert texts == [texts[0]] + texts[1..];
      FirstAndRest(ps, debug, texts);
    }
  }

  lemma FirstAndRest(ps: seq<Pred>, debug: Value -> string, texts: seq<string>)
    requires ps != [] && texts != []
    ensures PrintsAll(ps, debug, texts) <==> Prints(ps[0], debug, texts[0]) && PrintsAll(ps[1..], debug, texts[1..])
  {
    if Prints(ps[0], debug, texts[0]) && PrintsAll(ps[1..], debug, texts[1..]) {
      forall i | 0 <= i < |ps| ensures Prints(ps[i], debug, texts[i]) {
        assert i > 0 ==> ps[i] == ps[1..][i - 1] && texts[i] == texts[1..][i - 1];
      }
    }
  }

  lemma {:induction false} ArgsExactly(p: Pred, keys: seq<string>, debug: Value -> string, texts: seq<string>)
    requires forall k | k in keys :: k in ArgKeys(p)
    ensures PrintsArgs(p, keys, debug, texts) <==> texts == ArgTexts(p, keys, debug)
    decreases p, 1, |keys|
  {
    if keys != [] && texts != [] {
      ArgExactly(p, keys[0], debug, texts[0]);
      ArgsExactly(p, keys[1..], debug, texts[1..]);
      OneArg(p, keys, debug);
      assert texts == [texts[0]] + texts[1..];
      if PrintsArg(p, keys[0], debug, texts[0]) && PrintsArgs(p, keys[1..], debug, texts[1..]) {
        forall i | 0 <= i < |keys| ensures PrintsArg(p, keys[i], debug, texts[i]) {
          assert i > 0 ==> keys[i] == keys[1..][i - 1] && texts[i] == texts[1..][i - 1];
        }
      }
    }
  }

  lemma OneArg(p: Pred, keys: seq<string>, debug: Value -> string)
    requires keys != [] && forall k | k in keys :: k in ArgKeys(p)
    ensures ArgTexts(p, keys, debug) == ArgTexts(p, [keys[0]], debug) + ArgTexts(p, keys[1..], debug)
  {
    assert [keys[0]][1..] == [];
  }

  /** A predicate prints as exactly one text. */
  lemma {:induction false} PrintExactly(p: Pred, debug: Value -> string, s: string)
    ensures Prints(p, debug, s) <==> s == Describe(p, debug)
    decreases p, 2
  {
    var keys := Listed(ArgKeys(p));
    var name := if p.name.Some? then [p.name.value] else [];
    CommasBetween(name + ArgTexts(p, keys, debug));
    forall texts ensures PrintsArgs(p, keys, debug, texts) <==> texts == ArgTexts(p, keys, debug) {
      ArgsExactly(p, keys, debug, texts);
    }
    forall others ensures Keys(p, others) <==> others == keys {
      if Keys(p, others) {
        RisingUnique(others, keys);
      }
    }
    assert Keys(p, keys) && PrintsArgs(p, keys, debug, ArgTexts(p, keys, debug));
  }
}
