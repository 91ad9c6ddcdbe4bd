/**
 Which texts read as which predicates, said of the text: what is trimmed, where it is
 split, what a key and a value are. Reading gives exactly the predicate the rules
 allow, and none where they allow none.
 */
module PredicateRules {
  import opened Options
  import opened Ids
  import opened Predicates
  import opened PredicateRoundTrip

  // ------------------------------------------------------------------ trimming

  /** The white space of Unicode. */
  predicate White(c: char) {
    || c in {'\t', '\n', '\U{B}', '\U{C}', '\r', ' ', '\U{85}', '\U{A0}', '\U{1680}'}
    || c in {'\U{2028}', '\U{2029}', '\U{202F}', '\U{205F}', '\U{3000}'}
    || '\U{2000}' <= c <= '\U{200A}'
  }

  predicate Blank(s: string) {
    forall c | c in s :: White(c)
  }

  /** What is left of `s` without white space at both ends. */
  ghost predicate TrimsTo(s: string, t: string) {
    && (exists a, b :: s == a + t + b && Blank(a) && Blank(b))
    && (t != "" ==> !White(t[0]) && !White(t[|t| - 1]))
  }

  lemma {:induction false} TrimStartLeads(a: string, s: string)
    requires Blank(a) && (s != "" ==> !Space(s[0]))
    ensures TrimStart(a + s) == s
  {
    if a != "" {
      assert a[0] in a && (a + s)[1..] == a[1..] + s;
      TrimStartLeads(a[1..], s);
    } else {
      assert a + s == s;
    }
  }

  lemma {:induction false} TrimEndTrails(s: string, b: string)
    requires Blank(b) && (s != "" ==> !Space(s[|s| - 1]))
    ensures TrimEnd(s + b) == s
  {
    if b != "" {
      var init := b[..|b| - 1];
      assert b[|b| - 1] in b && (s + b)[..|s + b| - 1] == s + init;
      TrimEndTrails(s, init);
    } else {
      assert s + b == s;
    }
  }

  lemma {:induction false} BlankTrims(s: string)
    requires Blank(s)
    ensures TrimStart(s) == ""
  {
    assert s + "" == s;
    TrimStartLeads(s, "");
  }

  lemma {:induction false} StartGives(s: string) returns (a: string)
    ensures s == a + TrimStart(s) && Blank(a) && (TrimStart(s) != "" ==> !Space(TrimStart(s)[0]))
  {
    if s != "" && Space(s[0]) {
      var rest := StartGives(s[1..]);
      var t := TrimStart(s[1..]);
      assert TrimStart(s) == t;
      a := [s[0]] + rest;
      assert s == [s[0]] + s[1..] && [s[0]] + (rest + t) == a + t;
    } else {
      a := "";
    }
  }

  lemma {:induction false} EndGives(s: string) returns (b: string)
    ensures s == TrimEnd(s) + b && Blank(b) && (TrimEnd(s) != "" ==> !Space(TrimEnd(s)[|TrimEnd(s)| - 1]))
  {
    if s != "" && Space(s[|s| - 1]) {
      var rest := EndGives(s[..|s| - 1]);
      b := rest + [s[|s| - 1]];
      assert s == s[..|s| - 1] + [s[|s| - 1]];
      assert TrimEnd(s) + rest + [s[|s| - 1]] == TrimEnd(s) + b;
    } else {
      b := "";
      assert s + b == s;
    }
  }

  lemma TrimmedBy(s: string, a: string, t: string, b: string)
    requires s == a + t + b && Blank(a) && Blank(b) && (t != "" ==> !White(t[0]) && !White(t[|t| - 1]))
    ensures TrimsTo(s, t)
  {}

  lemma Between(s: string, a: string, x: string, t: string, b: string)
    requires s == a + x && x == t + b
    ensures s == a + t + b && (t != "" ==> x != "" && x[0] == t[0])
  {}

  lemma {:induction false} TrimGives(s: string)
    ensures TrimsTo(s, Trim(s))
  {
    var a := StartGives(s);
    var b := EndGives(TrimStart(s));
    Between(s, a, TrimStart(s), Trim(s), b);
    TrimmedBy(s, a, Trim(s), b);
  }

  lemma {:induction false} TrimIs(s: string, t: string)
    requires TrimsTo(s, t)
    ensures Trim(s) == t
  {
    var a, b :| s == a + t + b && Blank(a) && Blank(b) && Trimmed(t);
    if t == "" {
      assert s == a + b;
      BlankTrims(s);
    } else {
      assert s == a + (t + b) && (t + b)[0] == t[0];
      TrimStartLeads(a, t + b);
      TrimEndTrails(t, b);
    }
  }

  lemma TrimExactly(s: string, t: string)
    ensures TrimsTo(s, t) <==> t == Trim(s)
  {
    TrimGives(s);
    if TrimsTo(s, t) {
      TrimIs(s, t);
    }
  }

  // ------------------------------------------------------------------- numbers

  /** What a row of decimal digits is worth. */
  ghost function Worth(s: string): nat
    requires forall c | c in s :: '0' <= c <= '9'
  {
    if s == "" then 0
    else
      var front, c := s[..|s| - 1], s[|s| - 1];
      assert c in s && forall x | x in front :: x in s;
      10 * Worth(front) + (c as nat - '0' as nat)
  }

  ghost predicate Digits(s: string, n: nat) {
    s != "" && (forall c | c in s :: '0' <= c <= '9') && n == Worth(s)
  }

  /** An optional sign and decimal digits, within 64 bits with a sign. */
  ghost predicate ReadsInt(s: string, n: int) {
    exists sign, digits: string, m: nat ::
      && sign in {"", "+", "-"} && s == sign + digits && Digits(digits, m)
      && n == (if sign == "-" then -(m as int) else m)
      && -0x8000_0000_0000_0000 <= n <= 0x7FFF_FFFF_FFFF_FFFF
  }

  lemma {:induction false} DigitsExactly(s: string, n: nat)
    ensures Digits(s, n) <==> DigitsValue(s) == Some(n)
  {
    if s != "" {
      var front, c := s[..|s| - 1], s[|s| - 1];
      assert forall x :: x in s <==> x in front || x == c;
      forall m: nat ensures Digits(front, m) <==> DigitsValue(front) == Some(m) {
        DigitsExactly(front, m);
      }
      if DigitsValue(s).Some? {
        assert front != "" ==> Digits(front, DigitsValue(front).value);
        assert forall x | x in s :: '0' <= x <= '9';
        assert Worth(s) == DigitsValue(s).value;
      }
      if forall x | x in s :: '0' <= x <= '9' {
        assert c in s && forall x | x in front :: x in s;
        assert front != "" ==> Digits(front, Worth(front));
        assert DigitsValue(s) == Some(Worth(s));
      }
    }
  }

  lemma Signed(s: string) returns (sign: string, digits: string)
    requires ParseInt(s).Some?
    ensures sign in {"", "+", "-"} && s == sign + digits && DigitsValue(digits).Some?
    ensures ParseInt(s).value == var m := DigitsValue(digits).value as int; if sign == "-" then -m else m
    ensures Fits(ParseInt(s).value)
  {
    if s != "" && (s[0] == '-' || s[0] == '+') {
      sign, digits := [s[0]], s[1..];
    } else {
      sign, digits := "", s;
    }
  }

  lemma {:induction false} IntGives(s: string)
    requires ParseInt(s).Some?
    ensures ReadsInt(s, ParseInt(s).value)
  {
    var sign, digits := Signed(s);
    DigitsExactly(digits, DigitsValue(digits).value);
  }

  lemma SignedReads(sign: string, digits: string, m: nat)
    requires sign in {"", "+", "-"} && digits != "" && IsDigit(digits[0]) && DigitsValue(digits) == Some(m)
    ensures var n := if sign == "-" then -(m as int) else m;
            ParseInt(sign + digits) == if Fits(n) then Some(n) else None
  {
    var s := sign + digits;
    if sign == "" {
      assert s == digits;
    } else {
      assert s[0] == sign[0] && s[1..] == digits;
    }
  }

  lemma {:induction false} IntIs(s: string, n: int)
    requires ReadsInt(s, n)
    ensures ParseInt(s) == Some(n)
  {
    var sign, digits: string, m: nat :|
      && sign in {"", "+", "-"} && s == sign + digits && Digits(digits, m)
      && n == (if sign == "-" then -(m as int) else m)
      && -0x8000_0000_0000_0000 <= n <= 0x7FFF_FFFF_FFFF_FFFF;
    DigitsExactly(digits, m);
    assert digits[0] in digits;
    SignedReads(sign, digits, m);
  }

  lemma IntExactly(s: string, n: int)
    ensures ReadsInt(s, n) <==> ParseInt(s) == Some(n)
  {
    if ParseInt(s).Some? {
      IntGives(s);
    }
    if ReadsInt(s, n) {
      IntIs(s, n);
    }
  }

  /** `true`, `false`, an integer, or any other text as it is. */
  ghost predicate ReadsValue(s: string, v: Value) {
    match v
    case Bool(b) => s == if b then "true" else "false"
    case Int(n) => ReadsInt(s, n)
    case Text(t) => t == s && s !in {"true", "false"} && forall n :: !ReadsInt(s, n)
    case _ => false
  }

  lemma ValueExactly(s: string, v: Value)
    ensures ReadsValue(s, v) <==> v == ParseValue(s)
  {
    forall n ensures ReadsInt(s, n) <==> ParseInt(s) == Some(n) {
      IntExactly(s, n);
    }
    if s == "true" || s == "false" {
      NoSignNoDigits(s);
    }
  }

  lemma NoSignNoDigits(s: string)
    requires s == "true" || s == "false"
    ensures ParseInt(s).None?
  {
    assert s[|s| - 1] == 'e';
  }

  // ----------------------------------------------------------------- splitting

  /** Parentheses open at the end of a text. */
  function Depth(s: string): int {
    if s == "" then 0
    else Depth(s[..|s| - 1]) + Opens(s[|s| - 1])
  }

  function Opens(c: char): int {
    if c == '(' then 1 else if c == ')' then -1 else 0
  }

  predicate Comma(s: string, i: nat) {
    i < |s| && s[i] == ',' && Depth(s[..i]) == 0
  }

  /** The commas outside parentheses from `i` on. */
  ghost predicate Cuts(s: string, i: nat, cuts: seq<nat>) {
    Rises(cuts) && forall k: nat :: k in cuts <==> i <= k && Comma(s, k)
  }

  /** What lies between the cuts, trimmed, from `start` on; nothing for a blank end. */
  ghost predicate Pieced(s: string, start: nat, cuts: seq<nat>, parts: seq<string>)
    decreases |cuts|
  {
    && start <= |s|
    && if cuts == [] then
         if Blank(s[start..]) then parts == [] else |parts| == 1 && TrimsTo(s[start..], parts[0])
       else
         && start <= cuts[0] < |s| && parts != [] && TrimsTo(s[start..cuts[0]], parts[0])
         && Pieced(s, cuts[0] + 1, cuts[1..], parts[1..])
  }

  ghost predicate Splits(s: string, parts: seq<string>) {
    exists cuts :: Cuts(s, 0, cuts) && Pieced(s, 0, cuts, parts)
  }

  lemma DepthSnoc(s: string, i: nat)
    requires i < |s|
    ensures Depth(s[..i + 1]) == Depth(s[..i]) + Opens(s[i])
  {
    assert s[..i + 1][..i] == s[..i];
  }

  lemma {:induction false} CutsExist(s: string, i: nat) returns (cuts: seq<nat>)
    requires i <= |s|
    ensures Cuts(s, i, cuts)
    decreases |s| - i
  {
    if i == |s| {
      cuts := [];
    } else {
      var later := CutsExist(s, i + 1);
      cuts := if Comma(s, i) then [i] + later else later;
      forall a, b | 0 <= a < b < |cuts| ensures cuts[a] < cuts[b] {
        assert Comma(s, i) ==> later[b - 1] in later;
      }
    }
  }

  lemma CutsAfter(s: string, i: nat, cuts: seq<nat>)
    requires Cuts(s, i, cuts) && i < |s|
    ensures if Comma(s, i) then cuts != [] && cuts[0] == i && Cuts(s, i + 1, cuts[1..]) else Cuts(s, i + 1, cuts)
  {
    if Comma(s, i) {
      assert i in cuts;
      assert cuts[0] in cuts;
      forall k: nat ensures k in cuts[1..] <==> i + 1 <= k && Comma(s, k) {
        AfterFirst(cuts, k);
      }
    }
  }

  lemma NoCuts(s: string, cuts: seq<nat>)
    requires Cuts(s, |s|, cuts)
    ensures cuts == []
  {
    FirstIn(cuts);
  }

  lemma BlankExactly(s: string)
    ensures Blank(s) <==> Trim(s) == ""
  {
    TrimGives(s);
    if Blank(s) {
      assert s == s + "" + "";
      TrimmedBy(s, s, "", "");
      TrimIs(s, "");
    }
  }

  lemma SplitOne(s: string, depth: int, cur: string)
    requires s != ""
    ensures SplitFrom(s, depth, cur) ==
            if s[0] == ',' && depth == 0 then [Trim(cur)] + SplitFrom(s[1..], depth, "")
            else SplitFrom(s[1..], depth + Opens(s[0]), cur + [s[0]])
  {}

  lemma EndPiece(s: string, start: nat, depth: int)
    requires start <= |s|
    ensures Pieced(s, start, [], SplitFrom("", depth, s[start..]))
  {
    BlankExactly(s[start..]);
    TrimGives(s[start..]);
  }

  lemma CutPiece(s: string, start: nat, i: nat, cuts: seq<nat>, rest: seq<string>)
    requires start <= i < |s| && cuts != [] && cuts[0] == i && Pieced(s, i + 1, cuts[1..], rest)
    ensures Pieced(s, start, cuts, [Trim(s[start..i])] + rest)
  {
    TrimGives(s[start..i]);
    assert ([Trim(s[start..i])] + rest)[1..] == rest;
  }

  lemma SplitAt(s: string, start: nat, i: nat)
    requires start <= i < |s|
    ensures SplitFrom(s[i..], Depth(s[..i]), s[start..i]) ==
            if Comma(s, i) then [Trim(s[start..i])] + SplitFrom(s[i + 1..], Depth(s[..i + 1]), s[i + 1..i + 1])
            else SplitFrom(s[i + 1..], Depth(s[..i + 1]), s[start..i + 1])
  {
    DepthSnoc(s, i);
    assert s[i..][1..] == s[i + 1..] && s[i..][0] == s[i] && s[i + 1..i + 1] == "";
    assert s[start..i] + [s[i]] == s[start..i + 1];
    SplitOne(s[i..], Depth(s[..i]), s[start..i]);
  }

  lemma LastPiece(s: string, start: nat)
    requires start <= |s|
    ensures Pieced(s, start, [], SplitFrom(s[|s|..], Depth(s[..|s|]), s[start..|s|]))
  {
    assert s[start..|s|] == s[start..] && s[|s|..] == "";
    EndPiece(s, start, Depth(s[..|s|]));
  }

  lemma {:induction false} SplitPieces(s: string, start: nat, i: nat, cuts: seq<nat>)
    requires start <= i <= |s| && Cuts(s, i, cuts)
    ensures Pieced(s, start, cuts, SplitFrom(s[i..], Depth(s[..i]), s[start..i]))
    decreases |s| - i
  {
    if i == |s| {
      NoCuts(s, cuts);
      LastPiece(s, start);
    } else {
      CutsAfter(s, i, cuts);
      SplitAt(s, start, i);
      if Comma(s, i) {
        SplitPieces(s, i + 1, i + 1, cuts[1..]);
        CutPiece(s, start, i, cuts, SplitFrom(s[i + 1..], Depth(s[..i + 1]), s[i + 1..i + 1]));
      } else {
        SplitPieces(s, start, i + 1, cuts);
      }
    }
  }

  lemma {:induction false} PiecedOnce(s: string, start: nat, cuts: seq<nat>, x: seq<string>, y: seq<string>)
    requires Pieced(s, start, cuts, x) && Pieced(s, start, cuts, y)
    ensures x == y
    decreases |cuts|
  {
    if cuts == [] {
      if !Blank(s[start..]) {
        TrimIs(s[start..], x[0]);
        TrimIs(s[start..], y[0]);
      }
    } else {
      TrimIs(s[start..cuts[0]], x[0]);
      TrimIs(s[start..cuts[0]], y[0]);
      PiecedOnce(s, cuts[0] + 1, cuts[1..], x[1..], y[1..]);
      assert x == [x[0]] + x[1..] && y == [y[0]] + y[1..];
    }
  }

  lemma {:induction false} SplitExactly(s: string, parts: seq<string>)
    ensures Splits(s, parts) <==> parts == SplitFrom(s, 0, "")
  {
    var cuts := CutsExist(s, 0);
    SplitPieces(s, 0, 0, cuts);
    assert s[0..] == s && s[..0] == "" && s[0..0] == "";
    if Splits(s, parts) {
      var others :| Cuts(s, 0, others) && Pieced(s, 0, others, parts);
      RisesOnce(cuts, others);
      PiecedOnce(s, 0, cuts, parts, SplitFrom(s, 0, ""));
    }
  }

  // ------------------------------------------------------------- name and keys

  /** A part that is some text without an equals sign. */
  ghost predicate Bare(part: string, t: string) {
    TrimsTo(part, t) && t != "" && '=' !in t
  }

  /** A part that gives a key a value, at its first equals sign. */
  ghost predicate Gives(part: string, k: string, v: Value) {
    exists key, text, u ::
      && TrimsTo(part, key + "=" + text) && '=' !in key && TrimsTo(key, k) && TrimsTo(text, u) && ReadsValue(u, v)
  }

  ghost predicate GivesLast(parts: seq<string>, k: string, v: Value) {
    LastGiven(parts, k, v, Gives)
  }

  ghost predicate LastGiven(parts: seq<string>, k: string, v: Value, gives: (string, string, Value) -> bool) {
    exists i | 0 <= i < |parts| :: gives(parts[i], k, v) && forall j, x | i < j < |parts| :: !gives(parts[j], k, x)
  }

  /** A bare part names only as the first; each key has the value last given. */
  ghost predicate ReadsParts(parts: seq<string>, name: Option<string>, args: map<string, Value>) {
    && (forall i, t | 0 < i < |parts| :: !Bare(parts[i], t))
    && (forall n :: name == Some(n) <==> parts != [] && Bare(parts[0], n))
    && forall k, v :: (k in args && args[k] == v) <==> GivesLast(parts, k, v)
  }

  lemma BareExactly(part: string, t: string)
    ensures Bare(part, t) <==> t == Trim(part) && t != "" && Find(t, '=') == |t|
  {
    TrimExactly(part, t);
  }

  lemma KeyEnds(t: string, key: string, text: string)
    requires t == key + "=" + text && '=' !in key
    ensures Find(t, '=') == |key| < |t| && key == t[..|key|] && text == t[|key| + 1..]
  {
    FindFirst(key, '=', text);
    assert key + ['='] + text == t;
  }

  lemma GivesIs(part: string, k: string, v: Value)
    requires Gives(part, k, v)
    ensures var t := Trim(part); var eq := Find(t, '=');
            eq < |t| && k == Trim(t[..eq]) && v == ParseValue(Trim(t[eq + 1..]))
  {
    var key, text, u :|
      && TrimsTo(part, key + "=" + text) && '=' !in key && TrimsTo(key, k) && TrimsTo(text, u) && ReadsValue(u, v);
    TrimIs(part, key + "=" + text);
    KeyEnds(Trim(part), key, text);
    TrimIs(key, k);
    TrimIs(text, u);
    ValueExactly(u, v);
  }

  lemma GivesBy(part: string, key: string, text: string, k: string, u: string, v: Value)
    requires TrimsTo(part, key + "=" + text) && '=' !in key && TrimsTo(key, k) && TrimsTo(text, u) && ReadsValue(u, v)
    ensures Gives(part, k, v)
  {}

  lemma PartGives(part: string)
    ensures var t := Trim(part); var eq := Find(t, '=');
            eq < |t| ==> Gives(part, Trim(t[..eq]), ParseValue(Trim(t[eq + 1..])))
  {
    var t := Trim(part);
    var eq := Find(t, '=');
    if eq < |t| {
      var key, text := t[..eq], t[eq + 1..];
      assert t == key + "=" + text;
      TrimGives(part);
      TrimGives(key);
      TrimGives(text);
      ValueExactly(Trim(text), ParseValue(Trim(text)));
      GivesBy(part, key, text, Trim(key), Trim(text), ParseValue(Trim(text)));
    }
  }

  lemma GivesExactly(part: string, k: string, v: Value)
    ensures var t := Trim(part); var eq := Find(t, '=');
            Gives(part, k, v) <==> eq < |t| && k == Trim(t[..eq]) && v == ParseValue(Trim(t[eq + 1..]))
  {
    PartGives(part);
    if Gives(part, k, v) {
      GivesIs(part, k, v);
    }
  }

  lemma LastGivenSnoc(init: seq<string>, last: string, k: string, v: Value, gives: (string, string, Value) -> bool)
    ensures LastGiven(init + [last], k, v, gives) <==>
            gives(last, k, v) || ((forall x :: !gives(last, k, x)) && LastGiven(init, k, v, gives))
  {
    var all := init + [last];
    assert all[|init|] == last && forall j | 0 <= j < |init| :: all[j] == init[j];
    if gives(last, k, v) {
      assert gives(all[|init|], k, v);
    }
    if (forall x :: !gives(last, k, x)) && LastGiven(init, k, v, gives) {
      var i :| 0 <= i < |init| && gives(init[i], k, v) && forall j, x | i < j < |init| :: !gives(init[j], k, x);
      assert gives(all[i], k, v);
    }
    if i :| 0 <= i < |all| && gives(all[i], k, v) && forall j, x | i < j < |all| :: !gives(all[j], k, x) {
      if i < |init| {
        assert gives(init[i], k, v);
        forall j, x | i < j < |init| ensures !gives(init[j], k, x) {
          assert !gives(all[j], k, x);
        }
        forall x ensures !gives(last, k, x) {
          assert !gives(all[|init|], k, x);
        }
      }
    }
  }

  /** The name after one more part; none of the later parts is bare. */
  ghost predicate NamesOnly(parts: seq<string>, name: Option<string>) {
    && (forall i, t | 0 < i < |parts| :: !Bare(parts[i], t))
    && forall n :: name == Some(n) <==> parts != [] && Bare(parts[0], n)
  }

  ghost predicate Keyed(parts: seq<string>, args: map<string, Value>) {
    KeyedBy(parts, args, Gives)
  }

  lemma NamesSnoc(init: seq<string>, last: string, name: Option<string>)
    requires NamesOnly(init, name) && forall t :: !Bare(last, t)
    ensures NamesOnly(init + [last], name)
  {
    var all := init + [last];
    forall i, t | 0 < i < |all| ensures !Bare(all[i], t) {
      assert i < |init| ==> all[i] == init[i];
    }
    assert init != [] ==> all[0] == init[0];
  }

  ghost predicate KeyedBy(parts: seq<string>, args: map<string, Value>, gives: (string, string, Value) -> bool) {
    forall k, v :: (k in args && args[k] == v) <==> LastGiven(parts, k, v, gives)
  }

  lemma KeyedSnoc(init: seq<string>, last: string, args: map<string, Value>, key: string, value: Value,
                  gives: (string, string, Value) -> bool)
    requires KeyedBy(init, args, gives) && forall k, v :: gives(last, k, v) <==> k == key && v == value
    ensures KeyedBy(init + [last], args[key := value], gives)
  {
    var next := args[key := value];
    forall k, v ensures (k in next && next[k] == v) <==> LastGiven(init + [last], k, v, gives) {
      LastGivenSnoc(init, last, k, v, gives);
      assert gives(last, key, value);
    }
  }

  lemma UnkeyedSnoc(init: seq<string>, last: string, args: map<string, Value>, gives: (string, string, Value) -> bool)
    requires KeyedBy(init, args, gives) && forall k, v :: !gives(last, k, v)
    ensures KeyedBy(init + [last], args, gives)
  {
    forall k, v ensures (k in args && args[k] == v) <==> LastGiven(init + [last], k, v, gives) {
      LastGivenSnoc(init, last, k, v, gives);
    }
  }

  ghost predicate LaterBare(parts: seq<string>) {
    exists i, t :: 0 < i < |parts| && Bare(parts[i], t)
  }

  lemma {:induction false} PartsGive(parts: seq<string>)
    ensures match ParseParts(parts)
            case Some(n) => NamesOnly(parts, n.name) && Keyed(parts, n.args)
            case None => LaterBare(parts)
  {
    if parts != [] {
      var init, last := parts[..|parts| - 1], parts[|parts| - 1];
      assert parts == init + [last];
      PartsGive(init);
      PartGiven(init, last);
    }
  }

  lemma {:induction false} PartGiven(init: seq<string>, last: string)
    requires match ParseParts(init)
             case Some(n) => NamesOnly(init, n.name) && Keyed(init, n.args)
             case None => LaterBare(init)
    ensures match ParsePart(ParseParts(init), Trim(last), init == [])
            case Some(n) => NamesOnly(init + [last], n.name) && Keyed(init + [last], n.args)
            case None => LaterBare(init + [last])
  {
    var t := Trim(last);
    var eq := Find(t, '=');
    forall x ensures Bare(last, x) <==> x == t && t != "" && eq == |t| {
      BareExactly(last, x);
    }
    forall k, v ensures Gives(last, k, v) <==> eq < |t| && k == Trim(t[..eq]) && v == ParseValue(Trim(t[eq + 1..])) {
      GivesExactly(last, k, v);
    }
    match ParseParts(init)
    case None =>
      var i, x :| 0 < i < |init| && Bare(init[i], x);
      assert Bare((init + [last])[i], x);
    case Some(b) =>
      if t == "" || eq < |t| {
        NamesSnoc(init, last, b.name);
      }
      if eq < |t| {
        KeyedSnoc(init, last, b.args, Trim(t[..eq]), ParseValue(Trim(t[eq + 1..])), Gives);
      } else {
        UnkeyedSnoc(init, last, b.args, Gives);
        if t != "" {
          assert Bare((init + [last])[|init|], t);
        }
      }
  }

  lemma {:induction false} PartsExactly(parts: seq<string>, name: Option<string>, args: map<string, Value>)
    ensures ReadsParts(parts, name, args) <==> ParseParts(parts) == Some(Named(name, args))
  {
    PartsGive(parts);
    if ReadsParts(parts, name, args) {
      var n := ParseParts(parts).value;
      forall k ensures k in args <==> k in n.args {
        if k in args { assert GivesLast(parts, k, args[k]); }
        if k in n.args { assert GivesLast(parts, k, n.args[k]); }
      }
      forall k | k in args ensures args[k] == n.args[k] {
        assert GivesLast(parts, k, args[k]);
      }
      assert args == n.args;
      if name.Some? { assert name == Some(name.value); }
      if n.name.Some? { assert n.name == Some(n.name.value); }
    }
  }

  // ---------------------------------------------------------------- predicates

  /** A kind, then something in parentheses up to the end. */
  ghost predicate Shaped(text: string, kind: string, inner: string) {
    exists before :: TrimsTo(text, before + "(" + inner + ")") && '(' !in before && TrimsTo(before, kind)
  }

  /** `all`, `any` and `not` take predicates; every other kind a name and keyed values. */
  ghost predicate Reads(text: string, p: Pred)
    decreases p, 1
  {
    exists inner, parts :: Shaped(text, p.kind, inner) && Splits(inner, parts) && ReadsBody(parts, p)
  }

  /** What the parts of a predicate's text must be. */
  ghost predicate ReadsBody(parts: seq<string>, p: Pred)
    decreases p, 0
  {
    if p.kind in {"all", "any", "not"} then
      && p.name == None && p.args == Some(map[]) && p.preds.Subs? && |parts| == |p.preds.list|
      && forall i | 0 <= i < |parts| :: Reads(parts[i], p.preds.list[i])
    else
      p.preds == NoSubs && p.args != Some(map[]) && ReadsParts(parts, p.name, p.args.GetOr(map[]))
  }

  lemma Around(before: string, inner: string)
    ensures var t := before + "(" + inner + ")";
            && |t| == |before| + |inner| + 2 && t[|before|] == '(' && t[|t| - 1] == ')'
            && t[..|before|] == before && t[|before| + 1..|t| - 1] == inner
            && t == before + ['('] + (inner + ")")
  {}

  /** A text of that shape is read by its kind and the parts of what the parentheses hold. */
  lemma ShapeIs(text: string, kind: string, inner: string)
    requires Shaped(text, kind, inner)
    ensures (forall s | s in SplitFrom(inner, 0, "") :: |s| < |text|)
    ensures ParsePredicate(text) == ParseKind(kind, SplitFrom(inner, 0, ""), |text|)
  {
    var before :| TrimsTo(text, before + "(" + inner + ")") && '(' !in before && TrimsTo(before, kind);
    TrimIs(text, before + "(" + inner + ")");
    TrimIs(before, kind);
    Around(before, inner);
    FindFirst(before, '(', inner + ")");
    TrimShrinks(text);
    SplitShrinks(inner, 0, "");
  }

  lemma ShapeOf(text: string, t: string, open: nat)
    requires TrimsTo(text, t) && open < |t| - 1 && t[open] == '(' && '(' !in t[..open] && t[|t| - 1] == ')'
    ensures Shaped(text, Trim(t[..open]), t[open + 1..|t| - 1])
  {
    var before := t[..open];
    TrimGives(before);
    assert t == before + "(" + t[open + 1..|t| - 1] + ")";
  }

  lemma ShapeGiven(text: string) returns (kind: string, inner: string)
    requires ParsePredicate(text).Some?
    ensures Shaped(text, kind, inner)
  {
    var t := Trim(text);
    var open := Find(t, '(');
    TrimGives(text);
    kind, inner := Trim(t[..open]), t[open + 1..|t| - 1];
    ShapeOf(text, t, open);
  }

  lemma {:induction false} ListRead(parts: seq<string>, bound: nat, ps: seq<Pred>)
    requires forall s | s in parts :: |s| < bound
    ensures ParsePreds(parts, bound) == Some(ps) <==>
            |ps| == |parts| && forall i | 0 <= i < |parts| :: ParsePredicate(parts[i]) == Some(ps[i])
  {
    if parts != [] {
      assert parts[0] in parts;
      if ps != [] {
        ListRead(parts[1..], bound, ps[1..]);
        assert ps == [ps[0]] + ps[1..];
        assert forall i | 0 <= i < |parts| - 1 :: parts[1..][i] == parts[i + 1];
        if |ps| == |parts| && forall i | 0 <= i < |parts| :: ParsePredicate(parts[i]) == Some(ps[i]) {
          assert forall i | 0 <= i < |parts| - 1 :: ps[1..][i] == ps[i + 1];
        }
        if ParsePreds(parts, bound) == Some(ps) {
          forall i | 0 <= i < |parts| ensures ParsePredicate(parts[i]) == Some(ps[i]) {
            assert i > 0 ==> parts[1..][i - 1] == parts[i] && ps[1..][i - 1] == ps[i];
          }
        }
      }
    }
  }

  lemma {:induction false} KindIs(kind: string, parts: seq<string>, bound: nat, p: Pred)
    requires (forall s | s in parts :: |s| < bound) && kind !in {"all", "any", "not"}
    ensures ParseKind(kind, parts, bound) == Some(p) <==>
            && p.kind == kind && p.preds == NoSubs && p.args != Some(map[])
            && ReadsParts(parts, p.name, p.args.GetOr(map[]))
  {
    PartsExactly(parts, p.name, p.args.GetOr(map[]));
  }

  lemma {:induction false} CombinedIs(kind: string, parts: seq<string>, bound: nat, p: Pred)
    requires (forall s | s in parts :: |s| < bound) && kind in {"all", "any", "not"}
    ensures ParseKind(kind, parts, bound) == Some(p) <==>
            && p.kind == kind && p.name == None && p.args == Some(map[]) && p.preds.Subs? && |parts| == |p.preds.list|
            && forall i | 0 <= i < |parts| :: ParsePredicate(parts[i]) == Some(p.preds.list[i])
  {
    if p.preds.Subs? {
      ListRead(parts, bound, p.preds.list);
    }
  }

  lemma {:induction false} BodyExactly(parts: seq<string>, bound: nat, p: Pred)
    requires forall s | s in parts :: |s| < bound
    ensures ParseKind(p.kind, parts, bound) == Some(p) <==> ReadsBody(parts, p)
    decreases p, 0
  {
    if p.kind in {"all", "any", "not"} {
      CombinedIs(p.kind, parts, bound, p);
      if p.preds.Subs? && |parts| == |p.preds.list| {
        forall i | 0 <= i < |parts|
          ensures ParsePredicate(parts[i]) == Some(p.preds.list[i]) <==> Reads(parts[i], p.preds.list[i])
        {
          ReadExactly(parts[i], p.preds.list[i]);
        }
      }
    } else {
      KindIs(p.kind, parts, bound, p);
    }
  }

  /** Reading gives exactly the predicates the rules allow: one, or none. */
  lemma {:induction false} ReadExactly(text: string, p: Pred)
    ensures ParsePredicate(text) == Some(p) <==> Reads(text, p)
    decreases p, 2
  {
    if ParsePredicate(text).Some? {
      var kind, inner := ShapeGiven(text);
      ShapeIs(text, kind, inner);
      SplitExactly(inner, SplitFrom(inner, 0, ""));
      if ParsePredicate(text) == Some(p) {
        ReadGiven(text, kind, inner, SplitFrom(inner, 0, ""), p);
      }
    }
    if inner, parts :| Shaped(text, p.kind, inner) && Splits(inner, parts) && ReadsBody(parts, p) {
      ShapeIs(text, p.kind, inner);
      SplitExactly(inner, parts);
      BodyExactly(parts, |text|, p);
    }
  }

  lemma {:induction false} ReadGiven(text: string, kind: string, inner: string, parts: seq<string>, p: Pred)
    requires Shaped(text, kind, inner) && Splits(inner, parts) && forall s | s in parts :: |s| < |text|
    requires ParseKind(kind, parts, |text|) == Some(p)
    ensures Reads(text, p)
    decreases p, 1
  {
    KindKept(kind, parts, |text|, p);
    BodyExactly(parts, |text|, p);
    ReadsBy(text, inner, parts, p);
  }

  lemma ReadsBy(text: string, inner: string, parts: seq<string>, p: Pred)
    requires Shaped(text, p.kind, inner) && Splits(inner, parts) && ReadsBody(parts, p)
    ensures Reads(text, p)
  {}

  lemma KindKept(kind: string, parts: seq<string>, bound: nat, p: Pred)
    requires (forall s | s in parts :: |s| < bound) && ParseKind(kind, parts, bound) == Some(p)
    ensures p.kind == kind
  {}
}
