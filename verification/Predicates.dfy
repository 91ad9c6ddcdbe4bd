/**
 Predicates of a standard as text: printing `kind(name, key=value, ...)` and
 reading it back. The predicates encoded under the argument `preds` are kept
 apart from the other arguments.
 */
module Predicates {
  import opened Options
  import opened Order

  datatype Value = Bool(b: bool) | Int(n: int) | Float(permille: int) | Text(t: string) | Array(items: seq<Value>)
                 | Map(entries: seq<(Value, Value)>) | Opaque

  datatype Subs = NoSubs | Subs(list: seq<Pred>)

  datatype Pred = Pred(kind: string, name: Option<string>, args: Option<map<string, Value>>, preds: Subs)

  predicate Combinator(kind: string) {
    kind == "all" || kind == "any" || kind == "not"
  }

  // ------------------------------------------------------------------- printing

  function Digit(d: nat): char
    requires d < 10
  {
    "0123456789"[d]
  }

  function NatText(n: nat): string {
    if n < 10 then [Digit(n)] else NatText(n / 10) + [Digit(n % 10)]
  }

  function IntText(n: int): string {
    if n < 0 then "-" + NatText(-n) else NatText(n)
  }

  /** A value as text; how a value with no plain form prints is not fixed. */
  function ValueText(v: Value, debug: Value -> string): string {
    match v
    case Text(t) => t
    case Bool(b) => if b then "true" else "false"
    case Int(n) => IntText(n)
    case Array(items) => "[" + ItemsText(items, debug) + "]"
    case _ => debug(v)
  }

  function ItemsText(items: seq<Value>, debug: Value -> string): string {
    if items == [] then ""
    else if |items| == 1 then ValueText(items[0], debug)
    else ValueText(items[0], debug) + " " + ItemsText(items[1..], debug)
  }

  function Commas(parts: seq<string>): string {
    if parts == [] then "" else if |parts| == 1 then parts[0] else parts[0] + ", " + Commas(parts[1..])
  }

  function ArgKeys(p: Pred): set<string> {
    (if p.args.Some? then p.args.value.Keys else {}) + (if p.preds.Subs? then {"preds"} else {})
  }

  ghost function ArgTexts(p: Pred, keys: seq<string>, debug: Value -> string): seq<string>
    requires forall k | k in keys :: k in ArgKeys(p)
    decreases p, 1, |keys|
  {
    if keys == [] then []
    else
      assert keys[0] in keys && keys[0] in ArgKeys(p);
      var text :=
        if keys[0] == "preds" then Commas(if p.preds.Subs? then Descriptions(p.preds.list, debug) else [])
        else keys[0] + "=" + ValueText(p.args.value[keys[0]], debug);
      [text] + ArgTexts(p, keys[1..], debug)
  }

  ghost function Descriptions(ps: seq<Pred>, debug: Value -> string): seq<string>
    decreases ps
  {
    if ps == [] then [] else [Describe(ps[0], debug)] + Descriptions(ps[1..], debug)
  }

  /** A predicate as text. */
  ghost function Describe(p: Pred, debug: Value -> string): string
    decreases p, 2
  {
    var inner := (if p.name.Some? then [p.name.value] else []) + ArgTexts(p, Listed(ArgKeys(p)), debug);
    p.kind + "(" + Commas(inner) + ")"
  }

  // ------------------------------------------------------------------- trimming

  /** White space as Unicode defines it. */
  predicate Space(c: char) {
    || '\t' <= c <= '\r' || c == ' ' || c == '\U{85}' || c == '\U{A0}' || c == '\U{1680}'
    || '\U{2000}' <= c <= '\U{200A}' || c == '\U{2028}' || c == '\U{2029}' || c == '\U{202F}'
    || c == '\U{205F}' || c == '\U{3000}'
  }

  function TrimStart(s: string): string {
    if s != "" && Space(s[0]) then TrimStart(s[1..]) else s
  }

  function TrimEnd(s: string): string {
    if s != "" && Space(s[|s| - 1]) then TrimEnd(s[..|s| - 1]) else s
  }

  function Trim(s: string): string {
    TrimEnd(TrimStart(s))
  }

  /** Nothing to trim. */
  predicate Trimmed(s: string) {
    s == "" || (!Space(s[0]) && !Space(s[|s| - 1]))
  }

  lemma TrimmedTrim(s: string)
    requires Trimmed(s)
    ensures Trim(s) == s
    ensures Trim(" " + s) == s
  {
    assert (" " + s)[1..] == s;
  }

  // -------------------------------------------------------------------- reading

  function Pieces(cur: string): seq<string> {
    if Trim(cur) != "" then [Trim(cur)] else []
  }

  /** Split at commas outside parentheses, from `depth` open ones, with `cur` read since the last. */
  function SplitFrom(s: string, depth: int, cur: string): seq<string> {
    if s == "" then Pieces(cur)
    else if s[0] == '(' then SplitFrom(s[1..], depth + 1, cur + [s[0]])
    else if s[0] == ')' then SplitFrom(s[1..], depth - 1, cur + [s[0]])
    else if s[0] == ',' && depth == 0 then [Trim(cur)] + SplitFrom(s[1..], depth, "")
    else SplitFrom(s[1..], depth, cur + [s[0]])
  }

  method SplitTop(s: string) returns (out: seq<string>)
    ensures out == SplitFrom(s, 0, "")
  {
    out := [];
    var depth, cur := 0, "";
    for i := 0 to |s|
      invariant out + SplitFrom(s[i..], depth, cur) == SplitFrom(s, 0, "")
    {
      var ch := s[i];
      assert s[i..][0] == ch && s[i..][1..] == s[i + 1..];
      if ch == '(' {
        depth, cur := depth + 1, cur + [ch];
      } else if ch == ')' {
        depth, cur := depth - 1, cur + [ch];
      } else if ch == ',' && depth == 0 {
        out, cur := out + [Trim(cur)], "";
      } else {
        cur := cur + [ch];
      }
    }
    out := out + if Trim(cur) != "" then [Trim(cur)] else [];
  }

  predicate IsDigit(c: char) {
    '0' <= c <= '9'
  }

  function DigitsValue(s: string): Option<nat> {
    if s == "" then None
    else
      var last := s[|s| - 1];
      if !IsDigit(last) then None
      else if |s| == 1 then Some(last as nat - '0' as nat)
      else
        var before := DigitsValue(s[..|s| - 1]);
        if before.None? then None else Some(10 * before.value + (last as nat - '0' as nat))
  }

  const MAX_INT := 0x7FFF_FFFF_FFFF_FFFF

  predicate Fits(n: int) {
    -MAX_INT - 1 <= n <= MAX_INT
  }

  /** A signed 64-bit integer: an optional sign and digits. */
  function ParseInt(s: string): Option<int> {
    var negative := s != "" && s[0] == '-';
    var digits := DigitsValue(if s != "" && (s[0] == '-' || s[0] == '+') then s[1..] else s);
    if digits.None? then None
    else
      var n: int := if negative then -(digits.value as int) else digits.value;
      if Fits(n) then Some(n) else None
  }

  function ParseValue(v: string): Value {
    if v == "true" then Bool(true)
    else if v == "false" then Bool(false)
    else if ParseInt(v).Some? then Int(ParseInt(v).value)
    else Text(v)
  }

  /** The first position of a character, or the length. */
  function Find(s: string, c: char): (r: nat)
    ensures r <= |s| && c !in s[..r] && (r < |s| ==> s[r] == c)
  {
    if s == "" || s[0] == c then 0
    else
      var r := 1 + Find(s[1..], c);
      assert s[..r] == [s[0]] + s[1..][..r - 1];
      r
  }

  datatype Named = Named(name: Option<string>, args: map<string, Value>)

  /** The name and arguments among the parts; none when a later part is not `key=value`. */
  function ParseParts(parts: seq<string>): Option<Named> {
    if parts == [] then Some(Named(None, map[]))
    else ParsePart(ParseParts(parts[..|parts| - 1]), Trim(parts[|parts| - 1]), |parts| == 1)
  }

  function ParsePart(before: Option<Named>, part: string, first: bool): Option<Named> {
    if before.None? || part == "" then before
    else
      var eq := Find(part, '=');
      if eq < |part| then
        Some(Named(before.value.name, before.value.args[Trim(part[..eq]) := ParseValue(Trim(part[eq + 1..]))]))
      else if first then Some(Named(Some(part), before.value.args))
      else None
  }

  /** Pieces are shorter than what they were split from. */
  lemma {:induction false} SplitShrinks(s: string, depth: int, cur: string)
    ensures forall p | p in SplitFrom(s, depth, cur) :: |p| <= |s| + |cur|
  {
    TrimShrinks(cur);
    if s != "" {
      SplitShrinks(s[1..], depth + 1, cur + [s[0]]);
      SplitShrinks(s[1..], depth - 1, cur + [s[0]]);
      SplitShrinks(s[1..], depth, cur + [s[0]]);
      SplitShrinks(s[1..], depth, "");
    }
  }

  lemma {:induction false} TrimShrinks(s: string)
    ensures |Trim(s)| <= |s|
  {
    TrimStartShrinks(s);
    TrimEndShrinks(TrimStart(s));
  }

  lemma TrimStartShrinks(s: string)
    ensures |TrimStart(s)| <= |s|
  {}

  lemma TrimEndShrinks(s: string)
    ensures |TrimEnd(s)| <= |s|
  {}

  function ParsePreds(parts: seq<string>, bound: nat): Option<seq<Pred>>
    requires forall p | p in parts :: |p| < bound
    decreases bound, 0, |parts|
  {
    if parts == [] then Some([])
    else
      assert parts[0] in parts;
      var first := ParsePredicate(parts[0]);
      if first.None? then None
      else
        var rest := ParsePreds(parts[1..], bound);
        if rest.None? then None else Some([first.value] + rest.value)
  }

  /** Read a predicate; none where the text is malformed. */
  function ParsePredicate(untrimmed: string): Option<Pred>
    decreases |untrimmed|, 1
  {
    TrimShrinks(untrimmed);
    var text := Trim(untrimmed);
    var open := Find(text, '(');
    if open == |text| || text[|text| - 1] != ')' then None
    else
      var kind, inner := Trim(text[..open]), text[open + 1..|text| - 1];
      SplitShrinks(inner, 0, "");
      ParseKind(kind, SplitFrom(inner, 0, ""), |untrimmed|)
  }

  function ParseKind(kind: string, parts: seq<string>, bound: nat): Option<Pred>
    requires forall s | s in parts :: |s| < bound
    decreases bound, 0, |parts| + 1
  {
    if Combinator(kind) then
      var preds := ParsePreds(parts, bound);
      if preds.None? then None else Some(Pred(kind, None, Some(map[]), Subs(preds.value)))
    else
      var named := ParseParts(parts);
      if named.None? then None
      else
        var args := if named.value.args == map[] then None else Some(named.value.args);
        Some(Pred(kind, named.value.name, args, NoSubs))
  }
}
