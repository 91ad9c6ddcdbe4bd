/** Trie keys: byte strings read one nibble per trie level. */
module Keys {

  type Byte = x: int | 0 <= x < 256
  type Key = seq<Byte>

  /** High nibble of a byte at even depths, low nibble at odd depths. */
  function NibbleAt(key: Key, depth: nat): (r: nat)
    requires depth < 2 * |key|
    ensures r < 16
  {
    var b := key[depth / 2];
    if depth % 2 == 0 then b / 16 else b % 16
  }

  function Nibbles(key: Key): (r: seq<nat>)
    ensures |r| == 2 * |key|
  {
    seq(2 * |key|, d requires 0 <= d < 2 * |key| => NibbleAt(key, d))
  }

  lemma {:induction false} NibblesInjective(a: Key, b: Key)
    requires Nibbles(a) == Nibbles(b)
    ensures a == b
  {
    forall i | 0 <= i < |a| ensures a[i] == b[i] {
      assert Nibbles(a)[2 * i] == Nibbles(b)[2 * i];
      assert Nibbles(a)[2 * i + 1] == Nibbles(b)[2 * i + 1];
    }
  }

  /** Rust's order on byte vectors of one length: the first difference decides. */
  ghost predicate KeyLess(a: Key, b: Key) {
    exists i: nat :: FirstDifference(a, b, i) && a[i] < b[i]
  }

  ghost predicate FirstDifference(a: Key, b: Key, i: nat) {
    i < |a| && i < |b| && a[..i] == b[..i] && a[i] != b[i]
  }

  /** Keys whose nibbles agree up to depth `d` and rise there are in byte order. */
  lemma {:induction false} NibbleOrderIsKeyOrder(a: Key, b: Key, d: nat)
    requires |a| == |b| && d < 2 * |a|
    requires Nibbles(a)[..d] == Nibbles(b)[..d]
    requires NibbleAt(a, d) < NibbleAt(b, d)
    ensures KeyLess(a, b)
  {
    var i := d / 2;
    forall j | 0 <= j < i ensures a[j] == b[j] {
      assert Nibbles(a)[..d][2 * j] == Nibbles(b)[..d][2 * j];
      assert Nibbles(a)[..d][2 * j + 1] == Nibbles(b)[..d][2 * j + 1];
    }
    if d % 2 == 1 {
      assert Nibbles(a)[..d][2 * i] == Nibbles(b)[..d][2 * i];
    }
    assert FirstDifference(a, b, i);
  }
}
