/** Trie nodes as stored: a bitmap of present nibbles and only the slots that are present. */
module TrieNodes {
  import opened Options
  import opened Ids
  import opened Keys
  import opened Values
  import opened Bitmaps

  datatype Slot = LeafSlot(key: Key, value: TrieValue) | NodeSlot(id: Oid)

  datatype Packed = Packed(bitmap: Bits, slots: seq<Slot>)

  ghost predicate Sound(p: Packed) {
    Narrow(p.bitmap) && |p.slots| == Rank(p.bitmap, 16)
  }

  /** What nibble `n` holds. */
  ghost function SlotAt(p: Packed, n: nat): Option<Slot>
    requires Sound(p) && n < 16
  {
    RankMonotone(p.bitmap, n, 16);
    if Bit(p.bitmap, n) then Some(p.slots[Rank(p.bitmap, n)]) else None
  }

  ghost function Unpack(p: Packed): (r: seq<Option<Slot>>)
    requires Sound(p)
    ensures |r| == 16 && forall n | 0 <= n < 16 :: r[n] == SlotAt(p, n)
  {
    seq(16, n requires 0 <= n < 16 => SlotAt(p, n))
  }

  /** Packing loses nothing: the sixteen slots decide the stored node. */
  lemma {:induction false} UnpackInjective(p: Packed, q: Packed)
    requires Sound(p) && Sound(q) && Unpack(p) == Unpack(q)
    ensures p == q
  {
    forall n: nat ensures Bit(p.bitmap, n) == Bit(q.bitmap, n) {
      if n < 16 {
        assert Unpack(p)[n] == Unpack(q)[n];
      }
    }
    SameBits(p.bitmap, q.bitmap);
    forall i | 0 <= i < |p.slots| ensures p.slots[i] == q.slots[i] {
      var n := RankOnto(p.bitmap, i, 16);
      assert Unpack(p)[n] == Unpack(q)[n];
    }
  }

  lemma {:induction false} MaskTest(b: Bits, n: nat)
    ensures And(b, Mask(n)) == 0 <==> !Bit(b, n)
  {
    AndBits(b, Mask(n), n);
    MaskBits(n, n);
    if And(b, Mask(n)) == 0 {
      ZeroBits(n);
    }
    if !Bit(b, n) {
      forall m: nat ensures Bit(And(b, Mask(n)), m) == Bit(0, m) {
        AndBits(b, Mask(n), m);
        MaskBits(n, m);
        ZeroBits(m);
      }
      SameBits(And(b, Mask(n)), 0);
    }
  }

  class TrieNode {
    var bitmap: Bits
    var slots: seq<Slot>

    ghost predicate Valid()
      reads this
    {
      Sound(Packed(bitmap, slots))
    }

    ghost function Slots(): (r: seq<Option<Slot>>)
      requires Valid()
      reads this
      ensures |r| == 16
    {
      Unpack(Packed(bitmap, slots))
    }

    constructor Empty()
      ensures Valid() && Slots() == seq(16, _ => None)
    {
      bitmap, slots := 0, [];
      new;
      NoBits();
    }

    constructor Load(p: Packed)
      requires Sound(p)
      ensures Valid() && Slots() == Unpack(p)
    {
      bitmap, slots := p.bitmap, p.slots;
    }

    lemma NoBits()
      requires bitmap == 0 && slots == []
      ensures Valid() && Slots() == seq(16, _ => None)
    {
      forall n: nat ensures !Bit(0, n) {
        ZeroBits(n);
      }
      NoRank(16);
    }

    /** The index a nibble's slot has in `slots`, if the nibble is present. */
    method SlotIndex(nibble: nat) returns (r: Option<nat>)
      requires Valid() && nibble < 16
      ensures r.Some? <==> Slots()[nibble].Some?
      ensures r.Some? ==> r.value == Rank(bitmap, nibble) < |slots| && Slots()[nibble] == Some(slots[r.value])
    {
      MaskTest(bitmap, nibble);
      if And(bitmap, Mask(nibble)) == 0 {
        return None;
      }
      MaskedCountIsRank(bitmap, nibble);
      RankMonotone(bitmap, nibble, 16);
      return Some(CountOnes(And(bitmap, Mask(nibble) - 1)));
    }

    method GetSlot(nibble: nat) returns (r: Option<Slot>)
      requires Valid() && nibble < 16
      ensures r == Slots()[nibble]
    {
      var i := SlotIndex(nibble);
      match i
      case None => r := None;
      case Some(j) => r := Some(slots[j]);
    }

    /** Sets or clears one nibble and leaves the other fifteen alone. */
    method SetSlot(nibble: nat, slot: Option<Slot>)
      requires Valid() && nibble < 16
      modifies this
      ensures Valid() && Slots() == old(Slots())[nibble := slot]
    {
      ghost var was := Packed(bitmap, slots);
      var index := SlotIndex(nibble);
      match (index, slot)
      case (Some(i), Some(s)) =>
        slots := slots[i := s];
        Replaced(was, nibble, s);
      case (Some(i), None) =>
        slots := slots[..i] + slots[i + 1..];
        bitmap := AndNot(bitmap, Mask(nibble));
        Removed(was, nibble);
      case (None, Some(s)) =>
        bitmap := Or(bitmap, Mask(nibble));
        MaskedCountIsRank(bitmap, nibble);
        Added(was, nibble, s);
        var i := CountOnes(And(bitmap, Mask(nibble) - 1));
        slots := slots[..i] + [s] + slots[i..];
      case (None, None) =>
    }
  }

  lemma {:induction false} NoRank(n: nat)
    ensures Rank(0, n) == 0
  {
    if n > 0 {
      NoRank(n - 1);
      ZeroBits(n - 1);
    }
  }

  lemma {:induction false} RankInjective(b: Bits, m: nat, n: nat)
    requires Bit(b, m) && Bit(b, n) && Rank(b, m) == Rank(b, n)
    ensures m == n
  {
    if m < n {
      RankMonotone(b, m, n);
    } else if n < m {
      RankMonotone(b, n, m);
    }
  }

  lemma {:induction false} Replaced(p: Packed, nibble: nat, s: Slot)
    requires Sound(p) && nibble < 16 && Bit(p.bitmap, nibble)
    ensures Rank(p.bitmap, nibble) < |p.slots|
    ensures var q := p.(slots := p.slots[Rank(p.bitmap, nibble) := s]);
            Sound(q) && Unpack(q) == Unpack(p)[nibble := Some(s)]
  {
    RankMonotone(p.bitmap, nibble, 16);
    var q := p.(slots := p.slots[Rank(p.bitmap, nibble) := s]);
    forall m | 0 <= m < 16 ensures Unpack(q)[m] == Unpack(p)[nibble := Some(s)][m] {
      RankMonotone(p.bitmap, m, 16);
      if Bit(p.bitmap, m) && m != nibble && Rank(p.bitmap, m) == Rank(p.bitmap, nibble) {
        RankInjective(p.bitmap, m, nibble);
      }
    }
  }

  lemma {:induction false} Removed(p: Packed, nibble: nat)
    requires Sound(p) && nibble < 16 && Bit(p.bitmap, nibble)
    ensures Rank(p.bitmap, nibble) < |p.slots|
    ensures var i := Rank(p.bitmap, nibble);
            var q := Packed(AndNot(p.bitmap, Mask(nibble)), p.slots[..i] + p.slots[i + 1..]);
            Sound(q) && Unpack(q) == Unpack(p)[nibble := None]
  {
    var i, c := Rank(p.bitmap, nibble), AndNot(p.bitmap, Mask(nibble));
    RankMonotone(p.bitmap, nibble, 16);
    forall m: nat ensures Bit(c, m) == (Bit(p.bitmap, m) && m != nibble) {
      AndNotBits(p.bitmap, Mask(nibble), m);
      MaskBits(nibble, m);
    }
    RankAfterFlip(c, p.bitmap, nibble, 16);
    var q := Packed(c, p.slots[..i] + p.slots[i + 1..]);
    forall m | 0 <= m < 16 ensures Unpack(q)[m] == Unpack(p)[nibble := None][m] {
      RankAfterFlip(c, p.bitmap, nibble, m);
      RankMonotone(p.bitmap, m, 16);
      if m < nibble {
        RankMonotone(p.bitmap, m, nibble);
      } else {
        RankMonotone(p.bitmap, nibble, m);
      }
    }
  }

  lemma {:induction false} Added(p: Packed, nibble: nat, s: Slot)
    requires Sound(p) && nibble < 16 && !Bit(p.bitmap, nibble)
    ensures Rank(Or(p.bitmap, Mask(nibble)), nibble) <= |p.slots|
    ensures var i := Rank(Or(p.bitmap, Mask(nibble)), nibble);
            var q := Packed(Or(p.bitmap, Mask(nibble)), p.slots[..i] + [s] + p.slots[i..]);
            Sound(q) && Unpack(q) == Unpack(p)[nibble := Some(s)]
  {
    var c := Or(p.bitmap, Mask(nibble));
    forall m: nat ensures Bit(c, m) == (Bit(p.bitmap, m) || m == nibble) {
      OrBits(p.bitmap, Mask(nibble), m);
      MaskBits(nibble, m);
    }
    RankAfterFlip(p.bitmap, c, nibble, 16);
    RankAfterFlip(p.bitmap, c, nibble, nibble);
    RankMonotone(p.bitmap, nibble, 16);
    var i := Rank(c, nibble);
    var q := Packed(c, p.slots[..i] + [s] + p.slots[i..]);
    forall m | 0 <= m < 16 ensures Unpack(q)[m] == Unpack(p)[nibble := Some(s)][m] {
      RankAfterFlip(p.bitmap, c, nibble, m);
      RankMonotone(p.bitmap, m, 16);
      if m < nibble {
        RankMonotone(p.bitmap, m, nibble);
      } else {
        RankMonotone(p.bitmap, nibble, m);
      }
    }
  }
}
