/**
 The address arithmetic of the two-level shadow memory: the masks and shifts of the constructor, and the three indices
 cut out of an address with them.
 */
module ShadowAddress {
  import opened Bits

  datatype Granularity = ByteLevel | WordLevel | LongWordLevel

  /** The arguments of the constructor. */
  datatype Geometry = Geometry(l1Bits: nat, l2Bits: nat, addressBits: nat, granularity: Granularity) {
    function OffsetShift(): nat {
      match granularity case ByteLevel => 0 case WordLevel => 2 case LongWordLevel => 3
    }

    /** No shift count is negative, and `1 << n` stays within a 32-bit signed int. */
    predicate Representable() {
      && l1Bits + l2Bits + OffsetShift() <= addressBits <= 64
      && l1Bits <= 30 && l2Bits <= 30 && addressBits - l1Bits - l2Bits <= 30
    }

    predicate Valid() {
      Representable() && addressBits == 48
    }

    function L1Shift(): nat
      requires Representable()
    {
      addressBits - l1Bits
    }

    function L2Shift(): nat
      requires Representable()
    {
      L1Shift() - l2Bits
    }

    function NumL1(): nat { Pow2(l1Bits) }

    function NumL2(): nat { Pow2(l2Bits) }

    function NumEntries(): nat
      requires Representable()
    {
      Pow2(L2Shift() - OffsetShift())
    }

    function PageMask(): nat
      requires Representable()
    {
      Mask(OffsetShift(), L2Shift())
    }

    function L1Index(a: nat): nat
      requires Representable()
    {
      ShiftRight(BitAnd(a, CANONICAL_FORM_MASK), L1Shift())
    }

    function L2Index(a: nat): nat
      requires Representable()
    {
      BitAnd(ShiftRight(a, L2Shift()), NumL2() - 1)
    }

    function PageIndex(a: nat): nat
      requires Representable()
    {
      ShiftRight(BitAnd(a, PageMask()), OffsetShift())
    }
  }

  const CANONICAL_FORM_MASK: nat := 0x0000_ffff_ffff_ffff

  // ---- the three indices ----

  lemma CanonicalMask()
    ensures CANONICAL_FORM_MASK == Pow2(48) - 1
  {
    assert Pow2(12) == 0x1000;
    assert Pow2(24) == 0x100_0000;
    assert Pow2(36) == 0x10_0000_0000;
  }

  /** The masks and shifts cut out three adjacent fields, and each index is in the bounds of its table. */
  lemma IndicesAreFields(g: Geometry, a: nat)
    requires g.Valid()
    ensures g.L1Index(a) == Field(a, g.L1Shift(), g.l1Bits) < g.NumL1()
    ensures g.L2Index(a) == Field(a, g.L2Shift(), g.l2Bits) < g.NumL2()
    ensures g.PageIndex(a) == Field(a, g.OffsetShift(), g.L2Shift() - g.OffsetShift()) < g.NumEntries()
  {
    hide Pow2, BitAnd, Low, ShiftRight;
    CanonicalMask();
    LowMask(a, 48);
    ShiftOfLow(a, 48, g.L1Shift());
    LowMask(ShiftRight(a, g.L2Shift()), g.l2Bits);
    MiddleMask(a, g.L2Shift(), g.OffsetShift());
  }

  predicate SameSlot(g: Geometry, a: nat, b: nat)
    requires g.Representable()
  {
    g.L1Index(a) == g.L1Index(b) && g.L2Index(a) == g.L2Index(b) && g.PageIndex(a) == g.PageIndex(b)
  }

  /** Two addresses fall into the same slot exactly if they agree on the bits [granularity shift, 48). */
  lemma SameSlotExactly(g: Geometry, a: nat, b: nat)
    requires g.Valid()
    ensures SameSlot(g, a, b) <==> AgreeOn(a, b, g.OffsetShift(), 48)
  {
    IndicesAreFields(g, a);
    IndicesAreFields(g, b);
    FieldIsBits(a, b, g.L1Shift(), g.l1Bits, 48);
    FieldIsBits(a, b, g.L2Shift(), g.l2Bits, g.L1Shift());
    FieldIsBits(a, b, g.OffsetShift(), g.L2Shift() - g.OffsetShift(), g.L2Shift());
  }

  /** Every slot is the slot of some canonical address: with the lemma above, a bijection. */
  lemma EverySlotIsUsed(g: Geometry, i: nat, j: nat, k: nat) returns (a: nat)
    requires g.Valid() && i < g.NumL1() && j < g.NumL2() && k < g.NumEntries()
    ensures a < Pow2(48) && g.L1Index(a) == i && g.L2Index(a) == j && g.PageIndex(a) == k
  {
    a := GlueThree(g.OffsetShift(), g.L2Shift() - g.OffsetShift(), g.l2Bits, g.l1Bits, i, j, k);
    hide Pow2, BitAnd, Low, ShiftRight, Glue;
    IndicesAreFields(g, a);
  }

  lemma GlueThree(z: nat, p: nat, q: nat, r: nat, i: nat, j: nat, k: nat) returns (a: nat)
    requires i < Pow2(r) && j < Pow2(q) && k < Pow2(p)
    ensures a < Pow2(z + p + q + r)
    ensures Field(a, z + p + q, r) == i && Field(a, z + p, q) == j && Field(a, z, p) == k
  {
    hide Glue, ShiftRight, Low;
    var upper := Glue(j, q, i);
    var page := Glue(k, p, upper);
    a := Glue(0, z, page);
    GlueBound(j, q, i, r);
    GlueBound(k, p, upper, q + r);
    GlueBound(0, z, page, p + (q + r));
    LowOfSmall(i, r);
    assert ShiftRight(a, z) == page && ShiftRight(page, p) == upper && ShiftRight(upper, q) == i;
    ShiftTwice(a, z, p);
    ShiftTwice(a, z + p, q);
  }

  lemma {:induction false} GlueBound(low: nat, n: nat, high: nat, m: nat)
    requires high < Pow2(m)
    ensures Glue(low, n, high) < Pow2(n + m)
    decreases n
  {
    if n > 0 { GlueBound(low / 2, n - 1, high, m); }
  }

  /** The canonical mask is fixed at 48 bits: with fewer address bits the first index runs past its table. */
  lemma FirstIndexInBoundsExactly(g: Geometry)
    requires g.Representable()
    ensures (forall a: nat :: a < Pow2(64) ==> g.L1Index(a) < g.NumL1()) <==> 48 <= g.addressBits
  {
    hide Pow2, BitAnd, Low, ShiftRight;
    CanonicalMask();
    if 48 <= g.addressBits {
      Pow2Monotone(48, g.addressBits);
      forall a: nat | a < Pow2(64)
        ensures g.L1Index(a) < g.NumL1()
      {
        LowMask(a, 48);
        ShiftBound(Low(a, 48), g.L1Shift(), g.l1Bits);
      }
    } else {
      var a := Pow2(g.addressBits);
      Pow2Rises(g.addressBits, 48);
      Pow2Monotone(48, 64);
      LowMask(a, 48);
      LowOfSmall(a, 48);
      ShiftOfPower(g.L1Shift(), g.l1Bits);
      assert g.L1Index(a) == g.NumL1();
    }
  }

  /** The bytes that share a slot. */
  function Bytes(g: Granularity): nat {
    match g case ByteLevel => 1 case WordLevel => 4 case LongWordLevel => 8
  }

  lemma Halves(a: nat, n: nat)
    ensures ShiftRight(a, n) == if n == 0 then a else ShiftRight(a / 2, n - 1)
  {
  }

  lemma ShiftIsQuotient(g: Geometry, a: nat)
    ensures ShiftRight(a, g.OffsetShift()) == a / Bytes(g.granularity)
  {
    Halves(a, g.OffsetShift());
    Halves(a / 2, 2);
    Halves(a / 2, 1);
    Halves(a / 2 / 2, 1);
  }

  /** Two canonical addresses share a slot exactly if they lie in the same aligned byte, word or long word. */
  lemma SameSlotIsSameUnit(g: Geometry, a: nat, b: nat)
    requires g.Valid() && a < Pow2(48) && b < Pow2(48)
    ensures SameSlot(g, a, b) <==> a / Bytes(g.granularity) == b / Bytes(g.granularity)
  {
    hide ShiftRight, Low, Pow2, AgreeOn, SameSlot;
    var s := g.OffsetShift();
    SameSlotExactly(g, a, b);
    FieldIsBits(a, b, s, 48 - s, 48);
    ShiftBound(a, s, 48 - s);
    ShiftBound(b, s, 48 - s);
    LowOfSmall(ShiftRight(a, s), 48 - s);
    LowOfSmall(ShiftRight(b, s), 48 - s);
    ShiftIsQuotient(g, a);
    ShiftIsQuotient(g, b);
  }
}
