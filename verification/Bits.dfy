/**
 Bitwise operations on unsigned integers, defined on the binary digits; every fact is an induction over the digits.
 */
module Bits {

  function Pow2(n: nat): (p: nat)
    ensures p > 0
  {
    if n == 0 then 1 else 2 * Pow2(n - 1)
  }

  function BitAnd(x: nat, m: nat): nat {
    if x == 0 || m == 0 then 0 else 2 * BitAnd(x / 2, m / 2) + if x % 2 == 1 && m % 2 == 1 then 1 else 0
  }

  function BitOr(x: nat, y: nat): nat {
    if x == 0 && y == 0 then 0 else 2 * BitOr(x / 2, y / 2) + if x % 2 == 1 || y % 2 == 1 then 1 else 0
  }

  /** `~` on `n`-bit integers. */
  function BitNot(x: nat, n: nat): nat
    requires x < Pow2(n)
  {
    Pow2(n) - 1 - x
  }

  function ShiftRight(x: nat, n: nat): nat {
    if n == 0 then x else ShiftRight(x / 2, n - 1)
  }

  function ShiftLeft(x: nat, n: nat): nat {
    if n == 0 then x else 2 * ShiftLeft(x, n - 1)
  }

  /** Ones at [lo, hi). */
  function Mask(lo: nat, hi: nat): nat
    requires lo <= hi
  {
    Pow2Monotone(lo, hi);
    Pow2(hi) - Pow2(lo)
  }

  predicate IsSet(x: nat, k: nat) {
    ShiftRight(x, k) % 2 == 1
  }

  /** The number made of the lowest `n` bits. */
  function Low(x: nat, n: nat): (r: nat)
    ensures r < Pow2(n)
  {
    if n == 0 then 0 else 2 * Low(x / 2, n - 1) + x % 2
  }

  /** The number whose lowest `n` bits are those of `low` and whose other bits are `high`. */
  function Glue(low: nat, n: nat, high: nat): (r: nat)
    ensures low < Pow2(n) ==> Low(r, n) == low
    ensures ShiftRight(r, n) == high
  {
    if n == 0 then high else 2 * Glue(low / 2, n - 1, high) + low % 2
  }

  lemma {:induction false} Pow2Monotone(m: nat, n: nat)
    requires m <= n
    ensures Pow2(m) <= Pow2(n)
    decreases n
  {
    if m < n { Pow2Monotone(m, n - 1); }
  }

  lemma Pow2Rises(m: nat, n: nat)
    requires m < n
    ensures Pow2(m) < Pow2(n)
  {
    Pow2Monotone(m, n - 1);
  }

  lemma {:induction false} LowMask(x: nat, n: nat)
    ensures BitAnd(x, Pow2(n) - 1) == Low(x, n)
    decreases n
  {
    if n > 0 {
      LowMask(x / 2, n - 1);
      assert (Pow2(n) - 1) / 2 == Pow2(n - 1) - 1;
    }
  }

  lemma {:induction false} MiddleMask(x: nat, n: nat, z: nat)
    requires z <= n
    ensures Pow2(z) <= Pow2(n)
    ensures ShiftRight(BitAnd(x, Pow2(n) - Pow2(z)), z) == Low(ShiftRight(x, z), n - z)
    decreases z
  {
    Pow2Monotone(z, n);
    if z == 0 {
      LowMask(x, n);
    } else {
      hide BitAnd, Low;
      MiddleMask(x / 2, n - 1, z - 1);
      AndHalf(x, Pow2(n) - Pow2(z));
      assert (Pow2(n) - Pow2(z)) / 2 == Pow2(n - 1) - Pow2(z - 1);
    }
  }

  lemma {:induction false} ShiftOfLow(x: nat, n: nat, m: nat)
    requires m <= n
    ensures ShiftRight(Low(x, n), m) == Low(ShiftRight(x, m), n - m)
    decreases m
  {
    if m > 0 { ShiftOfLow(x / 2, n - 1, m - 1); }
  }

  lemma {:induction false} LowOfSmall(x: nat, n: nat)
    requires x < Pow2(n)
    ensures Low(x, n) == x
    decreases n
  {
    if n > 0 { LowOfSmall(x / 2, n - 1); }
  }

  lemma {:induction false} ShiftBound(x: nat, m: nat, n: nat)
    requires x < Pow2(m + n)
    ensures ShiftRight(x, m) < Pow2(n)
    decreases m
  {
    if m > 0 { ShiftBound(x / 2, m - 1, n); }
  }

  lemma {:induction false} ShiftOfPower(m: nat, n: nat)
    ensures ShiftRight(Pow2(m + n), m) == Pow2(n)
    decreases m
  {
    if m > 0 {
      assert Pow2(m + n) == 2 * Pow2(m - 1 + n);
      hide Pow2;
      ShiftOfPower(m - 1, n);
    }
  }

  lemma {:induction false} ShiftTwice(x: nat, m: nat, n: nat)
    ensures ShiftRight(ShiftRight(x, m), n) == ShiftRight(x, m + n)
    decreases m
  {
    if m > 0 { ShiftTwice(x / 2, m - 1, n); }
  }

  /** The bits [lo, lo + n) as a number. */
  function Field(x: nat, lo: nat, n: nat): (r: nat)
    ensures r < Pow2(n)
  {
    Low(ShiftRight(x, lo), n)
  }

  ghost predicate AgreeOn(a: nat, b: nat, lo: nat, hi: nat) {
    forall k :: lo <= k < hi ==> IsSet(a, k) == IsSet(b, k)
  }

  lemma {:induction false} FieldIsBits(a: nat, b: nat, lo: nat, n: nat, hi: nat)
    requires hi == lo + n
    ensures Field(a, lo, n) == Field(b, lo, n) <==> AgreeOn(a, b, lo, hi)
    decreases n
  {
    if n > 0 {
      FieldIsBits(a, b, lo + 1, n - 1, hi);
      ShiftTwice(a, lo, 1);
      ShiftTwice(b, lo, 1);
      assert Field(a, lo, n) == 2 * Field(a, lo + 1, n - 1) + if IsSet(a, lo) then 1 else 0;
      assert Field(b, lo, n) == 2 * Field(b, lo + 1, n - 1) + if IsSet(b, lo) then 1 else 0;
    }
  }

  // ---- the operations, digit by digit ----

  lemma {:induction false} AndBit(x: nat, m: nat, k: nat)
    ensures IsSet(BitAnd(x, m), k) <==> IsSet(x, k) && IsSet(m, k)
    decreases k
  {
    if k > 0 {
      AndHalf(x, m);
      AndBit(x / 2, m / 2, k - 1);
    }
  }

  lemma AndHalf(x: nat, m: nat)
    ensures BitAnd(x, m) / 2 == BitAnd(x / 2, m / 2)
    ensures BitAnd(x, m) % 2 == 1 <==> x % 2 == 1 && m % 2 == 1
  {
  }

  lemma {:induction false} OrBit(x: nat, y: nat, k: nat)
    ensures IsSet(BitOr(x, y), k) <==> IsSet(x, k) || IsSet(y, k)
    decreases k
  {
    if k > 0 {
      OrHalf(x, y);
      OrBit(x / 2, y / 2, k - 1);
    }
  }

  lemma OrHalf(x: nat, y: nat)
    ensures BitOr(x, y) / 2 == BitOr(x / 2, y / 2)
    ensures BitOr(x, y) % 2 == 1 <==> x % 2 == 1 || y % 2 == 1
  {
  }

  lemma {:induction false} LowOfOr(x: nat, y: nat, n: nat)
    ensures Low(BitOr(x, y), n) == BitOr(Low(x, n), Low(y, n))
    decreases n
  {
    if n > 0 {
      OrHalf(x, y);
      LowOfOr(x / 2, y / 2, n - 1);
    }
  }

  lemma {:induction false} NotBit(x: nat, n: nat, k: nat)
    requires x < Pow2(n) && k < n
    ensures IsSet(BitNot(x, n), k) <==> !IsSet(x, k)
    decreases k
  {
    NotHalf(x, n);
    if k > 0 { NotBit(x / 2, n - 1, k - 1); }
  }

  lemma NotHalf(x: nat, n: nat)
    requires x < Pow2(n) && n > 0
    ensures x / 2 < Pow2(n - 1)
    ensures BitNot(x, n) / 2 == BitNot(x / 2, n - 1)
    ensures BitNot(x, n) % 2 == 1 <==> x % 2 != 1
  {
  }

  lemma {:induction false} ShiftLeftBit(x: nat, n: nat, k: nat)
    ensures IsSet(ShiftLeft(x, n), k) <==> k >= n && IsSet(x, k - n)
    decreases n
  {
    if n > 0 && k > 0 {
      ShiftLeftBit(x, n - 1, k - 1);
      assert ShiftLeft(x, n) / 2 == ShiftLeft(x, n - 1);
    }
  }

  lemma {:induction false} MaskBit(lo: nat, hi: nat, k: nat)
    requires lo <= hi
    ensures IsSet(Mask(lo, hi), k) <==> lo <= k < hi
    decreases hi
  {
    Pow2Monotone(lo, hi);
    if lo > 0 {
      if k > 0 { MaskBit(lo - 1, hi - 1, k - 1); }
      assert Mask(lo, hi) / 2 == Mask(lo - 1, hi - 1);
    } else if hi > 0 {
      if k > 0 { MaskBit(0, hi - 1, k - 1); }
      assert Mask(0, hi) / 2 == Mask(0, hi - 1);
    } else {
      ZeroBit(k);
    }
  }

  lemma {:induction false} ZeroBit(k: nat)
    ensures !IsSet(0, k)
    decreases k
  {
    if k > 0 { ZeroBit(k - 1); }
  }

  // ---- a field inside a word ----

  /** `(v & mask) >> lo` reads the bits under the mask. */
  lemma ReadField(v: nat, lo: nat, hi: nat)
    requires lo <= hi
    ensures ShiftRight(BitAnd(v, Mask(lo, hi)), lo) == Field(v, lo, hi - lo)
  {
    MiddleMask(v, hi, lo);
  }

  lemma {:induction false} OneBit(v: nat, k: nat, m: nat)
    requires m == k + 1
    ensures BitAnd(v, Mask(k, m)) == if IsSet(v, k) then Pow2(k) else 0
    decreases k
  {
    Pow2Monotone(k, m);
    if k > 0 {
      OneBit(v / 2, k - 1, k);
      assert Mask(k, m) / 2 == Mask(k - 1, k);
    }
  }

  /** `(v & ~mask) | ((x << lo) & mask)`, on `n`-bit words. */
  function WriteField(v: nat, lo: nat, hi: nat, n: nat, x: nat): nat
    requires lo <= hi <= n
  {
    MaskBound(lo, hi, n);
    BitOr(BitAnd(v, BitNot(Mask(lo, hi), n)), BitAnd(ShiftLeft(x, lo), Mask(lo, hi)))
  }

  lemma MaskBound(lo: nat, hi: nat, n: nat)
    requires lo <= hi <= n
    ensures Mask(lo, hi) < Pow2(n)
  {
    Pow2Monotone(hi, n);
  }

  lemma WriteFieldBit(v: nat, lo: nat, hi: nat, n: nat, x: nat, k: nat)
    requires lo <= hi <= n && k < n
    ensures IsSet(WriteField(v, lo, hi, n, x), k) <==> if lo <= k < hi then IsSet(x, k - lo) else IsSet(v, k)
  {
    MaskBound(lo, hi, n);
    var m := Mask(lo, hi);
    OrBit(BitAnd(v, BitNot(m, n)), BitAnd(ShiftLeft(x, lo), m), k);
    AndBit(v, BitNot(m, n), k);
    AndBit(ShiftLeft(x, lo), m, k);
    NotBit(m, n, k);
    MaskBit(lo, hi, k);
    ShiftLeftBit(x, lo, k);
  }

  /** Writing stores the value, cut to the width of the field. */
  lemma WrittenField(v: nat, lo: nat, hi: nat, n: nat, x: nat)
    requires lo <= hi <= n
    ensures Field(WriteField(v, lo, hi, n, x), lo, hi - lo) == Low(x, hi - lo)
  {
    var w := WriteField(v, lo, hi, n, x);
    var y := ShiftRight(w, lo);
    forall k | 0 <= k < hi - lo
      ensures IsSet(y, k) == IsSet(x, k)
    {
      ShiftTwice(w, lo, k);
      WriteFieldBit(v, lo, hi, n, x, lo + k);
    }
    FieldIsBits(y, x, 0, hi - lo, hi - lo);
  }

  /** Writing leaves every field alone that does not overlap. */
  lemma OtherField(v: nat, lo: nat, hi: nat, n: nat, x: nat, lo': nat, hi': nat)
    requires lo <= hi <= n && lo' <= hi' <= n && (hi' <= lo || hi <= lo')
    ensures Field(WriteField(v, lo, hi, n, x), lo', hi' - lo') == Field(v, lo', hi' - lo')
  {
    var w := WriteField(v, lo, hi, n, x);
    forall k | lo' <= k < hi'
      ensures IsSet(w, k) == IsSet(v, k)
    {
      WriteFieldBit(v, lo, hi, n, x, k);
    }
    FieldIsBits(w, v, lo', hi' - lo', hi');
  }

  /** Words whose bits agree are equal. */
  lemma SameBitsSameWord(v: nat, w: nat, n: nat)
    requires v < Pow2(n) && w < Pow2(n)
    ensures v == w <==> AgreeOn(v, w, 0, n)
  {
    FieldIsBits(v, w, 0, n, n);
    LowOfSmall(v, n);
    LowOfSmall(w, n);
  }

  lemma {:induction false} AndBound(x: nat, m: nat)
    ensures BitAnd(x, m) <= x && BitAnd(x, m) <= m
    decreases x
  {
    if x > 0 && m > 0 { AndBound(x / 2, m / 2); }
  }

  lemma {:induction false} OrBound(x: nat, y: nat, n: nat)
    requires x < Pow2(n) && y < Pow2(n)
    ensures BitOr(x, y) < Pow2(n)
    decreases n
  {
    if n > 0 { OrBound(x / 2, y / 2, n - 1); }
  }

  lemma WrittenBound(v: nat, lo: nat, hi: nat, n: nat, x: nat)
    requires lo <= hi <= n
    ensures WriteField(v, lo, hi, n, x) < Pow2(n)
  {
    MaskBound(lo, hi, n);
    AndBound(v, BitNot(Mask(lo, hi), n));
    AndBound(ShiftLeft(x, lo), Mask(lo, hi));
    OrBound(BitAnd(v, BitNot(Mask(lo, hi), n)), BitAnd(ShiftLeft(x, lo), Mask(lo, hi)), n);
  }
}
