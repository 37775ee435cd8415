/** Masks and shifts of one byte, related to integer halving. */
module ByteBits {
  import opened Base

  /** The bit pattern of a byte, counted up from zero. */
  function Bits(x: byte): (u: bv8)
    ensures u as int == x
  {
    if x == 0 then 0 else
    var below := Bits(x - 1);
    BvSuccessor(below);
    below + 1
  }

  lemma BvSuccessor(y: bv8)
    requires y as int < 0xff
    ensures (y + 1) as int == y as int + 1
  {
  }

  /** The mask for the last, partial byte: the top `remaining` bits. */
  function Mask(remaining: nat): bv8
    requires 0 < remaining < 8
  {
    0xff << (8 - remaining)
  }

  predicate SameUnderMask(u: bv8, v: bv8, remaining: nat)
    requires 0 < remaining < 8
  {
    (u & Mask(remaining)) == (v & Mask(remaining))
  }

  predicate MaskedEqual(x: byte, y: byte, remaining: nat)
    requires 0 < remaining < 8
  {
    SameUnderMask(Bits(x), Bits(y), remaining)
  }

  /** `x >> k`, as repeated halving. */
  function Shr(x: nat, k: nat): nat {
    if k == 0 then x else Shr(x, k - 1) / 2
  }

  lemma {:induction false} BvShiftIsShr(x: bv8, k: nat)
    requires k <= 7
    ensures (x >> k) as int == Shr(x as int, k)
  {
    if k > 0 {
      var shifted := x >> (k - 1);
      BvShiftIsShr(x, k - 1);
      BvHalve(shifted);
      BvShiftStep(x, k - 1);
    }
  }

  lemma BvShiftStep(x: bv8, k: nat)
    requires k < 7
    ensures x >> (k + 1) == (x >> k) >> 1
  {
  }

  lemma BvHalve(x: bv8)
    ensures (x >> 1) as int == x as int / 2
  {
  }

  lemma BvEqual(x: bv8, y: bv8)
    ensures x == y <==> x as int == y as int
  {
  }

  lemma MaskIsShift(x: bv8, y: bv8, remaining: nat)
    requires 0 < remaining < 8
    ensures (x & Mask(remaining)) == (y & Mask(remaining)) <==> x >> (8 - remaining) == y >> (8 - remaining)
  {
  }

  lemma ShiftedEqual(x: bv8, y: bv8, k: nat)
    requires k <= 7
    ensures x >> k == y >> k <==> Shr(x as int, k) == Shr(y as int, k)
  {
    BvShiftIsShr(x, k);
    BvShiftIsShr(y, k);
    var s, t := x >> k, y >> k;
    BvEqual(s, t);
  }

  lemma MaskedBv(x: bv8, y: bv8, remaining: nat)
    requires 0 < remaining < 8
    ensures (x & Mask(remaining)) == (y & Mask(remaining)) <==>
            Shr(x as int, 8 - remaining) == Shr(y as int, 8 - remaining)
  {
    MaskIsShift(x, y, remaining);
    ShiftedEqual(x, y, 8 - remaining);
  }

  lemma MaskedVia(u: bv8, v: bv8, x: byte, y: byte, remaining: nat)
    requires 0 < remaining < 8 && u as int == x && v as int == y
    ensures SameUnderMask(u, v, remaining) <==> Shr(x, 8 - remaining) == Shr(y, 8 - remaining)
  {
    MaskedBv(u, v, remaining);
  }

  /** Masking a byte compares its top bits. */
  lemma MaskedByte(x: byte, y: byte, remaining: nat)
    requires 0 < remaining < 8
    ensures MaskedEqual(x, y, remaining) <==> Shr(x, 8 - remaining) == Shr(y, 8 - remaining)
  {
    MaskedVia(Bits(x), Bits(y), x, y, remaining);
  }
}
