/** Single bits of a byte, and of a packed sequence of bytes. */
module Bits {
  import opened Arithmetic

  /** 1 << j */
  function Mask(j: nat): bv8
    requires j < 8
  {
    if j == 0 then 1 else if j == 1 then 2 else if j == 2 then 4 else if j == 3 then 8
    else if j == 4 then 16 else if j == 5 then 32 else if j == 6 then 64 else 128
  }

  predicate BitOf(x: bv8, j: nat)
    requires j < 8
  {
    x & Mask(j) != 0
  }

  function SetBit(x: bv8, j: nat): bv8
    requires j < 8
  {
    x | Mask(j)
  }

  function ClearBit(x: bv8, j: nat): bv8
    requires j < 8
  {
    x & !Mask(j)
  }

  function AndByte(x: bv8, y: bv8): bv8 { x & y }

  function XorByte(x: bv8, y: bv8): bv8 { x ^ y }

  lemma OrBit(x: bv8, j: nat, k: nat)
    requires j < 8 && k < 8
    ensures BitOf(SetBit(x, j), k) <==> k == j || BitOf(x, k)
  {
  }

  lemma AndNotBit(x: bv8, j: nat, k: nat)
    requires j < 8 && k < 8
    ensures BitOf(ClearBit(x, j), k) <==> k != j && BitOf(x, k)
  {
  }

  lemma AndBit(x: bv8, y: bv8, k: nat)
    requires k < 8
    ensures BitOf(AndByte(x, y), k) <==> BitOf(x, k) && BitOf(y, k)
  {
  }

  lemma XorBit(x: bv8, y: bv8, k: nat)
    requires k < 8
    ensures BitOf(XorByte(x, y), k) <==> BitOf(x, k) != BitOf(y, k)
  {
    OneBit(x, k);
    OneBit(y, k);
    var m := Mask(k);
    assert (x ^ y) & m == (x & m) ^ (y & m);
  }

  lemma OneBit(x: bv8, k: nat)
    requires k < 8
    ensures x & Mask(k) == 0 || x & Mask(k) == Mask(k)
  {
  }

  lemma NotBit(x: bv8, k: nat)
    requires k < 8
    ensures BitOf(!x, k) <==> !BitOf(x, k)
  {
  }

  // Bytes with the same bits are the same.
  lemma SameBits(x: bv8, y: bv8)
    requires forall k | 0 <= k < 8 :: BitOf(x, k) == BitOf(y, k)
    ensures x == y
  {
    assert BitOf(x, 0) == BitOf(y, 0) && BitOf(x, 1) == BitOf(y, 1) && BitOf(x, 2) == BitOf(y, 2);
    assert BitOf(x, 3) == BitOf(y, 3) && BitOf(x, 4) == BitOf(y, 4) && BitOf(x, 5) == BitOf(y, 5);
    assert BitOf(x, 6) == BitOf(y, 6) && BitOf(x, 7) == BitOf(y, 7);
  }

  /** Bit `i` of packed bytes: the high bit of a byte comes first (BEP 3, "peer messages"). */
  predicate BitAt(val: seq<bv8>, i: nat)
    requires i < 8 * |val|
  {
    BitOf(val[i / 8], 7 - i % 8)
  }

  function Half(x: bv8): bv8 { x >> 1 }

  lemma LowBit(x: bv8)
    ensures BitOf(x, 0) <==> x as int % 2 == 1
  {
  }

  lemma HalfIs(x: bv8)
    ensures Half(x) as int == x as int / 2
  {
  }

  lemma Whole(x: bv8)
    ensures x as int == 2 * (Half(x) as int) + if BitOf(x, 0) then 1 else 0
  {
    hide BitOf, Half;
    LowBit(x);
    HalfIs(x);
  }

  lemma HalfBit(x: bv8, j: nat)
    requires 0 < j < 8
    ensures BitOf(x, j) == BitOf(Half(x), j - 1)
  {
  }

  lemma HalfSet(x: bv8, j: nat)
    requires 0 < j < 8
    ensures Half(SetBit(x, j)) == SetBit(Half(x), j - 1) && BitOf(SetBit(x, j), 0) == BitOf(x, 0)
  {
  }

  lemma HalfCleared(x: bv8, j: nat)
    requires 0 < j < 8
    ensures Half(ClearBit(x, j)) == ClearBit(Half(x), j - 1) && BitOf(ClearBit(x, j), 0) == BitOf(x, 0)
  {
  }

  lemma LowBitWritten(x: bv8)
    ensures SetBit(x, 0) as int == x as int + if BitOf(x, 0) then 0 else 1
    ensures ClearBit(x, 0) as int == x as int - if BitOf(x, 0) then 1 else 0
  {
  }

  /** A bit by arithmetic: bit `j` of a byte is the binary digit of its value at 2^j. */
  lemma {:induction false} BitIs(x: bv8, j: nat)
    requires j < 8
    ensures BitOf(x, j) <==> x as int / Pow2(j) % 2 == 1
    decreases j
  {
    hide BitOf, Half, Pow2;
    LowBit(x);
    HalfIs(x);
    Pow2Step(j);
    if j > 0 {
      HalfBit(x, j);
      BitIs(Half(x), j - 1);
      NestedQuotient(x as int, 2, Pow2(j - 1));
    }
  }

  /** Setting a bit that is off adds 2^j to the byte. */
  lemma {:induction false} SetBitIs(x: bv8, j: nat)
    requires j < 8
    ensures SetBit(x, j) as int == x as int + if BitOf(x, j) then 0 else Pow2(j)
    decreases j
  {
    hide BitOf, Half, Pow2, SetBit;
    Pow2Step(j);
    if j == 0 {
      LowBitWritten(x);
    } else {
      HalfBit(x, j);
      HalfSet(x, j);
      SetBitIs(Half(x), j - 1);
      Whole(x);
      Whole(SetBit(x, j));
    }
  }

  /** Clearing a bit that is on takes 2^j from it. */
  lemma {:induction false} ClearBitIs(x: bv8, j: nat)
    requires j < 8
    ensures ClearBit(x, j) as int == x as int - if BitOf(x, j) then Pow2(j) else 0
    decreases j
  {
    hide BitOf, Half, Pow2, ClearBit;
    Pow2Step(j);
    if j == 0 {
      LowBitWritten(x);
    } else {
      HalfBit(x, j);
      HalfCleared(x, j);
      ClearBitIs(Half(x), j - 1);
      Whole(x);
      Whole(ClearBit(x, j));
    }
  }

  /** Packed bits by arithmetic, the high bit of each byte first. */
  lemma BitAtIs(val: seq<bv8>, i: nat)
    requires i < 8 * |val|
    ensures BitAt(val, i) <==> val[i / 8] as int / Pow2(7 - i % 8) % 2 == 1
  {
    BitIs(val[i / 8], 7 - i % 8);
    hide BitOf, Pow2;
  }
}
