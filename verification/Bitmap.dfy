/** The packed bitmap of common/bitmap/bitmap.go as a set of indices. */
module Bitmap {
  import opened Arithmetic
  import opened Bits

  function Ceil(n: nat): nat {
    (n + 7) / 8
  }

  /** The indices below `n` whose bit is on. */
  function Indices(val: seq<bv8>, n: nat): set<nat>
    requires n <= 8 * |val|
  {
    set i: nat | i < n && BitAt(val, i)
  }

  /** How many indices of begin..end are on. */
  function Count(val: seq<bv8>, begin: nat, end: nat): nat
    requires end <= 8 * |val|
    decreases end
  {
    if begin >= end then 0 else Count(val, begin, end - 1) + if BitAt(val, end - 1) then 1 else 0
  }

  lemma {:induction false} CountIsSize(val: seq<bv8>, begin: nat, end: nat)
    requires end <= 8 * |val|
    ensures Count(val, begin, end) == |set i: nat | begin <= i < end && BitAt(val, i)|
    decreases end
  {
    hide BitAt;
    var on := set i: nat | begin <= i < end && BitAt(val, i);
    if begin >= end {
      assert on == {};
    } else {
      CountIsSize(val, begin, end - 1);
      var less := set i: nat | begin <= i < end - 1 && BitAt(val, i);
      assert on == if BitAt(val, end - 1) then less + {end - 1} else less;
    }
  }

  lemma CountZero(val: seq<bv8>, begin: nat, end: nat)
    requires end <= 8 * |val|
    ensures Count(val, begin, end) == 0 <==> forall i | begin <= i < end :: !BitAt(val, i)
  {
    CountIsSize(val, begin, end);
    var on := set i: nat | begin <= i < end && BitAt(val, i);
    if on != {} {
      var i :| i in on;
    }
  }

  function WithBit(val: seq<bv8>, pos: nat): (r: seq<bv8>)
    requires pos < 8 * |val|
    ensures |r| == |val|
  {
    val[pos / 8 := SetBit(val[pos / 8], 7 - pos % 8)]
  }

  function WithoutBit(val: seq<bv8>, pos: nat): (r: seq<bv8>)
    requires pos < 8 * |val|
    ensures |r| == |val|
  {
    val[pos / 8 := ClearBit(val[pos / 8], 7 - pos % 8)]
  }

  /** The first index of a byte is its high bit, and the last its low bit. */
  lemma HighBitFirst(val: seq<bv8>, k: nat)
    requires k < |val| && val[k] == 0
    ensures WithBit(val, 8 * k) == val[k := 0x80]
    ensures WithBit(val, 8 * k + 7) == val[k := 0x01]
  {
    assert (8 * k + 7) / 8 == k && 7 - (8 * k + 7) % 8 == 0;
  }

  // Setting one bit of one byte sets that index and leaves every other bit, spare ones too.
  lemma WithBitIsAt(val: seq<bv8>, pos: nat, i: nat)
    requires pos < 8 * |val| && i < 8 * |val|
    ensures BitAt(WithBit(val, pos), i) <==> i == pos || BitAt(val, i)
  {
    hide BitOf, Mask, SetBit, ClearBit;
    ByteWrite(val, pos / 8, SetBit(val[pos / 8], 7 - pos % 8), i);
    OrBit(val[pos / 8], 7 - pos % 8, 7 - i % 8);
  }

  lemma WithBitBytes(val: seq<bv8>, pos: nat)
    requires pos < 8 * |val|
    ensures forall k | 0 <= k < |val| ::
              WithBit(val, pos)[k] as int == val[k] as int +
                                            if k == pos / 8 && !BitAt(val, pos) then Pow2(7 - pos % 8) else 0
  {
    hide BitOf, SetBit, Pow2;
    SetBitIs(val[pos / 8], 7 - pos % 8);
  }

  lemma WithoutBitBytes(val: seq<bv8>, pos: nat)
    requires pos < 8 * |val|
    ensures forall k | 0 <= k < |val| ::
              WithoutBit(val, pos)[k] as int == val[k] as int -
                                               if k == pos / 8 && BitAt(val, pos) then Pow2(7 - pos % 8) else 0
  {
    hide BitOf, ClearBit, Pow2;
    ClearBitIs(val[pos / 8], 7 - pos % 8);
  }

  lemma WithBitIs(val: seq<bv8>, pos: nat)
    requires pos < 8 * |val|
    ensures forall i: nat | i < 8 * |val| :: BitAt(WithBit(val, pos), i) <==> i == pos || BitAt(val, i)
  {
    hide *;
    forall i: nat | i < 8 * |val| ensures BitAt(WithBit(val, pos), i) <==> i == pos || BitAt(val, i) {
      WithBitIsAt(val, pos, i);
    }
  }

  lemma WithoutBitIsAt(val: seq<bv8>, pos: nat, i: nat)
    requires pos < 8 * |val| && i < 8 * |val|
    ensures BitAt(WithoutBit(val, pos), i) <==> i != pos && BitAt(val, i)
  {
    hide BitOf, Mask, SetBit, ClearBit;
    ByteWrite(val, pos / 8, ClearBit(val[pos / 8], 7 - pos % 8), i);
    AndNotBit(val[pos / 8], 7 - pos % 8, 7 - i % 8);
  }

  lemma WithoutBitIs(val: seq<bv8>, pos: nat)
    requires pos < 8 * |val|
    ensures forall i: nat | i < 8 * |val| :: BitAt(WithoutBit(val, pos), i) <==> i != pos && BitAt(val, i)
  {
    hide *;
    forall i: nat | i < 8 * |val| ensures BitAt(WithoutBit(val, pos), i) <==> i != pos && BitAt(val, i) {
      WithoutBitIsAt(val, pos, i);
    }
  }

  lemma NotIs(a: seq<bv8>, r: seq<bv8>, n: nat)
    requires |r| == |a| && n <= 8 * |a| && forall j | 0 <= j < |a| :: r[j] == !a[j]
    ensures forall i: nat :: i in Indices(r, n) <==> i < n && i !in Indices(a, n)
    ensures forall i | 0 <= i < 8 * |a| :: BitAt(r, i) <==> !BitAt(a, i)
  {
    forall i: nat | i < 8 * |a| ensures BitAt(r, i) <==> !BitAt(a, i) {
      NotBit(a[i / 8], 7 - i % 8);
      hide BitOf;
    }
  }

  lemma AndIs(a: seq<bv8>, b: seq<bv8>, r: seq<bv8>, n: nat)
    requires |r| == |a| == |b| && n <= 8 * |a| && forall j | 0 <= j < |a| :: r[j] == AndByte(a[j], b[j])
    ensures Indices(r, n) == Indices(a, n) * Indices(b, n)
  {
    forall i: nat | i < n ensures BitAt(r, i) <==> BitAt(a, i) && BitAt(b, i) {
      AndBit(a[i / 8], b[i / 8], 7 - i % 8);
      hide BitOf;
    }
  }

  lemma XorIs(a: seq<bv8>, b: seq<bv8>, r: seq<bv8>, n: nat)
    requires |r| == |a| == |b| && n <= 8 * |a| && forall j | 0 <= j < |a| :: r[j] == XorByte(a[j], b[j])
    ensures Indices(r, n) == (Indices(a, n) - Indices(b, n)) + (Indices(b, n) - Indices(a, n))
  {
    forall i: nat | i < n ensures BitAt(r, i) <==> BitAt(a, i) != BitAt(b, i) {
      XorBit(a[i / 8], b[i / 8], 7 - i % 8);
      hide BitOf;
    }
  }

  // Writing one byte changes only its own eight bits.
  lemma ByteWrite(val: seq<bv8>, k: nat, b: bv8, i: nat)
    requires k < |val| && i < 8 * |val|
    ensures BitAt(val[k := b], i) <==> if i / 8 == k then BitOf(b, 7 - i % 8) else BitAt(val, i)
  {
  }

  /** How many bytes `Truncate` to `n` leaves of `len` bytes that hold `size` indices. */
  function TruncatedLength(len: nat, size: nat, n: nat): nat
    requires n <= size
  {
    if size - n < 8 then len else if n == 0 then 1 else (n - 1) / 8 + 1
  }

  /**
   * Truncation leaves no byte too many exactly when it drops no byte, or at least eight indices but not all.
   * From 9 to 8, for one, it keeps a second byte.
   */
  lemma TruncateTight(size: nat, n: nat)
    requires n <= size
    ensures TruncatedLength(Ceil(size), size, n) == Ceil(n) <==> Ceil(size) == Ceil(n) || (size - n >= 8 && n > 0)
    ensures TruncatedLength(Ceil(9), 9, 8) != Ceil(8)
  {
  }

  class Bitmap {
    var val: array<bv8>
    var size: nat

    ghost predicate Valid()
      reads this, val
    {
      size <= 8 * val.Length
    }

    /** The number of bytes that the size needs, and no more. */
    ghost predicate Tight()
      reads this, val
      ensures Tight() ==> Valid()
    {
      val.Length == Ceil(size)
    }

    ghost function On(): set<nat>
      requires Valid()
      reads this, val
    {
      Indices(val[..], size)
    }

    /** No bit is on past the size. */
    ghost predicate Clean()
      reads this, val
    {
      forall i | size <= i < 8 * val.Length :: !BitAt(val[..], i)
    }

    constructor NewEmpty(n: nat)
      ensures size == n && Tight() && Clean() && On() == {} && fresh(val)
    {
      var zero: nat -> bv8 := _ => 0;
      if n == 0 {
        val := new bv8[0];
      } else {
        val := new bv8[(n - 1) / 8 + 1](zero);
      }
      size := n;
    }

    constructor NewBitmap(data: array<bv8>)
      ensures val == data && size == 8 * data.Length && Tight() && Clean()
    {
      val := data;
      size := data.Length * 8;
    }

    /** Keeps the first `n` indices, in a new array if at least eight are dropped. */
    method Truncate(n: nat)
      requires Valid() && n <= size
      modifies this
      ensures Valid() && size == n && On() == set i | i in old(On()) && i < n
      ensures val.Length == TruncatedLength(old(val.Length), old(size), n)
      ensures forall i | 0 <= i < val.Length && i < old(val.Length) :: val[i] == old(val[i])
      ensures fresh(val) || val == old(val)
    {
      if (size - n) / 8 > 0 {
        var len := if n == 0 then 1 else (n - 1) / 8 + 1;
        var v := new bv8[len];
        CopyInto(v, val);
        val := v;
      }
      size := n;
    }

    /** `copy` of another bitmap of the same size; a different size is refused. */
    method Assign(o: Bitmap) returns (ok: bool)
      requires Valid() && o.Valid()
      modifies val
      ensures ok <==> o.size == size
      ensures ok ==> On() == old(o.On())
      ensures ok ==> forall i | 0 <= i < val.Length ::
                       val[i] == if i < o.val.Length then old(o.val[i]) else old(val[i])
      ensures !ok ==> val[..] == old(val[..])
    {
      if o.size != size {
        return false;
      }
      ghost var was := o.val[..];
      CopyInto(val, o.val);
      assert forall i: nat | i < size :: BitAt(val[..], i) == BitAt(was, i);
      return true;
    }

    method SetBitOn(pos: int) returns (ok: bool)
      requires Valid()
      modifies val
      ensures ok <==> 0 <= pos < size
      ensures On() == if ok then old(On()) + {pos} else old(On())
      ensures forall i: nat | i < 8 * val.Length :: BitAt(val[..], i) <==> (ok && i == pos) || old(BitAt(val[..], i))
      ensures forall k | 0 <= k < val.Length ::
                val[k] as int == old(val[k] as int) +
                                 if ok && k == pos / 8 && pos !in old(On()) then Pow2(7 - pos % 8) else 0
      ensures old(Clean()) ==> Clean()
    {
      if pos < 0 || pos >= size {
        return false;
      }
      hide BitOf, BitAt, SetBit, ClearBit, Pow2;
      ghost var was := val[..];
      WithBitBytes(was, pos);
      val[pos / 8] := SetBit(val[pos / 8], 7 - pos % 8);
      assert val[..] == WithBit(was, pos);
      assert forall k | 0 <= k < val.Length :: val[k] == WithBit(was, pos)[k];
      WithBitIs(was, pos);
      hide WithBit;
      return true;
    }

    method SetBitOff(pos: int) returns (ok: bool)
      requires Valid()
      modifies val
      ensures ok <==> 0 <= pos < size
      ensures On() == if ok then old(On()) - {pos} else old(On())
      ensures forall i: nat | i < 8 * val.Length :: BitAt(val[..], i) <==> !(ok && i == pos) && old(BitAt(val[..], i))
      ensures forall k | 0 <= k < val.Length ::
                val[k] as int == old(val[k] as int) -
                                 if ok && k == pos / 8 && pos in old(On()) then Pow2(7 - pos % 8) else 0
      ensures old(Clean()) ==> Clean()
    {
      if pos < 0 || pos >= size {
        return false;
      }
      hide BitOf, BitAt, SetBit, ClearBit, Pow2;
      ghost var was := val[..];
      WithoutBitBytes(was, pos);
      val[pos / 8] := ClearBit(val[pos / 8], 7 - pos % 8);
      assert val[..] == WithoutBit(was, pos);
      assert forall k | 0 <= k < val.Length :: val[k] == WithoutBit(was, pos)[k];
      WithoutBitIs(was, pos);
      hide WithoutBit;
      return true;
    }

    method SetRangeBitOn(begin: int, end: int) returns (ok: bool)
      requires Valid()
      modifies val
      ensures ok <==> 0 <= begin && end <= size
      ensures forall i: nat | i < 8 * val.Length ::
                BitAt(val[..], i) <==> (ok && begin <= i < end) || old(BitAt(val[..], i))
      ensures forall i: nat :: i in On() <==> i in old(On()) || (ok && begin <= i < end)
      ensures old(Clean()) ==> Clean()
    {
      if begin < 0 || end > size {
        return false;
      }
      var i := begin;
      while i < end
        invariant begin <= i && (i <= end || i == begin)
        invariant forall j: nat | j < 8 * val.Length ::
                    BitAt(val[..], j) <==> begin <= j < i || old(BitAt(val[..], j))
      {
        var _ := SetBitOn(i);
        i := i + 1;
      }
      return true;
    }

    method GetBit(pos: int) returns (on: bool, ok: bool)
      requires Valid()
      ensures ok <==> 0 <= pos < size
      ensures on <==> ok && pos in On()
      ensures on <==> ok && val[pos / 8] as int / Pow2(7 - pos % 8) % 2 == 1
    {
      if pos < 0 || pos >= size {
        return false, false;
      }
      BitAtIs(val[..], pos);
      hide Pow2;
      return val[pos / 8] & Mask(7 - pos % 8) != 0, true;
    }

    method CountBitOn(begin: int, end: int) returns (count: nat, ok: bool)
      requires Valid()
      ensures ok <==> 0 <= begin && end <= size
      ensures ok && 0 <= end ==> count == Count(val[..], begin, end)
      ensures !ok || end < 0 ==> count == 0
    {
      if begin < 0 || end > size {
        return 0, false;
      }
      count := 0;
      var i := begin;
      while i < end
        invariant begin <= i && (i <= end || i == begin)
        invariant i <= 8 * val.Length ==> count == Count(val[..], begin, i)
        invariant i > 8 * val.Length ==> count == 0
      {
        var on, _ := GetBit(i);
        if on {
          count := count + 1;
        }
        i := i + 1;
      }
      return count, true;
    }

    method Not() returns (r: Bitmap)
      requires Tight()
      ensures fresh(r) && r.size == size && r.Tight()
      ensures forall i: nat :: i in r.On() <==> i < size && i !in On()
      ensures r.val.Length == val.Length
      ensures forall i | 0 <= i < 8 * val.Length :: BitAt(r.val[..], i) <==> !BitAt(val[..], i)
      ensures r.Clean() <==> forall i | size <= i < 8 * val.Length :: BitAt(val[..], i)
    {
      r := new Bitmap.NewEmpty(size);
      var i := 0;
      while i < val.Length
        invariant 0 <= i <= val.Length == r.val.Length && fresh(r.val) && r.size == size
        invariant forall j | 0 <= j < i :: r.val[j] == !val[j]
      {
        r.val[i] := !val[i];
        i := i + 1;
      }
      NotIs(val[..], r.val[..], size);
      hide BitAt, Indices;
    }

    method And(o: Bitmap) returns (r: Bitmap?)
      requires Valid() && o.Valid() && (size == o.size ==> Tight())
      ensures r == null <==> size != o.size
      ensures r != null ==> fresh(r) && r.size == size && r.Tight() && r.On() == On() * o.On()
    {
      if size != o.size {
        return null;
      }
      hide BitOf, AndByte, XorByte;
      var b := new Bitmap.NewEmpty(size);
      var i := 0;
      while i < val.Length
        invariant 0 <= i <= val.Length == b.val.Length && fresh(b.val) && b.size == size
        invariant forall j | 0 <= j < i :: b.val[j] == AndByte(val[j], o.val[j])
      {
        b.val[i] := AndByte(val[i], o.val[i]);
        i := i + 1;
      }
      AndIs(val[..], o.val[..val.Length], b.val[..], size);
      assert forall k: nat | k < size :: BitAt(o.val[..val.Length], k) == BitAt(o.val[..], k);
      return b;
    }

    method XOR(o: Bitmap) returns (r: Bitmap?)
      requires Valid() && o.Valid() && (size == o.size ==> Tight())
      ensures r == null <==> size != o.size
      ensures r != null ==> fresh(r) && r.size == size && r.Tight()
      ensures r != null ==> r.On() == (On() - o.On()) + (o.On() - On())
    {
      if size != o.size {
        return null;
      }
      hide BitOf, AndByte, XorByte;
      var b := new Bitmap.NewEmpty(size);
      var i := 0;
      while i < val.Length
        invariant 0 <= i <= val.Length == b.val.Length && fresh(b.val) && b.size == size
        invariant forall j | 0 <= j < i :: b.val[j] == XorByte(val[j], o.val[j])
      {
        b.val[i] := XorByte(val[i], o.val[i]);
        i := i + 1;
      }
      XorIs(val[..], o.val[..val.Length], b.val[..], size);
      assert forall k: nat | k < size :: BitAt(o.val[..val.Length], k) == BitAt(o.val[..], k);
      return b;
    }
  }

  /** Go's `copy`: as many elements as both arrays have. */
  method CopyInto(dst: array<bv8>, src: array<bv8>)
    modifies dst
    ensures forall j | 0 <= j < dst.Length :: dst[j] == if j < src.Length then old(src[j]) else old(dst[j])
  {
    var i := 0;
    while i < dst.Length && i < src.Length
      invariant 0 <= i <= dst.Length && i <= src.Length
      invariant forall j | 0 <= j < i :: dst[j] == old(src[j])
      invariant dst == src || src[..] == old(src[..])
      invariant forall j | i <= j < dst.Length :: dst[j] == old(dst[j])
    {
      dst[i] := src[i];
      i := i + 1;
    }
  }
}
