/** The distance of dht/node.go between node ids, and that it is a metric. */
module Distance {
  import opened Arithmetic
  import opened Bits

  const IDLENGTH: nat := 20

  type NodeID = s: seq<bv8> | |s| == IDLENGTH witness [0, 0, 0, 0, 0, 0, 0, 0, 0, 0, 0, 0, 0, 0, 0, 0, 0, 0, 0, 0]

  predicate Differ(a: seq<bv8>, b: seq<bv8>, k: nat)
    requires |a| == |b| && k < 8 * |a|
  {
    BitOf(a[k / 8], k % 8) != BitOf(b[k / 8], k % 8)
  }

  /** The number of the first `n` bits that differ, the low bit of each byte first. */
  function Differences(a: seq<bv8>, b: seq<bv8>, n: nat): (d: nat)
    requires |a| == |b| && n <= 8 * |a|
    ensures d <= n
  {
    if n == 0 then 0 else Differences(a, b, n - 1) + if Differ(a, b, n - 1) then 1 else 0
  }

  function Hamming(a: NodeID, b: NodeID): nat {
    Differences(a, b, 160)
  }

  /** The number of positions that differ is that of the set of those positions. */
  lemma {:induction false} DifferencesIsSize(a: seq<bv8>, b: seq<bv8>, n: nat)
    requires |a| == |b| && n <= 8 * |a|
    ensures Differences(a, b, n) == |set k: nat | k < n && Differ(a, b, k)|
  {
    hide Differ;
    var ks := set k: nat | k < n && Differ(a, b, k);
    if n == 0 {
      assert ks == {};
    } else {
      DifferencesIsSize(a, b, n - 1);
      var less := set k: nat | k < n - 1 && Differ(a, b, k);
      assert ks == if Differ(a, b, n - 1) then less + {n - 1} else less;
    }
  }

  /** Which positions they are, by arithmetic: the binary digits of the bytes' values. */
  lemma DifferIs(a: seq<bv8>, b: seq<bv8>, k: nat)
    requires |a| == |b| && k < 8 * |a|
    ensures Differ(a, b, k) <==>
            a[k / 8] as int / Pow2(k % 8) % 2 != b[k / 8] as int / Pow2(k % 8) % 2
  {
    BitIs(a[k / 8], k % 8);
    BitIs(b[k / 8], k % 8);
    hide BitOf, Pow2;
  }

  lemma NoBits(a: NodeID, b: NodeID)
    ensures Differences(a, b, 0) == 0
  {
  }

  lemma NextBit(a: NodeID, b: NodeID, i: nat, j: nat)
    requires i < IDLENGTH && j < 8
    ensures Differences(a, b, 8 * i + (j + 1)) ==
            Differences(a, b, 8 * i + j) + if BitOf(XorByte(a[i], b[i]), j) then 1 else 0
  {
    XorBit(a[i], b[i], j);
    hide BitOf, XorByte;
    assert (8 * i + j) / 8 == i && (8 * i + j) % 8 == j;
  }

  /** `distance`: the bits of the exclusive or are counted byte by byte. */
  method ComputeDistance(a: NodeID, b: NodeID) returns (d: nat)
    ensures d == Hamming(a, b) == |set k: nat | k < 160 && Differ(a, b, k)|
  {
    hide BitOf, XorByte, Mask, Differences, Differ;
    DifferencesIsSize(a, b, 160);
    assert Differences(a, b, 0) == 0 by { NoBits(a, b); }
    d := 0;
    var i := 0;
    while i < IDLENGTH
      invariant 0 <= i <= IDLENGTH && d == Differences(a, b, 8 * i)
    {
      var x := XorByte(a[i], b[i]);
      var j := 0;
      while j < 8
        invariant 0 <= j <= 8 && d == Differences(a, b, 8 * i + j)
      {
        NextBit(a, b, i, j);
        if BitOf(x, j) {
          d := d + 1;
        }
        j := j + 1;
      }
      i := i + 1;
    }
  }

  lemma {:induction false} Symmetric(a: seq<bv8>, b: seq<bv8>, n: nat)
    requires |a| == |b| && n <= 8 * |a|
    ensures Differences(a, b, n) == Differences(b, a, n)
  {
    if n > 0 {
      Symmetric(a, b, n - 1);
    }
  }

  lemma {:induction false} Triangle(a: seq<bv8>, b: seq<bv8>, c: seq<bv8>, n: nat)
    requires |a| == |b| == |c| && n <= 8 * |a|
    ensures Differences(a, c, n) <= Differences(a, b, n) + Differences(b, c, n)
  {
    hide BitOf;
    if n > 0 {
      Triangle(a, b, c, n - 1);
    }
  }

  lemma {:induction false} NoDifference(a: seq<bv8>, b: seq<bv8>, n: nat)
    requires |a| == |b| && n <= 8 * |a|
    ensures Differences(a, b, n) == 0 <==> forall k | 0 <= k < n :: !Differ(a, b, k)
  {
    hide BitOf;
    if n > 0 {
      NoDifference(a, b, n - 1);
    }
  }

  lemma ZeroIsEqual(a: NodeID, b: NodeID)
    ensures Hamming(a, b) == 0 <==> a == b
  {
    hide BitOf;
    NoDifference(a, b, 160);
    if Hamming(a, b) == 0 {
      forall i | 0 <= i < IDLENGTH ensures a[i] == b[i] {
        forall j | 0 <= j < 8 ensures BitOf(a[i], j) == BitOf(b[i], j) {
          assert !Differ(a, b, 8 * i + j);
        }
        SameBits(a[i], b[i]);
      }
    }
  }

  /** On all ids the distance is a metric with values from 0 to 160. */
  lemma IsMetric(a: NodeID, b: NodeID, c: NodeID)
    ensures 0 <= Hamming(a, b) <= 160
    ensures Hamming(a, b) == 0 <==> a == b
    ensures Hamming(a, b) == Hamming(b, a)
    ensures Hamming(a, c) <= Hamming(a, b) + Hamming(b, c)
  {
    ZeroIsEqual(a, b);
    Symmetric(a, b, 160);
    Triangle(a, b, c, 160);
    hide Differences;
  }

  /** The greatest distance, 160, is that of an id and its complement. */
  lemma Opposite(a: NodeID, b: NodeID)
    ensures Hamming(a, b) == 160 <==> forall i | 0 <= i < IDLENGTH :: b[i] == !a[i]
  {
    hide BitOf, Differences;
    AllDiffer(a, b, 160);
    if Hamming(a, b) == 160 {
      forall i | 0 <= i < IDLENGTH ensures b[i] == !a[i] {
        forall j | 0 <= j < 8 ensures BitOf(b[i], j) == BitOf(!a[i], j) {
          assert Differ(a, b, 8 * i + j);
          NotBit(a[i], j);
        }
        SameBits(b[i], !a[i]);
      }
    } else if forall i | 0 <= i < IDLENGTH :: b[i] == !a[i] {
      forall k | 0 <= k < 160 ensures Differ(a, b, k) {
        NotBit(a[k / 8], k % 8);
      }
    }
  }

  lemma {:induction false} AllDiffer(a: seq<bv8>, b: seq<bv8>, n: nat)
    requires |a| == |b| && n <= 8 * |a|
    ensures Differences(a, b, n) == n <==> forall k | 0 <= k < n :: Differ(a, b, k)
  {
    hide BitOf;
    if n > 0 {
      AllDiffer(a, b, n - 1);
    }
  }
}
