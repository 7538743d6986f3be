/** Byte strings, the character constants of bencode, and the byte-wise order on strings. */
module Bytes {

  type byte = x: int | 0 <= x < 256

  type bytes = seq<byte>

  datatype Option<+T> = None | Some(value: T)

  const COLON: byte := 58
  const MINUS: byte := 45
  const CH0: byte := 48
  const CH9: byte := 57
  const CHD: byte := 100
  const CHE: byte := 101
  const CHI: byte := 105
  const CHL: byte := 108

  predicate IsDigit(c: byte) {
    CH0 <= c <= CH9
  }

  // ' ', '\t', '\r', '\n' and NUL, as the scanner sees white space.
  predicate IsSpace(c: byte) {
    c == 32 || c == 9 || c == 13 || c == 10 || c == 0
  }

  /** The lexicographic order: byte-wise on Go strings, number-wise on field indices. */
  predicate Less(a: seq<int>, b: seq<int>) {
    if b == [] then false
    else if a == [] then true
    else if a[0] != b[0] then a[0] < b[0]
    else Less(a[1..], b[1..])
  }

  /**
   * The order with no recursion in it: a proper beginning comes first, and otherwise the first place at which the two
   * differ decides.
   */
  ghost predicate ComesBefore(a: seq<int>, b: seq<int>) {
    (|a| < |b| && a == b[..|a|]) ||
    exists k: nat | k < |a| && k < |b| :: a[..k] == b[..k] && a[k] < b[k]
  }

  // The first `k` numbers are the same.
  lemma SameBeginning(a: seq<int>, b: seq<int>, k: nat)
    requires a != [] && b != [] && a[0] == b[0] && k < |a| && k < |b|
    ensures a[..k + 1] == b[..k + 1] <==> a[1..][..k] == b[1..][..k]
  {
    assert a[..k + 1] == [a[0]] + a[1..][..k] && b[..k + 1] == [b[0]] + b[1..][..k];
    assert a[..k + 1][1..] == a[1..][..k] && b[..k + 1][1..] == b[1..][..k];
  }

  lemma TailsFollow(a: seq<int>, b: seq<int>)
    requires a != [] && b != [] && a[0] == b[0] && ComesBefore(a, b)
    ensures ComesBefore(a[1..], b[1..])
  {
    var x, y := a[1..], b[1..];
    if |a| < |b| && a == b[..|a|] {
      SameBeginning(a, b, |x|);
      assert a[..|a|] == a && x[..|x|] == x;
    } else {
      var k: nat :| k < |a| && k < |b| && a[..k] == b[..k] && a[k] < b[k];
      SameBeginning(a, b, k - 1);
      assert x[k - 1] < y[k - 1];
    }
  }

  lemma TailsDecide(a: seq<int>, b: seq<int>)
    requires a != [] && b != [] && a[0] == b[0] && ComesBefore(a[1..], b[1..])
    ensures ComesBefore(a, b)
  {
    var x, y := a[1..], b[1..];
    if |x| < |y| && x == y[..|x|] {
      SameBeginning(a, b, |x|);
      assert a[..|a|] == a && x[..|x|] == x;
    } else {
      var k: nat :| k < |x| && k < |y| && x[..k] == y[..k] && x[k] < y[k];
      SameBeginning(a, b, k);
      assert a[k + 1] < b[k + 1];
    }
  }

  lemma OtherHead(a: seq<int>, b: seq<int>)
    requires a != [] && b != [] && a[0] != b[0]
    ensures ComesBefore(a, b) <==> a[0] < b[0]
  {
    assert a[..0] == b[..0];
    forall k: nat | 0 < k < |a| && k < |b| ensures a[..k] != b[..k] {
      assert a[..k][0] == a[0] && b[..k][0] == b[0];
    }
    if |a| < |b| {
      assert b[..|a|][0] == b[0];
    }
  }

  lemma {:induction false} LessExactly(a: seq<int>, b: seq<int>)
    ensures Less(a, b) <==> ComesBefore(a, b)
  {
    if a == [] || b == [] {
      assert b != [] ==> b[..0] == [];
    } else if a[0] == b[0] {
      LessExactly(a[1..], b[1..]);
      if ComesBefore(a, b) {
        TailsFollow(a, b);
      } else if ComesBefore(a[1..], b[1..]) {
        TailsDecide(a, b);
      }
    } else {
      OtherHead(a, b);
    }
  }

  lemma {:induction false} LessTrichotomy(a: seq<int>, b: seq<int>)
    ensures Less(a, b) || Less(b, a) || a == b
    ensures !(Less(a, b) && Less(b, a))
    ensures !Less(a, a)
  {
    if a != [] && b != [] && a[0] == b[0] {
      LessTrichotomy(a[1..], b[1..]);
      assert a == [a[0]] + a[1..] && b == [b[0]] + b[1..];
    }
    if a != [] {
      LessTrichotomy(a[1..], a[1..]);
    }
  }

  lemma {:induction false} LessTransitive(a: seq<int>, b: seq<int>, c: seq<int>)
    requires Less(a, b) && Less(b, c)
    ensures Less(a, c)
  {
    if a != [] && a[0] == b[0] == c[0] {
      LessTransitive(a[1..], b[1..], c[1..]);
    }
  }

  ghost predicate StrictlyIncreasing(ks: seq<bytes>) {
    forall i, j | 0 <= i < j < |ks| :: Less(ks[i], ks[j])
  }

  lemma IncreasingExactly(ks: seq<bytes>)
    ensures StrictlyIncreasing(ks) <==> forall i, j | 0 <= i < j < |ks| :: ComesBefore(ks[i], ks[j])
  {
    hide Less, ComesBefore;
    forall i, j | 0 <= i < j < |ks| ensures Less(ks[i], ks[j]) == ComesBefore(ks[i], ks[j]) {
      LessExactly(ks[i], ks[j]);
    }
  }
}
