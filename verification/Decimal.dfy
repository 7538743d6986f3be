/** Decimal text: what strconv prints and reads, and the accumulation of the scanner's string length. */
module Decimal {
  import opened Arithmetic
  import opened Bytes

  const MAXINT := 0x7fff_ffff_ffff_ffff
  const MININT := -0x8000_0000_0000_0000

  predicate IsInt64(n: int) {
    MININT <= n <= MAXINT
  }

  function Clamp(n: int): int {
    if n > MAXINT then MAXINT else if n < MININT then MININT else n
  }

  predicate AllDigits(s: bytes) {
    forall i | 0 <= i < |s| :: IsDigit(s[i])
  }

  function Digits(n: nat): (s: bytes)
    ensures s != [] && AllDigits(s)
    ensures n > 0 ==> s[0] != CH0
  {
    if n < 10 then [CH0 + n] else Digits(n / 10) + [CH0 + n % 10]
  }

  /** The digit `k` places from the right is the decimal digit at 10^k, in ASCII. */
  lemma {:induction false} DigitAt(n: nat, k: nat)
    requires k < |Digits(n)|
    ensures Pow10(k) > 0 && Digits(n)[|Digits(n)| - 1 - k] == 48 + n / Pow10(k) % 10
    decreases n
  {
    Pow10Grows(0, k);
    if n >= 10 && k > 0 {
      DigitAt(n / 10, k - 1);
      NestedQuotient(n, 10, Pow10(k - 1));
    }
  }

  /** There are as many as are needed. */
  lemma {:induction false} DigitCount(n: nat)
    ensures n < Pow10(|Digits(n)|) && (n >= 10 ==> Pow10(|Digits(n)| - 1) <= n) && (n < 10 ==> |Digits(n)| == 1)
  {
    if n >= 10 {
      DigitCount(n / 10);
      assert n / 10 < 10 ==> Pow10(|Digits(n / 10)|) == 10;
    } else {
      assert Pow10(1) == 10;
    }
  }

  function Itoa(n: int): bytes {
    if n < 0 then [MINUS] + Digits(-n) else Digits(n)
  }

  /** Reads digits from the left onto `acc`. */
  function Accumulate(s: bytes, acc: nat): nat
    requires AllDigits(s)
  {
    if s == [] then acc else Accumulate(s[1..], acc * 10 + (s[0] - CH0))
  }

  lemma {:induction false} AccumulateSnoc(s: bytes, c: byte, acc: nat)
    requires AllDigits(s) && IsDigit(c)
    ensures Accumulate(s + [c], acc) == Accumulate(s, acc) * 10 + (c - CH0)
  {
    if s == [] {
      assert (s + [c])[1..] == [];
    } else {
      assert (s + [c])[1..] == s[1..] + [c];
      AccumulateSnoc(s[1..], c, acc * 10 + (s[0] - CH0));
    }
  }

  lemma {:induction false} DigitsRoundTrip(n: nat)
    ensures Accumulate(Digits(n), 0) == n
  {
    if n < 10 {
      assert Digits(n)[1..] == [];
    } else {
      DigitsRoundTrip(n / 10);
      AccumulateSnoc(Digits(n / 10), CH0 + n % 10, 0);
    }
  }

  lemma {:induction false} AccumulateGrows(s: bytes, acc: nat)
    requires AllDigits(s)
    ensures Accumulate(s, acc) >= acc
  {
    if s != [] {
      AccumulateGrows(s[1..], acc * 10 + (s[0] - CH0));
    }
  }

  /** Digits with no leading zero are the printed form of the number they are read as. */
  lemma {:induction false} DigitsOfAccumulated(s: bytes)
    requires s != [] && AllDigits(s) && s[0] != CH0
    ensures Accumulate(s, 0) > 0 && Digits(Accumulate(s, 0)) == s
  {
    var k := |s| - 1;
    var front, c := s[..k], s[k];
    assert s == front + [c];
    AccumulateSnoc(front, c, 0);
    if front == [] {
      assert s[1..] == [];
    } else {
      DigitsOfAccumulated(front);
    }
  }

  /** `strconv.Atoi`: the number, and whether there was no error; out of range gives the nearest bound. */
  function Atoi(s: bytes): (int, bool) {
    var signed := s != [] && (s[0] == MINUS || s[0] == 43);
    var ds := if signed then s[1..] else s;
    if ds == [] || !AllDigits(ds) then (0, false)
    else
      var v: int := Accumulate(ds, 0);
      var n := if signed && s[0] == MINUS then -v else v;
      (Clamp(n), IsInt64(n))
  }

  lemma AtoiItoa(n: int)
    ensures Atoi(Itoa(n)) == (Clamp(n), IsInt64(n))
  {
    if n < 0 {
      DigitsRoundTrip(-n);
      assert Itoa(n)[1..] == Digits(-n);
    } else {
      DigitsRoundTrip(n);
    }
  }
}
