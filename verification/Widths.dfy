/** When the scanner's string lengths fit in 64 bits, as the Go code's ints do. */
module Widths {
  import opened Arithmetic
  import opened Bytes
  import opened Decimal
  import opened ScanState

  /** How many digits stand just before position `i`. */
  function DigitsBefore(data: bytes, i: nat): nat
    requires i <= |data|
  {
    if i == 0 || !IsDigit(data[i - 1]) then 0 else 1 + DigitsBefore(data, i - 1)
  }

  /** No 19 digits in a row: an input whose string lengths, if it has any, are below 10^18. */
  predicate ShortDigits(data: bytes) {
    forall i | 0 <= i <= |data| :: DigitsBefore(data, i) <= 18
  }

  const LIMIT: nat := 1_000_000_000_000_000_000

  lemma LimitIs()
    ensures Pow10(18) == LIMIT < 0x8000_0000_0000_0000
  {
    assert Pow10(6) == 1_000_000;
    assert Pow10(12) == 1_000_000_000_000;
  }

  /** The numbers of the state fit: a length being read is no longer than the digits just read. */
  predicate Fits(data: bytes, i: nat, s: Scan) {
    && s.stringLen < LIMIT && s.stepSize < LIMIT
    && (i <= |data| && s.mode == BeginString ==> s.stringLen < Pow10(DigitsBefore(data, i)))
  }

  // A length that begins is one digit, and one that goes on is ten times the old one and a digit.
  lemma LengthStep(s: Scan, c: byte)
    requires Inv(s) && !s.failed
    ensures var t := Step(s, c).0;
      && t.stepSize in {1, s.stepSize, s.stringLen}
      && (t.mode != BeginString ==> t.stringLen in {0, s.stringLen})
      && (t.mode == BeginString ==> t.stepSize == 1)
      && (t.mode == BeginString && !IsDigit(c) ==> t.stringLen == 0)
      && (t.mode == BeginString && IsDigit(c) ==>
            t.stringLen <= 9 || (s.mode == BeginString && t.stringLen <= s.stringLen * 10 + 9))
  {
    StepInv(s, c);
    match s.mode
    case BeginValue => BeginsLength(s, c);
    case EndValue => EndsLength(s, c);
    case BeginString =>
      if c == CHE && s.stringLen == 0 {
        EndsLength(s, c);
      }
    case _ =>
  }

  // What may become of the numbers where a value begins or has ended.
  ghost predicate LengthFrom(s: Scan, c: byte, t: Scan) {
    && t.stepSize in {1, s.stepSize}
    && (t.mode != BeginString ==> t.stringLen == s.stringLen)
    && (t.mode == BeginString ==> if IsDigit(c) then t.stringLen == c - CH0 else t.stringLen == s.stringLen)
  }

  lemma {:induction false} BeginsLength(s: Scan, c: byte)
    ensures LengthFrom(s, c, StepBeginValue(s, c).0)
    decreases Bounces(s), if c == CHE then 1 else 0
  {
    if c == CHE {
      EndsLength(s, c);
    }
  }

  lemma {:induction false} EndsLength(s: Scan, c: byte)
    ensures LengthFrom(s, c, StepEndValue(s, c).0)
    decreases Bounces(s), if c == CHE then 0 else 1
  {
    if s.stack != [] {
      var t := s.(stepSize := 1);
      if Top(s) == DictKey {
        BeginsLength(SetTop(t, DictValue), c);
      } else if Top(s) == ListValue && c != CHE {
        BeginsLength(t, c);
      }
    }
  }

  /**
   * Every step of checkValid, of skip and of the decoder keeps the numbers below 10^18 on an input with no 19
   * digits in a row; there the unbounded lengths of this model are those of 64-bit ints.
   */
  lemma StepFits(data: bytes, i: nat, s: Scan)
    requires ShortDigits(data) && i < |data| && Inv(s) && Fits(data, i, s)
    ensures var t := Step(s, data[i]).0; Fits(data, i + t.stepSize, t)
  {
    if s.failed {
      StepInv(s, data[i]);
    } else {
      LengthStep(s, data[i]);
      LimitIs();
      var k := DigitsBefore(data, i + 1);
      assert k <= 18;
      Pow10Grows(k, 18);
      if IsDigit(data[i]) {
        assert k == 1 + DigitsBefore(data, i);
        Pow10Grows(0, k - 1);
      } else {
        assert Pow10(0) == 1;
      }
      hide Step, Inv;
    }
  }

  /** The position and the scanner after `k` more steps, or at the end of the input. */
  function After(data: bytes, i: nat, s: Scan, k: nat): (nat, Scan)
    decreases k
  {
    if k == 0 || i >= |data| then (i, s)
    else
      var t := Step(s, data[i]).0;
      After(data, i + t.stepSize, t, k - 1)
  }

  /** So every state of every run from the beginning fits. */
  lemma {:induction false} RunFits(data: bytes, i: nat, s: Scan, k: nat)
    requires ShortDigits(data) && Inv(s) && Fits(data, i, s)
    ensures var (j, t) := After(data, i, s, k); Inv(t) && Fits(data, j, t)
    decreases k
  {
    if k > 0 && i < |data| {
      StepInv(s, data[i]);
      StepFits(data, i, s);
      var t := Step(s, data[i]).0;
      hide Step, Fits, ShortDigits;
      RunFits(data, i + t.stepSize, t, k - 1);
    }
  }

  lemma LengthsFit(data: bytes, k: nat)
    requires ShortDigits(data)
    ensures var t := After(data, 0, FRESH, k).1;
      t.stringLen < 0x8000_0000_0000_0000 && t.stepSize < 0x8000_0000_0000_0000
  {
    RunFits(data, 0, FRESH, k);
  }
}
