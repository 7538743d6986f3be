/** On every input that the scanner accepts, the decoder reads each string and each int as the descent does. */
module Tokens {
  import opened Bytes
  import opened Decimal
  import opened ScanState
  import opened Validity
  import opened Grammar
  import opened GrammarProofs
  import opened Decoding
  import opened Lockstep
  import opened Heights
  import opened Descent

  /** The scanner at a point of the innermost container, inside `stk`, where an item may begin. */
  function Gap(stk: seq<Container>, ctx: Container, mode: Mode): Scan {
    At(stk, ctx).(mode := mode)
  }

  predicate GapOk(ctx: Container, mode: Mode) {
    mode in {EndValue, BeginString} || (mode == BeginValue && ctx == ListValue)
  }

  predicate SameKind(c: Container, c': Container) {
    c == ListValue <==> c' == ListValue
  }

  /** The scanner inside the containers `st`: in the length of a string, `n` so far; at its content; at an int. */
  function LengthIn(st: seq<Container>, n: nat): Scan {
    Outside(st).(mode := BeginString, stringLen := n)
  }

  function ContentIn(st: seq<Container>, n: nat): Scan {
    Outside(st).(mode := InString, stringLen := n)
  }

  function IntIn(st: seq<Container>, mode: Mode): Scan {
    Outside(st).(mode := mode)
  }

  ghost predicate Accepts(data: bytes, i: nat, s: Scan) {
    Inv(s) && Run(data, i, s) == Accept
  }

  // Where the input cannot end: inside a container, a string or a number.
  predicate Unfinished(s: Scan) {
    s.stack != [] || s.mode in {BeginString, InString, BeginInt, Neg, Zero, Num}
  }

  lemma UnfinishedAtEof(s: Scan)
    requires Inv(s) && Unfinished(s)
    ensures Eof(s).1 == ScanError
  {
    StepInv(s, 32);
  }

  // An accepted run goes on to its next step.
  lemma AcceptStep(data: bytes, i: nat, s: Scan)
    requires Accepts(data, i, s) && Unfinished(s)
    ensures i < |data| && Step(s, data[i]).1 != ScanError
    ensures Accepts(data, i + Step(s, data[i]).0.stepSize, Step(s, data[i]).0)
  {
    if i >= |data| {
      UnfinishedAtEof(s);
    } else {
      StepInv(s, data[i]);
    }
    hide Step, Eof;
  }

  // What each byte does at a gap, when it is no error.
  lemma GapStep(stk: seq<Container>, ctx: Container, mode: Mode, c: byte) returns (ctx': Container)
    requires GapOk(ctx, mode) && Step(Gap(stk, ctx, mode), c).1 != ScanError
    ensures SameKind(ctx, ctx')
    ensures Step(Gap(stk, ctx, mode), c) ==
      if c == CHE then (Done(stk), CloseOp(ctx))
      else if c == COLON then (ContentIn(stk + [ctx'], 0), ScanInString)
      else if c == CHD then (Gap(stk + [ctx'], DictKey, BeginString), ScanBeginDict)
      else if c == CHL then (Gap(stk + [ctx'], ListValue, BeginValue), ScanBeginList)
      else if c == CHI then (IntIn(stk + [ctx'], BeginInt), ScanBeginInt)
      else if IsDigit(c) then (LengthIn(stk + [ctx'], c - CH0), ScanBeginString)
      else Fail(Gap(stk, ctx', mode))
    ensures c in {CHE, COLON, CHD, CHL, CHI} || IsDigit(c)
  {
    if mode == BeginString {
      ctx' := ctx;
      if c == CHE {
        ShutStep(stk, ctx);
      }
    } else {
      if mode == BeginValue {
        BeginListStep(stk, c);
      }
      ctx' := ItemStep(stk, ctx, c);
    }
  }

  lemma ItemStep(stk: seq<Container>, ctx: Container, c: byte) returns (ctx': Container)
    requires Step(At(stk, ctx), c).1 != ScanError
    ensures SameKind(ctx, ctx') && (c in {CHE, CHD, CHL, CHI} || IsDigit(c))
    ensures Step(At(stk, ctx), c) ==
      if c == CHE then (Done(stk), CloseOp(ctx))
      else if c == CHD then (Gap(stk + [ctx'], DictKey, BeginString), ScanBeginDict)
      else if c == CHL then (Gap(stk + [ctx'], ListValue, BeginValue), ScanBeginList)
      else if c == CHI then (IntIn(stk + [ctx'], BeginInt), ScanBeginInt)
      else (LengthIn(stk + [ctx'], c - CH0), ScanBeginString)
  {
    ctx' := if ctx == DictKey then DictValue else if ctx == DictValue then DictKey else ListValue;
    TopOf(stk, ctx);
    if c == CHE {
      CloseStep(stk, ctx);
    } else if ctx != DictValue {
      OpenStep(stk, ctx, c);
    }
  }

  /** The length of a string, up to its colon. */
  lemma {:induction false} HeadScan(data: bytes, i: nat, st: seq<Container>, n: nat, saved: bool)
    requires n > 0 && Accepts(data, i, LengthIn(st, n))
    ensures HeadFrom(data, i, n).Length?
    ensures var h := HeadFrom(data, i, n);
      && ScanOn(data, LengthIn(st, n), i, saved) == Dec(ContentIn(st, h.n), h.start, ScanInString, saved)
      && Accepts(data, h.start, ContentIn(st, h.n))
    decreases |data| - i
  {
    hide Accepts, Step, ScanOn;
    LengthByte(data, i, st, n, saved);
    if IsDigit(data[i]) {
      HeadScan(data, i + 1, st, n * 10 + (data[i] - CH0), saved);
    }
  }

  lemma LengthByte(data: bytes, i: nat, st: seq<Container>, n: nat, saved: bool)
    requires n > 0 && Accepts(data, i, LengthIn(st, n))
    ensures i < |data| && (IsDigit(data[i]) || data[i] == COLON)
    ensures IsDigit(data[i]) ==> Accepts(data, i + 1, LengthIn(st, n * 10 + (data[i] - CH0)))
    ensures IsDigit(data[i]) ==>
      ScanOn(data, LengthIn(st, n), i, saved) == ScanOn(data, LengthIn(st, n * 10 + (data[i] - CH0)), i + 1, saved)
    ensures data[i] == COLON ==> Accepts(data, i + 1, ContentIn(st, n))
    ensures data[i] == COLON ==>
      ScanOn(data, LengthIn(st, n), i, saved) == Dec(ContentIn(st, n), i + 1, ScanInString, saved)
  {
    AcceptStep(data, i, LengthIn(st, n));
    if IsDigit(data[i]) {
      assert Step(LengthIn(st, n), data[i]) == (LengthIn(st, n * 10 + (data[i] - CH0)), ScanContinue);
    } else if data[i] == COLON {
      assert Step(LengthIn(st, n), data[i]) == (ContentIn(st, n), ScanInString);
    }
    hide Run;
  }

  lemma StrideForgotten(data: bytes, i: nat, stk: seq<Container>, ctx: Container, n: nat, saved: bool)
    requires Accepts(data, i, At(stk, ctx).(stepSize := n))
    ensures i < |data| && Accepts(data, i, At(stk, ctx))
    ensures ScanOn(data, At(stk, ctx).(stepSize := n), i, saved) == Peek(data, i, At(stk, ctx), saved)
  {
    AcceptStep(data, i, At(stk, ctx).(stepSize := n));
    StepInv(At(stk, ctx), data[i]);
    assert At(stk, ctx).(stepSize := n).(stepSize := 1) == At(stk, ctx);
    assert Step(At(stk, ctx).(stepSize := n), data[i]) == Step(At(stk, ctx), data[i]);
    hide Step;
  }

  /** The content of a string, and the byte after it. */
  lemma ContentScanned(data: bytes, i: nat, stk: seq<Container>, ctx: Container, n: nat, saved: bool)
    requires Accepts(data, i, ContentIn(stk + [ctx], n))
    ensures i + n < |data| && Accepts(data, i + n, At(stk, ctx))
    ensures ScanOn(data, ContentIn(stk + [ctx], n), i, saved) == Peek(data, i + n, At(stk, ctx), saved)
  {
    hide Peek;
    AcceptStep(data, i, ContentIn(stk + [ctx], n));
    assert Step(ContentIn(stk + [ctx], n), data[i]) == (At(stk, ctx).(stepSize := n), ScanContinue);
    StrideForgotten(data, i + n, stk, ctx, n, saved);
  }

  // A call is lost when it crashes, when it has lost a container, or when it stops inside a string.
  ghost predicate Lost<T>(r: Result<T>, height: nat) {
    r.Decoded? ==> Height(r.d) < height || r.d.op == ScanInString
  }

  lemma PeekOff(data: bytes, e: nat, stk: seq<Container>, ctx: Container, mode: Mode, saved: bool)
    requires GapOk(ctx, mode) && Accepts(data, e, Gap(stk, ctx, mode))
    ensures Peek(data, e, Gap(stk, ctx, mode), saved).off == e + 1
  {
    AcceptStep(data, e, Gap(stk, ctx, mode));
    var _ := GapStep(stk, ctx, mode, data[e]);
    hide Step;
  }

  // One scan that stops at the next byte.
  lemma OneScan(data: bytes, i: nat, s: Scan, saved: bool)
    requires Inv(s) && i < |data| && Step(s, data[i]).1 != ScanContinue
    ensures ScanOn(data, s, i, saved) == Peek(data, i, s, saved)
    ensures Peek(data, i, s, saved) ==
            Dec(Step(s, data[i]).0, i + Step(s, data[i]).0.stepSize, Step(s, data[i]).1, saved)
  {
    StepInv(s, data[i]);
    hide Step;
  }

  /** The decoder at `d`, just after the first digit of a string at `q`, and the descent: they agree, or are lost. */
  ghost predicate Spells(data: bytes, q: nat, d: Dec, stk: seq<Container>, ctx: Container, mode: Mode)
    requires DecInv(data, d) && d.op in BEGINS
  {
    match StringAt(data, q)
    case Parsed(s, e, _) =>
      && Accepts(data, e, Gap(stk, ctx, mode))
      && StringInterface(data, d) == Decoded(s, Peek(data, e, Gap(stk, ctx, mode), d.saved))
    case Stuck => Lost(StringInterface(data, d), |stk| + 1)
  }

  /** Just after the first digit of a string. */
  function FirstDigit(data: bytes, q: nat, stk: seq<Container>, ctx: Container, saved: bool): (d: Dec)
    requires q < |data| && IsDigit(data[q])
    ensures DecInv(data, d) && d.op in BEGINS
  {
    Dec(LengthIn(stk + [ctx], data[q] - CH0), q + 1, ScanBeginString, saved)
  }

  predicate ZeroThen(data: bytes, q: nat, c: byte) {
    q + 1 < |data| && data[q] == CH0 && data[q + 1] == c
  }

  // A string whose first digit is a zero, by what comes next.
  lemma ZeroColon(data: bytes, q: nat, stk: seq<Container>, ctx: Container, saved: bool)
    requires ZeroThen(data, q, COLON) && Accepts(data, q + 1, LengthIn(stk + [ctx], 0))
    ensures Spells(data, q, FirstDigit(data, q, stk, ctx, saved), stk, ctx, EndValue)
  {
    var s0 := LengthIn(stk + [ctx], 0);
    AcceptStep(data, q + 1, s0);
    assert Step(s0, COLON) == (ContentIn(stk + [ctx], 0), ScanInString);
    OneScan(data, q + 1, s0, saved);
    assert data[q + 2..q + 2] == [];
    ContentScanned(data, q + 2, stk, ctx, 0, saved);
    PeekOff(data, q + 2, stk, ctx, EndValue, saved);
    StringScans(data, FirstDigit(data, q, stk, ctx, saved));
    hide Step, ScanOn, Peek, StringInterface;
  }

  lemma ZeroShut(data: bytes, q: nat, stk: seq<Container>, ctx: Container, saved: bool)
    requires ZeroThen(data, q, CHE) && Accepts(data, q + 1, LengthIn(stk + [ctx], 0))
    ensures Spells(data, q, FirstDigit(data, q, stk, ctx, saved), stk, ctx, EndValue)
  {
    hide Step, ScanOn, Peek, StringInterface;
    var s0 := LengthIn(stk + [ctx], 0);
    ShutStep(stk, ctx);
    OneScan(data, q + 1, s0, saved);
    var d1 := Dec(Done(stk), q + 2, CloseOp(ctx), saved);
    OnHeight(data, d1.s, d1.off, saved);
    StringScans(data, FirstDigit(data, q, stk, ctx, saved));
  }

  lemma ZeroDigit(data: bytes, q: nat, stk: seq<Container>, ctx: Container, saved: bool)
    requires q + 1 < |data| && data[q] == CH0 && IsDigit(data[q + 1]) && Accepts(data, q + 1, LengthIn(stk + [ctx], 0))
    ensures Accepts(data, q + 2, LengthIn(stk + [ctx], data[q + 1] - CH0))
    ensures StringInterface(data, FirstDigit(data, q, stk, ctx, saved)) ==
      var d2 := ScanOn(data, LengthIn(stk + [ctx], data[q + 1] - CH0), q + 2, saved);
      Sliced(Slice(data, q + 2, d2.off - 1), d2)
  {
    hide ScanOn, Peek, StringInterface, Run;
    var s1 := LengthIn(stk + [ctx], data[q + 1] - CH0);
    ZeroDigitScan(data, q + 1, stk + [ctx], saved);
    var d1 := Dec(s1, q + 2, ScanBeginString, saved);
    StringScans(data, FirstDigit(data, q, stk, ctx, saved));
  }

  lemma ZeroDigitScan(data: bytes, i: nat, st: seq<Container>, saved: bool)
    requires i < |data| && IsDigit(data[i]) && Accepts(data, i, LengthIn(st, 0))
    ensures Accepts(data, i + 1, LengthIn(st, data[i] - CH0))
    ensures ScanOn(data, LengthIn(st, 0), i, saved) == Dec(LengthIn(st, data[i] - CH0), i + 1, ScanBeginString, saved)
  {
    AcceptStep(data, i, LengthIn(st, 0));
    assert Step(LengthIn(st, 0), data[i]) == (LengthIn(st, data[i] - CH0), ScanBeginString);
    OneScan(data, i, LengthIn(st, 0), saved);
    hide ScanOn, Run, Peek;
  }

  lemma AfterZeros(data: bytes, i: nat, stk: seq<Container>, ctx: Container, saved: bool)
    requires Accepts(data, i, LengthIn(stk + [ctx], 0))
    ensures i < |data| && (data[i] == CHE || data[i] == COLON || IsDigit(data[i]))
    ensures var d := ScanOn(data, LengthIn(stk + [ctx], 0), i, saved);
      && d == Peek(data, i, Gap(stk, ctx, BeginString), saved) && d.off == i + 1
      && (data[i] == COLON ==> d.op == ScanInString)
  {
    AcceptStep(data, i, LengthIn(stk + [ctx], 0));
    var _ := GapStep(stk, ctx, BeginString, data[i]);
    OneScan(data, i, LengthIn(stk + [ctx], 0), saved);
    PeekOff(data, i, stk, ctx, BeginString, saved);
    hide Step;
  }

  lemma ZeroZero(data: bytes, q: nat, stk: seq<Container>, ctx: Container, saved: bool)
    requires ZeroThen(data, q, CH0) && Accepts(data, q + 1, LengthIn(stk + [ctx], 0))
    ensures Spells(data, q, FirstDigit(data, q, stk, ctx, saved), stk, ctx, BeginString)
  {
    ZeroDigit(data, q, stk, ctx, saved);
    AfterZeros(data, q + 2, stk, ctx, saved);
    assert data[q + 2..q + 2] == [];
    assert Gap(stk, ctx, BeginString) == LengthIn(stk + [ctx], 0);
    hide ScanOn, Peek, StringInterface, Accepts, Gap, LengthIn, HeadFrom, DecInv;
  }

  lemma ZeroNumber(data: bytes, q: nat, stk: seq<Container>, ctx: Container, saved: bool)
    requires q + 1 < |data| && data[q] == CH0 && NonZeroDigitAt(data, q + 1)
    requires Accepts(data, q + 1, LengthIn(stk + [ctx], 0))
    ensures Spells(data, q, FirstDigit(data, q, stk, ctx, saved), stk, ctx, EndValue)
  {
    hide Inv, Run, Step, ScanOn, HeadFrom, StringInterface, Peek;
    ZeroDigit(data, q, stk, ctx, saved);
    HeadScan(data, q + 2, stk + [ctx], data[q + 1] - CH0, saved);
  }

  lemma NumberAt(data: bytes, q: nat, start: nat, n: nat)
    requires NonZeroDigitAt(data, q) && HeadFrom(data, q + 1, data[q] - CH0) == Length(start, n) && start + n <= |data|
    ensures StringAt(data, q) == Parsed(data[start..start + n], start + n, false)
  {
    hide HeadFrom;
    HeadIs(data, q, 0);
  }

  lemma NumberSpells(data: bytes, q: nat, stk: seq<Container>, ctx: Container, saved: bool)
    requires NonZeroDigitAt(data, q) && Accepts(data, q + 1, LengthIn(stk + [ctx], data[q] - CH0))
    ensures Spells(data, q, FirstDigit(data, q, stk, ctx, saved), stk, ctx, EndValue)
  {
    hide HeadFrom, ScanOn, Peek, StringInterface, Run, StringAt, Inv;
    HeadScan(data, q + 1, stk + [ctx], data[q] - CH0, saved);
    var h := HeadFrom(data, q + 1, data[q] - CH0);
    ContentScanned(data, h.start, stk, ctx, h.n, saved);
    NumberAt(data, q, h.start, h.n);
    PeekOff(data, h.start + h.n, stk, ctx, EndValue, saved);
    var d1 := Dec(ContentIn(stk + [ctx], h.n), h.start, ScanInString, saved);
    var d2 := Peek(data, h.start + h.n, At(stk, ctx), saved);
    StringScans(data, FirstDigit(data, q, stk, ctx, saved));
  }

  // What may follow a first digit that is a zero.
  lemma AfterZero(data: bytes, q: nat, stk: seq<Container>, ctx: Container)
    requires q < |data| && data[q] == CH0 && Accepts(data, q + 1, LengthIn(stk + [ctx], 0))
    ensures ZeroThen(data, q, COLON) || ZeroThen(data, q, CHE) || ZeroThen(data, q, CH0) || NonZeroDigitAt(data, q + 1)
  {
    AfterZeros(data, q + 1, stk, ctx, false);
    hide ScanOn, Peek;
  }

  /** A string, from just after its first digit. */
  lemma StringReads(data: bytes, q: nat, stk: seq<Container>, ctx: Container, saved: bool) returns (mode': Mode)
    requires q < |data| && IsDigit(data[q]) && Accepts(data, q + 1, LengthIn(stk + [ctx], data[q] - CH0))
    ensures GapOk(ctx, mode') && Spells(data, q, FirstDigit(data, q, stk, ctx, saved), stk, ctx, mode')
  {
    hide Spells, FirstDigit, LengthIn, Accepts;
    mode' := EndValue;
    if data[q] != CH0 {
      NumberSpells(data, q, stk, ctx, saved);
    } else {
      AfterZero(data, q, stk, ctx);
      if ZeroThen(data, q, COLON) {
        ZeroColon(data, q, stk, ctx, saved);
      } else if ZeroThen(data, q, CHE) {
        ZeroShut(data, q, stk, ctx, saved);
      } else if ZeroThen(data, q, CH0) {
        mode' := BeginString;
        ZeroZero(data, q, stk, ctx, saved);
      } else {
        ZeroNumber(data, q, stk, ctx, saved);
      }
    }
  }

  lemma {:induction false} NumScan(data: bytes, i: nat, st: seq<Container>, saved: bool)
    requires Accepts(data, i, IntIn(st, Num))
    ensures DigitsFrom(data, i).Got? && Accepts(data, DigitsFrom(data, i).end, Outside(st))
    ensures ScanOn(data, IntIn(st, Num), i, saved) ==
            Dec(Outside(st), DigitsFrom(data, i).end, ScanEndInt, saved)
    decreases |data| - i
  {
    AcceptStep(data, i, IntIn(st, Num));
    if IsDigit(data[i]) {
      NumScan(data, i + 1, st, saved);
    }
  }

  // A step within a number.
  lemma NumberStep(data: bytes, i: nat, s: Scan, t: Scan, saved: bool)
    requires Accepts(data, i, s) && Unfinished(s) && i < |data|
    requires Step(s, data[i]) == (t, ScanContinue) && t.stepSize == 1
    ensures Accepts(data, i + 1, t) && ScanOn(data, s, i, saved) == ScanOn(data, t, i + 1, saved)
  {
    AcceptStep(data, i, s);
    hide Step;
  }

  /** The text of an int, from after its `i`. */
  lemma NumberScan(data: bytes, i: nat, st: seq<Container>, saved: bool)
    requires Accepts(data, i, IntIn(st, BeginInt))
    ensures IntFrom(data, i).Got? && Accepts(data, IntFrom(data, i).end, Outside(st))
    ensures ScanOn(data, IntIn(st, BeginInt), i, saved) ==
            Dec(Outside(st), IntFrom(data, i).end, ScanEndInt, saved)
  {
    hide ScanOn;
    var s, num := IntIn(st, BeginInt), IntIn(st, Num);
    AcceptStep(data, i, s);
    if NonZeroDigitAt(data, i) {
      NumberStep(data, i, s, num, saved);
      NumScan(data, i + 1, st, saved);
    } else if data[i] == MINUS {
      var neg := IntIn(st, Neg);
      NumberStep(data, i, s, neg, saved);
      AcceptStep(data, i + 1, neg);
      NumberStep(data, i + 1, neg, num, saved);
      NumScan(data, i + 2, st, saved);
    } else {
      var zero := IntIn(st, Zero);
      NumberStep(data, i, s, zero, saved);
      AcceptStep(data, i + 1, zero);
      OneScan(data, i + 1, zero, saved);
    }
  }

  /** Just after the `i` of an int. */
  function IntStart(q: nat, st: seq<Container>, saved: bool): Dec {
    Dec(IntIn(st, BeginInt), q + 1, ScanBeginInt, saved)
  }

  lemma IntStarts(data: bytes, q: nat, st: seq<Container>, saved: bool)
    requires Accepts(data, q + 1, IntIn(st, BeginInt))
    ensures q + 1 < |data| && DecInv(data, IntStart(q, st, saved))
  {
    AcceptStep(data, q + 1, IntIn(st, BeginInt));
    hide Step;
  }

  lemma IntReads(data: bytes, q: nat, st: seq<Container>, saved: bool)
    requires Accepts(data, q + 1, IntIn(st, BeginInt))
    ensures q + 1 < |data| && DecInv(data, IntStart(q, st, saved)) && IntAt(data, q + 1).Parsed?
    ensures var r := IntAt(data, q + 1);
      && Accepts(data, r.end, Outside(st))
      && IntInterface(data, IntStart(q, st, saved)) ==
         Decoded(r.val, Dec(Outside(st), r.end, ScanEndInt, saved || r.over))
  {
    var d := IntStart(q, st, saved);
    hide Accepts, DecInv, IntFrom, IntInterface, IntAt, Atoi, ScanOn, Step, Outside, IntIn;
    IntStarts(data, q, st, saved);
    NumberScan(data, q + 1, st, saved);
    IntText(data, q + 1);
    IntAtIs(data, q + 1);
    IntScans(data, d);
  }

  lemma IntAtIs(data: bytes, i: nat)
    requires IntFrom(data, i).Got? && i + 1 < IntFrom(data, i).end
    ensures var (n, ok) := Atoi(data[i..IntFrom(data, i).end - 1]);
      IntAt(data, i) == Parsed(n, IntFrom(data, i).end, !ok)
  {
    hide Atoi, IntFrom;
  }

  lemma IntText(data: bytes, i: nat)
    ensures IntFrom(data, i).Got? ==> i + 1 < IntFrom(data, i).end
  {
  }
}
