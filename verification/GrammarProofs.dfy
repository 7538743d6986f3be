/** The scanner accepts exactly the documents of Grammar, and skip stops exactly at the end of a container. */
module GrammarProofs {
  import opened Bytes
  import opened ScanState
  import opened Validity
  import opened Skip
  import opened Grammar

  /** Between two items of the container `ctx`, inside the containers `st`. */
  function At(st: seq<Container>, ctx: Container): Scan {
    Scan(EndValue, false, st + [ctx], false, 1, 0)
  }

  /** Just after a container has closed, inside the containers `st`. */
  function Done(st: seq<Container>): Scan {
    Scan(EndValue, st == [], st, false, 1, 0)
  }

  function CloseOp(ctx: Container): Opcode {
    if ctx == ListValue then ScanEndList else ScanEndDict
  }

  // A dictionary moves on from its key to its value when the value begins.
  function Entered(ctx: Container): Container {
    if ctx == ListValue then ListValue else DictValue
  }

  function Close(data: bytes, j: nat, st: seq<Container>, op: Opcode, depth: nat): Stop
    requires 0 < depth <= |st| + 1
  {
    if |st| < depth then Stopped(j, Done(st), op) else SkipTo(data, j, Done(st), depth)
  }

  lemma TopOf(st: seq<Container>, ctx: Container)
    ensures Top(At(st, ctx)) == ctx && (st + [ctx])[..|st|] == st
    ensures forall c :: SetTop(At(st, ctx), c).stack == st + [c]
  {
  }

  lemma CloseStep(st: seq<Container>, ctx: Container)
    ensures Step(At(st, ctx), CHE) == (Done(st), CloseOp(ctx))
  {
    TopOf(st, ctx);
    if ctx == DictKey {
      var t := SetTop(At(st, ctx), DictValue);
      assert t == At(st, DictValue);
      TopOf(st, DictValue);
      assert StepEndValue(t, CHE) == (Done(st), ScanEndDict);
      assert StepBeginValue(t, CHE) == (Done(st), ScanEndDict);
    }
  }

  // A zero string length may be followed by the `e` of the enclosing container.
  lemma ShutStep(st: seq<Container>, ctx: Container)
    ensures Step(At(st, ctx).(mode := BeginString), CHE) == (Done(st), CloseOp(ctx))
  {
    TopOf(st, ctx);
    var s := At(st, ctx).(mode := BeginString);
    assert Step(s, CHE) == StepEndValue(s, CHE);
    if ctx == DictKey {
      var t := SetTop(s, DictValue);
      assert t == At(st, DictValue).(mode := BeginString);
      TopOf(st, DictValue);
      assert StepEndValue(t, CHE) == (Done(st), ScanEndDict);
      assert StepBeginValue(t, CHE) == (Done(st), ScanEndDict);
    }
  }

  lemma OpenStep(st: seq<Container>, ctx: Container, c: byte)
    requires ctx != DictValue && c != CHE
    ensures Step(At(st, ctx), c) == StepBeginValue(At(st, Entered(ctx)), c)
  {
    TopOf(st, ctx);
    assert SetTop(At(st, ctx), DictValue) == At(st, DictValue);
  }

  // With a container open the stepping after a string starts over at one byte.
  lemma StepSizeForgotten(data: bytes, i: nat, st: seq<Container>, ctx: Container, n: nat, depth: nat)
    requires 0 < depth <= |st| + 1
    ensures SkipTo(data, i, At(st, ctx).(stepSize := n), depth) == SkipTo(data, i, At(st, ctx), depth)
  {
    assert At(st, ctx).(stepSize := n).(stepSize := 1) == At(st, ctx);
  }

  // What skipping from `s` at `i` comes to, when the grammar reads `r` there and then goes on in `next`.
  ghost predicate Skips(data: bytes, i: nat, s: Scan, r: Item, st: seq<Container>, ctx: Container, depth: nat)
    requires Inv(s) && 0 < depth <= |s.stack| == |st| + 1
  {
    SkipTo(data, i, s, depth) ==
    match r
    case Got(j) => SkipTo(data, j, At(st, ctx), depth)
    case Closed(j) => Close(data, j, st, CloseOp(ctx), depth)
    case Bad => OffEnd
  }

  lemma {:induction false} StringSkip(data: bytes, i: nat, n: nat, st: seq<Container>, ctx: Container, depth: nat)
    requires 0 < depth <= |st| + 1
    ensures Skips(data, i, At(st, ctx).(mode := BeginString, stringLen := n), StringFrom(data, i, n), st, ctx, depth)
    decreases |data| - i
  {
    hide SkipTo, Step, HeadFrom, Inv;
    var s := At(st, ctx).(mode := BeginString, stringLen := n);
    StringIs(data, i, n);
    AtInv(st, ctx, n);
    if i >= |data| {
      SkipEnds(data, i, s, depth);
    } else {
      var c := data[i];
      LengthSteps(s, c);
      if IsDigit(c) {
        var t := At(st, ctx).(mode := BeginString, stringLen := n * 10 + (c - CH0));
        SkipOnce(data, i, s, t, Step(s, c).1, depth);
        StringSkip(data, i + 1, n * 10 + (c - CH0), st, ctx, depth);
      } else if c == COLON {
        SkipOnce(data, i, s, s.(mode := InString), ScanInString, depth);
        ContentSkip(data, i + 1, n, st, ctx, depth);
      } else if c == CHE && n == 0 {
        ShutSkip(data, i, st, ctx, depth);
      } else {
        SkipFails(data, i, s, depth);
      }
    }
  }

  lemma AtInv(st: seq<Container>, ctx: Container, n: nat)
    ensures Inv(At(st, ctx).(mode := BeginString, stringLen := n))
  {
  }

  lemma StringIs(data: bytes, i: nat, n: nat)
    ensures i >= |data| ==> StringFrom(data, i, n) == Bad
    ensures i < |data| && IsDigit(data[i]) ==>
              StringFrom(data, i, n) == StringFrom(data, i + 1, n * 10 + (data[i] - CH0))
    ensures i < |data| && data[i] == COLON ==>
              StringFrom(data, i, n) == if i + 1 + n <= |data| then Got(i + 1 + n) else Bad
    ensures i < |data| && data[i] == CHE && n == 0 ==> StringFrom(data, i, n) == Closed(i + 1)
    ensures i < |data| && !IsDigit(data[i]) && data[i] != COLON && !(data[i] == CHE && n == 0) ==>
              StringFrom(data, i, n) == Bad
  {
  }

  lemma ContentSkip(data: bytes, i: nat, n: nat, st: seq<Container>, ctx: Container, depth: nat)
    requires 0 < depth <= |st| + 1
    ensures SkipTo(data, i, At(st, ctx).(mode := InString, stringLen := n), depth) ==
            if i + n <= |data| then SkipTo(data, i + n, At(st, ctx), depth) else OffEnd
  {
    var s, t := At(st, ctx).(mode := InString, stringLen := n), At(st, ctx).(stepSize := n);
    if i >= |data| {
      SkipEnds(data, i, s, depth);
      SkipEnds(data, i + n, At(st, ctx), depth);
    } else {
      SkipOnce(data, i, s, t, ScanContinue, depth);
      StepSizeForgotten(data, i + n, st, ctx, n, depth);
      if i + n > |data| {
        SkipEnds(data, i + n, At(st, ctx), depth);
      }
    }
    hide SkipTo;
  }

  lemma ShutSkip(data: bytes, i: nat, st: seq<Container>, ctx: Container, depth: nat)
    requires 0 < depth <= |st| + 1 && i < |data| && data[i] == CHE
    ensures SkipTo(data, i, At(st, ctx).(mode := BeginString), depth) == Close(data, i + 1, st, CloseOp(ctx), depth)
  {
    ShutStep(st, ctx);
    hide Step;
  }

  lemma {:induction false} DigitsSkip(data: bytes, i: nat, st: seq<Container>, ctx: Container, depth: nat)
    requires 0 < depth <= |st| + 1
    ensures Skips(data, i, At(st, ctx).(mode := Num), DigitsFrom(data, i), st, ctx, depth)
    decreases |data| - i
  {
    var s := At(st, ctx).(mode := Num);
    if i < |data| {
      if IsDigit(data[i]) {
        DigitsSkip(data, i + 1, st, ctx, depth);
      } else if data[i] != CHE {
        ErrorRunsOff(data, i + 1, Fail(s).0, depth);
      }
    }
  }

  lemma IntSkip(data: bytes, i: nat, st: seq<Container>, ctx: Container, depth: nat)
    requires 0 < depth <= |st| + 1
    ensures Skips(data, i, At(st, ctx).(mode := BeginInt), IntFrom(data, i), st, ctx, depth)
  {
    var s := At(st, ctx).(mode := BeginInt);
    if i < |data| {
      if NonZeroDigitAt(data, i) {
        DigitsSkip(data, i + 1, st, ctx, depth);
      } else if data[i] == MINUS {
        if NonZeroDigitAt(data, i + 1) {
          assert SkipTo(data, i + 1, s.(mode := Neg), depth) == SkipTo(data, i + 2, s.(mode := Num), depth);
          DigitsSkip(data, i + 2, st, ctx, depth);
        } else if i + 1 < |data| {
          ErrorRunsOff(data, i + 2, Fail(s).0, depth);
        }
      } else if data[i] == CH0 {
        if i + 1 < |data| && data[i + 1] != CHE {
          ErrorRunsOff(data, i + 2, Fail(s).0, depth);
        }
      } else {
        ErrorRunsOff(data, i + 1, Fail(s).0, depth);
      }
    }
  }

  // A container that the grammar ends at j closes itself there.
  function AsClosed(r: Item): Item {
    if r.Got? then Closed(r.end) else r
  }

  lemma {:induction false} ItemSkip(data: bytes, i: nat, st: seq<Container>, ctx: Container, depth: nat)
    requires 0 < depth <= |st| + 1 && ctx != DictValue
    ensures Skips(data, i, At(st, ctx), ItemAt(data, i), st, Entered(ctx), depth)
    decreases |data| - i, 0
  {
    if i < |data| {
      var c := data[i];
      var s := At(st, Entered(ctx));
      var st' := st + [Entered(ctx)];
      if c == CHE {
        CloseStep(st, ctx);
      } else {
        OpenStep(st, ctx, c);
        if c == CHD {
          FirstKeySkip(data, i + 1, st', depth);
          assert Done(st') == s;
        } else if c == CHL {
          BeginList(data, i + 1, st', depth);
          ListSkip(data, i + 1, st', depth);
          assert Done(st') == s;
        } else if c == CHI {
          IntSkip(data, i + 1, st, Entered(ctx), depth);
        } else if IsDigit(c) {
          StringSkip(data, i + 1, c - CH0, st, Entered(ctx), depth);
        } else {
          ErrorRunsOff(data, i + 1, Fail(s).0, depth);
        }
      }
    }
  }

  // The first item of a list is awaited in BeginValue, the others in EndValue.
  lemma BeginListStep(st: seq<Container>, c: byte)
    ensures Step(At(st, ListValue).(mode := BeginValue), c) == Step(At(st, ListValue), c)
  {
    TopOf(st, ListValue);
    var s := At(st, ListValue).(mode := BeginValue);
    if c == CHE {
      CloseStep(st, ListValue);
      assert Step(s, CHE) == StepEndValue(s, CHE);
    } else {
      OpenStep(st, ListValue, c);
      assert Step(s, c) == StepBeginValue(s, c);
    }
  }

  lemma BeginList(data: bytes, i: nat, st: seq<Container>, depth: nat)
    requires 0 < depth <= |st| + 1
    ensures SkipTo(data, i, At(st, ListValue).(mode := BeginValue), depth) == SkipTo(data, i, At(st, ListValue), depth)
  {
    if i < |data| {
      BeginListStep(st, data[i]);
    }
  }

  lemma {:induction false} ListSkip(data: bytes, i: nat, st: seq<Container>, depth: nat)
    requires 0 < depth <= |st| + 1
    ensures Skips(data, i, At(st, ListValue), AsClosed(ListFrom(data, i)), st, ListValue, depth)
    decreases |data| - i, 1
  {
    ItemSkip(data, i, st, ListValue, depth);
    match ItemAt(data, i)
    case Got(j) => ListSkip(data, j, st, depth);
    case _ =>
  }

  lemma {:induction false} FirstKeySkip(data: bytes, i: nat, st: seq<Container>, depth: nat)
    requires 0 < depth <= |st| + 1
    ensures Skips(data, i, At(st, DictKey).(mode := BeginString), AsClosed(FirstKey(data, i)), st, DictKey, depth)
    decreases |data| - i, 1
  {
    StringSkip(data, i, 0, st, DictKey, depth);
    match StringFrom(data, i, 0)
    case Got(j) => DictValueSkip(data, j, st, depth);
    case _ =>
  }

  lemma {:induction false} DictValueSkip(data: bytes, i: nat, st: seq<Container>, depth: nat)
    requires 0 < depth <= |st| + 1
    ensures Skips(data, i, At(st, DictKey), AsClosed(DictValueAt(data, i)), st, DictKey, depth)
    decreases |data| - i, 1
  {
    ItemSkip(data, i, st, DictKey, depth);
    match ItemAt(data, i)
    case Got(j) => NextKeySkip(data, j, st, depth);
    case _ =>
  }

  lemma {:induction false} NextKeySkip(data: bytes, i: nat, st: seq<Container>, depth: nat)
    requires 0 < depth <= |st| + 1
    ensures Skips(data, i, At(st, DictValue), AsClosed(NextKey(data, i)), st, DictKey, depth)
    decreases |data| - i, 1
  {
    var s := At(st, DictValue);
    if i < |data| {
      TopOf(st, DictValue);
      if NonZeroDigitAt(data, i) {
        var n := data[i] - CH0;
        assert SetTop(s, DictKey) == At(st, DictKey);
        StringSkip(data, i + 1, n, st, DictKey, depth);
        match StringFrom(data, i + 1, n)
        case Got(j) => DictValueSkip(data, j, st, depth);
        case _ =>
      } else if data[i] == CHE {
        CloseStep(st, DictValue);
      } else {
        ErrorRunsOff(data, i + 1, Fail(s).0, depth);
      }
    }
  }

  // After the top-level value, every stepSize-th byte must be white space.
  lemma {:induction false} TrailRun(data: bytes, i: nat, s: Scan)
    requires Inv(s) && s.stack == [] && s.mode in {EndValue, EndTop} && s.stepSize > 0
    ensures Run(data, i, s) == Accept <==> i <= |data| && BlankEvery(data, i, s.stepSize)
    decreases Left(data, i)
  {
    if i < |data| {
      var s' := Step(s, data[i]).0;
      if IsSpace(data[i]) {
        TrailRun(data, i + s.stepSize, s');
      } else {
        FailedRejects(data, i + s.stepSize, s');
      }
    }
  }

  lemma FailedRejects(data: bytes, i: nat, s: Scan)
    requires Inv(s) && s.failed
    ensures Run(data, i, s) == Reject
  {
  }

  const TOP := Done([]).(endTop := false)

  lemma TopContentRun(data: bytes, i: nat, n: nat)
    ensures Run(data, i, TOP.(mode := InString, stringLen := n)) == Accept <==>
            n > 0 && i + n <= |data| && BlankEvery(data, i + n, n)
  {
    var s := TOP.(mode := InString, stringLen := n);
    if i < |data| {
      var s1 := Step(s, data[i]).0;
      if n > 0 {
        TrailRun(data, i + n, s1);
      } else {
        var s2 := Step(s1, data[i]).0;
        assert Run(data, i, s) == Run(data, i, s1) == Run(data, i, s2);
      }
    }
  }

  lemma {:induction false} TopStringRun(data: bytes, i: nat, n: nat)
    ensures Run(data, i, TOP.(mode := BeginString, stringLen := n)) == Accept <==>
            match HeadFrom(data, i, n)
            case Length(start, m) => m > 0 && start + m <= |data| && BlankEvery(data, start + m, m)
            case _ => false
    decreases |data| - i
  {
    hide Run, Step, HeadFrom, Inv, BlankEvery;
    var s := TOP.(mode := BeginString, stringLen := n);
    HeadIs(data, i, n);
    TopInv(n);
    if i < |data| {
      var c := data[i];
      LengthSteps(s, c);
      if IsDigit(c) {
        RunOnce(data, i, s, s.(stringLen := n * 10 + (c - CH0)), Step(s, c).1);
        TopStringRun(data, i + 1, n * 10 + (c - CH0));
      } else if c == COLON {
        RunOnce(data, i, s, s.(mode := InString), ScanInString);
        TopContentRun(data, i + 1, n);
      } else if c == CHE && n == 0 {
        TopShutRun(data, i);
      } else {
        RunFails(data, i, s);
      }
    } else {
      TopStringEnds(data, i, n);
    }
  }

  lemma TopInv(n: nat)
    ensures Inv(TOP.(mode := BeginString, stringLen := n))
  {
  }

  lemma HeadIs(data: bytes, i: nat, n: nat)
    ensures i >= |data| ==> HeadFrom(data, i, n) == NoHead
    ensures i < |data| && IsDigit(data[i]) ==>
              HeadFrom(data, i, n) == HeadFrom(data, i + 1, n * 10 + (data[i] - CH0))
    ensures i < |data| && data[i] == COLON ==> HeadFrom(data, i, n) == Length(i + 1, n)
    ensures i < |data| && !IsDigit(data[i]) && data[i] != COLON ==> !HeadFrom(data, i, n).Length?
  {
  }

  lemma TopStringEnds(data: bytes, i: nat, n: nat)
    requires i >= |data|
    ensures Run(data, i, TOP.(mode := BeginString, stringLen := n)) == Reject
  {
  }

  // Outside any container a zero length and an `e` is an error, though the opcode does not say so.
  lemma TopShutRun(data: bytes, i: nat)
    requires i < |data| && data[i] == CHE
    ensures Run(data, i, TOP.(mode := BeginString)) == Reject
  {
    var s := TOP.(mode := BeginString);
    var t := Step(s, CHE).0;
    assert Step(s, CHE).1 == ScanEnd && t.failed && t.stepSize == 1;
    RunOnce(data, i, s, t, ScanEnd);
    FailedRejects(data, i + 1, t);
    hide Run;
  }

  lemma {:induction false} TopDigitsRun(data: bytes, i: nat)
    ensures Run(data, i, TOP.(mode := Num)) == Accept <==>
            match DigitsFrom(data, i) case Got(j) => BlankEvery(data, j, 1) case _ => false
    decreases |data| - i
  {
    if i < |data| {
      if IsDigit(data[i]) {
        TopDigitsRun(data, i + 1);
      } else if data[i] == CHE {
        TrailRun(data, i + 1, TOP);
      }
    }
  }

  lemma TopIntRun(data: bytes, i: nat)
    ensures Run(data, i, TOP.(mode := BeginInt)) == Accept <==>
            match IntFrom(data, i) case Got(j) => BlankEvery(data, j, 1) case _ => false
  {
    hide Run, DigitsFrom, BlankEvery, Inv;
    var s, num := TOP.(mode := BeginInt), TOP.(mode := Num);
    TopIntInv();
    if i >= |data| {
      TopIntEnds(data, i, s);
    } else if NonZeroDigitAt(data, i) {
      RunOnce(data, i, s, num, ScanContinue);
      TopDigitsRun(data, i + 1);
    } else if data[i] == MINUS {
      var neg := s.(mode := Neg);
      RunOnce(data, i, s, neg, ScanContinue);
      if NonZeroDigitAt(data, i + 1) {
        RunOnce(data, i + 1, neg, num, ScanContinue);
        TopDigitsRun(data, i + 2);
      } else if i + 1 < |data| {
        RunFails(data, i + 1, neg);
      } else {
        TopIntEnds(data, i + 1, neg);
      }
    } else if data[i] == CH0 {
      var zero := s.(mode := Zero);
      RunOnce(data, i, s, zero, ScanContinue);
      if i + 1 >= |data| {
        TopIntEnds(data, i + 1, zero);
      } else if data[i + 1] == CHE {
        RunOnce(data, i + 1, zero, TOP, ScanEndInt);
        TrailRun(data, i + 2, TOP);
      } else {
        RunFails(data, i + 1, zero);
      }
    } else {
      RunFails(data, i, s);
    }
  }

  lemma TopIntInv()
    ensures Inv(TOP) && forall m | m in {BeginInt, Neg, Zero, Num} :: Inv(TOP.(mode := m))
  {
  }

  lemma TopIntEnds(data: bytes, i: nat, s: Scan)
    requires i >= |data| && Inv(s) && s.mode in {BeginInt, Neg, Zero, Num}
    ensures Run(data, i, s) == Reject
  {
  }

  lemma TopContainerRun(data: bytes, i: nat, s: Scan, r: Item, ctx: Container)
    requires Inv(s) && |s.stack| == 1 && !r.Got? && (r.Closed? ==> r.end <= |data|)
    requires Skips(data, i, s, r, [], ctx, 1)
    ensures Run(data, i, s) == Accept <==> r.Closed? && BlankEvery(data, r.end, 1)
  {
    RunThroughSkip(data, i, s, 1);
    if r.Closed? {
      TrailRun(data, r.end, Done([]));
    }
  }

  // The first byte of a container, an int and a string.
  lemma DictAccepted(data: bytes)
    requires data != [] && data[0] == CHD
    ensures Check(data) == Accept <==> FirstKey(data, 1).Got? && BlankEvery(data, FirstKey(data, 1).end, 1)
  {
    var s := At([], DictKey).(mode := BeginString);
    assert Step(FRESH, CHD) == (s, ScanBeginDict);
    RunOnce(data, 0, FRESH, s, ScanBeginDict);
    hide Run, SkipTo, Step, FirstKey, BlankEvery;
    FirstKeySkip(data, 1, [], 1);
    TopContainerRun(data, 1, s, AsClosed(FirstKey(data, 1)), DictKey);
  }

  lemma ListAccepted(data: bytes)
    requires data != [] && data[0] == CHL
    ensures Check(data) == Accept <==> ListFrom(data, 1).Got? && BlankEvery(data, ListFrom(data, 1).end, 1)
  {
    var s := At([], ListValue).(mode := BeginValue);
    assert Step(FRESH, CHL) == (s, ScanBeginList);
    RunOnce(data, 0, FRESH, s, ScanBeginList);
    hide Run, SkipTo, Step, ListFrom, BlankEvery;
    BeginList(data, 1, [], 1);
    ListSkip(data, 1, [], 1);
    TopContainerRun(data, 1, s, AsClosed(ListFrom(data, 1)), ListValue);
  }

  lemma IntAccepted(data: bytes)
    requires data != [] && data[0] == CHI
    ensures Check(data) == Accept <==> IntFrom(data, 1).Got? && BlankEvery(data, IntFrom(data, 1).end, 1)
  {
    var s := TOP.(mode := BeginInt);
    assert Step(FRESH, CHI) == (s, ScanBeginInt);
    RunOnce(data, 0, FRESH, s, ScanBeginInt);
    TopIntRun(data, 1);
    hide Run, IntFrom, BlankEvery;
  }

  lemma StringAccepted(data: bytes)
    requires data != [] && IsDigit(data[0])
    ensures Check(data) == Accept <==>
            match HeadFrom(data, 1, data[0] - CH0)
            case Length(start, m) => m > 0 && start + m <= |data| && BlankEvery(data, start + m, m)
            case _ => false
  {
    hide Run, HeadFrom, BlankEvery;
    var s := TOP.(mode := BeginString, stringLen := data[0] - CH0);
    assert Step(FRESH, data[0]) == (s, ScanBeginString);
    RunOnce(data, 0, FRESH, s, ScanBeginString);
    TopStringRun(data, 1, data[0] - CH0);
  }

  lemma NothingElseAccepted(data: bytes)
    requires data == [] || (data[0] !in {CHD, CHL, CHI} && !IsDigit(data[0]))
    ensures Check(data) == Reject
  {
    if data != [] {
      if data[0] == CHE {
        var t := Step(FRESH, CHE).0;
        assert Step(FRESH, CHE).1 == ScanEnd && t.failed && t.stepSize == 1;
        RunOnce(data, 0, FRESH, t, ScanEnd);
        FailedRejects(data, 1, t);
      } else {
        RunFails(data, 0, FRESH);
      }
      hide Run;
    }
  }

  /** checkValid accepts exactly the documents of the grammar. */
  lemma AcceptExactly(data: bytes)
    ensures Check(data) == Accept <==> Document(data)
  {
    if data == [] {
      NothingElseAccepted(data);
    } else if data[0] == CHD {
      DictAccepted(data);
    } else if data[0] == CHL {
      ListAccepted(data);
    } else if data[0] == CHI {
      IntAccepted(data);
    } else if IsDigit(data[0]) {
      StringAccepted(data);
    } else {
      NothingElseAccepted(data);
    }
    hide Check, FirstKey, ListFrom, IntFrom, HeadFrom, BlankEvery;
  }

  /**
   * Balanced acceptance: an input that begins with a container or an int is accepted exactly if it is one
   * value and then white space only; and a container ends just where, skipping along, no container is open
   * any more.
   */
  lemma BalancedAcceptance(data: bytes)
    requires data != [] && data[0] in {CHD, CHL, CHI}
    ensures Check(data) == Accept <==>
            ItemAt(data, 0).Got? && forall j | ItemAt(data, 0).end <= j < |data| :: IsSpace(data[j])
    ensures data[0] != CHI ==>
            var op := if data[0] == CHL then ScanEndList else ScanEndDict;
            SkipTo(data, 1, Step(FRESH, data[0]).0, 1) ==
            if ItemAt(data, 0).Got? then Stopped(ItemAt(data, 0).end, Done([]), op) else OffEnd
  {
    AcceptExactly(data);
    if ItemAt(data, 0).Got? {
      BlankEveryByte(data, ItemAt(data, 0).end);
    }
    if data[0] == CHD {
      FirstKeySkip(data, 1, [], 1);
    } else if data[0] == CHL {
      BeginList(data, 1, [], 1);
      ListSkip(data, 1, [], 1);
    }
  }
}
