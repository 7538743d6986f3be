/** The scanner object of bencode/scanner.go: its fields are updated in place by one method per state. */
module Scanner {
  import opened Bytes
  import opened ScanState
  import opened Validity

  class Scanner {
    var step: Mode
    var endTop: bool
    var parseState: seq<Container>
    var err: bool
    var stepSize: nat
    var stringLen: nat

    function View(): Scan
      reads this
    {
      Scan(step, endTop, parseState, err, stepSize, stringLen)
    }

    constructor ()
      ensures stringLen == 0
    {
      step, endTop, parseState, err, stepSize, stringLen := BeginValue, false, [], false, 0, 0;
    }

    method Reset()
      modifies this
      ensures View() == ScanState.Reset(old(View()))
    {
      step := BeginValue;
      parseState := [];
      stepSize := 1;
      err := false;
      endTop := false;
    }

    method PushParseState(p: Container)
      modifies this
      ensures View() == Push(old(View()), p)
    {
      parseState := parseState + [p];
    }

    method PopParseState()
      requires parseState != []
      modifies this
      ensures View() == Pop(old(View()))
    {
      var n := |parseState| - 1;
      parseState := parseState[..n];
      if n == 0 {
        step := EndTop;
        endTop := true;
      } else {
        step := EndValue;
      }
    }

    method Error() returns (op: Opcode)
      modifies this
      ensures (View(), op) == Fail(old(View()))
    {
      step := Failed;
      err := true;
      op := ScanError;
    }

    method StateBeginValue(c: byte) returns (op: Opcode)
      modifies this
      ensures (View(), op) == StepBeginValue(old(View()), c)
      decreases Bounces(View()), if c == CHE then 1 else 0
    {
      if c == CHD {
        step := BeginString;
        PushParseState(DictKey);
        return ScanBeginDict;
      } else if c == CHL {
        step := BeginValue;
        PushParseState(ListValue);
        return ScanBeginList;
      } else if c == CHI {
        step := BeginInt;
        return ScanBeginInt;
      } else if c == CHE {
        op := StateEndValue(c);
        return;
      }
      if IsDigit(c) {
        step := BeginString;
        stringLen := c - CH0;
        return ScanBeginString;
      }
      op := Error();
    }

    method StateEndValue(c: byte) returns (op: Opcode)
      modifies this
      ensures (View(), op) == StepEndValue(old(View()), c)
      decreases Bounces(View()), if c == CHE then 0 else 1
    {
      var n := |parseState|;
      if n == 0 {
        step := EndTop;
        endTop := true;
        op := StateEndTop(c);
        return;
      }
      stepSize := 1;
      match parseState[n - 1]
      case DictKey =>
        parseState := parseState[n - 1 := DictValue];
        op := StateBeginValue(c);
      case DictValue =>
        if CH0 < c <= CH9 {
          parseState := parseState[n - 1 := DictKey];
          step := BeginString;
          stringLen := c - CH0;
          return ScanBeginString;
        } else if c == CHE {
          PopParseState();
          step := EndValue;
          return ScanEndDict;
        }
        op := Error();
      case ListValue =>
        if c != CHE {
          op := StateBeginValue(c);
          return;
        }
        PopParseState();
        step := EndValue;
        op := ScanEndList;
    }

    method StateBeginString(c: byte) returns (op: Opcode)
      modifies this
      ensures (View(), op) == StepBeginString(old(View()), c)
    {
      if IsDigit(c) {
        if stringLen == 0 {
          stringLen := c - CH0;
          return ScanBeginString;
        }
        stringLen := stringLen * 10 + (c - CH0);
        return ScanContinue;
      } else if c == COLON {
        step := InString;
        return ScanInString;
      } else if c == CHE && stringLen == 0 {
        op := StateEndValue(c);
        return;
      }
      op := Error();
    }

    method StateInString(c: byte) returns (op: Opcode)
      modifies this
      ensures (View(), op) == StepInString(old(View()), c)
    {
      stepSize := stringLen;
      stringLen := 0;
      step := EndValue;
      op := ScanContinue;
    }

    method StateBeginInt(c: byte) returns (op: Opcode)
      modifies this
      ensures (View(), op) == StepBeginInt(old(View()), c)
    {
      if c == MINUS {
        step := Neg;
        return ScanContinue;
      } else if c == CH0 {
        step := Zero;
        return ScanContinue;
      } else if CH0 < c <= CH9 {
        step := Num;
        return ScanContinue;
      }
      op := Error();
    }

    method StateNeg(c: byte) returns (op: Opcode)
      modifies this
      ensures (View(), op) == StepNeg(old(View()), c)
    {
      if CH0 < c <= CH9 {
        step := Num;
        return ScanContinue;
      }
      op := Error();
    }

    method StateZero(c: byte) returns (op: Opcode)
      modifies this
      ensures (View(), op) == StepZero(old(View()), c)
    {
      if c == CHE {
        step := EndValue;
        return ScanEndInt;
      }
      op := Error();
    }

    method StateNum(c: byte) returns (op: Opcode)
      modifies this
      ensures (View(), op) == StepNum(old(View()), c)
    {
      if IsDigit(c) {
        return ScanContinue;
      } else if c == CHE {
        step := EndValue;
        return ScanEndInt;
      }
      op := Error();
    }

    method StateEndTop(c: byte) returns (op: Opcode)
      modifies this
      ensures (View(), op) == StepEndTop(old(View()), c)
    {
      if !IsSpace(c) {
        var _ := Error();
      }
      op := ScanEnd;
    }

    /** Calling the current step function. */
    method CallStep(c: byte) returns (op: Opcode)
      modifies this
      ensures (View(), op) == Step(old(View()), c)
    {
      match step
      case BeginValue => op := StateBeginValue(c);
      case EndValue => op := StateEndValue(c);
      case BeginString => op := StateBeginString(c);
      case InString => op := StateInString(c);
      case BeginInt => op := StateBeginInt(c);
      case Neg => op := StateNeg(c);
      case Zero => op := StateZero(c);
      case Num => op := StateNum(c);
      case EndTop => op := StateEndTop(c);
      case Failed => op := ScanError;
    }

    method AtEof() returns (op: Opcode)
      modifies this
      ensures (View(), op) == Eof(old(View()))
    {
      if err {
        return ScanError;
      }
      if endTop {
        return ScanEnd;
      }
      var _ := CallStep(32);
      if endTop {
        return ScanEnd;
      }
      err := true;
      op := ScanError;
    }
  }

  /** A scanner with no string length pending decides `Check`, and has none pending when it accepts. */
  method CheckValid(data: bytes, scan: Scanner) returns (ok: bool)
    requires scan.stringLen == 0
    requires !EmptyStringThenSpace(data)
    modifies scan
    ensures ok <==> Check(data) == Accept
    ensures ok ==> scan.stringLen == 0
  {
    hide Step, Run, Check, Inv, Left, Rank, Eof, EmptyStringThenSpace;
    scan.Reset();
    ghost var s := scan.View();
    var i: nat := 0;
    RunBegins(data, s);
    while i != |data|
      invariant s == scan.View() && Inv(s) && Run(data, i, s) == Check(data) != Loop
      decreases Left(data, i), Rank(s.mode)
    {
      RunStep(data, i, s);
      if i > |data| {
        return false;
      }
      var op := scan.CallStep(data[i]);
      s := Step(s, data[i]).0;
      if op == ScanError {
        return false;
      }
      i := i + scan.stepSize;
    }
    RunEnds(data, s);
    var op := scan.AtEof();
    ok := op != ScanError;
  }

  lemma RunBegins(data: bytes, s: Scan)
    requires s == FRESH && !EmptyStringThenSpace(data)
    ensures Inv(s) && Run(data, 0, s) == Check(data) != Loop
  {
    LoopExactly(data);
    hide Run;
  }

  // One iteration of the loop, when it does not run for ever.
  lemma RunStep(data: bytes, i: nat, s: Scan)
    requires Inv(s) && i != |data| && Run(data, i, s) != Loop
    ensures i > |data| ==> Run(data, i, s) == Reject
    ensures i < |data| ==>
      var (s', op) := Step(s, data[i]);
      if op == ScanError then Run(data, i, s) == Reject
      else
        && Inv(s') && Run(data, i, s) == Run(data, i + s'.stepSize, s')
        && (Left(data, i + s'.stepSize) < Left(data, i) ||
            (Left(data, i + s'.stepSize) == Left(data, i) && Rank(s'.mode) < Rank(s.mode)))
  {
    hide Step;
    if i < |data| {
      StepProgress(s, data[i]);
    }
  }

  lemma RunEnds(data: bytes, s: Scan)
    requires Inv(s)
    ensures Run(data, |data|, s) == Accept <==> Eof(s).1 != ScanError
    ensures Eof(s).1 != ScanError ==> Eof(s).0.stringLen == 0
  {
    EofClears(s);
  }

  lemma EofClears(s: Scan)
    requires Inv(s)
    ensures Eof(s).1 != ScanError ==> Eof(s).0.stringLen == 0
  {
    StepInv(s, 32);
  }

  /** `Valid`: whether `data` is accepted, asked of a new scanner. */
  method Valid(data: bytes) returns (ok: bool)
    requires !EmptyStringThenSpace(data)
    ensures ok <==> Check(data) == Accept
  {
    var scan := new Scanner();
    ok := CheckValid(data, scan);
  }
}
