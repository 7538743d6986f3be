/** The scanner of bencode/scanner.go as a pure transition function on its state. */
module ScanState {
  import opened Bytes

  // The value of the `step` function variable.
  datatype Mode =
    | BeginValue | EndValue | BeginString | InString
    | BeginInt | Neg | Zero | Num | EndTop | Failed

  datatype Opcode =
    | ScanContinue
    | ScanBeginString | ScanInString
    | ScanBeginInt | ScanEndInt
    | ScanBeginDict | ScanEndDict
    | ScanBeginList | ScanEndList
    | ScanEnd | ScanError

  // What an open container expects: a dictionary reading a key or a value, or a list.
  datatype Container = DictKey | DictValue | ListValue

  datatype Scan = Scan(
    mode: Mode,
    endTop: bool,
    stack: seq<Container>,
    failed: bool,
    stepSize: nat,
    stringLen: nat)

  const DEPTH_OPENING := {ScanBeginDict, ScanBeginList}
  const DEPTH_CLOSING := {ScanEndDict, ScanEndList}

  /** `reset` keeps the pending string length. */
  function Reset(s: Scan): Scan {
    s.(mode := BeginValue, stack := [], stepSize := 1, failed := false, endTop := false)
  }

  const FRESH := Scan(BeginValue, false, [], false, 1, 0)

  function Push(s: Scan, p: Container): Scan {
    s.(stack := s.stack + [p])
  }

  function Pop(s: Scan): Scan
    requires s.stack != []
  {
    var st := s.stack[..|s.stack| - 1];
    if st == [] then s.(stack := st, mode := EndTop, endTop := true) else s.(stack := st, mode := EndValue)
  }

  function SetTop(s: Scan, p: Container): Scan
    requires s.stack != []
  {
    s.(stack := s.stack[|s.stack| - 1 := p])
  }

  function Top(s: Scan): Container
    requires s.stack != []
  {
    s.stack[|s.stack| - 1]
  }

  function Fail(s: Scan): (Scan, Opcode) {
    (s.(mode := Failed, failed := true), ScanError)
  }

  // How many times `e` can still bounce between StepBeginValue and StepEndValue.
  function Bounces(s: Scan): nat {
    if s.stack != [] && Top(s) == DictKey then 1 else 0
  }

  function StepBeginValue(s: Scan, c: byte): (Scan, Opcode)
    decreases Bounces(s), if c == CHE then 1 else 0
  {
    if c == CHD then (Push(s.(mode := BeginString), DictKey), ScanBeginDict)
    else if c == CHL then (Push(s.(mode := BeginValue), ListValue), ScanBeginList)
    else if c == CHI then (s.(mode := BeginInt), ScanBeginInt)
    else if c == CHE then StepEndValue(s, c)
    else if IsDigit(c) then (s.(mode := BeginString, stringLen := c - CH0), ScanBeginString)
    else Fail(s)
  }

  function StepEndValue(s: Scan, c: byte): (Scan, Opcode)
    decreases Bounces(s), if c == CHE then 0 else 1
  {
    if s.stack == [] then StepEndTop(s.(mode := EndTop, endTop := true), c)
    else
      var s := s.(stepSize := 1);
      match Top(s)
      case DictKey => StepBeginValue(SetTop(s, DictValue), c)
      case DictValue =>
        if CH0 < c <= CH9 then
          (SetTop(s, DictKey).(mode := BeginString, stringLen := c - CH0), ScanBeginString)
        else if c == CHE then (Pop(s).(mode := EndValue), ScanEndDict)
        else Fail(s)
      case ListValue =>
        if c != CHE then StepBeginValue(s, c) else (Pop(s).(mode := EndValue), ScanEndList)
  }

  function StepBeginString(s: Scan, c: byte): (Scan, Opcode) {
    if IsDigit(c) then
      if s.stringLen == 0 then (s.(stringLen := c - CH0), ScanBeginString)
      else (s.(stringLen := s.stringLen * 10 + (c - CH0)), ScanContinue)
    else if c == COLON then (s.(mode := InString), ScanInString)
    else if c == CHE && s.stringLen == 0 then StepEndValue(s, c)
    else Fail(s)
  }

  function StepInString(s: Scan, c: byte): (Scan, Opcode) {
    (s.(stepSize := s.stringLen, stringLen := 0, mode := EndValue), ScanContinue)
  }

  function StepBeginInt(s: Scan, c: byte): (Scan, Opcode) {
    if c == MINUS then (s.(mode := Neg), ScanContinue)
    else if c == CH0 then (s.(mode := Zero), ScanContinue)
    else if CH0 < c <= CH9 then (s.(mode := Num), ScanContinue)
    else Fail(s)
  }

  function StepNeg(s: Scan, c: byte): (Scan, Opcode) {
    if CH0 < c <= CH9 then (s.(mode := Num), ScanContinue) else Fail(s)
  }

  function StepZero(s: Scan, c: byte): (Scan, Opcode) {
    if c == CHE then (s.(mode := EndValue), ScanEndInt) else Fail(s)
  }

  function StepNum(s: Scan, c: byte): (Scan, Opcode) {
    if IsDigit(c) then (s, ScanContinue)
    else if c == CHE then (s.(mode := EndValue), ScanEndInt)
    else Fail(s)
  }

  // A byte after the top-level value that is not white space sets the error, yet the opcode is ScanEnd.
  function StepEndTop(s: Scan, c: byte): (Scan, Opcode) {
    (if IsSpace(c) then s else Fail(s).0, ScanEnd)
  }

  /** One call of the current step function. */
  function Step(s: Scan, c: byte): (Scan, Opcode) {
    match s.mode
    case BeginValue => StepBeginValue(s, c)
    case EndValue => StepEndValue(s, c)
    case BeginString => StepBeginString(s, c)
    case InString => StepInString(s, c)
    case BeginInt => StepBeginInt(s, c)
    case Neg => StepNeg(s, c)
    case Zero => StepZero(s, c)
    case Num => StepNum(s, c)
    case EndTop => StepEndTop(s, c)
    case Failed => (s, ScanError)
  }

  // The next byte of a string length.
  lemma LengthSteps(s: Scan, c: byte)
    requires s.mode == BeginString
    ensures IsDigit(c) ==>
      Step(s, c) ==
      (s.(stringLen := s.stringLen * 10 + (c - CH0)), if s.stringLen == 0 then ScanBeginString else ScanContinue)
    ensures c == COLON ==> Step(s, c) == (s.(mode := InString), ScanInString)
    ensures !IsDigit(c) && c != COLON && !(c == CHE && s.stringLen == 0) ==> Step(s, c) == Fail(s)
  {
  }

  /** The end of the input, probed with a blank. */
  function Eof(s: Scan): (Scan, Opcode) {
    if s.failed then (s, ScanError)
    else if s.endTop then (s, ScanEnd)
    else
      var s' := Step(s, 32).0;
      if s'.endTop then (s', ScanEnd) else (s'.(failed := true), ScanError)
  }

  /** What every run of steps from a reset scanner keeps. */
  predicate Inv(s: Scan) {
    && (s.endTop ==> s.stack == [] && s.mode in {EndValue, EndTop, Failed})
    && (s.mode == EndTop ==> s.endTop)
    && (s.failed <==> s.mode == Failed)
    && (s.stringLen != 0 ==> s.mode in {BeginString, InString, Failed})
    && (s.mode !in {EndValue, EndTop, Failed} ==> s.stepSize == 1)
    && (s.mode == Failed && s.stack != [] ==> s.stepSize == 1)
    && (s.mode == BeginValue && s.stack != [] ==> Top(s) == ListValue)
  }

  function Depth(op: Opcode): int {
    if op in DEPTH_OPENING then 1 else if op in DEPTH_CLOSING then -1 else 0
  }

  // What one step from `s` on `c` guarantees of its result.
  predicate GoodStep(s: Scan, c: byte, r: (Scan, Opcode)) {
    && Inv(r.0)
    && |r.0.stack| == |s.stack| + Depth(r.1)
    && (Depth(r.1) < 0 ==> c == CHE)
    && (r.1 in BEGINS ==> r.0.stepSize == 1 && r.0.mode in {BeginValue, BeginString, BeginInt})
    && (r.1 == ScanBeginInt ==> r.0.mode == BeginInt)
    && (s.mode == EndValue ==> r.1 != ScanContinue && (s.stack != [] ==> r.0.stepSize == 1))
    && (r.0.failed <==> r.1 == ScanError || (r.1 == ScanEnd && !IsSpace(c)))
    && (r.0.stepSize == 0 ==> s.mode == InString || (s.stepSize == 0 && s.stack == []))
    && (s.stack != [] && r.0.stack == [] ==> r.0.mode == EndValue && r.0.stepSize == 1 && r.0.endTop)
  }

  const BEGINS := {ScanBeginString, ScanBeginInt, ScanBeginDict, ScanBeginList}

  // A state in which a value may begin, or just has ended.
  predicate BetweenValues(s: Scan) {
    && !s.failed
    && s.stringLen == 0
    && (s.endTop ==> s.stack == [])
  }

  lemma {:induction false} BeginValueInv(s: Scan, c: byte)
    requires BetweenValues(s) && !s.endTop && s.stepSize == 1
    ensures GoodStep(s, c, StepBeginValue(s, c))
    decreases Bounces(s), if c == CHE then 1 else 0
  {
    if c == CHE {
      EndValueInv(s, c);
    }
  }

  lemma {:induction false} EndValueInv(s: Scan, c: byte)
    requires BetweenValues(s)
    ensures GoodStep(s, c, StepEndValue(s, c))
    decreases Bounces(s), if c == CHE then 0 else 1
  {
    if s.stack != [] {
      var t := s.(stepSize := 1);
      if Top(s) == DictKey {
        BeginValueInv(SetTop(t, DictValue), c);
      } else if Top(s) == ListValue && c != CHE {
        BeginValueInv(t, c);
      }
    }
  }

  /** Every step keeps the invariant and a set error; the stack grows and shrinks with the container opcodes. */
  lemma StepInv(s: Scan, c: byte)
    requires Inv(s)
    ensures s.failed ==> Step(s, c) == (s, ScanError)
    ensures !s.failed ==> GoodStep(s, c, Step(s, c))
  {
    match s.mode
    case BeginValue => BeginValueInv(s, c);
    case EndValue => EndValueInv(s, c);
    case BeginString =>
      if c == CHE && s.stringLen == 0 {
        EndValueInv(s, c);
      }
    case _ =>
  }

  /** A run of steps from `s`, one for each byte of `cs`, and the containers it opened less those it closed. */
  function Steps(s: Scan, cs: bytes): (Scan, int)
    decreases |cs|
  {
    if cs == [] then (s, 0)
    else
      var (s', op) := Step(s, cs[0]);
      var (t, d) := Steps(s', cs[1..]);
      (t, Depth(op) + d)
  }

  /** Over every run the invariant holds, a set error stays set, and the stack height is the open containers. */
  lemma {:induction false} StepsInv(s: Scan, cs: bytes)
    requires Inv(s)
    ensures Inv(Steps(s, cs).0)
    ensures |Steps(s, cs).0.stack| == |s.stack| + Steps(s, cs).1
    ensures s.failed ==> Steps(s, cs).0 == s
    decreases |cs|
  {
    if cs != [] {
      StepInv(s, cs[0]);
      StepsInv(Step(s, cs[0]).0, cs[1..]);
    }
  }
}
