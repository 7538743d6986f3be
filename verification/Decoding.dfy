/** The interface{} path of bencode/decode.go as functions of the decoder state, on any input whatever. */
module Decoding {
  import opened Bytes
  import opened Decimal
  import opened ScanState
  import opened Validity
  import opened Trees

  /** `off`, `opcode`, the scanner and whether an error has been saved. */
  datatype Dec = Dec(s: Scan, off: nat, op: Opcode, saved: bool)

  // Crashed stands for a panic: out of sync, or an index or a slice outside the input.
  datatype Result<+T> = Decoded(val: T, d: Dec) | Crashed

  // Until the end of the input has been reported the scanner is in a proper state, and a value that
  // has begun lies inside the input.
  predicate DecInv(data: bytes, d: Dec) {
    && (d.off <= |data| ==> Inv(d.s))
    && (d.op in BEGINS ==>
          d.off <= |data| && d.s.stepSize == 1 && d.s.mode in {BeginValue, BeginString, BeginInt})
    && (d.op == ScanBeginInt ==> d.s.mode == BeginInt)
  }

  function ScanNext(data: bytes, d: Dec): (r: Dec)
    requires DecInv(data, d)
    ensures DecInv(data, r) && r.saved == d.saved
    ensures d.off <= |data| ==> r.off >= d.off
    ensures d.op in BEGINS ==> r.off > d.off
  {
    if d.off < |data| then
      var (s, op) := Step(d.s, data[d.off]);
      StepInv(d.s, data[d.off]);
      Dec(s, d.off + s.stepSize, op, d.saved)
    else
      var (s, op) := Eof(d.s);
      Dec(s, |data| + 1, op, d.saved)
  }

  /** `scanWhile(scanContinue)`, the only call there is: on to the next opcode that is something else. */
  function ScanOn(data: bytes, s: Scan, i: nat, saved: bool): (r: Dec)
    requires i <= |data| ==> Inv(s)
    ensures DecInv(data, r) && r.saved == saved
    ensures i <= |data| ==> r.off >= i
    ensures i <= |data| && s.stepSize == 1 && s.mode in {BeginValue, BeginString, BeginInt} ==> r.off > i
    decreases Left(data, i), Rank(s.mode)
  {
    if i < |data| then
      var (s', op) := Step(s, data[i]);
      StepInv(s, data[i]);
      if op != ScanContinue then Dec(s', i + s'.stepSize, op, saved)
      else ScanOn(data, s', i + s'.stepSize, saved)
    else
      var (s', op) := Eof(s);
      Dec(s', |data| + 1, op, saved)
  }

  function ScanWhile(data: bytes, d: Dec): (r: Dec)
    requires DecInv(data, d)
    ensures DecInv(data, r) && r.saved == d.saved
    ensures d.off <= |data| ==> r.off >= d.off
    ensures d.op in BEGINS ==> r.off > d.off
  {
    ScanOn(data, d.s, d.off, d.saved)
  }

  /** data[start:end]; an end past the input counts as a panic, whatever the capacity. */
  function Slice(data: bytes, start: nat, end: int): Option<bytes> {
    if start <= end <= |data| then Some(data[start..end]) else None
  }

  function Room(data: bytes, d: Dec): nat {
    if d.off <= |data| then |data| + 1 - d.off else 0
  }

  function ValueInterface(data: bytes, d: Dec): (r: Result<Value>)
    requires DecInv(data, d)
    ensures r.Decoded? ==> d.op in BEGINS && DecInv(data, r.d) && r.d.off > d.off
    decreases Room(data, d), 1
  {
    match d.op
    case ScanBeginList =>
      (match ListInterface(data, d)
       case Decoded(vs, d1) => Decoded(List(vs), ScanNext(data, d1))
       case Crashed => Crashed)
    case ScanBeginDict =>
      (match DictInterface(data, d)
       case Decoded(m, d1) => Decoded(Dict(m), ScanNext(data, d1))
       case Crashed => Crashed)
    case ScanBeginString =>
      (match StringInterface(data, d)
       case Decoded(s, d1) => Decoded(Str(s), d1)
       case Crashed => Crashed)
    case ScanBeginInt =>
      (match IntInterface(data, d)
       case Decoded(n, d1) => Decoded(Int(n), ScanNext(data, d1))
       case Crashed => Crashed)
    case _ => Crashed
  }

  function ListInterface(data: bytes, d: Dec): (r: Result<seq<Value>>)
    requires DecInv(data, d) && d.op in BEGINS
    ensures r.Decoded? ==> DecInv(data, r.d) && r.d.off > d.off
    decreases Room(data, d), 0
  {
    ListLoop(data, ScanNext(data, d), [])
  }

  function ListLoop(data: bytes, d: Dec, acc: seq<Value>): (r: Result<seq<Value>>)
    requires DecInv(data, d)
    ensures r.Decoded? ==> DecInv(data, r.d) && r.d.off >= d.off
    decreases Room(data, d), 2
  {
    if d.op == ScanEndList then Decoded(acc, d)
    else
      match ValueInterface(data, d)
      case Decoded(v, d1) => ListLoop(data, d1, acc + [v])
      case Crashed => Crashed
  }

  function DictInterface(data: bytes, d: Dec): (r: Result<map<bytes, Value>>)
    requires DecInv(data, d) && d.op in BEGINS
    ensures r.Decoded? ==> DecInv(data, r.d) && r.d.off > d.off
    decreases Room(data, d), 0
  {
    DictLoop(data, ScanNext(data, d), map[])
  }

  function DictLoop(data: bytes, d: Dec, acc: map<bytes, Value>): (r: Result<map<bytes, Value>>)
    requires DecInv(data, d)
    ensures r.Decoded? ==> DecInv(data, r.d) && r.d.off >= d.off
    decreases Room(data, d), 2
  {
    if d.op == ScanEndDict then Decoded(acc, d)
    else if d.op != ScanBeginString then Crashed
    else
      match StringInterface(data, d)
      case Crashed => Crashed
      case Decoded(key, d1) =>
        match ValueInterface(data, d1)
        case Decoded(v, d2) => DictLoop(data, d2, acc[key := v])
        case Crashed => Crashed
  }

  /** A string, whether a value or a key: its length, and then its content up to the next opcode. */
  function StringInterface(data: bytes, d: Dec): (r: Result<bytes>)
    requires DecInv(data, d) && d.op in BEGINS
    ensures r.Decoded? ==> DecInv(data, r.d) && r.d.off > d.off
  {
    var d1 := ScanWhile(data, d);
    var d2 := ScanWhile(data, d1);
    match Slice(data, d1.off, d2.off - 1)
    case Some(item) => Decoded(item, d2)
    case None => Crashed
  }

  function IntInterface(data: bytes, d: Dec): (r: Result<int>)
    requires DecInv(data, d) && d.op in BEGINS
    ensures r.Decoded? ==> DecInv(data, r.d) && r.d.off > d.off
  {
    var d1 := ScanWhile(data, d);
    match Slice(data, d.off, d1.off - 1)
    case None => Crashed
    case Some(item) =>
      if item == [] then Crashed
      else
        var (n, ok) := Atoi(item);
        Decoded(n, d1.(saved := d.saved || !ok))
  }

  /**
   * `value` for a destination of type interface{}. An int that does not parse leaves the destination
   * unset, where `intInterface` would store the bound.
   */
  function TopValue(data: bytes, d: Dec): (r: Result<Option<Value>>)
    requires DecInv(data, d)
  {
    if d.op == ScanBeginInt then
      var d1 := ScanWhile(data, d);
      match Slice(data, d.off, d1.off - 1)
      case None => Crashed
      case Some(item) =>
        var (n, ok) := Atoi(item);
        Decoded(if ok then Some(Int(n)) else None, ScanNext(data, d1.(saved := d.saved || !ok)))
    else
      match ValueInterface(data, d)
      case Decoded(v, d1) => Decoded(Some(v), d1)
      case Crashed => Crashed
  }

  datatype Unmarshalled = Rejected | NeverReturns | Panicked | Stored(val: Option<Value>, err: bool)

  /** `Unmarshal` into a nil interface{}. */
  function Unmarshal(data: bytes): Unmarshalled {
    match Check(data)
    case Reject => Rejected
    case Loop => NeverReturns
    case Accept =>
      match TopValue(data, ScanOn(data, FRESH, 0, false))
      case Decoded(v, d) => Stored(v, d.saved)
      case Crashed => Panicked
  }
}
