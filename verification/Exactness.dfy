/** What Unmarshal returns on every input, said without a scanner. */
module Exactness {
  import opened Bytes
  import opened Decimal
  import opened ScanState
  import opened Validity
  import opened Grammar
  import opened GrammarProofs
  import opened Trees
  import opened Decoding
  import opened Lockstep
  import opened Heights
  import opened Descent
  import opened Tokens
  import opened DescentProofs

  /**
   * A string at top level. After a leading zero it is empty, or else it is what follows the first digit
   * that is not zero, up to the colon. Without one it is the content, and if white space follows, all but one
   * byte of as many bytes again.
   */
  function TopString(data: bytes): bytes
    requires Document(data) && IsDigit(data[0])
  {
    var h := HeadFrom(data, 1, data[0] - CH0);
    if data[0] == CH0 then
      if data[1] == CH0 then [] else data[2..h.start - 1]
    else if h.start + h.n == |data| then data[h.start..|data|]
    else
      BlankRoom(data, h.start + h.n, h.n);
      data[h.start..h.start + 2 * h.n - 1]
  }

  /** A document as a value: what Unmarshal stores, or that it panics. */
  function Decode(data: bytes): Unmarshalled
    requires Document(data)
  {
    if IsDigit(data[0]) then Stored(Some(Str(TopString(data))), false)
    else if data[0] == CHI then
      match IntAt(data, 1)
      case Parsed(n, _, over) => Stored(if over then None else Some(Int(n)), over)
      case Stuck => Panicked
    else
      match ValueAt(data, 0)
      case Parsed(v, _, over) => Stored(Some(v), over)
      case Stuck => Panicked
  }

  lemma TopStringIsLong(data: bytes, start: nat, n: nat)
    requires Document(data) && NonZeroDigitAt(data, 0) && HeadFrom(data, 1, data[0] - CH0) == Length(start, n)
    requires start + n < |data|
    ensures n > 0 && start + 2 * n <= |data|
    ensures Decode(data) == Stored(Some(Str(data[start..start + 2 * n - 1])), false)
  {
    BlankRoom(data, start + n, n);
    hide HeadFrom, BlankEvery;
  }

  // The first byte of an accepted input.
  lemma FirstByte(data: bytes, s: Scan, op: Opcode)
    requires Check(data) == Accept && data != [] && Step(FRESH, data[0]) == (s, op) && op in BEGINS
    ensures Accepts(data, 1, s) && s.stepSize == 1 && ScanOn(data, FRESH, 0, false) == Dec(s, 1, op, false)
  {
    StepInv(FRESH, data[0]);
    assert Run(data, 0, FRESH) == Run(data, 1, s);
    hide Step;
  }

  // A value at top level that is no int.
  lemma TopIs(data: bytes, d: Dec)
    requires Check(data) == Accept && ScanOn(data, FRESH, 0, false) == d && d.op != ScanBeginInt && DecInv(data, d)
    ensures Unmarshal(data) ==
      match ValueInterface(data, d)
      case Decoded(v, d1) => Stored(Some(v), d1.saved)
      case Crashed => Panicked
  {
    hide Check, ScanOn, ValueInterface;
  }

  lemma ListByte(data: bytes)
    requires Check(data) == Accept && data != [] && data[0] == CHL
    ensures var s := Gap([], ListValue, BeginValue);
      && Accepts(data, 1, s) && Inv(s) && DecInv(data, Dec(s, 1, ScanBeginList, false))
      && ScanOn(data, FRESH, 0, false) == Dec(s, 1, ScanBeginList, false)
  {
    assert Step(FRESH, CHL) == (Gap([], ListValue, BeginValue), ScanBeginList);
    FirstByte(data, Gap([], ListValue, BeginValue), ScanBeginList);
  }

  lemma ListTop(data: bytes)
    requires Check(data) == Accept && data != [] && data[0] == CHL
    ensures Unmarshal(data) ==
      match ValueAt(data, 0)
      case Parsed(v, _, over) => Stored(Some(v), over)
      case Stuck => Panicked
  {
    hide Step, ListLoop, Peek, ItemsAt, ValueInterface, Unmarshal, ScanOn, Run, Inv, Check;
    var s := Gap([], ListValue, BeginValue);
    ListByte(data);
    ItemsRead(data, 1, [], BeginValue, false, false, []);
    var r := ListLoop(data, Peek(data, 1, s, false), []);
    ListFromLoop(data, 0, [], s, false);
    ListEndsOp(data, Peek(data, 1, s, false), []);
    TopIs(data, Dec(s, 1, ScanBeginList, false));
  }

  lemma DictByte(data: bytes)
    requires Check(data) == Accept && data != [] && data[0] == CHD
    ensures var s := Gap([], DictKey, BeginString);
      && Accepts(data, 1, s) && Inv(s) && DecInv(data, Dec(s, 1, ScanBeginDict, false))
      && ScanOn(data, FRESH, 0, false) == Dec(s, 1, ScanBeginDict, false)
  {
    assert Step(FRESH, CHD) == (Gap([], DictKey, BeginString), ScanBeginDict);
    FirstByte(data, Gap([], DictKey, BeginString), ScanBeginDict);
  }

  lemma DictTop(data: bytes)
    requires Check(data) == Accept && data != [] && data[0] == CHD
    ensures Unmarshal(data) ==
      match ValueAt(data, 0)
      case Parsed(v, _, over) => Stored(Some(v), over)
      case Stuck => Panicked
  {
    hide Step, DictLoop, Peek, EntriesAt, ValueInterface, Unmarshal, ScanOn, Run, Inv, Check;
    var s := Gap([], DictKey, BeginString);
    DictByte(data);
    EntriesRead(data, 1, [], DictKey, BeginString, false, false, map[]);
    var r := DictLoop(data, Peek(data, 1, s, false), map[]);
    DictFromLoop(data, 0, [], s, false);
    DictEndsOp(data, Peek(data, 1, s, false), map[]);
    TopIs(data, Dec(s, 1, ScanBeginDict, false));
  }

  lemma TopIntIs(data: bytes, s: Scan, t: Scan, j: nat)
    requires Check(data) == Accept && Inv(s) && s.mode == BeginInt && s.stepSize == 1 && Inv(t) && 2 < j <= |data|
    requires ScanOn(data, FRESH, 0, false) == Dec(s, 1, ScanBeginInt, false)
    requires ScanOn(data, s, 1, false) == Dec(t, j, ScanEndInt, false)
    ensures var (n, ok) := Atoi(data[1..j - 1]);
      Unmarshal(data) == Stored(if ok then Some(Int(n)) else None, !ok)
  {
    hide Check, ScanOn, Atoi, Inv, ScanNext;
  }

  lemma IntTop(data: bytes)
    requires Check(data) == Accept && data != [] && data[0] == CHI
    ensures IntAt(data, 1).Parsed?
    ensures var r := IntAt(data, 1);
      Unmarshal(data) == Stored(if r.over then None else Some(Int(r.val)), r.over)
  {
    var s := IntIn([], BeginInt);
    assert Step(FRESH, CHI) == (s, ScanBeginInt);
    FirstByte(data, s, ScanBeginInt);
    NumberScan(data, 1, [], false);
    IntText(data, 1);
    IntAtIs(data, 1);
    TopIntIs(data, s, Outside([]), IntFrom(data, 1).end);
    hide Step, Atoi, IntAt, IntFrom, Unmarshal, ScanOn, Run;
  }

  // The content of a string at top level, and what is looked at after it.
  lemma TopContent(data: bytes, i: nat, n: nat)
    requires n > 0 && i + n <= |data|
    ensures var d := ScanOn(data, ContentIn([], n), i, false);
      !d.saved && d.off == if i + n == |data| then |data| + 1 else i + 2 * n
  {
    var t := Outside([]).(stepSize := n);
    assert ScanOn(data, ContentIn([], n), i, false) == ScanOn(data, t, i + n, false);
  }

  // A string at top level, from the two scans of its length and its content.
  lemma TopStringIs(data: bytes, s: Scan, d1: Dec)
    requires Check(data) == Accept && data != [] && DecInv(data, d1)
    requires Inv(s) && s.mode == BeginString && s.stepSize == 1
    requires ScanOn(data, FRESH, 0, false) == Dec(s, 1, ScanBeginString, false)
    requires ScanOn(data, s, 1, false) == d1
    ensures var d2 := ScanWhile(data, d1);
      Unmarshal(data) ==
      match Slice(data, d1.off, d2.off - 1)
      case Some(item) => Stored(Some(Str(item)), d2.saved)
      case None => Panicked
  {
    hide Check, ScanOn, Inv, Unmarshal, StringInterface;
    var d := Dec(s, 1, ScanBeginString, false);
    TopIs(data, d);
    StringScans(data, d);
  }

  // What a document that begins with a nonzero digit is.
  lemma NumberParts(data: bytes, start: nat, n: nat)
    requires Document(data) && NonZeroDigitAt(data, 0) && HeadFrom(data, 1, data[0] - CH0) == Length(start, n)
    ensures 0 < n && start + n <= |data| && (start + n < |data| ==> start + 2 * n <= |data|)
    ensures TopString(data) == data[start..if start + n == |data| then |data| else start + 2 * n - 1]
  {
    if start + n < |data| {
      BlankRoom(data, start + n, n);
    }
    hide HeadFrom, BlankEvery;
  }

  lemma NumberFirst(data: bytes)
    requires Check(data) == Accept && NonZeroDigitAt(data, 0)
    ensures var s := LengthIn([], data[0] - CH0);
      Accepts(data, 1, s) && Inv(s) && ScanOn(data, FRESH, 0, false) == Dec(s, 1, ScanBeginString, false)
  {
    var s := LengthIn([], data[0] - CH0);
    assert Step(FRESH, data[0]) == (s, ScanBeginString);
    FirstByte(data, s, ScanBeginString);
  }

  lemma NumberTop(data: bytes)
    requires Check(data) == Accept && Document(data) && NonZeroDigitAt(data, 0)
    ensures Unmarshal(data) == Stored(Some(Str(TopString(data))), false)
  {
    hide Step, Check, ScanOn, Inv, Unmarshal, HeadFrom, Run, Document, TopString, Accepts;
    var n := data[0] - CH0;
    NumberFirst(data);
    HeadScan(data, 1, [], n, false);
    var h := HeadFrom(data, 1, n);
    NumberParts(data, h.start, h.n);
    TopContent(data, h.start, h.n);
    TopStringIs(data, LengthIn([], n), Dec(ContentIn([], h.n), h.start, ScanInString, false));
  }

  lemma ZeroTop(data: bytes)
    requires Check(data) == Accept && Document(data) && data[0] == CH0
    ensures Unmarshal(data) == Stored(Some(Str(TopString(data))), false)
  {
    var s0 := LengthIn([], 0);
    assert Step(FRESH, CH0) == (s0, ScanBeginString);
    FirstByte(data, s0, ScanBeginString);
    var n := data[1] - CH0;
    var s1 := LengthIn([], n);
    assert Step(s0, data[1]) == (s1, ScanBeginString);
    OneScan(data, 1, s0, false);
    var d1 := Dec(s1, 2, ScanBeginString, false);
    TopStringIs(data, s0, d1);
    AcceptStep(data, 1, s0);
    if n == 0 {
      assert IsDigit(data[2]);
      assert Step(s1, data[2]) == (LengthIn([], data[2] - CH0), ScanBeginString);
      OneScan(data, 2, s1, false);
      assert data[2..2] == [];
    } else {
      HeadScan(data, 2, [], n, false);
      assert HeadFrom(data, 1, 0) == HeadFrom(data, 2, n);
    }
    hide Step, Check, ScanOn, Inv, Unmarshal, BlankEvery, Run;
  }

  /**
   * Unmarshal, on every input: on zeros, a colon and a blank it never returns; else it rejects what is not a
   * document, and of a document it returns what the descent returns, or panics where the descent is stuck.
   */
  lemma UnmarshalExactly(data: bytes)
    ensures Unmarshal(data) ==
            if EmptyStringThenSpace(data) then NeverReturns else if Document(data) then Decode(data) else Rejected
  {
    AcceptExactly(data);
    LoopExactly(data);
    if Document(data) {
      var c := data[0];
      if c == CHL {
        ListTop(data);
      } else if c == CHD {
        DictTop(data);
      } else if c == CHI {
        IntTop(data);
      } else if c == CH0 {
        ZeroTop(data);
      } else {
        NumberTop(data);
      }
    }
    hide ItemsAt, EntriesAt, ValueAt, IntAt, StringAt, TopString, Check, Unmarshal;
  }

  /** The decoder falls out of step, and panics, exactly on the accepted containers that the descent cannot read. */
  lemma PanicsExactly(data: bytes)
    ensures Unmarshal(data) == Panicked <==>
            Document(data) && data[0] in {CHL, CHD} && ValueAt(data, 0).Stuck?
  {
    UnmarshalExactly(data);
    if Document(data) && data[0] == CHI {
      AcceptExactly(data);
      IntTop(data);
    }
    hide Document, ValueAt, IntAt, TopString, Unmarshal;
  }
}
