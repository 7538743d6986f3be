/** On strictly written documents the decoder and its scanner stay in step. */
module Lockstep {
  import opened Bytes
  import opened Decimal
  import opened ScanState
  import opened GrammarProofs
  import opened Trees
  import opened StrictDocuments
  import opened Decoding

  /** The scanner between values inside `stk`, at top level before any value has ended. */
  function Outside(stk: seq<Container>): Scan {
    Scan(EndValue, false, stk, false, 1, 0)
  }

  /** What the scanner makes of the first byte of the document `t` inside `stk`. */
  function Begun(t: Tree, stk: seq<Container>): (Scan, Opcode) {
    match t
    case TInt(_) => (Outside(stk).(mode := BeginInt), ScanBeginInt)
    case TStr(s) => (Outside(stk).(mode := BeginString, stringLen := Digits(|s|)[0] - CH0), ScanBeginString)
    case TList(_) => (At(stk, ListValue).(mode := BeginValue), ScanBeginList)
    case TDict(_) => (At(stk, DictKey).(mode := BeginString), ScanBeginDict)
  }

  /** The scanner just after the last byte of `t`. */
  function Ended(t: Tree, stk: seq<Container>): Scan {
    match t
    case TInt(_) => Outside(stk)
    case TStr(s) => Outside(stk).(stepSize := |s|)
    case _ => Done(stk)
  }

  /** The decoder once it has looked one byte, or the end of the input, past position `e`. */
  function Peek(data: bytes, e: nat, s: Scan, saved: bool): (d: Dec)
    requires Inv(s)
    ensures DecInv(data, d)
  {
    ScanNext(data, Dec(s, e, ScanContinue, saved))
  }

  // The next byte is read whatever the last opcode was.
  lemma NextIsPeek(data: bytes, s: Scan, e: nat, op: Opcode, saved: bool)
    requires Inv(s) && DecInv(data, Dec(s, e, op, saved))
    ensures ScanNext(data, Dec(s, e, op, saved)) == Peek(data, e, s, saved)
  {
  }

  /** The decoder that has just read the first byte of `t`, at position `p`. */
  function Started(data: bytes, p: nat, t: Tree, stk: seq<Container>, saved: bool): (d: Dec)
    requires p < |data|
    ensures DecInv(data, d) && d.op in BEGINS
  {
    Dec(Begun(t, stk).0, p + 1, Begun(t, stk).1, saved)
  }

  lemma EndedInv(t: Tree, stk: seq<Container>, ctx: Container)
    ensures Inv(Ended(t, stk + [ctx])) && Inv(At(stk, ctx))
  {
  }

  /** A printed document starts as `Begun` says. */
  lemma BeginsWith(t: Tree, stk: seq<Container>)
    ensures StepBeginValue(Outside(stk), Print(t)[0]) == Begun(t, stk)
    ensures Print(t)[0] != CHE
  {
  }

  lemma InList(t: Tree, stk: seq<Container>)
    ensures Step(At(stk, ListValue), Print(t)[0]) == Begun(t, stk + [ListValue])
  {
    BeginsWith(t, stk + [ListValue]);
    OpenStep(stk, ListValue, Print(t)[0]);
    assert At(stk, ListValue) == Outside(stk + [ListValue]);
  }

  lemma AfterKey(t: Tree, stk: seq<Container>)
    ensures Step(At(stk, DictKey), Print(t)[0]) == Begun(t, stk + [DictValue])
  {
    BeginsWith(t, stk + [DictValue]);
    OpenStep(stk, DictKey, Print(t)[0]);
    assert At(stk, DictValue) == Outside(stk + [DictValue]);
  }

  // Inside a container the byte after a value is stepped over alone, whatever the value was.
  lemma PeekForgets(data: bytes, e: nat, t: Tree, stk: seq<Container>, ctx: Container, saved: bool)
    requires e < |data|
    ensures Peek(data, e, Ended(t, stk + [ctx]), saved) == Peek(data, e, At(stk, ctx), saved)
  {
    assert Ended(t, stk + [ctx]).(stepSize := 1) == At(stk, ctx);
  }

  lemma DigitScan(data: bytes, i: nat, s: Scan, saved: bool)
    requires Inv(s) && s.mode == BeginString && s.stringLen != 0 && i < |data| && IsDigit(data[i])
    ensures ScanOn(data, s, i, saved) ==
            ScanOn(data, s.(stringLen := s.stringLen * 10 + (data[i] - CH0)), i + 1, saved)
  {
    hide Step;
    LengthSteps(s, data[i]);
  }

  lemma ColonScan(data: bytes, i: nat, s: Scan, saved: bool)
    requires Inv(s) && s.mode == BeginString && i < |data| && data[i] == COLON
    ensures ScanOn(data, s, i, saved) == Dec(s.(mode := InString), i + 1, ScanInString, saved)
  {
  }

  // The rest of a string's length, up to the colon.
  lemma {:induction false} LengthScan(data: bytes, i: nat, ds: bytes, s: Scan, saved: bool)
    requires Inv(s) && s.mode == BeginString && (s.stringLen == 0 ==> ds == [])
    requires AllDigits(ds) && Occurs(data, i, ds + [COLON])
    ensures ScanOn(data, s, i, saved) ==
            Dec(s.(mode := InString, stringLen := Accumulate(ds, s.stringLen)), i + |ds| + 1, ScanInString, saved)
    decreases |ds|
  {
    hide Step, ScanOn, Occurs;
    OccursAt(data, i, ds + [COLON], 0);
    OccursInside(data, i, ds + [COLON]);
    if ds == [] {
      ColonScan(data, i, s, saved);
    } else {
      DigitScan(data, i, s, saved);
      assert ds + [COLON] == [ds[0]] + (ds[1..] + [COLON]);
      OccursSplit(data, i, [ds[0]], ds[1..] + [COLON]);
      LengthScan(data, i + 1, ds[1..], s.(stringLen := s.stringLen * 10 + (ds[0] - CH0)), saved);
    }
  }

  // A printed string as its first digit, the rest of its length and its content.
  lemma StringParts(data: bytes, p: nat, s: bytes)
    requires Occurs(data, p, PrintString(s))
    ensures var ds := Digits(|s|);
      && Occurs(data, p + 1, ds[1..] + [COLON]) && Occurs(data, p + |ds| + 1, s)
      && AllDigits(ds[1..]) && Accumulate(ds[1..], ds[0] - CH0) == |s|
      && (ds[0] == CH0 ==> ds[1..] == [])
  {
    hide Occurs, PrintString, Accumulate;
    var ds := Digits(|s|);
    StringText(s);
    OccursSplit(data, p, ds + [COLON], s);
    assert ds + [COLON] == [ds[0]] + (ds[1..] + [COLON]);
    OccursSplit(data, p, [ds[0]], ds[1..] + [COLON]);
    DigitsRoundTrip(|s|);
    AccumulateFirst(ds);
  }

  lemma AccumulateFirst(ds: bytes)
    requires ds != [] && AllDigits(ds)
    ensures AllDigits(ds[1..]) && Accumulate(ds, 0) == Accumulate(ds[1..], ds[0] - CH0)
  {
  }

  /** The decoder at the content of the string `s` printed at `p`. */
  function Content(p: nat, s: bytes, stk: seq<Container>, saved: bool): Dec {
    Dec(Outside(stk).(mode := InString, stringLen := |s|), p + |Digits(|s|)| + 1, ScanInString, saved)
  }

  // After the first digit of a string the scan stops at its content.
  lemma LengthLock(data: bytes, p: nat, s: bytes, stk: seq<Container>, saved: bool)
    requires Occurs(data, p, PrintString(s))
    ensures ScanWhile(data, Started(data, p, TStr(s), stk, saved)) == Content(p, s, stk, saved)
  {
    hide Step, PrintString, Accumulate, AllDigits;
    StringParts(data, p, s);
    LengthScan(data, p + 1, Digits(|s|)[1..], Begun(TStr(s), stk).0, saved);
  }

  // Where a string may end: inside a container, or with the input if it is not empty.
  predicate StringRoom(data: bytes, e: nat, s: bytes, stk: seq<Container>) {
    (stk != [] && e < |data|) || (e == |data| && s != [])
  }

  // One scan across the content, and then to the byte after it.
  lemma ContentScan(data: bytes, i: nat, s: bytes, stk: seq<Container>, saved: bool)
    requires i + |s| <= |data| && StringRoom(data, i + |s|, s, stk)
    ensures ScanOn(data, Outside(stk).(mode := InString, stringLen := |s|), i, saved) ==
            ScanOn(data, Ended(TStr(s), stk), i + |s|, saved)
  {
  }

  lemma AfterContent(data: bytes, e: nat, s: bytes, stk: seq<Container>, saved: bool)
    requires e <= |data| && StringRoom(data, e, s, stk)
    ensures ScanOn(data, Ended(TStr(s), stk), e, saved) == Peek(data, e, Ended(TStr(s), stk), saved)
    ensures Peek(data, e, Ended(TStr(s), stk), saved).off == e + 1
  {
    if e < |data| {
      StepInv(Ended(TStr(s), stk), data[e]);
    }
  }

  lemma ContentParts(data: bytes, p: nat, s: bytes, stk: seq<Container>, saved: bool)
    requires Occurs(data, p, PrintString(s))
    ensures var i := p + |Digits(|s|)| + 1;
      && p + |PrintString(s)| == i + |s| <= |data|
      && DecInv(data, Content(p, s, stk, saved))
      && ScanWhile(data, Content(p, s, stk, saved)) ==
         ScanOn(data, Outside(stk).(mode := InString, stringLen := |s|), i, saved)
      && Slice(data, i, i + |s|) == Some(s)
  {
    OccursSplit(data, p, Digits(|s|) + [COLON], s);
  }

  lemma ContentLock(data: bytes, p: nat, s: bytes, stk: seq<Container>, saved: bool)
    requires Occurs(data, p, PrintString(s)) && StringRoom(data, p + |PrintString(s)|, s, stk)
    ensures ScanWhile(data, Content(p, s, stk, saved)) == Peek(data, p + |PrintString(s)|, Ended(TStr(s), stk), saved)
    ensures Slice(data, p + |Digits(|s|)| + 1, ScanWhile(data, Content(p, s, stk, saved)).off - 1) == Some(s)
  {
    hide *;
    ContentParts(data, p, s, stk, saved);
    ContentScan(data, p + |Digits(|s|)| + 1, s, stk, saved);
    AfterContent(data, p + |PrintString(s)|, s, stk, saved);
  }

  /** What a string comes to, from its slice and the decoder after it. */
  function Sliced(item: Option<bytes>, d: Dec): Result<bytes> {
    if item.Some? then Decoded(item.value, d) else Crashed
  }

  lemma StringScans(data: bytes, d: Dec)
    requires DecInv(data, d) && d.op in BEGINS
    ensures var d1 := ScanWhile(data, d);
      var d2 := ScanWhile(data, d1);
      StringInterface(data, d) == Sliced(Slice(data, d1.off, d2.off - 1), d2)
  {
  }

  /** A string is sliced out exactly. */
  lemma StringLock(data: bytes, p: nat, s: bytes, stk: seq<Container>, saved: bool)
    requires Occurs(data, p, PrintString(s)) && StringRoom(data, p + |PrintString(s)|, s, stk)
    ensures StringInterface(data, Started(data, p, TStr(s), stk, saved)) ==
            Decoded(s, Peek(data, p + |PrintString(s)|, Ended(TStr(s), stk), saved))
  {
    hide Digits, PrintString, Step, ScanOn, Peek, StringInterface, Occurs, Slice, Inv, DecInv;
    StringText(s);
    OccursInside(data, p, PrintString(s));
    var d1 := Content(p, s, stk, saved);
    LengthLock(data, p, s, stk, saved);
    ContentLock(data, p, s, stk, saved);
    var d := Started(data, p, TStr(s), stk, saved);
    StringScans(data, d);
  }

  lemma {:induction false} DigitsScan(data: bytes, i: nat, ds: bytes, stk: seq<Container>, saved: bool)
    requires AllDigits(ds) && Occurs(data, i, ds + [CHE])
    ensures ScanOn(data, Outside(stk).(mode := Num), i, saved) ==
            Dec(Outside(stk), i + |ds| + 1, ScanEndInt, saved)
    decreases |ds|
  {
    OccursAt(data, i, ds + [CHE], 0);
    if ds != [] {
      assert ds + [CHE] == [ds[0]] + (ds[1..] + [CHE]);
      OccursSplit(data, i, [ds[0]], ds[1..] + [CHE]);
      DigitsScan(data, i + 1, ds[1..], stk, saved);
    }
  }

  lemma NatScan(data: bytes, i: nat, n: nat, s: Scan, stk: seq<Container>, saved: bool)
    requires n > 0 && Occurs(data, i, Digits(n) + [CHE])
    requires s == Outside(stk).(mode := BeginInt) || s == Outside(stk).(mode := Neg)
    ensures ScanOn(data, s, i, saved) == Dec(Outside(stk), i + |Digits(n)| + 1, ScanEndInt, saved)
  {
    var ds := Digits(n);
    assert ds + [CHE] == [ds[0]] + (ds[1..] + [CHE]);
    OccursSplit(data, i, [ds[0]], ds[1..] + [CHE]);
    OccursAt(data, i, ds + [CHE], 0);
    DigitsScan(data, i + 1, ds[1..], stk, saved);
  }

  lemma ZeroScan(data: bytes, i: nat, stk: seq<Container>, saved: bool)
    requires Occurs(data, i, [CH0, CHE])
    ensures ScanOn(data, Outside(stk).(mode := BeginInt), i, saved) == Dec(Outside(stk), i + 2, ScanEndInt, saved)
  {
    OccursAt(data, i, [CH0, CHE], 0);
    OccursAt(data, i, [CH0, CHE], 1);
    var s := Outside(stk).(mode := BeginInt);
    assert ScanOn(data, s, i, saved) == ScanOn(data, s.(mode := Zero), i + 1, saved);
  }

  lemma NegativeScan(data: bytes, i: nat, n: nat, stk: seq<Container>, saved: bool)
    requires n > 0 && Occurs(data, i, [MINUS] + (Digits(n) + [CHE]))
    ensures ScanOn(data, Outside(stk).(mode := BeginInt), i, saved) ==
            Dec(Outside(stk), i + |Digits(n)| + 2, ScanEndInt, saved)
  {
    OccursSplit(data, i, [MINUS], Digits(n) + [CHE]);
    OccursAt(data, i, [MINUS], 0);
    NatScan(data, i + 1, n, Outside(stk).(mode := Neg), stk, saved);
  }

  lemma IntScan(data: bytes, i: nat, n: int, stk: seq<Container>, saved: bool)
    requires Occurs(data, i, Itoa(n) + [CHE])
    ensures ScanOn(data, Outside(stk).(mode := BeginInt), i, saved) ==
            Dec(Outside(stk), i + |Itoa(n)| + 1, ScanEndInt, saved)
  {
    if n == 0 {
      assert Itoa(n) + [CHE] == [CH0, CHE];
      ZeroScan(data, i, stk, saved);
    } else if n > 0 {
      hide Digits, ScanOn;
      NatScan(data, i, n, Outside(stk).(mode := BeginInt), stk, saved);
    } else {
      hide Digits, ScanOn;
      assert Itoa(n) + [CHE] == [MINUS] + (Digits(-n) + [CHE]);
      NegativeScan(data, i, -n, stk, saved);
    }
  }

  /** An int's text is sliced out exactly. */
  lemma IntLock(data: bytes, p: nat, n: int, stk: seq<Container>, saved: bool)
    requires Occurs(data, p, Print(TInt(n)))
    ensures ScanWhile(data, Started(data, p, TInt(n), stk, saved)) ==
            Dec(Outside(stk), p + |Print(TInt(n))|, ScanEndInt, saved)
    ensures Slice(data, p + 1, p + |Print(TInt(n))| - 1) == Some(Itoa(n))
  {
    hide Itoa, ScanOn, Step, Occurs;
    IntParts(data, p, n);
    IntScan(data, p + 1, n, stk, saved);
  }

  lemma IntParts(data: bytes, p: nat, n: int)
    requires Occurs(data, p, Print(TInt(n)))
    ensures Occurs(data, p + 1, Itoa(n) + [CHE])
    ensures Slice(data, p + 1, p + |Print(TInt(n))| - 1) == Some(Itoa(n))
  {
    OccursSplit(data, p, [CHI], Itoa(n) + [CHE]);
    OccursSplit(data, p + 1, Itoa(n), [CHE]);
  }

  lemma IntInterfaceLock(data: bytes, p: nat, n: int, stk: seq<Container>, saved: bool)
    requires Occurs(data, p, Print(TInt(n)))
    ensures IntInterface(data, Started(data, p, TInt(n), stk, saved)) ==
            Decoded(Clamp(n), Dec(Outside(stk), p + |Print(TInt(n))|, ScanEndInt, saved || !IsInt64(n)))
  {
    hide *;
    ValueParts(data, p, TInt(n), stk, saved);
    IntLock(data, p, n, stk, saved);
    AtoiItoa(n);
    SomeDigit(n);
    var d := Started(data, p, TInt(n), stk, saved);
    StartedAt(data, p, TInt(n), stk, saved);
    IntScans(data, d);
    IntOfText(Itoa(n), Dec(Outside(stk), p + |Print(TInt(n))|, ScanEndInt, saved));
  }

  lemma IntOfText(item: bytes, d: Dec)
    requires item != []
    ensures IntOf(Some(item), d) == var (n, ok) := Atoi(item); Decoded(n, d.(saved := d.saved || !ok))
  {
  }

  lemma StartedAt(data: bytes, p: nat, t: Tree, stk: seq<Container>, saved: bool)
    requires p < |data|
    ensures Started(data, p, t, stk, saved).off == p + 1 && Started(data, p, t, stk, saved).saved == saved
  {
  }

  lemma SomeDigit(n: int)
    ensures Itoa(n) != []
  {
    hide Digits;
  }

  /** What an int comes to, from its slice and the decoder after it. */
  function IntOf(item: Option<bytes>, d: Dec): Result<int> {
    if item.None? || item.value == [] then Crashed
    else
      var (n, ok) := Atoi(item.value);
      Decoded(n, d.(saved := d.saved || !ok))
  }

  lemma IntScans(data: bytes, d: Dec)
    requires DecInv(data, d) && d.op in BEGINS
    ensures var d1 := ScanWhile(data, d);
      IntInterface(data, d) == IntOf(Slice(data, d.off, d1.off - 1), d1)
  {
    hide ScanOn, Slice, Atoi, Inv;
  }

  // A string inside a container has room.
  lemma InsideRoom(data: bytes, e: nat, t: Tree, stk: seq<Container>, ctx: Container)
    requires e < |data|
    ensures t.TStr? ==> StringRoom(data, e, t.s, stk + [ctx])
  {
  }

  /** The value of a container or an int, from its contents: the decoder looks one byte on. */
  function AfterList(data: bytes, r: Result<seq<Value>>): Result<Value>
    requires r.Decoded? ==> DecInv(data, r.d)
  {
    if r.Decoded? then Decoded(List(r.val), ScanNext(data, r.d)) else Crashed
  }

  function AfterDict(data: bytes, r: Result<map<bytes, Value>>): Result<Value>
    requires r.Decoded? ==> DecInv(data, r.d)
  {
    if r.Decoded? then Decoded(Dict(r.val), ScanNext(data, r.d)) else Crashed
  }

  function AfterInt(data: bytes, r: Result<int>): Result<Value>
    requires r.Decoded? ==> DecInv(data, r.d)
  {
    if r.Decoded? then Decoded(Int(r.val), ScanNext(data, r.d)) else Crashed
  }

  function AfterString(r: Result<bytes>): Result<Value> {
    if r.Decoded? then Decoded(Str(r.val), r.d) else Crashed
  }

  lemma ValueUnfold(data: bytes, d: Dec)
    requires DecInv(data, d)
    ensures d.op == ScanBeginList ==> ValueInterface(data, d) == AfterList(data, ListInterface(data, d))
    ensures d.op == ScanBeginDict ==> ValueInterface(data, d) == AfterDict(data, DictInterface(data, d))
    ensures d.op == ScanBeginInt ==> ValueInterface(data, d) == AfterInt(data, IntInterface(data, d))
    ensures d.op == ScanBeginString ==> ValueInterface(data, d) == AfterString(StringInterface(data, d))
    ensures d.op == ScanInString ==> ValueInterface(data, d) == Crashed
  {
    hide ListInterface, DictInterface, IntInterface, StringInterface, ScanNext;
  }

  lemma ContentsEndString(s: bytes, d: Dec)
    ensures AfterString(Decoded(s, d)) == Decoded(Str(s), d)
  {
  }

  // The byte after a value's contents.
  lemma ContentsEnd(data: bytes, d: Dec)
    requires DecInv(data, d) && Inv(d.s)
    ensures ScanNext(data, d) == Peek(data, d.off, d.s, d.saved)
    ensures forall vs :: AfterList(data, Decoded(vs, d)) == Decoded(List(vs), Peek(data, d.off, d.s, d.saved))
    ensures forall m :: AfterDict(data, Decoded(m, d)) == Decoded(Dict(m), Peek(data, d.off, d.s, d.saved))
    ensures forall n :: AfterInt(data, Decoded(n, d)) == Decoded(Int(n), Peek(data, d.off, d.s, d.saved))
  {
    NextIsPeek(data, d.s, d.off, d.op, d.saved);
    hide Peek, ScanNext;
  }

  /**
   * Lockstep: from just after the first byte of a strictly written document the decoder returns the value
   * of the document and has read on to the byte after it, with the scanner as after the document's last byte.
   */
  lemma {:induction false} ValueLock(data: bytes, p: nat, t: Tree, stk: seq<Container>, saved: bool)
    requires Strict(t) && Occurs(data, p, Print(t))
    requires t.TStr? ==> StringRoom(data, p + |Print(t)|, t.s, stk)
    ensures ValueInterface(data, Started(data, p, t, stk, saved)) ==
      Decoded(Denote(t), Peek(data, p + |Print(t)|, Ended(t, stk), saved || Overflows(t)))
    decreases t, 1
  {
    hide *;
    ValueParts(data, p, t, stk, saved);
    var d := Started(data, p, t, stk, saved);
    var e, over := p + |Print(t)|, saved || Overflows(t);
    ValueUnfold(data, d);
    match t {
      case TInt(n) =>
        IntInterfaceLock(data, p, n, stk, saved);
        ContentsEnd(data, Dec(Outside(stk), e, ScanEndInt, over));
      case TStr(s) =>
        StringLock(data, p, s, stk, saved);
        ContentsEndString(s, Peek(data, e, Ended(t, stk), over));
      case TList(items) =>
        ListLock(data, p, items, stk, saved);
        ContentsEnd(data, Dec(Done(stk), e, ScanEndList, over));
      case TDict(es) =>
        DictLock(data, p, es, stk, saved);
        ContentsEnd(data, Dec(Done(stk), e, ScanEndDict, over));
    }
  }

  // What the parts of a document have to do with the whole, by its kind.
  lemma ValueParts(data: bytes, p: nat, t: Tree, stk: seq<Container>, saved: bool)
    requires Occurs(data, p, Print(t))
    ensures p < |data| && Inv(Ended(t, stk)) && Inv(Outside(stk)) && Inv(Done(stk))
    ensures t.TInt? ==> Denote(t) == Int(Clamp(t.n)) && Overflows(t) == !IsInt64(t.n) && Ended(t, stk) == Outside(stk)
    ensures t.TStr? ==> Denote(t) == Str(t.s) && !Overflows(t) && Print(t) == PrintString(t.s)
    ensures t.TList? ==>
      Denote(t) == List(DenoteItems(t.items, [])) && Overflows(t) == AnyOverflows(t.items) && Ended(t, stk) == Done(stk)
    ensures t.TDict? ==>
      && Denote(t) == Dict(DenoteEntries(t.entries, map[])) && Overflows(t) == AnyEntryOverflows(t.entries)
      && Ended(t, stk) == Done(stk)
    ensures Started(data, p, t, stk, saved).op ==
      match t
      case TInt(_) => ScanBeginInt
      case TStr(_) => ScanBeginString
      case TList(_) => ScanBeginList
      case TDict(_) => ScanBeginDict
  {
    hide PrintString, PrintItems, PrintEntries, DenoteItems, DenoteEntries, AnyOverflows, AnyEntryOverflows, Itoa, Digits;
  }

  /** `listInterface` ends with the list, in the state in which `skip` would end. */
  lemma {:induction false} ListLock(data: bytes, p: nat, items: seq<Tree>, stk: seq<Container>, saved: bool)
    requires Strict(TList(items)) && Occurs(data, p, Print(TList(items)))
    ensures ListInterface(data, Started(data, p, TList(items), stk, saved)) ==
            Decoded(DenoteItems(items, []),
              Dec(Done(stk), p + |Print(TList(items))|, ScanEndList, saved || AnyOverflows(items)))
    decreases TList(items), 0
  {
    hide *;
    ListOpens(data, p, items, stk, saved);
    ItemsLock(data, p + 1, items, stk, saved, []);
  }

  lemma ListOpens(data: bytes, p: nat, items: seq<Tree>, stk: seq<Container>, saved: bool)
    requires Strict(TList(items)) && Occurs(data, p, Print(TList(items)))
    ensures StrictItems(items) && Occurs(data, p + 1, PrintItems(items) + [CHE])
    ensures ListInterface(data, Started(data, p, TList(items), stk, saved)) ==
            ListLoop(data, Peek(data, p + 1, At(stk, ListValue), saved), [])
    ensures |Print(TList(items))| == |PrintItems(items)| + 2
  {
    OccursSplit(data, p, [CHL], PrintItems(items) + [CHE]);
    ListFirst(data, p, items, stk, saved);
    hide Peek, ScanNext, PrintItems, Occurs, ListLoop;
  }

  lemma ListFirst(data: bytes, p: nat, items: seq<Tree>, stk: seq<Container>, saved: bool)
    requires p + 1 < |data|
    ensures ListInterface(data, Started(data, p, TList(items), stk, saved)) ==
            ListLoop(data, Peek(data, p + 1, At(stk, ListValue), saved), [])
  {
    hide Step, ScanNext, Peek, ListLoop;
    var s := At(stk, ListValue).(mode := BeginValue);
    NextIsPeek(data, s, p + 1, ScanBeginList, saved);
    BeginListPeek(data, p + 1, stk, saved);
  }

  lemma BeginListPeek(data: bytes, e: nat, stk: seq<Container>, saved: bool)
    requires e < |data|
    ensures Peek(data, e, At(stk, ListValue).(mode := BeginValue), saved) == Peek(data, e, At(stk, ListValue), saved)
  {
    hide Step;
    BeginListStep(stk, data[e]);
  }

  lemma ItemPeek(data: bytes, q: nat, t: Tree, stk: seq<Container>, saved: bool)
    requires Occurs(data, q, Print(t))
    ensures Peek(data, q, At(stk, ListValue), saved) == Started(data, q, t, stk + [ListValue], saved)
  {
    OccursAt(data, q, Print(t), 0);
    InList(t, stk);
  }

  /** The rest of a list, from after an item. */
  function AfterItemLoop(data: bytes, r: Result<Value>, acc: seq<Value>): Result<seq<Value>>
    requires r.Decoded? ==> DecInv(data, r.d)
  {
    if r.Decoded? then ListLoop(data, r.d, acc + [r.val]) else Crashed
  }

  lemma ListLoopUnfold(data: bytes, d: Dec, acc: seq<Value>)
    requires DecInv(data, d)
    ensures d.op == ScanEndList ==> ListLoop(data, d, acc) == Decoded(acc, d)
    ensures d.op != ScanEndList ==> ListLoop(data, d, acc) == AfterItemLoop(data, ValueInterface(data, d), acc)
    ensures d.op == ScanInString ==> ListLoop(data, d, acc) == Crashed
  {
  }

  lemma AfterItemIs(data: bytes, v: Value, d: Dec, acc: seq<Value>)
    requires DecInv(data, d)
    ensures AfterItemLoop(data, Decoded(v, d), acc) == ListLoop(data, d, acc + [v])
  {
  }

  // One more turn of the list loop.
  lemma {:induction false} ListTurn(data: bytes, q: nat, t: Tree, stk: seq<Container>, saved: bool, acc: seq<Value>)
    requires Strict(t) && Occurs(data, q, Print(t)) && q + |Print(t)| < |data|
    ensures ListLoop(data, Peek(data, q, At(stk, ListValue), saved), acc) ==
            ListLoop(data, Peek(data, q + |Print(t)|, At(stk, ListValue), saved || Overflows(t)), acc + [Denote(t)])
    decreases t, 2
  {
    hide *;
    InsideRoom(data, q + |Print(t)|, t, stk, ListValue);
    ValueLock(data, q, t, stk + [ListValue], saved);
    EndedInv(t, stk, ListValue);
    var e, over := q + |Print(t)|, saved || Overflows(t);
    var d := Started(data, q, t, stk + [ListValue], saved);
    var d1 := Peek(data, e, Ended(t, stk + [ListValue]), over);
    ItemPeek(data, q, t, stk, saved);
    PeekForgets(data, e, t, stk, ListValue, over);
    ValueParts(data, q, t, stk + [ListValue], saved);
    ListLoopUnfold(data, d, acc);
    AfterItemIs(data, Denote(t), d1, acc);
  }

  lemma ListEnds(data: bytes, q: nat, items: seq<Tree>, stk: seq<Container>, saved: bool, acc: seq<Value>)
    requires items == [] && Occurs(data, q, PrintItems(items) + [CHE])
    ensures ListLoop(data, Peek(data, q, At(stk, ListValue), saved), acc) ==
            Decoded(DenoteItems(items, acc),
                    Dec(Done(stk), q + |PrintItems(items)| + 1, ScanEndList, saved || AnyOverflows(items)))
  {
    OccursAt(data, q, PrintItems(items) + [CHE], 0);
    CloseStep(stk, ListValue);
  }

  lemma UnfoldItems(items: seq<Tree>, acc: seq<Value>)
    requires items != [] && StrictItems(items)
    ensures Strict(items[0]) && StrictItems(items[1..])
    ensures DenoteItems(items, acc) == DenoteItems(items[1..], acc + [Denote(items[0])])
    ensures AnyOverflows(items) == (Overflows(items[0]) || AnyOverflows(items[1..]))
    ensures |PrintItems(items)| == |Print(items[0])| + |PrintItems(items[1..])|
  {
  }

  lemma {:induction false} ItemsLock(data: bytes, q: nat, items: seq<Tree>, stk: seq<Container>, saved: bool,
                                     acc: seq<Value>)
    requires StrictItems(items) && Occurs(data, q, PrintItems(items) + [CHE])
    ensures ListLoop(data, Peek(data, q, At(stk, ListValue), saved), acc) ==
            Decoded(DenoteItems(items, acc),
                    Dec(Done(stk), q + |PrintItems(items)| + 1, ScanEndList, saved || AnyOverflows(items)))
    decreases items
  {
    hide *;
    if items == [] {
      ListEnds(data, q, items, stk, saved, acc);
    } else {
      var t := items[0];
      UnfoldItems(items, acc);
      ItemOccurs(data, q, items);
      ListTurn(data, q, t, stk, saved, acc);
      ItemsLock(data, q + |Print(t)|, items[1..], stk, saved || Overflows(t), acc + [Denote(t)]);
    }
  }

  /** `dictInterface` likewise. */
  lemma {:induction false} DictLock(data: bytes, p: nat, es: seq<Entry>, stk: seq<Container>, saved: bool)
    requires Strict(TDict(es)) && Occurs(data, p, Print(TDict(es)))
    ensures DictInterface(data, Started(data, p, TDict(es), stk, saved)) ==
            Decoded(DenoteEntries(es, map[]),
              Dec(Done(stk), p + |Print(TDict(es))|, ScanEndDict, saved || AnyEntryOverflows(es)))
    decreases TDict(es), 0
  {
    hide *;
    DictOpens(data, p, es, stk, saved);
    EntriesLock(data, p + 1, es, true, stk, saved, map[]);
  }

  lemma DictOpens(data: bytes, p: nat, es: seq<Entry>, stk: seq<Container>, saved: bool)
    requires Strict(TDict(es)) && Occurs(data, p, Print(TDict(es)))
    ensures StrictEntries(es, true) && Occurs(data, p + 1, PrintEntries(es) + [CHE])
    ensures DictInterface(data, Started(data, p, TDict(es), stk, saved)) ==
            DictLoop(data, Peek(data, p + 1, KeyState(true, stk), saved), map[])
    ensures |Print(TDict(es))| == |PrintEntries(es)| + 2
  {
    OccursSplit(data, p, [CHD], PrintEntries(es) + [CHE]);
    DictFirst(data, p, es, stk, saved);
    hide Peek, ScanNext, PrintEntries, Occurs, DictLoop;
  }

  lemma DictFirst(data: bytes, p: nat, es: seq<Entry>, stk: seq<Container>, saved: bool)
    requires p < |data|
    ensures DictInterface(data, Started(data, p, TDict(es), stk, saved)) ==
            DictLoop(data, Peek(data, p + 1, KeyState(true, stk), saved), map[])
  {
    NextIsPeek(data, KeyState(true, stk), p + 1, ScanBeginDict, saved);
    hide Step, ScanNext, Peek, DictLoop;
  }

  // The scanner before the first key of a dictionary, or before a later one.
  function KeyState(first: bool, stk: seq<Container>): Scan {
    if first then At(stk, DictKey).(mode := BeginString) else At(stk, DictValue)
  }

  lemma KeyStateInv(first: bool, stk: seq<Container>)
    ensures Inv(KeyState(first, stk))
  {
  }

  lemma LaterKey(stk: seq<Container>)
    ensures KeyState(false, stk) == At(stk, DictValue)
  {
  }

  lemma KeyBegins(key: bytes, first: bool, stk: seq<Container>)
    requires first || key != []
    ensures Step(KeyState(first, stk), PrintString(key)[0]) == Begun(TStr(key), stk + [DictKey])
  {
    TopOf(stk, DictValue);
    assert SetTop(At(stk, DictValue), DictKey) == At(stk, DictKey) == Outside(stk + [DictKey]);
  }

  lemma NoMoreKeys(first: bool, stk: seq<Container>)
    ensures Step(KeyState(first, stk), CHE) == (Done(stk), ScanEndDict)
  {
    if first {
      ShutStep(stk, DictKey);
    } else {
      CloseStep(stk, DictValue);
    }
  }

  lemma KeyPeek(data: bytes, q: nat, key: bytes, first: bool, stk: seq<Container>, saved: bool)
    requires (first || key != []) && Occurs(data, q, PrintString(key))
    ensures Peek(data, q, KeyState(first, stk), saved) == Started(data, q, TStr(key), stk + [DictKey], saved)
    ensures Peek(data, q, KeyState(first, stk), saved).op == ScanBeginString
  {
    OccursAt(data, q, PrintString(key), 0);
    KeyBegins(key, first, stk);
  }

  lemma ValuePeek(data: bytes, e: nat, val: Tree, stk: seq<Container>, saved: bool)
    requires Occurs(data, e, Print(val))
    ensures Peek(data, e, At(stk, DictKey), saved) == Started(data, e, val, stk + [DictValue], saved)
  {
    OccursAt(data, e, Print(val), 0);
    AfterKey(val, stk);
  }

  lemma ValueInside(data: bytes, e: nat, val: Tree)
    requires Occurs(data, e, Print(val))
    ensures e < |data|
  {
  }

  // One key, up to the first byte of its value.
  lemma KeyLock(data: bytes, q: nat, key: bytes, val: Tree, first: bool, stk: seq<Container>, saved: bool)
    requires first || key != []
    requires Occurs(data, q, PrintString(key)) && Occurs(data, q + |PrintString(key)|, Print(val))
    ensures var d := Peek(data, q, KeyState(first, stk), saved);
      && d.op == ScanBeginString && DecInv(data, d)
      && StringInterface(data, d) ==
         Decoded(key, Started(data, q + |PrintString(key)|, val, stk + [DictValue], saved))
  {
    hide *;
    var e := q + |PrintString(key)|;
    KeyPeek(data, q, key, first, stk, saved);
    ValueInside(data, e, val);
    InsideRoom(data, e, TStr(key), stk, DictKey);
    StringLock(data, q, key, stk + [DictKey], saved);
    PeekForgets(data, e, TStr(key), stk, DictKey, saved);
    ValuePeek(data, e, val, stk, saved);
  }

  /** The rest of a dictionary, from after a key, and from after a value. */
  function AfterKeyLoop(data: bytes, r: Result<bytes>, acc: map<bytes, Value>): Result<map<bytes, Value>>
    requires r.Decoded? ==> DecInv(data, r.d)
  {
    if r.Decoded? then AfterValueLoop(data, r.val, ValueInterface(data, r.d), acc) else Crashed
  }

  function AfterValueLoop(data: bytes, key: bytes, r: Result<Value>, acc: map<bytes, Value>): Result<map<bytes, Value>>
    requires r.Decoded? ==> DecInv(data, r.d)
  {
    if r.Decoded? then DictLoop(data, r.d, acc[key := r.val]) else Crashed
  }

  lemma DictLoopUnfold(data: bytes, d: Dec, acc: map<bytes, Value>)
    requires DecInv(data, d)
    ensures d.op == ScanEndDict ==> DictLoop(data, d, acc) == Decoded(acc, d)
    ensures d.op !in {ScanEndDict, ScanBeginString} ==> DictLoop(data, d, acc) == Crashed
    ensures d.op == ScanBeginString ==> DictLoop(data, d, acc) == AfterKeyLoop(data, StringInterface(data, d), acc)
  {
  }

  lemma AfterKeyIs(data: bytes, key: bytes, d: Dec, acc: map<bytes, Value>)
    requires DecInv(data, d)
    ensures AfterKeyLoop(data, Decoded(key, d), acc) == AfterValueLoop(data, key, ValueInterface(data, d), acc)
  {
  }

  lemma AfterValueIs(data: bytes, key: bytes, v: Value, d: Dec, acc: map<bytes, Value>)
    requires DecInv(data, d)
    ensures AfterValueLoop(data, key, Decoded(v, d), acc) == DictLoop(data, d, acc[key := v])
  {
  }

  // One more turn of the dictionary loop.
  lemma {:induction false} DictTurn(data: bytes, q: nat, key: bytes, val: Tree, first: bool, stk: seq<Container>,
                                    saved: bool, acc: map<bytes, Value>)
    requires Strict(val) && (first || key != [])
    requires Occurs(data, q, PrintString(key)) && Occurs(data, q + |PrintString(key)|, Print(val))
    requires q + |PrintString(key)| + |Print(val)| < |data|
    ensures var e, over := q + |PrintString(key)| + |Print(val)|, saved || Overflows(val);
      DictLoop(data, Peek(data, q, KeyState(first, stk), saved), acc) ==
      DictLoop(data, Peek(data, e, KeyState(false, stk), over), acc[key := Denote(val)])
    decreases val, 2
  {
    hide *;
    InsideRoom(data, q + |PrintString(key)| + |Print(val)|, val, stk, DictValue);
    ValueLock(data, q + |PrintString(key)|, val, stk + [DictValue], saved);
    EndedInv(val, stk, DictValue);
    KeyStateInv(first, stk);
    var v := q + |PrintString(key)|;
    var e, over := v + |Print(val)|, saved || Overflows(val);
    var d := Peek(data, q, KeyState(first, stk), saved);
    var d1 := Started(data, v, val, stk + [DictValue], saved);
    var d2 := Peek(data, e, Ended(val, stk + [DictValue]), over);
    KeyLock(data, q, key, val, first, stk, saved);
    PeekForgets(data, e, val, stk, DictValue, over);
    LaterKey(stk);
    DictLoopUnfold(data, d, acc);
    AfterKeyIs(data, key, d1, acc);
    AfterValueIs(data, key, Denote(val), d2, acc);
  }

  lemma DictEnds(data: bytes, q: nat, es: seq<Entry>, first: bool, stk: seq<Container>, saved: bool,
                 acc: map<bytes, Value>)
    requires es == [] && Occurs(data, q, PrintEntries(es) + [CHE])
    ensures DictLoop(data, Peek(data, q, KeyState(first, stk), saved), acc) ==
            Decoded(DenoteEntries(es, acc),
                    Dec(Done(stk), q + |PrintEntries(es)| + 1, ScanEndDict, saved || AnyEntryOverflows(es)))
  {
    OccursAt(data, q, PrintEntries(es) + [CHE], 0);
    NoMoreKeys(first, stk);
  }

  lemma UnfoldEntries(es: seq<Entry>, first: bool, acc: map<bytes, Value>)
    requires es != [] && StrictEntries(es, first)
    ensures Strict(es[0].val) && (first || es[0].key != []) && StrictEntries(es[1..], false)
    ensures DenoteEntries(es, acc) == DenoteEntries(es[1..], acc[es[0].key := Denote(es[0].val)])
    ensures AnyEntryOverflows(es) == (Overflows(es[0].val) || AnyEntryOverflows(es[1..]))
    ensures |PrintEntries(es)| == |PrintString(es[0].key)| + |Print(es[0].val)| + |PrintEntries(es[1..])|
  {
  }

  lemma {:induction false} EntriesLock(data: bytes, q: nat, es: seq<Entry>, first: bool, stk: seq<Container>,
                                       saved: bool, acc: map<bytes, Value>)
    requires StrictEntries(es, first) && Occurs(data, q, PrintEntries(es) + [CHE])
    ensures DictLoop(data, Peek(data, q, KeyState(first, stk), saved), acc) ==
            Decoded(DenoteEntries(es, acc),
                    Dec(Done(stk), q + |PrintEntries(es)| + 1, ScanEndDict, saved || AnyEntryOverflows(es)))
    decreases es
  {
    hide *;
    if es == [] {
      DictEnds(data, q, es, first, stk, saved, acc);
    } else {
      var key, val := es[0].key, es[0].val;
      var v := q + |PrintString(key)|;
      UnfoldEntries(es, first, acc);
      EntryOccurs(data, q, es);
      DictTurn(data, q, key, val, first, stk, saved, acc);
      EntriesLock(data, v + |Print(val)|, es[1..], false, stk, saved || Overflows(val), acc[key := Denote(val)]);
    }
  }
}
