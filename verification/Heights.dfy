/** However far the decoder and its scanner drift apart, a decoder that returns never gains open containers. */
module Heights {
  import opened Bytes
  import opened ScanState
  import opened Validity
  import opened Trees
  import opened Decoding

  /** The open containers before the byte that gave the current opcode. */
  function Height(d: Dec): int {
    |d.s.stack| - Depth(d.op)
  }

  // A string that has begun is in its length.
  predicate Sound(data: bytes, d: Dec) {
    DecInv(data, d) && (d.op == ScanBeginString ==> d.s.mode == BeginString)
  }

  lemma StepSound(s: Scan, c: byte)
    requires Inv(s)
    ensures |Step(s, c).0.stack| == |s.stack| + Depth(Step(s, c).1)
    ensures Step(s, c).1 == ScanBeginString ==> Step(s, c).0.mode == BeginString
    ensures s.mode in {BeginString, BeginInt, Neg, Zero, Num, Failed} ==> Step(s, c).1 !in DEPTH_OPENING
    ensures s.mode in {BeginInt, Neg, Zero, Num, Failed} ==> Step(s, c).1 !in DEPTH_CLOSING
    ensures Step(s, c).1 == ScanContinue ==>
      && (s.mode == BeginString ==> Step(s, c).0.mode == BeginString)
      && (s.mode in {BeginInt, Neg, Zero, Num} ==> Step(s, c).0.mode in {Neg, Zero, Num})
  {
    StepInv(s, c);
    match s.mode
    case BeginValue => BeginsSound(s, c);
    case EndValue => EndsSound(s, c);
    case BeginString =>
      if c == CHE && s.stringLen == 0 {
        CloseOnly(s);
      }
    case _ =>
  }

  lemma {:induction false} BeginsSound(s: Scan, c: byte)
    ensures StepBeginValue(s, c).1 == ScanBeginString ==> StepBeginValue(s, c).0.mode == BeginString
    decreases Bounces(s), if c == CHE then 1 else 0
  {
    if c == CHE {
      EndsSound(s, c);
    }
  }

  lemma {:induction false} EndsSound(s: Scan, c: byte)
    ensures StepEndValue(s, c).1 == ScanBeginString ==> StepEndValue(s, c).0.mode == BeginString
    decreases Bounces(s), if c == CHE then 0 else 1
  {
    if s.stack != [] {
      var t := s.(stepSize := 1);
      if Top(s) == DictKey {
        BeginsSound(SetTop(t, DictValue), c);
      } else if Top(s) == ListValue && c != CHE {
        BeginsSound(t, c);
      }
    }
  }

  lemma CloseOnly(s: Scan)
    ensures StepEndValue(s, CHE).1 in {ScanEndList, ScanEndDict, ScanEnd}
  {
    if s.stack != [] && Top(s) == DictKey {
      var t := SetTop(s.(stepSize := 1), DictValue);
      assert StepBeginValue(t, CHE) == StepEndValue(t, CHE);
    }
  }

  lemma EofFlat(s: Scan)
    ensures |Eof(s).0.stack| == |s.stack| && Eof(s).1 in {ScanEnd, ScanError}
  {
    if s.mode == EndValue && s.stack != [] {
      var t := s.(stepSize := 1);
      assert StepBeginValue(SetTop(t, DictValue), 32) == Fail(SetTop(t, DictValue));
      assert StepBeginValue(t, 32) == Fail(t);
    }
  }

  lemma NextHeight(data: bytes, d: Dec)
    requires DecInv(data, d)
    ensures Height(ScanNext(data, d)) == |d.s.stack| && Sound(data, ScanNext(data, d))
  {
    if d.off < |data| {
      StepSound(d.s, data[d.off]);
    } else {
      EofFlat(d.s);
    }
    hide Step, Eof;
  }

  lemma {:induction false} OnHeight(data: bytes, s: Scan, i: nat, saved: bool)
    requires i <= |data| ==> Inv(s)
    ensures var d := ScanOn(data, s, i, saved);
      && Height(d) == |s.stack| && Sound(data, d)
      && (i <= |data| && s.mode == BeginString ==> d.op !in DEPTH_OPENING)
      && (i <= |data| && s.mode in {BeginInt, Neg, Zero, Num} ==> d.op !in DEPTH_OPENING + DEPTH_CLOSING)
    decreases Left(data, i), Rank(s.mode)
  {
    if i < |data| {
      var (s', op) := Step(s, data[i]);
      StepSound(s, data[i]);
      StepInv(s, data[i]);
      if op == ScanContinue {
        OnHeight(data, s', i + s'.stepSize, saved);
      }
    } else {
      EofFlat(s);
    }
    hide Step, Eof, Inv;
  }

  lemma StringHeight(data: bytes, d: Dec)
    requires Sound(data, d) && d.op == ScanBeginString
    ensures var r := StringInterface(data, d);
      r.Decoded? ==> Height(r.d) <= |d.s.stack| && Sound(data, r.d)
  {
    OnHeight(data, d.s, d.off, d.saved);
    var d1 := ScanWhile(data, d);
    OnHeight(data, d1.s, d1.off, d1.saved);
    hide ScanOn;
  }

  lemma IntHeight(data: bytes, d: Dec)
    requires Sound(data, d) && d.op == ScanBeginInt
    ensures var r := IntInterface(data, d);
      r.Decoded? ==> |r.d.s.stack| == |d.s.stack| && DecInv(data, r.d)
  {
    OnHeight(data, d.s, d.off, d.saved);
    hide ScanOn;
  }

  // What a call that starts from `d` guarantees of its result.
  ghost predicate Sinks<T>(data: bytes, d: Dec, r: Result<T>) {
    r.Decoded? ==> Sound(data, r.d) && Height(r.d) <= Height(d)
  }

  /** A value returned leaves at most as many containers open as there were, whatever the input. */
  lemma {:induction false} ValueSinks(data: bytes, d: Dec)
    requires Sound(data, d)
    ensures Sinks(data, d, ValueInterface(data, d))
    decreases Room(data, d), 1
  {
    assert DecInv(data, d);
    hide Step, Inv, Height, Sound, ListLoop, DictLoop, StringInterface, IntInterface, ScanNext;
    match d.op
    case ScanBeginList =>
      var d1 := Opened(data, d);
      ListSinks(data, d1, []);
      var r := ListInterface(data, d);
      assert r == ListLoop(data, d1, []);
      if r.Decoded? {
        ListEndsOp(data, d1, []);
        Closed(data, d, d1, r.d);
      }
    case ScanBeginDict =>
      var d1 := Opened(data, d);
      DictSinks(data, d1, map[]);
      var r := DictInterface(data, d);
      assert r == DictLoop(data, d1, map[]);
      if r.Decoded? {
        DictEndsOp(data, d1, map[]);
        Closed(data, d, d1, r.d);
      }
    case ScanBeginString =>
      StringSinks(data, d);
    case ScanBeginInt =>
      IntHeightNext(data, d);
    case _ =>
  }

  lemma StringSinks(data: bytes, d: Dec)
    requires Sound(data, d) && d.op == ScanBeginString
    ensures Sinks(data, d, StringInterface(data, d))
  {
    StringHeight(data, d);
    hide StringInterface, DecInv;
  }

  lemma IntHeightNext(data: bytes, d: Dec)
    requires Sound(data, d) && d.op == ScanBeginInt
    ensures Sinks(data, d, ValueInterface(data, d))
  {
    IntHeight(data, d);
    var r := IntInterface(data, d);
    if r.Decoded? {
      NextHeight(data, r.d);
    }
    hide IntInterface, ScanNext, Inv;
  }

  lemma Opened(data: bytes, d: Dec) returns (d1: Dec)
    requires Sound(data, d) && d.op in DEPTH_OPENING
    ensures d1 == ScanNext(data, d) && Sound(data, d1) && DecInv(data, d1) && Height(d1) == Height(d) + 1
    ensures Room(data, d1) < Room(data, d)
  {
    d1 := ScanNext(data, d);
    NextHeight(data, d);
    hide ScanNext, Inv;
  }

  lemma Closed(data: bytes, d: Dec, d1: Dec, d2: Dec)
    requires Height(d1) == Height(d) + 1 && Sound(data, d2) && Height(d2) <= Height(d1) && d2.op in DEPTH_CLOSING
    ensures DecInv(data, d2) && Sound(data, ScanNext(data, d2)) && Height(ScanNext(data, d2)) <= Height(d)
  {
    NextHeight(data, d2);
    hide ScanNext, Inv;
  }

  lemma {:induction false} ListEndsOp(data: bytes, d: Dec, acc: seq<Value>)
    requires DecInv(data, d)
    ensures ListLoop(data, d, acc).Decoded? ==> ListLoop(data, d, acc).d.op == ScanEndList
    decreases Room(data, d), 2
  {
    if d.op != ScanEndList {
      var r := ValueInterface(data, d);
      if r.Decoded? {
        ListEndsOp(data, r.d, acc + [r.val]);
      }
    }
    hide ValueInterface;
  }

  lemma {:induction false} DictEndsOp(data: bytes, d: Dec, acc: map<bytes, Value>)
    requires DecInv(data, d)
    ensures DictLoop(data, d, acc).Decoded? ==> DictLoop(data, d, acc).d.op == ScanEndDict
    decreases Room(data, d), 2
  {
    if d.op == ScanBeginString {
      var key := StringInterface(data, d);
      if key.Decoded? {
        var r := ValueInterface(data, key.d);
        if r.Decoded? {
          DictEndsOp(data, r.d, acc[key.val := r.val]);
        }
      }
    }
    hide ValueInterface, StringInterface;
  }

  lemma {:induction false} ListSinks(data: bytes, d: Dec, acc: seq<Value>)
    requires Sound(data, d)
    ensures Sinks(data, d, ListLoop(data, d, acc))
    decreases Room(data, d), 2
  {
    if d.op != ScanEndList {
      ValueSinks(data, d);
      var r := ValueInterface(data, d);
      if r.Decoded? {
        ListSinks(data, r.d, acc + [r.val]);
      }
    }
    hide ValueInterface;
  }

  lemma {:induction false} DictSinks(data: bytes, d: Dec, acc: map<bytes, Value>)
    requires Sound(data, d)
    ensures Sinks(data, d, DictLoop(data, d, acc))
    decreases Room(data, d), 2
  {
    hide ValueInterface, StringInterface;
    if d.op == ScanBeginString {
      StringSinks(data, d);
      var key := StringInterface(data, d);
      if key.Decoded? {
        ValueSinks(data, key.d);
        var r := ValueInterface(data, key.d);
        if r.Decoded? {
          DictSinks(data, r.d, acc[key.val := r.val]);
        }
      }
    }
  }
}
