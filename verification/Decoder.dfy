/** The decoder object of bencode/decode.go, with a scanner of its own. */
module Decoder {
  import opened Bytes
  import opened Decimal
  import opened ScanState
  import opened Validity
  import opened Skip
  import opened Scanner
  import opened Trees
  import opened Decoding

  class DecodeState {
    var data: bytes
    var off: nat
    var opcode: Opcode
    var savedError: bool
    const scan: Scanner

    ghost function View(): Dec
      reads this, scan
    {
      Dec(scan.View(), off, opcode, savedError)
    }

    ghost predicate Valid()
      reads this, scan
    {
      DecInv(data, View())
    }

    constructor (scan: Scanner)
      ensures this.scan == scan
    {
      this.scan := scan;
      data, off, opcode, savedError := [], 0, ScanContinue, false;
    }

    method Init(data: bytes)
      modifies this
      ensures this.data == data && off == 0 && !savedError && opcode == old(opcode)
    {
      this.data := data;
      off := 0;
      savedError := false;
    }

    method Skip() returns (ok: bool)
      requires Inv(scan.View()) && scan.parseState != []
      modifies this`off, this`opcode, scan
      ensures match SkipTo(data, old(off), old(scan.View()), |old(scan.parseState)|)
              case Stopped(i, s, op) => ok && View() == Dec(s, i, op, old(savedError))
              case OffEnd => !ok
    {
      hide Step, SkipTo, Inv, DecInv, Left, Rank;
      var s, input, depth := scan, data, |scan.parseState|;
      var i: nat := off;
      ghost var t := s.View();
      ghost var stop := SkipTo(input, i, t, depth);
      while true
        invariant t == s.View() && Inv(t) && 0 < depth <= |t.stack|
        invariant SkipTo(input, i, t, depth) == stop
        decreases Left(input, i), Rank(t.mode)
      {
        SkipStep(input, i, t, depth);
        if i >= |input| {
          return false;
        }
        var op := s.CallStep(input[i]);
        t := Step(t, input[i]).0;
        i := i + s.stepSize;
        if |s.parseState| < depth {
          assert stop == Stopped(i, t, op);
          off := i;
          opcode := op;
          return true;
        }
      }
    }

    method ScanNext()
      requires Valid()
      modifies this`off, this`opcode, scan
      ensures Valid() && View() == Decoding.ScanNext(data, old(View()))
    {
      ghost var spec := Decoding.ScanNext(data, View());
      if off < |data| {
        opcode := scan.CallStep(data[off]);
        off := off + scan.stepSize;
      } else {
        opcode := scan.AtEof();
        off := |data| + 1;
      }
      assert View() == spec;
    }

    /** `scanWhile(scanContinue)`; the code never passes another opcode. */
    method ScanWhile()
      requires off <= |data| ==> Inv(scan.View())
      modifies this`off, this`opcode, scan
      ensures View() == ScanOn(data, old(scan.View()), old(off), old(savedError))
    {
      hide Step, ScanOn, Eof, Inv, DecInv, Left, Rank;
      var s, input := scan, data;
      var i: nat := off;
      ghost var t, saved := s.View(), savedError;
      ghost var spec := ScanOn(input, t, i, saved);
      while i < |input|
        invariant t == s.View() && (i <= |input| ==> Inv(t))
        invariant ScanOn(input, t, i, saved) == spec
        decreases Left(input, i), Rank(t.mode)
      {
        OneStep(input, t, i, saved);
        var newOp := s.CallStep(input[i]);
        t := Step(t, input[i]).0;
        i := i + s.stepSize;
        if newOp != ScanContinue {
          assert Dec(t, i, newOp, saved) == spec;
          opcode, off := newOp, i;
          assert View() == spec;
          return;
        }
      }
      InputEnds(input, t, i, saved);
      opcode := s.AtEof();
      off := |input| + 1;
      assert View() == spec;
    }

    // What a method that decodes a T promises: the result of the function, or a panic.
    ghost predicate Yields<T>(r: Option<T>, spec: Result<T>)
      reads this, scan
    {
      match spec
      case Decoded(v, d) => r == Some(v) && View() == d
      case Crashed => r == None
    }

    method ValueInterface() returns (val: Option<Value>)
      requires Valid()
      modifies this, scan
      ensures data == old(data) && Yields(val, Decoding.ValueInterface(data, old(View())))
      decreases Room(data, View()), 1
    {
      match opcode
      case ScanBeginList =>
        var v := ListInterface();
        if v.None? {
          return None;
        }
        ScanNext();
        val := Some(List(v.value));
      case ScanBeginDict =>
        var m := DictInterface();
        if m.None? {
          return None;
        }
        ScanNext();
        val := Some(Dict(m.value));
      case ScanBeginString =>
        var s := StringInterface();
        if s.None? {
          return None;
        }
        val := Some(Str(s.value));
      case ScanBeginInt =>
        var n := IntInterface();
        if n.None? {
          return None;
        }
        ScanNext();
        val := Some(Int(n.value));
      case _ =>
        val := None;
    }

    method ListInterface() returns (r: Option<seq<Value>>)
      requires Valid() && opcode in BEGINS
      modifies this, scan
      ensures data == old(data) && Yields(r, Decoding.ListInterface(data, old(View())))
      decreases Room(data, View()), 0
    {
      var v: seq<Value> := [];
      ScanNext();
      ghost var spec := Decoding.ListInterface(data, old(View()));
      while true
        invariant data == old(data) && Valid() && off > old(off)
        invariant ListLoop(data, View(), v) == spec
        decreases Room(data, View())
      {
        if opcode == ScanEndList {
          break;
        }
        var item := ValueInterface();
        if item.None? {
          return None;
        }
        v := v + [item.value];
        if opcode == ScanEndList {
          break;
        }
      }
      r := Some(v);
    }

    method DictInterface() returns (r: Option<map<bytes, Value>>)
      requires Valid() && opcode in BEGINS
      modifies this, scan
      ensures data == old(data) && Yields(r, Decoding.DictInterface(data, old(View())))
      decreases Room(data, View()), 0
    {
      var m: map<bytes, Value> := map[];
      ScanNext();
      ghost var spec := Decoding.DictInterface(data, old(View()));
      while true
        invariant data == old(data) && Valid() && off > old(off)
        invariant DictLoop(data, View(), m) == spec
        decreases Room(data, View())
      {
        if opcode == ScanEndDict {
          break;
        }
        if opcode != ScanBeginString {
          return None;
        }
        var key := StringInterface();
        if key.None? {
          return None;
        }
        var v := ValueInterface();
        if v.None? {
          return None;
        }
        m := m[key.value := v.value];
        if opcode == ScanEndDict {
          break;
        }
      }
      r := Some(m);
    }

    method StringInterface() returns (r: Option<bytes>)
      requires Valid() && opcode in BEGINS
      modifies this`off, this`opcode, scan
      ensures Yields(r, Decoding.StringInterface(data, old(View())))
    {
      hide Step, ScanOn, Eof, Inv;
      ScanWhile();
      var start := off;
      ScanWhile();
      r := Slice(data, start, off - 1);
    }

    method IntInterface() returns (r: Option<int>)
      requires Valid() && opcode == ScanBeginInt
      modifies this, scan
      ensures data == old(data) && Yields(r, Decoding.IntInterface(data, old(View())))
    {
      var start := off;
      IntItem(data, View());
      hide Step, ScanOn, Eof, Atoi, Inv, DecInv;
      ghost var spec := Decoding.IntInterface(data, View());
      ScanWhile();
      var item := Slice(data, start, off - 1);
      if item.None? || item.value == [] {
        return None;
      }
      // The scanner has let through nothing but a digit or a sign here.
      if item.value[0] != MINUS && !IsDigit(item.value[0]) {
        assert false;
      }
      var (n, ok) := Atoi(item.value);
      if !ok {
        savedError := true;
      }
      assert spec == Decoded(n, View());
      r := Some(n);
    }

    /**
     * The head of `list` and of `dict` for a destination that unmarshals itself: the container is skipped and
     * its text is sliced out.
     */
    method RawContainer() returns (raw: Option<bytes>)
      requires Valid() && opcode in {ScanBeginList, ScanBeginDict} && scan.parseState != [] && off > 0
      modifies this, scan
      ensures match SkipTo(data, old(off), old(scan.View()), |old(scan.parseState)|)
              case Stopped(i, s, op) =>
                View() == Dec(s, i, op, old(savedError)) && raw == Slice(data, old(off) - 1, i)
              case OffEnd => raw == None
    {
      var start := off - 1;
      var ok := Skip();
      raw := if ok then Slice(data, start, off) else None;
    }

    /** `value` for a destination of type interface{}. */
    method StoreValue() returns (r: Option<Option<Value>>)
      requires Valid()
      modifies this, scan
      ensures data == old(data) && Yields(r, TopValue(data, old(View())))
    {
      hide Step, ScanOn, Eof, Atoi, Decoding.ValueInterface, Inv;
      if opcode == ScanBeginInt {
        var start := off;
        ScanWhile();
        var item := Slice(data, start, off - 1);
        if item.None? {
          return None;
        }
        var (n, ok) := Atoi(item.value);
        if !ok {
          savedError := true;
        }
        ScanNext();
        r := Some(if ok then Some(Int(n)) else None);
      } else {
        var v := ValueInterface();
        r := if v.Some? then Some(v) else None;
      }
    }
  }

  lemma SkipStep(data: bytes, i: nat, s: Scan, depth: nat)
    requires Inv(s) && 0 < depth <= |s.stack|
    ensures i >= |data| ==> SkipTo(data, i, s, depth) == OffEnd
    ensures i < |data| ==>
      var (s', op) := Step(s, data[i]);
      && Inv(s')
      && (if |s'.stack| < depth then SkipTo(data, i, s, depth) == Stopped(i + s'.stepSize, s', op)
          else SkipTo(data, i, s, depth) == SkipTo(data, i + s'.stepSize, s', depth))
      && (Left(data, i + s'.stepSize) < Left(data, i) ||
          (Left(data, i + s'.stepSize) == Left(data, i) && Rank(s'.mode) < Rank(s.mode)))
  {
    hide Step;
    if i < |data| {
      StepInv(s, data[i]);
    }
  }

  lemma OneStep(data: bytes, s: Scan, i: nat, saved: bool)
    requires i < |data| && Inv(s)
    ensures var (s', op) := Step(s, data[i]);
      && Inv(s')
      && (op == ScanContinue ==>
            && ScanOn(data, s', i + s'.stepSize, saved) == ScanOn(data, s, i, saved)
            && (Left(data, i + s'.stepSize) < Left(data, i) ||
                (Left(data, i + s'.stepSize) == Left(data, i) && Rank(s'.mode) < Rank(s.mode))))
      && (op != ScanContinue ==> ScanOn(data, s, i, saved) == Dec(s', i + s'.stepSize, op, saved))
  {
    StepInv(s, data[i]);
  }

  lemma InputEnds(data: bytes, s: Scan, i: nat, saved: bool)
    requires i >= |data| && (i <= |data| ==> Inv(s))
    ensures ScanOn(data, s, i, saved) == Dec(Eof(s).0, |data| + 1, Eof(s).1, saved)
  {
  }

  // The text of an int, if there is any, begins with a digit or a sign.
  lemma IntItem(data: bytes, d: Dec)
    requires DecInv(data, d) && d.op == ScanBeginInt
    ensures match Slice(data, d.off, Decoding.ScanWhile(data, d).off - 1)
            case Some(item) => item == [] || item[0] == MINUS || IsDigit(item[0])
            case None => true
  {
    if d.off < |data| {
      var (s, op) := Step(d.s, data[d.off]);
      assert op != ScanContinue ==> Decoding.ScanWhile(data, d) == Dec(s, d.off + 1, op, d.saved);
    }
  }

  /** `Unmarshal` into a nil interface{}: a first pass to check the input, and a second to decode it. */
  method Unmarshal(data: bytes) returns (r: Unmarshalled)
    requires !EmptyStringThenSpace(data)
    ensures r == Decoding.Unmarshal(data)
  {
    LoopExactly(data);
    var scan := new Scanner();
    var valid := CheckValid(data, scan);
    if !valid {
      return Rejected;
    }
    var d := new DecodeState(scan);
    d.Init(data);
    scan.Reset();
    assert scan.View() == FRESH;
    d.ScanWhile();
    var v := d.StoreValue();
    r := if v.Some? then Stored(v.value, d.savedError) else Panicked;
  }
}
