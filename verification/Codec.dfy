/** The laws of the bencode package: what Unmarshal and Marshal are to each other. */
module Codec {
  import opened Bytes
  import opened Decimal
  import opened ScanState
  import opened Validity
  import opened Skip
  import opened Grammar
  import opened GrammarProofs
  import opened Trees
  import opened StrictDocuments
  import opened Decoding
  import opened Lockstep
  import opened Encoding
  import opened Canonical
  import opened Descent
  import opened Exactness

  /** `Marshal` of a value with no nil in it. */
  ghost function Marshal(v: Value): bytes {
    Print(ToTree(v))
  }

  /** What Unmarshal stores for a document: nothing for a lone int that is out of range. */
  function TopDenote(t: Tree): Option<Value> {
    if t.TInt? && !IsInt64(t.n) then None else Some(Denote(t))
  }

  // The first byte of a document, stepped over by the fresh scanner.
  lemma FirstStep(data: bytes, t: Tree)
    requires Occurs(data, 0, Print(t))
    ensures ScanOn(data, FRESH, 0, false) == Started(data, 0, t, [], false)
  {
    OccursAt(data, 0, Print(t), 0);
    BeginsWith(t, []);
    assert Step(FRESH, data[0]) == Begun(t, []);
  }

  lemma TopInt(data: bytes, n: int)
    requires Occurs(data, 0, Print(TInt(n)))
    ensures TopValue(data, Started(data, 0, TInt(n), [], false)) ==
            Decoded(TopDenote(TInt(n)), Peek(data, |Print(TInt(n))|, Outside([]), !IsInt64(n)))
  {
    hide Itoa, Atoi, Print, ScanNext, ScanWhile, Peek;
    IntLock(data, 0, n, [], false);
    AtoiItoa(n);
    NextIsPeek(data, Outside([]), |Print(TInt(n))|, ScanEndInt, !IsInt64(n));
  }

  lemma TopOther(data: bytes, d: Dec, v: Value, d1: Dec)
    requires DecInv(data, d) && d.op != ScanBeginInt && ValueInterface(data, d) == Decoded(v, d1)
    ensures TopValue(data, d) == Decoded(Some(v), d1)
  {
  }

  lemma TopLock(data: bytes, t: Tree)
    requires Strict(t) && Occurs(data, 0, Print(t))
    requires t.TStr? ==> StringRoom(data, |Print(t)|, t.s, [])
    ensures TopValue(data, Started(data, 0, t, [], false)) ==
            Decoded(TopDenote(t), Peek(data, |Print(t)|, Ended(t, []), Overflows(t)))
  {
    hide Step, ValueInterface, TopValue, Peek, StringRoom, Strict, Denote, Inv, DecInv;
    ValueParts(data, 0, t, [], false);
    if t.TInt? {
      TopInt(data, t.n);
    } else {
      ValueLock(data, 0, t, [], false);
      TopOther(data, Started(data, 0, t, [], false), Denote(t), Peek(data, |Print(t)|, Ended(t, []), Overflows(t)));
    }
  }

  /** Unmarshal returns the value of every strictly written document it accepts, followed as it may be. */
  lemma UnmarshalLock(data: bytes, t: Tree)
    requires Strict(t) && Occurs(data, 0, Print(t)) && Check(data) == Accept
    requires t.TStr? ==> StringRoom(data, |Print(t)|, t.s, [])
    ensures Unmarshal(data) == Stored(TopDenote(t), Overflows(t))
  {
    hide TopValue, Peek, Print, Denote, Overflows, StringRoom, Check, TopDenote, Started;
    FirstStep(data, t);
    TopLock(data, t);
    PeekSaved(data, |Print(t)|, t, Overflows(t));
  }

  lemma PeekSaved(data: bytes, e: nat, t: Tree, saved: bool)
    ensures Inv(Ended(t, [])) && Peek(data, e, Ended(t, []), saved).saved == saved
  {
  }

  /** Of all printed documents checkValid accepts the strictly written ones, save the empty string. */
  lemma StrictAccepted(t: Tree)
    ensures Check(Print(t)) == Accept <==> Strict(t) && t != TStr([])
  {
    var data := Print(t);
    assert Occurs(data, 0, Print(t));
    hide Check, Occurs, Strict, Print, Digits, HeadFrom, ItemAt, BlankEvery;
    AcceptExactly(data);
    if Strict(t) {
      TreeReads(data, 0, t);
    } else {
      SloppyFails(data, 0, t);
    }
    StrictHead(data, t);
    BlankEnd(data);
  }

  lemma BlankEnd(data: bytes)
    ensures forall n | n > 0 :: BlankEvery(data, |data|, n)
  {
  }

  lemma StrictHead(data: bytes, t: Tree)
    requires Occurs(data, 0, Print(t))
    ensures t.TStr? ==> IsDigit(data[0]) && HeadFrom(data, 1, data[0] - CH0) == Length(|Digits(|t.s|)| + 1, |t.s|)
    ensures !t.TStr? ==> !IsDigit(data[0])
  {
    OccursAt(data, 0, Print(t), 0);
    if t.TStr? {
      StringReads(data, 0, t.s);
    }
  }

  // The empty string alone has no blank after it, and a container does not begin with a zero.
  lemma PrintedEnds(t: Tree)
    requires !Strict(t) || t == TStr([])
    ensures Check(Print(t)) == Reject
  {
    var data := Print(t);
    StrictAccepted(t);
    LoopExactly(data);
    if t == TStr([]) {
      assert data == [CH0, COLON];
    } else {
      assert t.TList? || t.TDict?;
      assert data[0] in {CHL, CHD};
    }
    hide Check;
  }

  /**
   * Unmarshal of any printed document: its value, with an error exactly if some int overflows, or a rejection if an
   * empty key comes after the first, or for the empty string alone.
   */
  lemma UnmarshalStrict(t: Tree)
    ensures Unmarshal(Print(t)) ==
            if Strict(t) && t != TStr([]) then Stored(TopDenote(t), Overflows(t)) else Rejected
  {
    StrictAccepted(t);
    if !Strict(t) || t == TStr([]) {
      PrintedEnds(t);
    } else {
      assert Occurs(Print(t), 0, Print(t));
      UnmarshalLock(Print(t), t);
    }
  }

  /** Round trip: Unmarshal gives back every marshalled value but the empty string, which it rejects. */
  lemma RoundTrip(v: Value)
    requires Int64s(v)
    ensures Unmarshal(Marshal(v)) == if v == Str([]) then Rejected else Stored(Some(v), false)
  {
    ToTreeDenotes(v);
    UnmarshalStrict(ToTree(v));
  }

  /** The descent, too, reads a strictly written document as its value. */
  lemma DecodeStrict(t: Tree)
    requires Strict(t) && t != TStr([])
    ensures Document(Print(t)) && Decode(Print(t)) == Stored(TopDenote(t), Overflows(t))
  {
    StrictAccepted(t);
    AcceptExactly(Print(t));
    UnmarshalStrict(t);
    UnmarshalExactly(Print(t));
  }

  // A string at top level that is followed by more bytes: the stride of its length runs into the slice.
  lemma TrailingString(data: bytes, s: bytes)
    requires Occurs(data, 0, PrintString(s)) && Check(data) == Accept && |PrintString(s)| < |data|
    ensures var i, e := |Digits(|s|)| + 1, |PrintString(s)|;
      && i <= e && s != [] && e + |s| <= |data|
      && Unmarshal(data) == Stored(Some(Str(data[i..e + |s| - 1])), false)
  {
    hide *;
    TrailingRoom(data, s);
    AcceptExactly(data);
    LoopExactly(data);
    UnmarshalExactly(data);
    TrailingTop(data, s);
  }

  lemma TrailingTop(data: bytes, s: bytes)
    requires Occurs(data, 0, PrintString(s)) && Document(data) && s != [] && |PrintString(s)| < |data|
    ensures |Digits(|s|)| + 1 <= |PrintString(s)| && |PrintString(s)| + |s| <= |data|
    ensures Decode(data) == Stored(Some(Str(data[|Digits(|s|)| + 1..|PrintString(s)| + |s| - 1])), false)
  {
    hide *;
    StringLength(s);
    StrictHead(data, TStr(s));
    StringReads(data, 0, s);
    FirstDigitIs(data, s);
    TopStringIsLong(data, |Digits(|s|)| + 1, |s|);
  }

  lemma StringLength(s: bytes)
    ensures Print(TStr(s)) == PrintString(s) && |PrintString(s)| == |Digits(|s|)| + 1 + |s|
  {
  }

  lemma FirstDigitIs(data: bytes, s: bytes)
    requires Occurs(data, 0, PrintString(s)) && s != []
    ensures NonZeroDigitAt(data, 0)
  {
    StringReads(data, 0, s);
  }

  // An accepted string leaves room for a whole stride after it.
  lemma TrailingRoom(data: bytes, s: bytes)
    requires Occurs(data, 0, PrintString(s)) && Check(data) == Accept && |PrintString(s)| < |data|
    ensures Print(TStr(s)) == PrintString(s)
    ensures |Digits(|s|)| + 1 <= |PrintString(s)| && s != [] && |PrintString(s)| + |s| <= |data|
  {
    AcceptExactly(data);
    StrictHead(data, TStr(s));
    StringReads(data, 0, s);
    assert ItemAt(data, 0) == Got(|PrintString(s)|);
    hide Digits, Check, HeadFrom, StringFrom, ItemAt, Occurs, BlankEvery;
    BlankRoom(data, |PrintString(s)|, |s|);
  }

  /**
   * White space after a document: Unmarshal of an accepted input still gives the document's value, except
   * exactly after a string of more than one byte, to which it adds the bytes of one stride.
   */
  lemma TrailingBytes(data: bytes, t: Tree)
    requires Strict(t) && Occurs(data, 0, Print(t)) && Check(data) == Accept
    ensures Unmarshal(data) == Stored(TopDenote(t), Overflows(t)) <==>
            !(t.TStr? && |t.s| > 1 && |Print(t)| < |data|)
  {
    if t.TStr? && |Print(t)| < |data| {
      TrailingString(data, t.s);
      ContentParts(data, 0, t.s, [], false);
      hide Unmarshal, Check, Digits, Occurs;
      assert |data[|Digits(|t.s|)| + 1..|PrintString(t.s)| + |t.s| - 1]| == 2 * |t.s| - 1;
    } else {
      NothingTrails(data, t);
      hide *;
      UnmarshalLock(data, t);
    }
  }

  lemma NothingTrails(data: bytes, t: Tree)
    requires Occurs(data, 0, Print(t)) && Check(data) == Accept && (t.TStr? ==> |Print(t)| == |data|)
    ensures t.TStr? ==> StringRoom(data, |Print(t)|, t.s, [])
  {
    if t.TStr? {
      AcceptExactly(data);
      StrictHead(data, t);
    }
  }

  predicate IsContainer(t: Tree) {
    t.TList? || t.TDict?
  }

  /**
   * Skip exactness: from just after a container's first byte, at any depth of any input, skip stops just
   * after its last byte, so that the slice handed to an Unmarshaler is the container's own text.
   */
  lemma SkipExact(data: bytes, p: nat, t: Tree, stk: seq<Container>)
    requires Strict(t) && IsContainer(t) && Occurs(data, p, Print(t))
    ensures SkipTo(data, p + 1, Begun(t, stk).0, |stk| + 1) ==
            Stopped(p + |Print(t)|, Done(stk), if t.TList? then ScanEndList else ScanEndDict)
    ensures Slice(data, p, p + |Print(t)|) == Some(Print(t))
  {
    hide SkipTo, Print, Occurs, Strict, Step, Begun, Slice, Done, Inv;
    OccursSlice(data, p, Print(t));
    match t
    case TList(items) => ListSkipped(data, p, items, stk);
    case TDict(es) => DictSkipped(data, p, es, stk);
  }

  lemma OccursSlice(data: bytes, i: nat, x: bytes)
    requires Occurs(data, i, x)
    ensures Slice(data, i, i + |x|) == Some(x)
  {
  }

  lemma ListSkipped(data: bytes, p: nat, items: seq<Tree>, stk: seq<Container>)
    requires Strict(TList(items)) && Occurs(data, p, Print(TList(items)))
    ensures SkipTo(data, p + 1, Begun(TList(items), stk).0, |stk| + 1) ==
            Stopped(p + |Print(TList(items))|, Done(stk), ScanEndList)
  {
    hide Strict, StrictItems, Occurs, Print, PrintItems, Step, ListFrom, ItemAt, SkipTo, Inv;
    ListItem(data, p, items);
    ItemsRead(data, p + 1, items);
    BeginList(data, p + 1, stk, |stk| + 1);
    ListSkip(data, p + 1, stk, |stk| + 1);
  }

  lemma DictSkipped(data: bytes, p: nat, es: seq<Entry>, stk: seq<Container>)
    requires Strict(TDict(es)) && Occurs(data, p, Print(TDict(es)))
    ensures SkipTo(data, p + 1, Begun(TDict(es), stk).0, |stk| + 1) ==
            Stopped(p + |Print(TDict(es))|, Done(stk), ScanEndDict)
  {
    hide Strict, StrictEntries, Occurs, Print, PrintEntries, Step, FirstKey, ItemAt, SkipTo, Inv;
    DictItem(data, p, es);
    EntriesRead(data, p + 1, es, true);
    FirstKeySkip(data, p + 1, stk, |stk| + 1);
  }

  /** Skipping a container leaves the decoder exactly where decoding it does. */
  lemma SkipIsDecode(data: bytes, p: nat, t: Tree, stk: seq<Container>, saved: bool)
    requires Strict(t) && IsContainer(t) && Occurs(data, p, Print(t))
    ensures var d := Started(data, p, t, stk, saved);
      var stop := SkipTo(data, d.off, d.s, |d.s.stack|);
      && stop.Stopped?
      && (t.TList? ==> ListInterface(data, d).Decoded? &&
                       ListInterface(data, d).d == Dec(stop.s, stop.off, stop.op, saved || Overflows(t)))
      && (t.TDict? ==> DictInterface(data, d).Decoded? &&
                       DictInterface(data, d).d == Dec(stop.s, stop.off, stop.op, saved || Overflows(t)))
  {
    hide *;
    SkipExact(data, p, t, stk);
    StartedIs(data, p, t, stk, saved);
    match t
    case TList(items) => ListLock(data, p, items, stk, saved);
    case TDict(es) => DictLock(data, p, es, stk, saved);
  }

  lemma StartedIs(data: bytes, p: nat, t: Tree, stk: seq<Container>, saved: bool)
    requires IsContainer(t) && Occurs(data, p, Print(t))
    ensures p < |data|
    ensures var d := Started(data, p, t, stk, saved);
      d.off == p + 1 && d.s == Begun(t, stk).0 && |d.s.stack| == |stk| + 1 && Inv(d.s)
    ensures t.TList? || t.TDict?
    ensures t.TList? ==> Overflows(t) == AnyOverflows(t.items)
    ensures t.TDict? ==> Overflows(t) == AnyEntryOverflows(t.entries)
  {
  }

  // Decoded ints fit in 64 bits, whatever the input.
  lemma {:induction false} DecodedFits(data: bytes, d: Dec)
    requires DecInv(data, d)
    ensures ValueInterface(data, d).Decoded? ==> Int64s(ValueInterface(data, d).val)
    decreases Room(data, d), 1
  {
    hide ListLoop, DictLoop, IntInterface, StringInterface, ScanNext, Int64s, Inv;
    match d.op
    case ScanBeginList =>
      ListFits(data, ScanNext(data, d), []);
      var r := ListInterface(data, d);
      assert r == ListLoop(data, ScanNext(data, d), []);
      if r.Decoded? {
        Int64Items(r.val);
      }
    case ScanBeginDict =>
      DictFits(data, ScanNext(data, d), map[]);
      var r := DictInterface(data, d);
      assert r == DictLoop(data, ScanNext(data, d), map[]);
      if r.Decoded? {
        Int64Entries(r.val);
      }
    case _ => ScalarFits(data, d);
  }

  lemma Int64Items(vs: seq<Value>)
    requires forall i | 0 <= i < |vs| :: Int64s(vs[i])
    ensures Int64s(List(vs))
  {
  }

  lemma Int64Entries(m: map<bytes, Value>)
    requires forall k | k in m :: Int64s(m[k])
    ensures Int64s(Dict(m))
  {
  }

  lemma ScalarFits(data: bytes, d: Dec)
    requires DecInv(data, d) && d.op !in {ScanBeginList, ScanBeginDict}
    ensures ValueInterface(data, d).Decoded? ==> Int64s(ValueInterface(data, d).val)
  {
    hide ListInterface, DictInterface, StringInterface, Inv, ScanWhile;
  }

  lemma {:induction false} ListFits(data: bytes, d: Dec, acc: seq<Value>)
    requires DecInv(data, d) && forall i | 0 <= i < |acc| :: Int64s(acc[i])
    ensures var r := ListLoop(data, d, acc);
      r.Decoded? ==> forall i | 0 <= i < |r.val| :: Int64s(r.val[i])
    decreases Room(data, d), 2
  {
    hide ListLoop, ValueInterface, Int64s, Inv;
    ListLoopUnfold(data, d, acc);
    if d.op != ScanEndList {
      DecodedFits(data, d);
      var r := ValueInterface(data, d);
      if r.Decoded? {
        ListFits(data, r.d, acc + [r.val]);
      }
    }
  }

  lemma {:induction false} DictFits(data: bytes, d: Dec, acc: map<bytes, Value>)
    requires DecInv(data, d) && forall k | k in acc :: Int64s(acc[k])
    ensures var r := DictLoop(data, d, acc);
      r.Decoded? ==> forall k | k in r.val :: Int64s(r.val[k])
    decreases Room(data, d), 2
  {
    hide DictLoop, ValueInterface, StringInterface, Int64s, Inv;
    DictLoopUnfold(data, d, acc);
    if d.op == ScanBeginString {
      var key := StringInterface(data, d);
      if key.Decoded? {
        DecodedFits(data, key.d);
        var r := ValueInterface(data, key.d);
        if r.Decoded? {
          DictFits(data, r.d, acc[key.val := r.val]);
        }
      }
    }
  }

  lemma UnmarshalFits(data: bytes)
    ensures Unmarshal(data).Stored? && Unmarshal(data).val.Some? ==> Int64s(Unmarshal(data).val.value)
  {
    hide Check, ScanOn, ValueInterface;
    DecodedFits(data, ScanOn(data, FRESH, 0, false));
  }

  // Marshalling what was unmarshalled, with no error saved, gives back the input.
  ghost predicate Reencodes(data: bytes) {
    var u := Unmarshal(data);
    u.Stored? && !u.err && u.val.Some? && Marshal(u.val.value) == data
  }

  ghost predicate CanonicalBytes(data: bytes) {
    exists t :: IsCanonical(t) && t != TStr([]) && Print(t) == data
  }

  /** Canonical re-encoding, over all inputs: decoding and encoding is the identity exactly on canonical bytes. */
  lemma ReencodesExactly(data: bytes)
    ensures Reencodes(data) <==> CanonicalBytes(data)
  {
    if Reencodes(data) {
      var v := Unmarshal(data).val.value;
      UnmarshalFits(data);
      EncodedIsCanonical(v);
      RoundTrip(v);
      assert ToTree(v) != TStr([]);
    }
    if CanonicalBytes(data) {
      var t :| IsCanonical(t) && t != TStr([]) && Print(t) == data;
      CanonicalIsStrict(t);
      CanonicalRebuilds(t);
      UnmarshalStrict(t);
      assert t.TInt? ==> IsInt64(t.n);
    }
  }

  /**
   * Where the scanner is more lenient than the strict grammar the decoder falls out of step. A length with a
   * leading zero is accepted, and decoded as the empty string.
   */
  lemma LeadingZero()
    ensures var data: bytes := [48, 51, 58, 102, 111, 111];
      Check(data) == Accept && Unmarshal(data) == Stored(Some(Str([])), false)
  {
    var data: bytes := [48, 51, 58, 102, 111, 111];
    assert HeadFrom(data, 2, 3) == Length(3, 3);
    assert HeadFrom(data, 1, 0) == Length(3, 3);
    AcceptExactly(data);
    UnmarshalExactly(data);
    assert data[2..2] == [];
  }

  /** A length of two zeros closes a list for the scanner, and is an empty string in it for the decoder. */
  lemma TwoZeros()
    ensures var data: bytes := [108, 48, 48, 101];
      Check(data) == Accept && Unmarshal(data) == Stored(Some(List([Str([])])), false)
  {
    var data: bytes := [108, 48, 48, 101];
    assert HeadFrom(data, 2, 0) == Shut(4);
    assert ItemAt(data, 1) == Closed(4);
    assert ListFrom(data, 1) == Got(4);
    AcceptExactly(data);
    UnmarshalExactly(data);
    assert ItemsAt(data, 3, [Str([])], false) == Parsed([Str([])], 4, false);
    assert ValueAt(data, 1) == Parsed(Str([]), 3, false);
    assert [] + [Str([])] == [Str([])];
    assert ItemsAt(data, 1, [], false) == Parsed([Str([])], 4, false);
  }

  /** A key without a value is accepted, and the decoder panics on it. */
  lemma KeyWithoutValue()
    ensures var data: bytes := [100, 49, 58, 97, 101];
      Check(data) == Accept && Unmarshal(data) == Panicked
  {
    var data: bytes := [100, 49, 58, 97, 101];
    assert HeadFrom(data, 2, 1) == Length(3, 1);
    assert HeadFrom(data, 1, 0) == Length(3, 1);
    assert ItemAt(data, 4) == Closed(5);
    assert FirstKey(data, 1) == Got(5);
    AcceptExactly(data);
    UnmarshalExactly(data);
    assert data[3..4] == [97];
    assert StringAt(data, 1) == Parsed([97], 4, false);
    assert ValueAt(data, 4) == Stuck;
    assert EntriesAt(data, 1, map[], false) == Stuck;
  }
}
