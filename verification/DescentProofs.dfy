/** On every input that the scanner accepts, the decoder is the recursive descent of Descent: lockstep, exactly. */
module DescentProofs {
  import opened Bytes
  import opened ScanState
  import opened GrammarProofs
  import opened Trees
  import opened Decoding
  import opened Lockstep
  import opened Heights
  import opened Descent
  import opened Tokens

  /** The decoder just after the first byte of a value at `q`, and the descent from `q`: they agree, or are lost. */
  ghost predicate Agrees(data: bytes, q: nat, d: Dec, stk: seq<Container>, ctx: Container, mode: Mode)
    requires DecInv(data, d)
  {
    match ValueAt(data, q)
    case Parsed(v, e, over) =>
      && Accepts(data, e, Gap(stk, ctx, mode))
      && ValueInterface(data, d) == Decoded(v, Peek(data, e, Gap(stk, ctx, mode), d.saved || over))
    case Stuck => Lost(ValueInterface(data, d), |stk| + 1)
  }

  // The first byte of a value, read at a gap.
  lemma GapPeek(data: bytes, q: nat, stk: seq<Container>, ctx: Container, mode: Mode, saved: bool)
      returns (ctx': Container)
    requires GapOk(ctx, mode) && Accepts(data, q, Gap(stk, ctx, mode))
    ensures SameKind(ctx, ctx') && q < |data|
    ensures var c, d := data[q], Peek(data, q, Gap(stk, ctx, mode), saved);
      && d == Dec(Step(Gap(stk, ctx, mode), c).0, q + 1, Step(Gap(stk, ctx, mode), c).1, saved)
      && Accepts(data, q + 1, d.s)
      && (if c == CHD then (d.s, d.op) == (Gap(stk + [ctx'], DictKey, BeginString), ScanBeginDict)
          else if c == CHL then (d.s, d.op) == (Gap(stk + [ctx'], ListValue, BeginValue), ScanBeginList)
          else if c == CHI then (d.s, d.op) == (IntIn(stk + [ctx'], BeginInt), ScanBeginInt)
          else if IsDigit(c) then (d.s, d.op) == (LengthIn(stk + [ctx'], c - CH0), ScanBeginString)
          else d.op !in BEGINS)
  {
    hide Step;
    AcceptStep(data, q, Gap(stk, ctx, mode));
    ctx' := GapStep(stk, ctx, mode, data[q]);
  }

  lemma NoValue(data: bytes, q: nat, d: Dec, stk: seq<Container>, ctx: Container, mode: Mode)
    requires q < |data| && data[q] !in {CHD, CHL, CHI} && !IsDigit(data[q]) && DecInv(data, d) && d.op !in BEGINS
    ensures Agrees(data, q, d, stk, ctx, mode)
  {
    hide ListInterface, DictInterface, IntInterface, StringInterface, ItemsAt, EntriesAt;
  }

  lemma IntAgrees(data: bytes, q: nat, stk: seq<Container>, ctx: Container, saved: bool)
    requires q < |data| && data[q] == CHI && Accepts(data, q + 1, IntIn(stk + [ctx], BeginInt))
    ensures Agrees(data, q, Dec(IntIn(stk + [ctx], BeginInt), q + 1, ScanBeginInt, saved), stk, ctx, EndValue)
  {
    hide IntInterface, ValueInterface, IntAt, Inv, Peek;
    IntReads(data, q, stk + [ctx], saved);
    var r := IntAt(data, q + 1);
    var d := Dec(IntIn(stk + [ctx], BeginInt), q + 1, ScanBeginInt, saved);
    ValueUnfold(data, d);
    ContentsEnd(data, Dec(At(stk, ctx), r.end, ScanEndInt, saved || r.over));
  }

  lemma StringAgrees(data: bytes, q: nat, stk: seq<Container>, ctx: Container, saved: bool) returns (mode': Mode)
    requires q < |data| && IsDigit(data[q]) && Accepts(data, q + 1, LengthIn(stk + [ctx], data[q] - CH0))
    ensures GapOk(ctx, mode')
    ensures Agrees(data, q, Dec(LengthIn(stk + [ctx], data[q] - CH0), q + 1, ScanBeginString, saved), stk, ctx, mode')
  {
    mode' := StringReads(data, q, stk, ctx, saved);
    var d := Dec(LengthIn(stk + [ctx], data[q] - CH0), q + 1, ScanBeginString, saved);
    assert StringInterface(data, d).Decoded? ==> ValueInterface(data, d).Decoded?;
    hide StringInterface, StringAt, Inv, Peek;
  }

  /** A value: the decoder and the descent agree, or neither gets on. */
  lemma {:induction false} ValueReads(data: bytes, q: nat, stk: seq<Container>, ctx: Container, mode: Mode, saved: bool)
      returns (ctx': Container, mode': Mode)
    requires GapOk(ctx, mode) && Accepts(data, q, Gap(stk, ctx, mode))
    ensures GapOk(ctx', mode') && SameKind(ctx, ctx') && q < |data|
    ensures Agrees(data, q, Peek(data, q, Gap(stk, ctx, mode), saved), stk, ctx', mode')
    decreases |data| - q, 0
  {
    assert Inv(Gap(stk, ctx, mode));
    hide Step, ValueAt, ValueInterface, Gap, At, LengthIn, IntIn, Accepts, Inv, Agrees, Peek;
    ctx' := GapPeek(data, q, stk, ctx, mode, saved);
    mode' := EndValue;
    var c, d := data[q], Peek(data, q, Gap(stk, ctx, mode), saved);
    if c == CHL {
      ListReads(data, q, stk, ctx', saved);
    } else if c == CHD {
      DictReads(data, q, stk, ctx', saved);
    } else if c == CHI {
      IntAgrees(data, q, stk, ctx', saved);
    } else if IsDigit(c) {
      mode' := StringAgrees(data, q, stk, ctx', saved);
    } else {
      NoValue(data, q, d, stk, ctx', mode');
    }
  }

  // A list that is read, or lost, by its loop.
  lemma ListFromLoop(data: bytes, q: nat, stk: seq<Container>, s: Scan, saved: bool)
    requires Inv(s) && s.stack == stk + [ListValue] && s.mode == BeginValue && q < |data|
    ensures var d := Dec(s, q + 1, ScanBeginList, saved);
      DecInv(data, d) &&
      ValueInterface(data, d) == AfterList(data, ListLoop(data, Peek(data, q + 1, s, saved), []))
  {
    hide ListLoop, ScanNext, Step, Peek;
    var d := Dec(s, q + 1, ScanBeginList, saved);
    NextIsPeek(data, s, q + 1, ScanBeginList, saved);
    ValueUnfold(data, d);
  }

  lemma DictFromLoop(data: bytes, q: nat, stk: seq<Container>, s: Scan, saved: bool)
    requires Inv(s) && s.stack == stk + [DictKey] && s.mode == BeginString && q < |data|
    ensures var d := Dec(s, q + 1, ScanBeginDict, saved);
      DecInv(data, d) &&
      ValueInterface(data, d) == AfterDict(data, DictLoop(data, Peek(data, q + 1, s, saved), map[]))
  {
    hide DictLoop, ScanNext, Step, Peek;
    var d := Dec(s, q + 1, ScanBeginDict, saved);
    NextIsPeek(data, s, q + 1, ScanBeginDict, saved);
    ValueUnfold(data, d);
  }

  // The end of a container, seen from outside.
  lemma DoneOutside(data: bytes, e: nat, stk: seq<Container>, ctx: Container, op: Opcode, saved: bool)
    requires Accepts(data, e, Done(stk + [ctx])) && op !in BEGINS
    ensures Accepts(data, e, At(stk, ctx)) && DecInv(data, Dec(Done(stk + [ctx]), e, op, saved))
    ensures ScanNext(data, Dec(Done(stk + [ctx]), e, op, saved)) == Peek(data, e, At(stk, ctx), saved)
  {
    assert Done(stk + [ctx]) == At(stk, ctx);
    NextIsPeek(data, At(stk, ctx), e, op, saved);
    hide ScanNext, Peek;
  }

  lemma LostOutside(data: bytes, d: Dec, h: nat)
    requires DecInv(data, d) && d.op in DEPTH_CLOSING && Height(d) < h + 2
    ensures Height(ScanNext(data, d)) < h + 1
  {
    NextHeight(data, d);
    hide ScanNext;
  }

  lemma {:induction false} ListReads(data: bytes, q: nat, stk: seq<Container>, ctx: Container, saved: bool)
    requires q < |data| && data[q] == CHL && Accepts(data, q + 1, Gap(stk + [ctx], ListValue, BeginValue))
    ensures Agrees(data, q, Dec(Gap(stk + [ctx], ListValue, BeginValue), q + 1, ScanBeginList, saved),
                   stk, ctx, EndValue)
    decreases |data| - q - 1, 2
  {
    var s := Gap(stk + [ctx], ListValue, BeginValue);
    ItemsRead(data, q + 1, stk + [ctx], BeginValue, saved, false, []);
    var r := ListLoop(data, Peek(data, q + 1, s, saved), []);
    ListFromLoop(data, q, stk + [ctx], s, saved);
    match ItemsAt(data, q + 1, [], false) {
      case Parsed(vs, e, over) => DoneOutside(data, e, stk, ctx, ScanEndList, saved || over);
      case Stuck =>
        ListEndsOp(data, Peek(data, q + 1, s, saved), []);
        if r.Decoded? {
          LostOutside(data, r.d, |stk|);
        }
    }
    hide *;
  }

  lemma {:induction false} DictReads(data: bytes, q: nat, stk: seq<Container>, ctx: Container, saved: bool)
    requires q < |data| && data[q] == CHD && Accepts(data, q + 1, Gap(stk + [ctx], DictKey, BeginString))
    ensures Agrees(data, q, Dec(Gap(stk + [ctx], DictKey, BeginString), q + 1, ScanBeginDict, saved),
                   stk, ctx, EndValue)
    decreases |data| - q - 1, 2
  {
    var s := Gap(stk + [ctx], DictKey, BeginString);
    EntriesRead(data, q + 1, stk + [ctx], DictKey, BeginString, saved, false, map[]);
    var r := DictLoop(data, Peek(data, q + 1, s, saved), map[]);
    DictFromLoop(data, q, stk + [ctx], s, saved);
    match EntriesAt(data, q + 1, map[], false) {
      case Parsed(m, e, over) => DoneOutside(data, e, stk, ctx, ScanEndDict, saved || over);
      case Stuck =>
        DictEndsOp(data, Peek(data, q + 1, s, saved), map[]);
        if r.Decoded? {
          LostOutside(data, r.d, |stk|);
        }
    }
    hide *;
  }

  // The `e` of the container.
  lemma GapCloses(data: bytes, q: nat, stk: seq<Container>, ctx: Container, mode: Mode, saved: bool)
    requires GapOk(ctx, mode) && Accepts(data, q, Gap(stk, ctx, mode)) && q < |data| && data[q] == CHE
    ensures Accepts(data, q + 1, Done(stk))
    ensures Peek(data, q, Gap(stk, ctx, mode), saved) == Dec(Done(stk), q + 1, CloseOp(ctx), saved)
  {
    AcceptStep(data, q, Gap(stk, ctx, mode));
    var _ := GapStep(stk, ctx, mode, CHE);
    hide Step;
  }

  // What the decoder sees of any other byte.
  lemma GapOpens(data: bytes, q: nat, stk: seq<Container>, ctx: Container, mode: Mode, saved: bool)
    requires GapOk(ctx, mode) && Accepts(data, q, Gap(stk, ctx, mode))
    ensures q < |data|
    ensures var d := Peek(data, q, Gap(stk, ctx, mode), saved);
      && Sound(data, d) && Height(d) == |stk| + 1
      && (data[q] != CHE ==> d.op !in DEPTH_CLOSING)
      && (d.op == ScanBeginString <==> IsDigit(data[q]))
  {
    hide Step;
    AcceptStep(data, q, Gap(stk, ctx, mode));
    var ctx' := GapStep(stk, ctx, mode, data[q]);
    NextHeight(data, Dec(Gap(stk, ctx, mode), q, ScanContinue, saved));
  }

  // A loop that goes on after a lost value is lost.
  lemma LostList(data: bytes, d: Dec, acc: seq<Value>, h: nat)
    requires Sound(data, d) && (Height(d) < h || d.op == ScanInString)
    ensures Lost(ListLoop(data, d, acc), h)
  {
    ListSinks(data, d, acc);
    ListLoopUnfold(data, d, acc);
    hide ListLoop, ValueInterface;
  }

  lemma {:induction false} ItemsRead(data: bytes, q: nat, stk: seq<Container>, mode: Mode, saved: bool, over: bool,
                                     acc: seq<Value>)
    requires GapOk(ListValue, mode) && Accepts(data, q, Gap(stk, ListValue, mode))
    ensures var r := ListLoop(data, Peek(data, q, Gap(stk, ListValue, mode), saved || over), acc);
      match ItemsAt(data, q, acc, over)
      case Parsed(vs, e, o) =>
        && Accepts(data, e, Done(stk))
        && r == Decoded(vs, Dec(Done(stk), e, ScanEndList, saved || o))
      case Stuck => Lost(r, |stk| + 1)
    decreases |data| - q, 1
  {
    var d := Peek(data, q, Gap(stk, ListValue, mode), saved || over);
    GapOpens(data, q, stk, ListValue, mode, saved || over);
    ListLoopUnfold(data, d, acc);
    if data[q] == CHE {
      GapCloses(data, q, stk, ListValue, mode, saved || over);
    } else {
      var ctx', mode' := ValueReads(data, q, stk, ListValue, mode, saved || over);
      match ValueAt(data, q) {
        case Parsed(v, e, o) => ItemsRead(data, e, stk, mode', saved, over || o, acc + [v]);
        case Stuck =>
          var r := ValueInterface(data, d);
          if r.Decoded? {
            ValueSinks(data, d);
            LostList(data, r.d, acc + [r.val], |stk| + 1);
          }
      }
    }
    hide ListLoop, ValueInterface, ValueAt, Peek, Sound, Height, Accepts, Done, Gap;
  }

  lemma LostDict(data: bytes, d: Dec, acc: map<bytes, Value>, h: nat)
    requires Sound(data, d) && (Height(d) < h || d.op == ScanInString)
    ensures Lost(DictLoop(data, d, acc), h)
  {
    DictSinks(data, d, acc);
    DictLoopUnfold(data, d, acc);
    hide DictLoop, AfterKeyLoop, StringInterface;
  }

  lemma LostKey(data: bytes, r: Result<bytes>, acc: map<bytes, Value>, h: nat)
    requires (r.Decoded? ==> Sound(data, r.d)) && Lost(r, h)
    ensures Lost(AfterKeyLoop(data, r, acc), h)
  {
    if r.Decoded? {
      ValueSinks(data, r.d);
      var v := ValueInterface(data, r.d);
      assert r.d.op == ScanInString ==> v == Crashed;
      if v.Decoded? {
        LostDict(data, v.d, acc[r.val := v.val], h);
      }
    }
    hide DictLoop, StringInterface, ListInterface, DictInterface, IntInterface;
  }

  lemma {:induction false} EntriesRead(data: bytes, q: nat, stk: seq<Container>, ctx: Container, mode: Mode,
                                       saved: bool, over: bool, acc: map<bytes, Value>)
    requires GapOk(ctx, mode) && ctx != ListValue && Accepts(data, q, Gap(stk, ctx, mode))
    ensures var r := DictLoop(data, Peek(data, q, Gap(stk, ctx, mode), saved || over), acc);
      match EntriesAt(data, q, acc, over)
      case Parsed(m, e, o) =>
        && Accepts(data, e, Done(stk))
        && r == Decoded(m, Dec(Done(stk), e, ScanEndDict, saved || o))
      case Stuck => Lost(r, |stk| + 1)
    decreases |data| - q, 1
  {
    var sv := saved || over;
    var d := Peek(data, q, Gap(stk, ctx, mode), sv);
    GapOpens(data, q, stk, ctx, mode, sv);
    DictLoopUnfold(data, d, acc);
    if data[q] == CHE {
      GapCloses(data, q, stk, ctx, mode, sv);
    } else if IsDigit(data[q]) {
      var key := StringInterface(data, d);
      var c1, mode1 := KeyReads(data, q, stk, ctx, mode, sv);
      match StringAt(data, q) {
        case Stuck =>
          StringSinks(data, d);
          LostKey(data, key, acc, |stk| + 1);
        case Parsed(k, e, _) =>
          var c2, mode2 := ValueReads(data, e, stk, c1, mode1, sv);
          var d1 := Peek(data, e, Gap(stk, c1, mode1), sv);
          match ValueAt(data, e) {
            case Parsed(v, j, o) =>
              EntriesRead(data, j, stk, c2, mode2, saved, over || o, acc[k := v]);
            case Stuck =>
              var r := ValueInterface(data, d1);
              if r.Decoded? {
                GapOpens(data, e, stk, c1, mode1, sv);
                ValueSinks(data, d1);
                LostDict(data, r.d, acc[k := r.val], |stk| + 1);
              }
          }
      }
    }
    hide DictLoop, ValueInterface, StringInterface, StringAt, ValueAt, Peek, Sound, Height, Accepts, Done, Gap;
  }

  // A key, from its first digit.
  lemma KeyReads(data: bytes, q: nat, stk: seq<Container>, ctx: Container, mode: Mode, saved: bool)
      returns (ctx': Container, mode': Mode)
    requires GapOk(ctx, mode) && Accepts(data, q, Gap(stk, ctx, mode)) && q < |data| && IsDigit(data[q])
    ensures GapOk(ctx', mode') && SameKind(ctx, ctx')
    ensures var d := Peek(data, q, Gap(stk, ctx, mode), saved);
      d.op in BEGINS && Spells(data, q, d, stk, ctx', mode')
  {
    assert Inv(Gap(stk, ctx, mode));
    hide Step, Gap, Accepts, Inv, Spells, Peek;
    ctx' := GapPeek(data, q, stk, ctx, mode, saved);
    mode' := StringReads(data, q, stk, ctx', saved);
  }
}
