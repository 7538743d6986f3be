/** The peer wire messages of peer/protocol.go: frames as they are sent, and the stream as it is read. */
module Wire {
  import opened Bytes

  const MAXLENGTH: nat := 16 * 1024 + 9
  const UINT32: nat := 0x1_0000_0000

  const CHOKE: byte := 0
  const UNCHOKE: byte := 1
  const INTEREST: byte := 2
  const NOINTEREST: byte := 3
  const HAVE: byte := 4
  const BITFIELD: byte := 5
  const REQUEST: byte := 6
  const PIECE: byte := 7
  const CANCEL: byte := 8
  const PORT: byte := 9
  const SUGGEST: byte := 13
  const HAVEALL: byte := 14
  const HAVENONE: byte := 15
  const REJECT: byte := 16
  const ALLOWEDFAST: byte := 17

  /** The messages whose frames match their headers. */
  datatype Message =
    | Choke | Unchoke | Interest | NoInterest | HaveAll | HaveNone
    | Have(index: nat)
    | Bitfield(bits: bytes)
    | Request(index: nat, begin: nat, length: nat)
    | Cancel(index: nat, begin: nat, length: nat)
    | Reject(index: nat, begin: nat, length: nat)

  /** Every field fits in 32 bits. */
  predicate Fields32(m: Message) {
    match m
    case Have(i) => i < UINT32
    case Bitfield(bits) => |bits| + 1 < UINT32
    case Request(i, b, l) => i < UINT32 && b < UINT32 && l < UINT32
    case Cancel(i, b, l) => i < UINT32 && b < UINT32 && l < UINT32
    case Reject(i, b, l) => i < UINT32 && b < UINT32 && l < UINT32
    case _ => true
  }

  // The four bytes of a uint32, the high byte first.
  function Be32(n: nat): (r: bytes)
    ensures |r| == 4
  {
    var u := n % 0x1_0000_0000;
    var u8 := u / 256;
    assert u8 < 0x100_0000;
    var u16 := u8 / 256;
    assert u16 < 0x1_0000;
    [u16 / 256, u16 % 256, u8 % 256, u % 256]
  }

  function Value32(a: nat, b: nat, c: nat, d: nat): nat {
    a * 0x1000000 + b * 0x10000 + c * 0x100 + d
  }

  function PackUint32(msg: bytes, field: nat): bytes {
    msg + Be32(field)
  }

  /** The value, the next offset, and whether there were four bytes to read. */
  function UnpackUint32(msg: bytes, off: nat): (nat, nat, bool) {
    if off + 4 > |msg| then (0, off, false)
    else (Value32(msg[off], msg[off + 1], msg[off + 2], msg[off + 3]), off + 4, true)
  }

  lemma LowByte(u: nat)
    ensures u == u / 256 * 256 + u % 256
  {
  }

  lemma Be32Is(n: nat)
    requires n < UINT32
    ensures Be32(n) == [n / 256 / 256 / 256, n / 256 / 256 % 256, n / 256 % 256, n % 256]
  {
    assert n % 0x1_0000_0000 == n;
  }

  lemma Be32Value(n: nat)
    requires n < UINT32
    ensures var r := Be32(n); Value32(r[0], r[1], r[2], r[3]) == n
  {
    Be32Is(n);
    hide Be32;
    LowByte(n);
    LowByte(n / 256);
    LowByte(n / 256 / 256);
  }

  /** Unpacking undoes packing, wherever the field stands. */
  lemma UnpackPacked(msg: bytes, n: nat, rest: bytes)
    requires n < UINT32
    ensures UnpackUint32(msg + Be32(n) + rest, |msg|) == (n, |msg| + 4, true)
  {
    var m := msg + Be32(n) + rest;
    assert forall i | 0 <= i < 4 :: m[|msg| + i] == Be32(n)[i];
    Be32Value(n);
  }

  /** The `msgHead` table: the length and the id of a message of fixed size. */
  function MsgHead(id: byte, length: nat): bytes {
    Be32(length) + [id]
  }

  function Triple(head: bytes, index: nat, begin: nat, length: nat): bytes {
    PackUint32(PackUint32(PackUint32(head, index), begin), length)
  }

  /** What is written to the connection for a message. */
  function Frame(m: Message): bytes {
    match m
    case Choke => MsgHead(CHOKE, 1)
    case Unchoke => MsgHead(UNCHOKE, 1)
    case Interest => MsgHead(INTEREST, 1)
    case NoInterest => MsgHead(NOINTEREST, 1)
    case HaveAll => MsgHead(HAVEALL, 1)
    case HaveNone => MsgHead(HAVENONE, 1)
    case Have(i) => PackUint32(MsgHead(HAVE, 5), i)
    case Bitfield(bits) => PackUint32([], 1 + |bits|) + [BITFIELD] + bits
    case Request(i, b, l) => Triple(MsgHead(REQUEST, 13), i, b, l)
    case Cancel(i, b, l) => Triple(MsgHead(CANCEL, 13), i, b, l)
    case Reject(i, b, l) => Triple(MsgHead(REJECT, 13), i, b, l)
  }

  /** What `dispatch` makes of a message body; a request of the wrong size is a nil pointer. */
  datatype Data =
    | NoData
    | Index(index: nat)
    | Bits(bits: bytes)
    | Triplet(t: Option<(nat, nat, nat)>)
    | BlockData(b: Option<(nat, nat, bytes)>)

  datatype Received = Received(id: byte, data: Data)

  function NewRequest(body: bytes): Option<(nat, nat, nat)> {
    if |body| != 12 then None
    else
      var (index, o1, _) := UnpackUint32(body, 0);
      var (begin, o2, _) := UnpackUint32(body, o1);
      var (length, _, _) := UnpackUint32(body, o2);
      Some((index, begin, length))
  }

  function NewBlock(body: bytes): Option<(nat, nat, bytes)> {
    if |body| < 12 then None
    else
      var (index, o1, _) := UnpackUint32(body, 0);
      var (begin, o2, _) := UnpackUint32(body, o1);
      Some((index, begin, body[8..]))
  }

  /** The switch of `dispatch` on the id of a message. */
  function Switch(id: byte, body: bytes): Option<Received> {
    if id in {CHOKE, UNCHOKE, INTEREST, NOINTEREST, HAVEALL, HAVENONE} then Some(Received(id, NoData))
    else if id in {HAVE, SUGGEST, ALLOWEDFAST} then Some(Received(id, Index(UnpackUint32(body, 0).0)))
    else if id == BITFIELD then Some(Received(id, Bits(body)))
    else if id in {REQUEST, CANCEL, REJECT} then Some(Received(id, Triplet(NewRequest(body))))
    else if id == PIECE then Some(Received(id, BlockData(NewBlock(body))))
    else None
  }

  // The result of `dispatch` before anything has been assigned to it.
  const UNASSIGNED := Received(0, NoData)

  /**
   * `dispatch` at a peer with (`fast`) or without the fast extension. Its test looks at the id of the result, which
   * is still 0, and not at the id of the message.
   */
  function Dispatch(fast: bool, id: byte, body: bytes): Option<Received> {
    var msg := UNASSIGNED;
    if !fast && msg.id > PORT then None else Switch(id, body)
  }

  /** What the test is for: a peer without the fast extension takes no message of it. */
  function IntendedDispatch(fast: bool, id: byte, body: bytes): Option<Received> {
    if !fast && id > PORT then None else Switch(id, body)
  }

  predicate Known(id: byte) {
    id <= CANCEL || id in {HAVEALL, HAVENONE, SUGGEST, REJECT, ALLOWEDFAST}
  }

  lemma SwitchKnows(id: byte, body: bytes)
    ensures Switch(id, body).Some? <==> Known(id)
    ensures Known(id) ==> Switch(id, body).value.id == id
  {
  }

  /** The test never refuses anything: the flag makes no difference. */
  lemma FlagIsIgnored(id: byte, body: bytes)
    ensures Dispatch(true, id, body) == Dispatch(false, id, body)
  {
  }

  /** `dispatch` does what the test is for exactly with the flag set, or on ids up to 9, or on unknown ids. */
  lemma DispatchObeysExactly(fast: bool, id: byte, body: bytes)
    ensures Dispatch(fast, id, body) == IntendedDispatch(fast, id, body) <==> fast || id <= PORT || !Known(id)
  {
    SwitchKnows(id, body);
  }

  /** What a message is delivered as. */
  function Delivered(m: Message): Received {
    match m
    case Choke => Received(CHOKE, NoData)
    case Unchoke => Received(UNCHOKE, NoData)
    case Interest => Received(INTEREST, NoData)
    case NoInterest => Received(NOINTEREST, NoData)
    case HaveAll => Received(HAVEALL, NoData)
    case HaveNone => Received(HAVENONE, NoData)
    case Have(i) => Received(HAVE, Index(i))
    case Bitfield(bits) => Received(BITFIELD, Bits(bits))
    case Request(i, b, l) => Received(REQUEST, Triplet(Some((i, b, l))))
    case Cancel(i, b, l) => Received(CANCEL, Triplet(Some((i, b, l))))
    case Reject(i, b, l) => Received(REJECT, Triplet(Some((i, b, l))))
  }

  /** Different messages are delivered differently: nothing is lost. */
  lemma DeliveredInjective(m: Message, n: Message)
    requires Delivered(m) == Delivered(n)
    ensures m == n
  {
  }

  /** `recvMessage`: what is delivered from a stream before the connection is closed, and what was not read. */
  function Receive(fast: bool, stream: bytes): (seq<Received>, bytes)
    decreases |stream|
  {
    if |stream| < 4 then ([], [])
    else
      var length := UnpackUint32(stream, 0).0;
      var rest := stream[4..];
      if length > MAXLENGTH then ([], rest)
      else if length == 0 then Receive(fast, rest)
      else if length > |rest| then ([], [])
      else
        match Dispatch(fast, rest[0], rest[1..length])
        case None => ([], rest[length..])
        case Some(r) =>
          var (more, left) := Receive(fast, rest[length..]);
          ([r] + more, left)
  }

  /** The id and the body of a message. */
  function Body(m: Message): (r: (byte, bytes))
    ensures Fields32(m) ==> |r.1| + 1 < UINT32
  {
    match m
    case Have(i) => (HAVE, Be32(i))
    case Bitfield(bits) => (BITFIELD, bits)
    case Request(i, b, l) => (REQUEST, Be32(i) + Be32(b) + Be32(l))
    case Cancel(i, b, l) => (CANCEL, Be32(i) + Be32(b) + Be32(l))
    case Reject(i, b, l) => (REJECT, Be32(i) + Be32(b) + Be32(l))
    case _ => (Delivered(m).id, [])
  }

  lemma FrameIs(m: Message)
    ensures Frame(m) == Be32(|Body(m).1| + 1) + [Body(m).0] + Body(m).1
  {
    hide Be32;
    match m
    case Request(i, b, l) => TripleIs(MsgHead(REQUEST, 13), i, b, l);
    case Cancel(i, b, l) => TripleIs(MsgHead(CANCEL, 13), i, b, l);
    case Reject(i, b, l) => TripleIs(MsgHead(REJECT, 13), i, b, l);
    case _ =>
  }

  lemma TripleIs(head: bytes, i: nat, b: nat, l: nat)
    ensures Triple(head, i, b, l) == head + (Be32(i) + Be32(b) + Be32(l))
  {
  }

  lemma TripleParsed(i: nat, b: nat, l: nat)
    requires i < UINT32 && b < UINT32 && l < UINT32
    ensures NewRequest(Be32(i) + Be32(b) + Be32(l)) == Some((i, b, l))
  {
    var body := Be32(i) + Be32(b) + Be32(l);
    UnpackPacked([], i, Be32(b) + Be32(l));
    assert [] + Be32(i) + (Be32(b) + Be32(l)) == body;
    UnpackPacked(Be32(i), b, Be32(l));
    UnpackPacked(Be32(i) + Be32(b), l, []);
    assert body + [] == body;
  }

  lemma BodyDispatched(fast: bool, m: Message)
    requires Fields32(m)
    ensures Dispatch(fast, Body(m).0, Body(m).1) == Some(Delivered(m))
  {
    match m
    case Have(i) =>
      UnpackPacked([], i, []);
      assert [] + Be32(i) + [] == Be32(i);
    case Request(i, b, l) => TripleParsed(i, b, l);
    case Cancel(i, b, l) => TripleParsed(i, b, l);
    case Reject(i, b, l) => TripleParsed(i, b, l);
    case _ =>
  }

  // The reader's view of one frame at the head of a stream.
  lemma FrameParts(id: byte, body: bytes, rest: bytes)
    requires |body| + 1 < UINT32
    ensures var n, stream := |body| + 1, Be32(|body| + 1) + [id] + body + rest;
      && |stream| >= 4 && UnpackUint32(stream, 0).0 == n && stream[4..] == [id] + body + rest
      && |stream[4..]| >= n && stream[4..][0] == id && stream[4..][1..n] == body && stream[4..][n..] == rest
  {
    var n := |body| + 1;
    UnpackPacked([], n, [id] + body + rest);
    assert [] + Be32(n) + ([id] + body + rest) == Be32(n) + [id] + body + rest;
    hide Be32, UnpackUint32;
  }

  // Any id and body at the head of a stream.
  lemma BodyReceived(fast: bool, id: byte, body: bytes, rest: bytes)
    requires |body| + 1 < UINT32
    ensures var stream := Be32(|body| + 1) + [id] + body + rest;
      Receive(fast, stream) ==
      if |body| + 1 > MAXLENGTH then ([], stream[4..])
      else
        match Dispatch(fast, id, body)
        case None => ([], rest)
        case Some(r) => ([r] + Receive(fast, rest).0, Receive(fast, rest).1)
  {
    hide Be32, UnpackUint32, Dispatch;
    FrameParts(id, body, rest);
  }

  /** A frame at the head of a stream is delivered, unless it is longer than the reader takes. */
  lemma FrameReceived(fast: bool, m: Message, rest: bytes)
    requires Fields32(m)
    ensures Receive(fast, Frame(m) + rest) ==
            if |Frame(m)| - 4 <= MAXLENGTH then ([Delivered(m)] + Receive(fast, rest).0, Receive(fast, rest).1)
            else ([], (Frame(m) + rest)[4..])
  {
    hide Frame, Body, Be32, Delivered, Dispatch, Receive;
    var (id, body) := Body(m);
    FrameIs(m);
    BodyReceived(fast, id, body, rest);
    BodyDispatched(fast, m);
  }

  /** A have-all message from a peer without the extension is delivered. */
  lemma HaveAllWithoutExtension()
    ensures Receive(false, Frame(HaveAll)) == ([Received(HAVEALL, NoData)], [])
    ensures IntendedDispatch(false, HAVEALL, []) == None
  {
    FrameReceived(false, HaveAll, []);
    assert Frame(HaveAll) + [] == Frame(HaveAll);
    assert [Delivered(HaveAll)] + [] == [Received(HAVEALL, NoData)];
  }

  /** Nor does the flag make a difference to any stream. */
  lemma {:induction false} StreamFlagIsIgnored(stream: bytes)
    ensures Receive(true, stream) == Receive(false, stream)
    decreases |stream|
  {
    if |stream| >= 4 {
      var length := UnpackUint32(stream, 0).0;
      var rest := stream[4..];
      if length == 0 {
        StreamFlagIsIgnored(rest);
      } else if length <= |rest| {
        FlagIsIgnored(rest[0], rest[1..length]);
        StreamFlagIsIgnored(rest[length..]);
      }
    }
  }

  function Frames(ms: seq<Message>): bytes {
    if ms == [] then [] else Frame(ms[0]) + Frames(ms[1..])
  }

  function AllDelivered(ms: seq<Message>): (r: seq<Received>)
    ensures |r| == |ms| && forall i | 0 <= i < |ms| :: r[i] == Delivered(ms[i])
  {
    if ms == [] then [] else [Delivered(ms[0])] + AllDelivered(ms[1..])
  }

  /** Stream framing: a peer delivers exactly the messages that were sent, in order, and reads every byte. */
  lemma {:induction false} StreamReceived(fast: bool, ms: seq<Message>)
    requires forall i | 0 <= i < |ms| :: Fields32(ms[i]) && |Frame(ms[i])| - 4 <= MAXLENGTH
    ensures Receive(fast, Frames(ms)) == (AllDelivered(ms), [])
  {
    if ms != [] {
      FrameReceived(fast, ms[0], Frames(ms[1..]));
      StreamReceived(fast, ms[1..]);
    }
  }

  /** How `readMessage` ends: a message, an empty one, too long a length, or the end of the stream. */
  datatype Read = Message(id: byte, body: bytes) | KeepAlive | TooLong | Short

  /** The receiving side of a connection: the bytes still to come, and what has been passed on. */
  class Conn {
    const fastExtension: bool
    var stream: bytes
    var delivered: seq<Received>

    constructor (stream: bytes, fastExtension: bool)
      ensures this.stream == stream && this.fastExtension == fastExtension && delivered == []
    {
      this.stream, this.fastExtension, delivered := stream, fastExtension, [];
    }

    /** `io.ReadFull`: too few bytes are used up all the same. */
    method ReadFull(n: nat) returns (r: Option<bytes>)
      modifies this`stream
      ensures n <= |old(stream)| ==> r == Some(old(stream)[..n]) && stream == old(stream)[n..]
      ensures n > |old(stream)| ==> r == None && stream == []
    {
      if n > |stream| {
        stream := [];
        return None;
      }
      r := Some(stream[..n]);
      stream := stream[n..];
    }

    method ReadMessage() returns (r: Read)
      modifies this`stream
      ensures |stream| < |old(stream)| || (r == Short && stream == [])
      ensures r.Short? ==> stream == [] && Receive(fastExtension, old(stream)) == ([], [])
      ensures r.TooLong? ==> Receive(fastExtension, old(stream)) == ([], stream)
      ensures r.KeepAlive? ==> Receive(fastExtension, old(stream)) == Receive(fastExtension, stream)
      ensures r.Message? ==>
        Receive(fastExtension, old(stream)) ==
        match Dispatch(fastExtension, r.id, r.body)
        case None => ([], stream)
        case Some(d) => ([d] + Receive(fastExtension, stream).0, Receive(fastExtension, stream).1)
    {
      var head := ReadFull(4);
      if head.None? {
        return Short;
      }
      var (length, _, _) := UnpackUint32(head.value, 0);
      if length > MAXLENGTH {
        return TooLong;
      }
      if length == 0 {
        return KeepAlive;
      }
      var data := ReadFull(length);
      if data.None? {
        return Short;
      }
      return Message(data.value[0], data.value[1..]);
    }

    /** `recvMessage`, with the channel as the sequence of what was put into it. */
    method RecvMessage()
      modifies this
      ensures delivered == old(delivered) + Receive(fastExtension, old(stream)).0
      ensures stream == Receive(fastExtension, old(stream)).1
    {
      hide Receive, Dispatch;
      while true
        invariant delivered + Receive(fastExtension, stream).0 == old(delivered) + Receive(fastExtension, old(stream)).0
        invariant Receive(fastExtension, stream).1 == Receive(fastExtension, old(stream)).1
        decreases |stream|
      {
        ghost var before := delivered;
        var m := ReadMessage();
        if m.Short? || m.TooLong? {
          assert delivered + [] == delivered;
          return;
        }
        if m.Message? {
          var d := Dispatch(fastExtension, m.id, m.body);
          if d.None? {
            assert delivered + [] == delivered;
            return;
          }
          delivered := delivered + [d.value];
          assert before + ([d.value] + Receive(fastExtension, stream).0) == delivered + Receive(fastExtension, stream).0;
        }
      }
    }
  }
}
