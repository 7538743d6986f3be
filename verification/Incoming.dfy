/** Streams of the messages of BEP 3 and BEP 6, written out in numbers, and what a connection makes of them. */
module Incoming {
  import opened Bytes
  import opened Wire

  /** Four bytes, the high one first. */
  function Quad(n: nat): (r: bytes)
    requires n < 0x1_0000_0000
    ensures |r| == 4
  {
    [n / 0x100_0000, n / 0x1_0000 % 256, n / 256 % 256, n % 256]
  }

  lemma QuadIs(n: nat)
    requires n < 0x1_0000_0000
    ensures Be32(n) == Quad(n)
  {
    Be32Is(n);
    hide Be32;
  }

  /** What any peer may send: an empty message, or one with an id. */
  datatype Item =
    | Empty
    | Sent(m: Message)
    | Piece(index: nat, begin: nat, data: bytes)
    | Suggest(index: nat)
    | AllowedFast(index: nat)

  predicate Fits32(x: Item) {
    match x
    case Empty => true
    case Sent(m) => Fields32(m)
    case Piece(i, b, data) => i < 0x1_0000_0000 && b < 0x1_0000_0000 && |data| + 9 < 0x1_0000_0000
    case Suggest(i) => i < 0x1_0000_0000
    case AllowedFast(i) => i < 0x1_0000_0000
  }

  /** The bytes of a message: its length in four bytes, its id and its fields. */
  function Written(x: Item): bytes
    requires Fits32(x)
  {
    match x
    case Empty => [0, 0, 0, 0]
    case Sent(m) => WrittenMessage(m)
    case Piece(i, b, data) => Quad(9 + |data|) + [7] + Quad(i) + Quad(b) + data
    case Suggest(i) => [0, 0, 0, 5, 13] + Quad(i)
    case AllowedFast(i) => [0, 0, 0, 5, 17] + Quad(i)
  }

  function WrittenMessage(m: Message): bytes
    requires Fields32(m)
  {
    match m
    case Choke => [0, 0, 0, 1, 0]
    case Unchoke => [0, 0, 0, 1, 1]
    case Interest => [0, 0, 0, 1, 2]
    case NoInterest => [0, 0, 0, 1, 3]
    case Have(i) => [0, 0, 0, 5, 4] + Quad(i)
    case Bitfield(bits) => Quad(1 + |bits|) + [5] + bits
    case Request(i, b, l) => [0, 0, 0, 13, 6] + Quad(i) + Quad(b) + Quad(l)
    case Cancel(i, b, l) => [0, 0, 0, 13, 8] + Quad(i) + Quad(b) + Quad(l)
    case HaveAll => [0, 0, 0, 1, 14]
    case HaveNone => [0, 0, 0, 1, 15]
    case Reject(i, b, l) => [0, 0, 0, 13, 16] + Quad(i) + Quad(b) + Quad(l)
  }

  /** What is delivered for it: nothing for an empty message, and a nil block for one of fewer than four bytes. */
  function Given(x: Item): seq<Received> {
    match x
    case Empty => []
    case Sent(m) => [GivenMessage(m)]
    case Piece(i, b, data) => [Received(7, BlockData(if |data| >= 4 then Some((i, b, data)) else None))]
    case Suggest(i) => [Received(13, Index(i))]
    case AllowedFast(i) => [Received(17, Index(i))]
  }

  function GivenMessage(m: Message): Received {
    match m
    case Choke => Received(0, NoData)
    case Unchoke => Received(1, NoData)
    case Interest => Received(2, NoData)
    case NoInterest => Received(3, NoData)
    case Have(i) => Received(4, Index(i))
    case Bitfield(bits) => Received(5, Bits(bits))
    case Request(i, b, l) => Received(6, Triplet(Some((i, b, l))))
    case Cancel(i, b, l) => Received(8, Triplet(Some((i, b, l))))
    case HaveAll => Received(14, NoData)
    case HaveNone => Received(15, NoData)
    case Reject(i, b, l) => Received(16, Triplet(Some((i, b, l))))
  }

  lemma SmallQuads()
    ensures Quad(0) == [0, 0, 0, 0] && Quad(1) == [0, 0, 0, 1] && Quad(5) == [0, 0, 0, 5] && Quad(13) == [0, 0, 0, 13]
  {
  }

  lemma AllQuads()
    ensures forall n: nat | n < 0x1_0000_0000 :: Be32(n) == Quad(n)
  {
    hide *;
    forall n: nat | n < 0x1_0000_0000 ensures Be32(n) == Quad(n) {
      QuadIs(n);
    }
  }

  /** The frames that the code writes are those of the standard, byte for byte. */
  lemma FrameWritten(m: Message)
    requires Fields32(m)
    ensures Frame(m) == WrittenMessage(m) && Delivered(m) == GivenMessage(m)
  {
    hide Be32, Quad, Triple, MsgHead;
    HeadsWritten();
    match m
    case Have(i) => QuadIs(i);
    case Bitfield(bits) => QuadIs(1 + |bits|);
    case Request(i, b, l) => TripleWritten([0, 0, 0, 13, 6], i, b, l);
    case Cancel(i, b, l) => TripleWritten([0, 0, 0, 13, 8], i, b, l);
    case Reject(i, b, l) => TripleWritten([0, 0, 0, 13, 16], i, b, l);
    case _ =>
  }

  lemma HeadsWritten()
    ensures forall id: byte :: MsgHead(id, 1) == [0, 0, 0, 1, id]
    ensures forall id: byte :: MsgHead(id, 5) == [0, 0, 0, 5, id]
    ensures forall id: byte :: MsgHead(id, 13) == [0, 0, 0, 13, id]
  {
    hide Be32, Quad;
    SmallQuads();
    QuadIs(1);
    QuadIs(5);
    QuadIs(13);
  }

  lemma TripleWritten(head: bytes, i: nat, b: nat, l: nat)
    requires i < 0x1_0000_0000 && b < 0x1_0000_0000 && l < 0x1_0000_0000
    ensures Triple(head, i, b, l) == head + Quad(i) + Quad(b) + Quad(l)
  {
    hide Be32, Quad;
    QuadIs(i);
    QuadIs(b);
    QuadIs(l);
  }

  lemma PieceWritten(i: nat, b: nat, data: bytes)
    requires Fits32(Piece(i, b, data))
    ensures Written(Piece(i, b, data)) == Be32(|Be32(i) + Be32(b) + data| + 1) + [7] + (Be32(i) + Be32(b) + data)
  {
    hide Be32, Quad;
    AllQuads();
  }

  lemma BlockParsed(i: nat, b: nat, data: bytes)
    requires i < 0x1_0000_0000 && b < 0x1_0000_0000
    ensures NewBlock(Be32(i) + Be32(b) + data) == if |data| >= 4 then Some((i, b, data)) else None
  {
    var body := Be32(i) + Be32(b) + data;
    UnpackPacked([], i, Be32(b) + data);
    assert [] + Be32(i) + (Be32(b) + data) == body;
    UnpackPacked(Be32(i), b, data);
    hide Be32, UnpackUint32;
    assert body[8..] == data;
  }

  // A message at the head of a stream is delivered, or is too long.
  ghost predicate ReceivedAs(fast: bool, x: Item, rest: bytes)
    requires Fits32(x)
  {
    Receive(fast, Written(x) + rest) ==
    if |Written(x)| <= 4 + 16393 then (Given(x) + Receive(fast, rest).0, Receive(fast, rest).1)
    else ([], (Written(x) + rest)[4..])
  }

  lemma SentReceived(fast: bool, m: Message, rest: bytes)
    requires Fields32(m)
    ensures ReceivedAs(fast, Sent(m), rest)
  {
    hide Receive, Frame, WrittenMessage, Delivered, GivenMessage;
    FrameWritten(m);
    FrameReceived(fast, m, rest);
  }

  lemma ShortReceived(fast: bool, x: Item, rest: bytes)
    requires Fits32(x) && (x.Empty? || x.Suggest? || x.AllowedFast?)
    ensures ReceivedAs(fast, x, rest)
  {
    hide Receive, Quad;
    match x
    case Empty =>
      EmptyReceived(fast, rest);
      assert [] + Receive(fast, rest).0 == Receive(fast, rest).0;
    case Suggest(i) => IndexReceived(fast, 13, i, rest);
    case AllowedFast(i) => IndexReceived(fast, 17, i, rest);
  }

  /** One message at the head of any stream, unless it is longer than 16393 bytes, on which the connection is closed. */
  lemma ItemReceived(fast: bool, x: Item, rest: bytes)
    requires Fits32(x)
    ensures Receive(fast, Written(x) + rest) ==
            if |Written(x)| <= 4 + 16393 then (Given(x) + Receive(fast, rest).0, Receive(fast, rest).1)
            else ([], (Written(x) + rest)[4..])
  {
    hide Receive, Written, Given;
    assert ReceivedAs(fast, x, rest) by {
      hide ReceivedAs;
      match x
      case Sent(m) => SentReceived(fast, m, rest);
      case Piece(i, b, data) => BlockReceived(fast, i, b, data, rest);
      case _ => ShortReceived(fast, x, rest);
    }
  }

  lemma BlockReceived(fast: bool, i: nat, b: nat, data: bytes, rest: bytes)
    requires Fits32(Piece(i, b, data))
    ensures ReceivedAs(fast, Piece(i, b, data), rest)
  {
    hide Receive, Quad;
    PieceReceived(fast, i, b, data, rest);
  }

  lemma EmptyReceived(fast: bool, rest: bytes)
    ensures Receive(fast, [0, 0, 0, 0] + rest) == Receive(fast, rest)
  {
    assert ([0, 0, 0, 0] + rest)[4..] == rest;
  }

  lemma IndexReceived(fast: bool, id: byte, i: nat, rest: bytes)
    requires id in {13, 17} && i < 0x1_0000_0000
    ensures Receive(fast, [0, 0, 0, 5, id] + Quad(i) + rest) ==
            ([Received(id, Index(i))] + Receive(fast, rest).0, Receive(fast, rest).1)
  {
    hide Receive, Be32, Quad, UnpackUint32;
    AllQuads();
    SmallQuads();
    BodyReceived(fast, id, Be32(i), rest);
    UnpackPacked([], i, []);
    assert [] + Be32(i) + [] == Be32(i);
    assert [0, 0, 0, 5] + [id] + Quad(i) + rest == [0, 0, 0, 5, id] + Quad(i) + rest;
  }

  /**
   * A block: for any index and offset of 32 bits and any data, just that index, that offset and that data are
   * delivered, or a nil block for fewer than four bytes of data.
   */
  lemma PieceReceived(fast: bool, i: nat, b: nat, data: bytes, rest: bytes)
    requires Fits32(Piece(i, b, data))
    ensures var stream := Quad(9 + |data|) + [7] + Quad(i) + Quad(b) + data + rest;
      Receive(fast, stream) ==
      if |data| > 16384 then ([], stream[4..])
      else
        ([Received(7, BlockData(if |data| >= 4 then Some((i, b, data)) else None))] + Receive(fast, rest).0,
         Receive(fast, rest).1)
  {
    hide Receive, Be32, Quad, NewBlock;
    PieceWritten(i, b, data);
    BlockParsed(i, b, data);
    BodyReceived(fast, 7, Be32(i) + Be32(b) + data, rest);
  }

  /** So a whole block of 16384 bytes is delivered, and one byte more closes the connection. */
  lemma WholeBlock(fast: bool, i: nat, b: nat, data: bytes)
    requires i < 0x1_0000_0000 && b < 0x1_0000_0000
    ensures |data| == 16384 ==>
      Receive(fast, [0, 0, 64, 9, 7] + Quad(i) + Quad(b) + data) == ([Received(7, BlockData(Some((i, b, data))))], [])
    ensures |data| == 16385 ==> Receive(fast, [0, 0, 64, 10, 7] + Quad(i) + Quad(b) + data).0 == []
  {
    if |data| in {16384, 16385} {
      assert Quad(16393) == [0, 0, 64, 9] && Quad(16394) == [0, 0, 64, 10];
      hide Receive, Quad;
      PieceReceived(fast, i, b, data, []);
      NothingReceived(fast);
      var head := Quad(9 + |data|);
      assert head + [7] + Quad(i) + Quad(b) + data + [] == head + [7] + Quad(i) + Quad(b) + data;
      assert [0, 0, 64, 9] + [7] == [0, 0, 64, 9, 7] && [0, 0, 64, 10] + [7] == [0, 0, 64, 10, 7];
      var r := Received(7, BlockData(Some((i, b, data))));
      assert [r] + [] == [r];
    }
  }

  lemma NothingReceived(fast: bool)
    ensures Receive(fast, []) == ([], [])
  {
  }

  /** A message that is within the length a peer takes. */
  predicate Proper(x: Item) {
    Fits32(x) && |Written(x)| <= 4 + 16393
  }

  function AllWritten(xs: seq<Item>): bytes
    requires forall i | 0 <= i < |xs| :: Proper(xs[i])
  {
    if xs == [] then []
    else
      assert Proper(xs[0]);
      Written(xs[0]) + AllWritten(xs[1..])
  }

  function AllGiven(xs: seq<Item>): seq<Received> {
    if xs == [] then [] else Given(xs[0]) + AllGiven(xs[1..])
  }

  // The stream ends inside a message.
  lemma CutReceived(fast: bool, y: Item, n: nat)
    requires Proper(y) && n < |Written(y)|
    ensures Receive(fast, Written(y)[..n]) == ([], [])
  {
    hide Receive, Be32, Quad, Written;
    if n >= 4 {
      LengthAhead(y);
      var cut := Written(y)[..n];
      assert cut[..4] == Written(y)[..4];
      QuadIs(|Written(y)| - 4);
      PartReceived(fast, |Written(y)| - 4, cut);
    } else {
      NoLength(fast, Written(y)[..n]);
    }
  }

  lemma NoLength(fast: bool, stream: bytes)
    requires |stream| < 4
    ensures Receive(fast, stream) == ([], [])
  {
  }

  lemma PartReceived(fast: bool, length: nat, stream: bytes)
    requires 4 <= |stream| < 4 + length && length <= MAXLENGTH && stream[..4] == Be32(length)
    ensures Receive(fast, stream) == ([], [])
  {
    hide Be32, UnpackUint32, Dispatch;
    UnpackPacked([], length, stream[4..]);
    assert [] + Be32(length) + stream[4..] == stream;
  }

  lemma LengthAhead(y: Item)
    requires Fits32(y)
    ensures 4 <= |Written(y)| < 0x1_0000_0004 && Written(y)[..4] == Quad(|Written(y)| - 4)
  {
    hide Quad;
    SmallQuads();
  }

  /**
   * Any sequence of messages, empty ones and blocks among them, cut off in the middle of one more: each is delivered
   * as it was sent, in order, and the part is not.
   */
  lemma {:induction false} StreamOfAny(fast: bool, xs: seq<Item>, y: Item, n: nat)
    requires (forall i | 0 <= i < |xs| :: Proper(xs[i])) && Proper(y) && n < |Written(y)|
    ensures Receive(fast, AllWritten(xs) + Written(y)[..n]) == (AllGiven(xs), [])
  {
    hide Receive, Written, Given;
    CutReceived(fast, y, n);
    var cut := Written(y)[..n];
    if xs == [] {
      assert AllWritten(xs) + cut == cut;
    } else {
      ItemReceived(fast, xs[0], AllWritten(xs[1..]) + cut);
      StreamOfAny(fast, xs[1..], y, n);
      assert Written(xs[0]) + (AllWritten(xs[1..]) + cut) == AllWritten(xs) + cut;
    }
  }

  /** An id that is not in use closes the connection. */
  lemma UnknownCloses(fast: bool, id: byte, body: bytes, rest: bytes)
    requires id in {9, 10, 11, 12} || id >= 18
    requires |body| + 1 <= 16393
    ensures Receive(fast, Quad(|body| + 1) + [id] + body + rest) == ([], rest)
  {
    hide Receive, Be32, Quad;
    QuadIs(|body| + 1);
    BodyReceived(fast, id, body, rest);
  }

  /** The loop of a connection on such a stream. */
  method Listen(xs: seq<Item>, y: Item, n: nat, fast: bool) returns (delivered: seq<Received>)
    requires (forall i | 0 <= i < |xs| :: Proper(xs[i])) && Proper(y) && n < |Written(y)|
    ensures delivered == AllGiven(xs)
  {
    hide Receive, AllWritten, AllGiven, Written;
    StreamOfAny(fast, xs, y, n);
    var conn := new Conn(AllWritten(xs) + Written(y)[..n], fast);
    conn.RecvMessage();
    delivered := conn.delivered;
  }
}
