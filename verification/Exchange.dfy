/** A bitmap on its way from one peer's manager to another's: packed bits, a frame, and an index set again. */
module Exchange {
  import opened Arithmetic
  import opened Bytes
  import opened Bits
  import opened Bitmap
  import opened Wire
  import opened Manager

  function Octet(x: bv8): byte {
    x as int
  }

  function Packed(b: byte): bv8 {
    b as bv8
  }

  lemma PackedOctet(x: bv8)
    ensures Packed(Octet(x)) == x
  {
  }

  /** The bytes of packed bits as they are written to the connection, and back. */
  function Octets(val: seq<bv8>): (bs: bytes)
    ensures |bs| == |val| && forall i | 0 <= i < |val| :: bs[i] == Octet(val[i])
  {
    if val == [] then [] else [Octet(val[0])] + Octets(val[1..])
  }

  function AllPacked(bs: bytes): (val: seq<bv8>)
    ensures |val| == |bs| && forall i | 0 <= i < |bs| :: val[i] == Packed(bs[i])
  {
    if bs == [] then [] else [Packed(bs[0])] + AllPacked(bs[1..])
  }

  lemma PackedOctets(val: seq<bv8>)
    ensures AllPacked(Octets(val)) == val
  {
    forall i | 0 <= i < |val| ensures AllPacked(Octets(val))[i] == val[i] {
      PackedOctet(val[i]);
    }
  }

  /** The bits on the wire: the value of each byte has the first index as its digit at 2^7. */
  lemma OctetBits(val: seq<bv8>, i: nat)
    requires i < 8 * |val|
    ensures BitAt(val, i) <==> Octets(val)[i / 8] / Pow2(7 - i % 8) % 2 == 1
  {
    BitAtIs(val, i);
    hide BitAt, Pow2;
  }

  /** The largest number of pieces whose bitfield the reader takes. */
  predicate FieldTravels(pieceNum: nat) {
    Ceil(pieceNum) + 1 <= MAXLENGTH
  }

  /** The frame of a bitmap is delivered as its bytes, exactly if it is not over the maximum length. */
  lemma FieldDelivered(fast: bool, val: seq<bv8>)
    requires |val| + 1 < UINT32
    ensures Receive(fast, Frame(Bitfield(Octets(val)))) ==
            if |val| + 1 <= MAXLENGTH then ([Received(BITFIELD, Bits(Octets(val)))], [])
            else ([], Frame(Bitfield(Octets(val)))[4..])
  {
    hide Frame, Be32;
    var m := Message.Bitfield(Octets(val));
    FrameIs(m);
    FrameReceived(fast, m, []);
    assert Frame(m) + [] == Frame(m);
    assert [Delivered(m)] + [] == [Received(BITFIELD, Bits(Octets(val)))];
  }

  /**
   * Bitfield round trip: a bitmap of the sender's pieces is written as one frame, read, dispatched and handled. A
   * receiver with as many pieces then has exactly the sender's index set, unless the frame is over the maximum.
   */
  method SendField(mine: Bitmap, m: Manager, p: Peer, fast: bool) returns (taken: bool)
    requires mine.Tight() && mine.Clean() && mine.size == m.pieceNum && mine.val.Length + 1 < UINT32
    requires m.Fits(m.need) && m.Fits(p.bitmap) && m.need.val != p.bitmap.val
    requires mine.val != p.bitmap.val
    modifies m`interest, p`closed, p.bitmap.val
    ensures taken <==> FieldTravels(m.pieceNum)
    ensures taken ==> p.bitmap.On() == mine.On() && p.closed == old(p.closed)
    ensures taken ==> m.interest == old(m.interest) + if m.need.On() * mine.On() != {} then {p.addr} else {}
    ensures !taken ==> p.bitmap.On() == old(p.bitmap.On()) && p.closed && m.interest == old(m.interest)
  {
    ghost var val := mine.val[..];
    SentFieldFits(val, m.pieceNum);
    assert mine.On() == Indices(val, m.pieceNum) && |val| == Ceil(m.pieceNum);
    hide Receive, Frame, Octets, AllPacked, Indices, BitAt, ExactField, BitOf;
    var body := Octets(mine.val[..]);
    var conn := new Conn(Frame(Message.Bitfield(body)), fast);
    conn.RecvMessage();
    FieldDelivered(fast, val);
    if conn.delivered == [] {
      p.closed := true;
      return false;
    }
    assert conn.delivered == [Received(BITFIELD, Bits(body))];
    var bits := AllPacked(conn.delivered[0].data.bits);
    PackedOctets(val);
    var data := new bv8[|bits|](i requires 0 <= i < |bits| => bits[i]);
    assert data[..] == bits == val;
    taken := m.ReceiveBitfield(p, data);
  }

  /** A bitmap built index by index travels as the set of those indices. */
  method SendPieces(pieces: seq<nat>, m: Manager, p: Peer, fast: bool) returns (taken: bool)
    requires m.pieceNum < 8 * (UINT32 - 2) && forall i | i in pieces :: i < m.pieceNum
    requires m.Fits(m.need) && m.Fits(p.bitmap) && m.need.val != p.bitmap.val
    modifies m`interest, p`closed, p.bitmap.val
    ensures taken <==> FieldTravels(m.pieceNum)
    ensures taken ==> forall i: nat :: i in p.bitmap.On() <==> i in pieces
    ensures taken ==> m.interest == old(m.interest) + if m.need.On() * p.bitmap.On() != {} then {p.addr} else {}
    ensures !taken ==> p.closed && m.interest == old(m.interest)
  {
    var mine := new Bitmap.NewEmpty(m.pieceNum);
    var k := 0;
    while k < |pieces|
      invariant 0 <= k <= |pieces| && mine.size == m.pieceNum && mine.Tight() && mine.Clean() && fresh(mine.val)
      invariant forall i: nat :: i in mine.On() <==> i in pieces[..k]
      modifies mine.val
    {
      assert pieces[k] in pieces;
      var _ := mine.SetBitOn(pieces[k]);
      assert pieces[..k + 1] == pieces[..k] + [pieces[k]];
      k := k + 1;
    }
    assert pieces[..|pieces|] == pieces;
    taken := SendField(mine, m, p, fast);
  }
}
