/** The frames of peer/protocol.go whose bytes do not match their headers, and what the reader makes of them. */
module Misframed {
  import opened Bytes
  import opened Wire
  import opened Incoming

  /** `piece` writes the id of a cancel message. */
  function PieceFrame(index: nat, begin: nat, data: bytes): bytes {
    var body := PackUint32(PackUint32([], index), begin) + data;
    PackUint32([], 1 + |body|) + [CANCEL] + body
  }

  /** `keepAlive` writes one zero byte, not four. */
  const KEEPALIVE: bytes := [0]

  /** `listenPort` announces two bytes of port number and writes four. */
  function PortFrame(port: nat): bytes {
    PackUint32(MsgHead(PORT, 3), port)
  }

  /** `allowedFast` announces twelve bytes after the id and writes four. */
  function AllowedFastFrame(index: nat): bytes {
    PackUint32(MsgHead(ALLOWEDFAST, 13), index)
  }

  /** `suggestPiece` has no head in the table, so that its index stands where the length should be. */
  function SuggestFrame(index: nat): bytes {
    PackUint32([], index)
  }

  lemma CancelParsed(i: nat, b: nat, data: bytes)
    requires i < UINT32 && b < UINT32
    ensures NewRequest(Be32(i) + Be32(b) + data) ==
            if |data| == 4 then Some((i, b, Value32(data[0], data[1], data[2], data[3]))) else None
  {
    var body := Be32(i) + Be32(b) + data;
    UnpackPacked([], i, Be32(b) + data);
    assert [] + Be32(i) + (Be32(b) + data) == body;
    UnpackPacked(Be32(i), b, data);
    hide Be32;
  }

  /**
   * A block that this code sends never arrives as one: it is delivered as a cancelled request, which is nil unless the
   * block has just four bytes, and then those are its length.
   */
  lemma PieceIsCancel(fast: bool, i: nat, b: nat, data: bytes, rest: bytes)
    requires i < 0x1_0000_0000 && b < 0x1_0000_0000 && |data| <= 16384
    ensures var t := if |data| == 4 then Some((i, b, Value32(data[0], data[1], data[2], data[3]))) else None;
      Receive(fast, PieceFrame(i, b, data) + rest) ==
      ([Received(8, Triplet(t))] + Receive(fast, rest).0, Receive(fast, rest).1)
  {
    hide Receive, Be32, NewRequest, Value32;
    var body := Be32(i) + Be32(b) + data;
    CancelParsed(i, b, data);
    BodyReceived(fast, 8, body, rest);
    assert PieceFrame(i, b, data) == Be32(|body| + 1) + [8] + body by {
      assert [] + Be32(i) + Be32(b) + data == body && [] + Be32(|body| + 1) == Be32(|body| + 1);
    }
  }

  // The first bytes of a frame that is not longer than 255 bytes.
  lemma ShortFrame(m: Message)
    requires Fields32(m) && |Frame(m)| < 4 + 256
    ensures |Frame(m)| > 4 && Frame(m)[..4] == [0, 0, 0, |Frame(m)| - 4]
  {
    hide Frame, Body, Be32, Quad;
    var n := |Body(m).1| + 1;
    FrameIs(m);
    assert Frame(m)[..4] == Be32(n);
    QuadIs(n);
    ByteQuad(n);
  }

  lemma ByteQuad(n: byte)
    ensures Quad(n) == [0, 0, 0, n]
  {
  }

  // A length of at least 2^24.
  lemma TooLongReceived(fast: bool, stream: bytes)
    requires stream != [] && stream[0] > 0
    ensures Receive(fast, stream).0 == []
  {
    hide Dispatch;
  }

  /**
   * After a keep-alive the stream is out of step: whatever follows, a message of fewer than 256 bytes is not delivered,
   * nor is anything else.
   */
  lemma KeepAliveBreaks(fast: bool, m: Message, rest: bytes)
    requires Fields32(m) && |Frame(m)| < 4 + 256
    ensures Receive(fast, KEEPALIVE + Frame(m) + rest).0 == []
  {
    hide Receive, Frame;
    ShortFrame(m);
    var tail := Frame(m)[3..] + rest;
    assert tail[0] == Frame(m)[..4][3];
    TooLongReceived(fast, tail);
    EmptyReceived(fast, tail);
    assert Frame(m) == Frame(m)[..4][..3] + Frame(m)[3..];
    assert Frame(m)[..4][..3] == [0, 0, 0];
    assert KEEPALIVE + Frame(m) + rest == [0, 0, 0, 0] + tail;
  }

  /** A port message closes the connection of a reader that has this code. */
  lemma PortCloses(fast: bool, port: nat, rest: bytes)
    requires port < 0x1_0000
    ensures PortFrame(port) == [0, 0, 0, 3, 9, 0, 0, port / 256, port % 256]
    ensures Receive(fast, PortFrame(port) + rest) == ([], [port / 256, port % 256] + rest)
  {
    hide Receive, Be32;
    var after: bytes := [port / 256, port % 256] + rest;
    QuadIs(3);
    QuadIs(port);
    assert Quad(port) == [0, 0, port / 256, port % 256] && Quad(3) == [0, 0, 0, 3];
    UnknownCloses(fast, 9, [0, 0], after);
    assert PortFrame(port) + rest == [0, 0, 0, 3] + [9] + [0, 0] + after;
  }

  /** An allowed-fast message takes the next eight bytes of the stream with it. */
  lemma AllowedFastSwallows(fast: bool, i: nat, next: bytes, rest: bytes)
    requires i < 0x1_0000_0000 && |next| == 8
    ensures Receive(fast, AllowedFastFrame(i) + next + rest) ==
            ([Received(17, Index(i))] + Receive(fast, rest).0, Receive(fast, rest).1)
  {
    hide Receive, Be32, UnpackUint32;
    var body := Be32(i) + next;
    BodyReceived(fast, 17, body, rest);
    UnpackPacked([], i, next);
    assert [] + Be32(i) + next == body;
    assert AllowedFastFrame(i) + next + rest == Be32(13) + [17] + body + rest;
  }

  /** A suggestion of piece 0 is no message at all, and one of a piece past 16393 closes the connection. */
  lemma SuggestIsLength(fast: bool, i: nat, rest: bytes)
    requires i < 0x1_0000_0000
    ensures i == 0 ==> Receive(fast, SuggestFrame(i) + rest) == Receive(fast, rest)
    ensures i > 16393 ==> Receive(fast, SuggestFrame(i) + rest) == ([], rest)
    ensures 0 < i <= 16393 && i > |rest| ==> Receive(fast, SuggestFrame(i) + rest) == ([], [])
  {
    hide Be32, UnpackUint32, Dispatch;
    UnpackPacked([], i, rest);
    assert SuggestFrame(i) == [] + Be32(i);
    assert (SuggestFrame(i) + rest)[4..] == rest;
  }
}
