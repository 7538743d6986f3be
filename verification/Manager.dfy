/** Which pieces are asked of which peer: part of peer/manager.go. */
module Manager {
  import opened Arithmetic
  import opened Bits
  import opened Bitmap
  import opened Blocks

  datatype Request = Request(index: nat, block: Block, createAt: int)

  // Ten seconds, in nanoseconds.
  const REQUESTTIMEOUT: int := 10_000_000_000

  class Peer {
    const addr: nat
    const bitmap: Bitmap
    var closed: bool
    var haveReq: bool
    // The requests sent to the peer, in order.
    var sent: seq<Request>

    constructor (addr: nat, bitmap: Bitmap)
      ensures this.addr == addr && this.bitmap == bitmap && !closed && !haveReq && sent == []
    {
      this.addr, this.bitmap, this.closed, this.haveReq, this.sent := addr, bitmap, false, false, [];
    }

    method SendRequest(r: Request)
      modifies this`sent
      ensures sent == old(sent) + [r]
    {
      sent := sent + [r];
    }
  }

  /** `(pieceNum - 1) / 8 + 1`, with Go's division toward zero. */
  function PieceBytes(pieceNum: nat): nat {
    if pieceNum == 0 then 1 else (pieceNum - 1) / 8 + 1
  }

  /** Whether a received bitfield is taken: of the exact size, or padded to whole bytes with zeros. */
  predicate FieldFits(field: seq<bv8>, size: nat, pieceNum: nat)
    requires size <= 8 * |field|
  {
    size == pieceNum ||
    (size / 8 == PieceBytes(pieceNum) && forall i | pieceNum <= i < size :: !BitAt(field, i))
  }

  class Manager {
    const pieceNum: nat
    const pieceLength: int
    var need: Bitmap
    var interest: set<nat>
    var running: bool
    var requests: map<nat, Request>
    var rejectRequest: map<nat, Request>

    constructor (pieceNum: nat, pieceLength: int, need: Bitmap)
      ensures this.pieceNum == pieceNum && this.pieceLength == pieceLength && this.need == need
      ensures requests == map[] && rejectRequest == map[] && interest == {} && !running
    {
      this.pieceNum, this.pieceLength, this.need := pieceNum, pieceLength, need;
      interest, running, requests, rejectRequest := {}, false, map[], map[];
    }

    ghost predicate Fits(b: Bitmap)
      reads b, b.val
    {
      b.Tight() && b.size == pieceNum
    }

    method IsInterest(p: Peer) returns (yes: bool)
      requires Fits(need) && Fits(p.bitmap)
      ensures yes <==> need.On() * p.bitmap.On() != {}
    {
      var both := need.And(p.bitmap);
      var count, _ := both.CountBitOn(0, both.size);
      CountZero(both.val[..], 0, both.size);
      yes := count > 0;
      assert both.On() == need.On() * p.bitmap.On();
      if yes {
        var i :| 0 <= i < both.size && BitAt(both.val[..], i);
        assert i in both.On();
      }
    }

    /**
     * `handleField`: a bitfield that fits becomes the peer's index set, whatever it was before; any other
     * closes the peer and leaves its index set alone.
     */
    method HandleField(p: Peer, field: Bitmap) returns (taken: bool)
      requires Fits(need) && Fits(p.bitmap) && field.Tight()
      requires field != p.bitmap && field.val != p.bitmap.val && need != field && need.val != p.bitmap.val
      modifies this`interest, p`closed, p.bitmap.val, field
      ensures taken <==> FieldFits(old(field.val[..]), old(field.size), pieceNum)
      ensures taken ==> p.bitmap.On() == old(Indices(field.val[..], field.size)) && p.closed == old(p.closed)
      ensures taken ==> interest == old(interest) + if need.On() * p.bitmap.On() != {} then {p.addr} else {}
      ensures !taken ==> p.closed && p.bitmap.val[..] == old(p.bitmap.val[..]) && interest == old(interest)
      ensures Fits(p.bitmap)
    {
      if field.size != pieceNum {
        var fits := false;
        if field.size / 8 == PieceBytes(pieceNum) {
          var count, _ := field.CountBitOn(pieceNum, field.size);
          CountZero(field.val[..], pieceNum, field.size);
          fits := count == 0;
        }
        if fits {
          field.Truncate(pieceNum);
        } else {
          p.closed := true;
          return false;
        }
      }
      ghost var on := field.On();
      var _ := p.bitmap.Assign(field);
      var interested := IsInterest(p);
      if interested {
        interest := interest + {p.addr};
      }
      return true;
    }

    /** A bitfield message: its bytes are taken as they are for a bitmap of eight indices a byte. */
    method ReceiveBitfield(p: Peer, data: array<bv8>) returns (taken: bool)
      requires Fits(need) && Fits(p.bitmap)
      requires data != p.bitmap.val && data != need.val && need.val != p.bitmap.val
      modifies this`interest, p`closed, p.bitmap.val
      ensures taken <==> ExactField(data[..], pieceNum)
      ensures taken ==>
                p.bitmap.On() == Indices(data[..], Least(pieceNum, 8 * data.Length)) && p.closed == old(p.closed)
      ensures taken ==> forall i: nat :: i in p.bitmap.On() <==>
                i < pieceNum && i < 8 * data.Length && data[i / 8] as int / Pow2(7 - i % 8) % 2 == 1
      ensures taken ==> interest == old(interest) + if need.On() * p.bitmap.On() != {} then {p.addr} else {}
      ensures !taken ==> p.closed && p.bitmap.val[..] == old(p.bitmap.val[..]) && interest == old(interest)
      ensures Fits(p.bitmap)
    {
      hide BitOf, BitAt, Pow2, Indices, ExactField, FieldFits;
      var field := new Bitmap.NewBitmap(data);
      FieldFitsExactly(data[..], pieceNum);
      taken := HandleField(p, field);
      IndicesAre(data[..], Least(pieceNum, 8 * data.Length));
    }

    /** A have-all message: a full bitmap of the right size, which always fits. */
    method ReceiveHaveAll(p: Peer)
      requires Fits(need) && Fits(p.bitmap) && need.val != p.bitmap.val
      modifies this`interest, p`closed, p.bitmap.val
      ensures (forall i: nat :: i in p.bitmap.On() <==> i < pieceNum) && p.closed == old(p.closed)
      ensures interest == old(interest) + if need.On() != {} then {p.addr} else {}
    {
      var field := new Bitmap.NewEmpty(pieceNum);
      var _ := field.SetRangeBitOn(0, pieceNum);
      var _ := HandleField(p, field);
      assert need.On() * p.bitmap.On() == need.On();
    }

    /** A have-none message. */
    method ReceiveHaveNone(p: Peer)
      requires Fits(need) && Fits(p.bitmap) && need.val != p.bitmap.val
      modifies this`interest, p`closed, p.bitmap.val
      ensures p.bitmap.On() == {} && p.closed == old(p.closed) && interest == old(interest)
    {
      var field := new Bitmap.NewEmpty(pieceNum);
      var _ := HandleField(p, field);
    }

    // What the loop of `selectPiece` passes over: a live request, or a piece that is not both needed and held.
    ghost predicate Settled(held: set<nat>, now: int, i: nat)
      requires need.Valid()
      reads this, need, need.val
    {
      if i in requests then now - requests[i].createAt <= 10 * 1000 * 1000 * 1000
      else !(i in need.On() && i in held)
    }

    ghost predicate KeysInRange()
      reads this
    {
      forall i | i in rejectRequest :: i < pieceNum
    }

    /**
     * `selectPiece` from the random start `pos`. It finds nothing exactly when no rejected request is held by
     * the peer and every piece is settled. Otherwise it returns a rejected request that the peer holds, or else
     * the first unsettled piece from `pos` round, and an expired request becomes a rejected one.
     */
    method SelectPiece(p: Peer, pos: nat, now: int) returns (index: int)
      requires Fits(need) && Fits(p.bitmap) && KeysInRange() && pos < pieceNum
      modifies this`requests, this`rejectRequest
      ensures index == -1 <==>
              !running ||
              ((forall i | i in old(rejectRequest) :: i !in p.bitmap.On()) &&
               (forall i: nat | i < pieceNum :: old(Settled(p.bitmap.On(), now, i))))
      ensures index != -1 ==> 0 <= index < pieceNum && running
      ensures index != -1 ==>
        || (index in old(rejectRequest) && index in p.bitmap.On())
        || ((forall i | i in old(rejectRequest) :: i !in p.bitmap.On()) &&
            !old(Settled(p.bitmap.On(), now, index)) &&
            forall k: nat | k < Turns(pos, index, pieceNum) ::
              old(Settled(p.bitmap.On(), now, Round(pos, k, pieceNum))))
      ensures var moved := index != -1 && (forall i | i in old(rejectRequest) :: i !in p.bitmap.On()) &&
                           index in old(requests);
        if moved then
          && requests == old(requests) - {index}
          && rejectRequest == old(rejectRequest)[index := old(requests)[index]]
        else requests == old(requests) && rejectRequest == old(rejectRequest)
      ensures KeysInRange()
      ensures old(Indexed()) ==> Indexed()
      ensures old(Sound()) ==> Sound()
    {
      hide BitOf, BitAt, Tiles, Indices;
      if !running {
        return -1;
      }
      var keys := rejectRequest.Keys;
      while keys != {}
        invariant requests == old(requests) && rejectRequest == old(rejectRequest)
        invariant keys <= rejectRequest.Keys
        invariant forall i | i in rejectRequest && i !in keys :: i !in p.bitmap.On()
        decreases keys
      {
        var i :| i in keys;
        var on, _ := p.bitmap.GetBit(i);
        if on {
          return i;
        }
        keys := keys - {i};
      }
      var i := pos;
      while i - pos < pieceNum
        invariant pos <= i <= pos + pieceNum
        invariant requests == old(requests) && rejectRequest == old(rejectRequest)
        invariant forall k: nat | k < i - pos :: old(Settled(p.bitmap.On(), now, Round(pos, k, pieceNum)))
      {
        RoundIs(pos, i - pos, pieceNum);
        var j := i % pieceNum;
        assert j == Round(pos, i - pos, pieceNum) && Turns(pos, j, pieceNum) == i - pos;
        if j in requests {
          if now - requests[j].createAt > REQUESTTIMEOUT {
            assert !old(Settled(p.bitmap.On(), now, j));
            var r := requests[j];
            requests := requests - {j};
            rejectRequest := rejectRequest[j := r];
            return j;
          }
        } else {
          var needed, _ := need.GetBit(j);
          var held, _ := p.bitmap.GetBit(j);
          if needed && held {
            assert !old(Settled(p.bitmap.On(), now, j));
            return j;
          }
        }
        i := i + 1;
      }
      forall j: nat | j < pieceNum ensures old(Settled(p.bitmap.On(), now, j)) {
        assert j == Round(pos, Turns(pos, j, pieceNum), pieceNum);
      }
      return -1;
    }

    /** Every request is recorded under the index of its piece. */
    ghost predicate Indexed()
      reads this
    {
      (forall i | i in requests :: requests[i].index == i) &&
      (forall i | i in rejectRequest :: rejectRequest[i].index == i)
    }

    /** Every recorded request is for a block from which on the blocks tile the piece. */
    ghost predicate Sound()
      reads this
    {
      (forall i | i in requests :: Tiles(pieceLength, requests[i].block)) &&
      (forall i | i in rejectRequest :: Tiles(pieceLength, rejectRequest[i].block))
    }

    /** `nextRequest`, which must not be called for the last block. */
    method NextRequest(r: Request) returns (r': Request)
      requires !IsLast(pieceLength, r.block)
      ensures r' == r.(block := Next(pieceLength, r.block))
    {
      var begin := r.block.begin + r.block.length;
      var length := r.block.length;
      if begin + length < pieceLength - MAXREQUEST {
        length := MAXREQUEST;
      } else {
        length := pieceLength - begin - length;
      }
      r' := r.(block := Block(begin, length));
    }

    /**
     * `requestPiece`: nothing for a peer that has a request out; else the block after the one last sent, a rejected
     * request again, or the first block. What is recorded for the piece afterwards is what was sent.
     */
    method RequestPiece(p: Peer, index: nat, now: int)
      modifies this`requests, this`rejectRequest, p`haveReq, p`sent
      ensures p.haveReq
      ensures old(p.haveReq) ==>
                p.sent == old(p.sent) && requests == old(requests) && rejectRequest == old(rejectRequest)
      ensures !old(p.haveReq) ==>
        && |p.sent| == |old(p.sent)| + 1 && old(p.sent) <= p.sent
        && index in requests && requests[index].block == p.sent[|old(p.sent)|].block
        && (forall i | i != index :: i in requests <==> i in old(requests))
        && (forall i | i != index && i in requests :: requests[i] == old(requests[i]))
        && var r := p.sent[|old(p.sent)|];
          if index in old(requests) && !IsLast(pieceLength, old(requests[index]).block) then
            requests[index] == r == old(requests[index]).(block := Next(pieceLength, old(requests[index]).block)) &&
            rejectRequest == old(rejectRequest)
          else if index !in old(requests) && index in old(rejectRequest) then
            r == old(rejectRequest[index]) && requests[index] == r.(createAt := now) &&
            rejectRequest == old(rejectRequest) - {index}
          else
            requests[index] == r == Request(index, FIRST, now) && rejectRequest == old(rejectRequest)
      ensures old(Indexed()) ==> Indexed() && (!old(p.haveReq) ==> p.sent[|old(p.sent)|].index == index)
      ensures old(Sound()) && TilingLength(pieceLength) ==> Sound()
    {
      TilesExactly(pieceLength);
      if p.haveReq {
        return;
      }
      if index in requests {
        var r := requests[index];
        if IsLast(pieceLength, r.block) {
          requests := requests - {index};
        } else {
          r := NextRequest(r);
          p.SendRequest(r);
          requests := requests[index := r];
          p.haveReq := true;
          return;
        }
      } else if index in rejectRequest {
        var r := rejectRequest[index];
        p.SendRequest(r);
        rejectRequest := rejectRequest - {index};
        requests := requests[index := r.(createAt := now)];
        p.haveReq := true;
        return;
      }
      var r := Request(index, FIRST, now);
      p.SendRequest(r);
      requests := requests[index := r];
      p.haveReq := true;
    }
  }

  /** The `k`-th index from `pos`, round `n`. */
  function Round(pos: nat, k: nat, n: nat): nat
    requires pos < n && k < n
  {
    if pos + k < n then pos + k else pos + k - n
  }

  /** How many turns it takes from `pos` to `index`, round `n`. */
  function Turns(pos: nat, index: nat, n: nat): (k: nat)
    requires pos < n && index < n
    ensures k < n
  {
    if pos <= index then index - pos else index + n - pos
  }

  /** The turns of the loop reach every index once. */
  lemma TurnsReach(pos: nat, k: nat, n: nat)
    requires pos < n && k < n
    ensures Turns(pos, (pos + k) % n, n) == k && (pos + Turns(pos, k, n)) % n == k
  {
    RoundIs(pos, k, n);
    RoundIs(pos, Turns(pos, k, n), n);
  }

  lemma RoundIs(pos: nat, k: nat, n: nat)
    requires pos < n && k < n
    ensures (pos + k) % n == Round(pos, k, n)
  {
    Quotient(pos + k, n, if pos + k < n then 0 else 1);
  }

  function Least(a: nat, b: nat): nat {
    if a < b then a else b
  }

  lemma IndicesAre(data: seq<bv8>, n: nat)
    requires n <= 8 * |data|
    ensures forall i: nat :: i in Indices(data, n) <==> i < n && data[i / 8] as int / Pow2(7 - i % 8) % 2 == 1
  {
    forall i: nat | i < n ensures BitAt(data, i) <==> data[i / 8] as int / Pow2(7 - i % 8) % 2 == 1 {
      BitAtIs(data, i);
    }
    hide BitAt, Pow2;
  }

  /** The bytes of a bitfield for `pieceNum` pieces: as many as are needed, with zeros for the spare bits. */
  predicate ExactField(data: seq<bv8>, pieceNum: nat) {
    (|data| == Ceil(pieceNum) || (pieceNum == 0 && |data| == 1)) &&
    forall i | pieceNum <= i < 8 * |data| :: !BitAt(data, i)
  }

  lemma FieldFitsExactly(data: seq<bv8>, pieceNum: nat)
    ensures FieldFits(data, 8 * |data|, pieceNum) <==> ExactField(data, pieceNum)
    ensures ExactField(data, pieceNum) ==>
            Indices(data, 8 * |data|) == Indices(data, Least(pieceNum, 8 * |data|))
  {
  }

  /** Bitfield round trip: the bytes of a bitmap for `pieceNum` pieces are taken, and stand for its own index set. */
  lemma SentFieldFits(val: seq<bv8>, pieceNum: nat)
    requires |val| == Ceil(pieceNum) && forall i | pieceNum <= i < 8 * |val| :: !BitAt(val, i)
    ensures ExactField(val, pieceNum) && Indices(val, Least(pieceNum, 8 * |val|)) == Indices(val, pieceNum)
  {
  }
}
