/** The block requests of one piece: `nextRequest` of peer/manager.go, started at (0, maxRequestLength). */
module Blocks {

  const MAXREQUEST: int := 16384

  datatype Block = Block(begin: int, length: int)

  const FIRST := Block(0, MAXREQUEST)

  predicate IsLast(pieceLength: int, b: Block) {
    b.begin + b.length >= pieceLength
  }

  /** `nextRequest`: the last test looks at the old length. */
  function Next(pieceLength: int, b: Block): Block {
    var begin := b.begin + b.length;
    Block(begin, if begin + b.length < pieceLength - MAXREQUEST then MAXREQUEST else pieceLength - begin - b.length)
  }

  /** The blocks from `b` on have lengths from 0 to the maximum, and the last ends with the piece. */
  predicate Tiles(pieceLength: int, b: Block)
    decreases pieceLength - b.begin, if b.length == 0 then 1 else 0
  {
    0 <= b.length <= MAXREQUEST &&
    if IsLast(pieceLength, b) then b.begin + b.length == pieceLength
    else Tiles(pieceLength, Next(pieceLength, b))
  }

  /** All the blocks that are requested one after the other. */
  function Sequence(pieceLength: int, b: Block): seq<Block>
    requires Tiles(pieceLength, b)
    decreases pieceLength - b.begin, if b.length == 0 then 1 else 0
  {
    [b] + if IsLast(pieceLength, b) then [] else Sequence(pieceLength, Next(pieceLength, b))
  }

  /** How many blocks contain offset `x`. */
  function Covering(bs: seq<Block>, x: int): nat {
    if bs == [] then 0
    else (if bs[0].begin <= x < bs[0].begin + bs[0].length then 1 else 0) + Covering(bs[1..], x)
  }

  /** Every offset of the piece is requested exactly once, and no other. */
  lemma {:induction false} CoversOnce(pieceLength: int, b: Block, x: int)
    requires Tiles(pieceLength, b)
    ensures Covering(Sequence(pieceLength, b), x) == if b.begin <= x < pieceLength then 1 else 0
    decreases pieceLength - b.begin, if b.length == 0 then 1 else 0
  {
    if !IsLast(pieceLength, b) {
      CoversOnce(pieceLength, Next(pieceLength, b), x);
      assert Sequence(pieceLength, b)[1..] == Sequence(pieceLength, Next(pieceLength, b));
    } else {
      assert Sequence(pieceLength, b)[1..] == [];
    }
  }

  /** Each block begins where the one before it ends. */
  lemma {:induction false} Contiguous(pieceLength: int, b: Block, i: nat)
    requires Tiles(pieceLength, b) && i + 1 < |Sequence(pieceLength, b)|
    ensures var bs := Sequence(pieceLength, b); bs[i + 1].begin == bs[i].begin + bs[i].length
    decreases i
  {
    var n := Next(pieceLength, b);
    assert Sequence(pieceLength, b)[1..] == Sequence(pieceLength, n);
    if i > 0 {
      Contiguous(pieceLength, n, i - 1);
    }
  }

  /** The piece lengths for which the requests tile the piece. */
  predicate TilingLength(pieceLength: int) {
    pieceLength > 0 &&
    var r := pieceLength % MAXREQUEST;
    r == 0 || (pieceLength >= 2 * MAXREQUEST && r in {MAXREQUEST / 2, MAXREQUEST / 8 * 5})
  }

  function Fib(k: nat): nat {
    if k < 2 then k else Fib(k - 1) + Fib(k - 2)
  }

  // Near the end of a piece the lengths run backwards through a multiple of the Fibonacci numbers.
  lemma {:induction false} BackwardFibonacci(pieceLength: int, b: Block) returns (k: nat, g: nat)
    requires Tiles(pieceLength, b) && !IsLast(pieceLength, b)
    requires pieceLength - b.begin - b.length <= MAXREQUEST
    ensures b.length == Fib(k) * g && pieceLength - b.begin - b.length == Fib(k + 1) * g
    decreases pieceLength - b.begin, if b.length == 0 then 1 else 0
  {
    hide Fib;
    if b.length == 0 {
      k, g := 0, pieceLength - b.begin;
      FibStep(0, g);
    } else {
      var j, h := BackwardFibonacci(pieceLength, Next(pieceLength, b));
      FibStep(j, h);
      k, g := j + 1, h;
    }
  }

  lemma FibStep(j: nat, g: nat)
    ensures Fib(j + 2) * g == Fib(j + 1) * g + Fib(j) * g
    ensures j == 0 ==> Fib(j) * g == 0 && Fib(j + 1) * g == g
  {
    hide Fib;
    FibIs(j);
  }

  lemma FibIs(j: nat)
    ensures Fib(j + 2) == Fib(j + 1) + Fib(j) && (j == 0 ==> Fib(j) == 0 && Fib(j + 1) == 1)
  {
  }

  lemma {:induction false} FibGrows(j: nat, k: nat)
    requires j <= k
    ensures Fib(j) <= Fib(k) && (k > 0 ==> Fib(k) > 0)
    decreases k
  {
    if j < k {
      FibGrows(j, k - 1);
    } else if k > 1 {
      FibGrows(k - 1, k - 1);
    }
  }

  lemma FibUpTo12()
    ensures Fib(2) == 1 && Fib(3) == 2 && Fib(4) == 3 && Fib(5) == 5 && Fib(6) == 8 && Fib(7) == 13
    ensures Fib(8) == 21 && Fib(9) == 34 && Fib(10) == 55 && Fib(11) == 89 && Fib(12) == 144
  {
    assert Fib(4) == 3;
    assert Fib(6) == 8;
    assert Fib(8) == 21;
    assert Fib(10) == 55;
  }

  lemma FibUpTo22()
    ensures Fib(13) == 233 && Fib(14) == 377 && Fib(15) == 610 && Fib(16) == 987 && Fib(17) == 1597
    ensures Fib(18) == 2584 && Fib(19) == 4181 && Fib(20) == 6765 && Fib(21) == 10946 && Fib(22) == 17711
  {
    FibUpTo12();
    assert Fib(14) == 377;
    assert Fib(16) == 987;
    assert Fib(18) == 2584;
    assert Fib(20) == 6765;
  }

  lemma MultipleGrows(a: nat, g: nat)
    ensures a * g == 0 || a * g >= a
  {
    if g > 0 {
      assert a * g == a * (g - 1) + a;
    }
  }

  // 1, 2 and 8 are the only Fibonacci numbers that divide the maximum length.
  lemma FibDivisors(k: nat, g: nat)
    requires k > 0
    ensures Fib(k) * g == MAXREQUEST ==> k in {1, 2, 3, 6}
  {
    hide Fib;
    if k >= 22 {
      FibUpTo22();
      FibGrows(22, k);
      MultipleGrows(Fib(k), g);
    } else if k <= 11 {
      if k !in {1, 2, 3, 6} {
        SmallDivisors(k, g);
      }
    } else {
      LargeDivisors(k, g);
    }
  }

  lemma SmallDivisors(k: nat, g: nat)
    requires 0 < k <= 11 && k !in {1, 2, 3, 6}
    ensures Fib(k) * g != MAXREQUEST
  {
    FibUpTo12();
    if k == 4 { assert 3 * g != MAXREQUEST; }
    if k == 5 { assert 5 * g != MAXREQUEST; }
    if k == 7 { assert 13 * g != MAXREQUEST; }
    if k == 8 { assert 21 * g != MAXREQUEST; }
    if k == 9 { assert 34 * g != MAXREQUEST; }
    if k == 10 { assert 55 * g != MAXREQUEST; }
    if k == 11 { assert 89 * g != MAXREQUEST; }
  }

  lemma LargeDivisors(k: nat, g: nat)
    requires 12 <= k < 22
    ensures Fib(k) * g != MAXREQUEST
  {
    FibUpTo12();
    FibUpTo22();
    if k == 12 { assert 144 * g != MAXREQUEST; }
    if k == 13 { assert 233 * g != MAXREQUEST; }
    if k == 14 { assert 377 * g != MAXREQUEST; }
    if k == 15 { assert 610 * g != MAXREQUEST; }
    if k == 16 { assert 987 * g != MAXREQUEST; }
    if k == 17 { assert 1597 * g != MAXREQUEST; }
    if k == 18 { assert 2584 * g != MAXREQUEST; }
    if k == 19 { assert 4181 * g != MAXREQUEST; }
    if k == 20 { assert 6765 * g != MAXREQUEST; }
    if k == 21 { assert 10946 * g != MAXREQUEST; }
  }

  // The tail of a piece: the whole blocks that do not come too near its end leave a last stretch of
  // between one and two maximum lengths.
  lemma {:induction false} TailTiles(pieceLength: int, begin: int)
    requires begin >= 0 && pieceLength >= 0
    ensures var left := pieceLength - begin;
      Tiles(pieceLength, Block(begin, MAXREQUEST)) <==>
      left > 0 && (left % MAXREQUEST == 0 ||
                   (left >= 2 * MAXREQUEST && left % MAXREQUEST in {MAXREQUEST / 2, MAXREQUEST / 8 * 5}))
    decreases pieceLength - begin
  {
    var left := pieceLength - begin;
    if left > 3 * MAXREQUEST {
      TailTiles(pieceLength, begin + MAXREQUEST);
      WholeBlock(pieceLength, begin);
      hide Tiles;
      assert left % MAXREQUEST == (left - MAXREQUEST) % MAXREQUEST;
    } else if left > MAXREQUEST {
      LastStretch(pieceLength, begin);
      hide Tiles;
    }
  }

  lemma WholeBlock(pieceLength: int, begin: int)
    requires pieceLength - begin > 3 * MAXREQUEST
    ensures Tiles(pieceLength, Block(begin, MAXREQUEST)) == Tiles(pieceLength, Block(begin + MAXREQUEST, MAXREQUEST))
  {
  }

  lemma LastStretch(pieceLength: int, begin: int)
    requires begin >= 0 && MAXREQUEST < pieceLength - begin <= 3 * MAXREQUEST
    ensures var left := pieceLength - begin;
      Tiles(pieceLength, Block(begin, MAXREQUEST)) <==>
      left in {2 * MAXREQUEST, 2 * MAXREQUEST + MAXREQUEST / 2, 2 * MAXREQUEST + MAXREQUEST / 8 * 5, 3 * MAXREQUEST}
  {
    var left := pieceLength - begin;
    var b1 := Block(begin + MAXREQUEST, left - 2 * MAXREQUEST);
    assert Tiles(pieceLength, Block(begin, MAXREQUEST)) == Tiles(pieceLength, b1);
    if Tiles(pieceLength, b1) {
      var k, g := BackwardFibonacci(pieceLength, b1);
      FibDivisors(k + 1, g);
      FibUpTo12();
    }
    if b1.length in {0, MAXREQUEST / 2, MAXREQUEST / 8 * 5, MAXREQUEST} {
      StretchTiles(pieceLength, b1);
    }
  }

  lemma StretchTiles(pieceLength: int, b: Block)
    requires b.begin >= 0 && pieceLength == b.begin + b.length + MAXREQUEST
    requires b.length in {0, MAXREQUEST / 2, MAXREQUEST / 8 * 5, MAXREQUEST}
    ensures Tiles(pieceLength, b)
  {
    var b1 := Next(pieceLength, b);
    var b2 := Next(pieceLength, b1);
    var b3 := Next(pieceLength, b2);
    var b4 := Next(pieceLength, b3);
    var b5 := Next(pieceLength, b4);
    var b6 := Next(pieceLength, b5);
    if b.length == MAXREQUEST / 8 * 5 {
      assert Tiles(pieceLength, b6);
      assert Tiles(pieceLength, b4);
      assert Tiles(pieceLength, b2);
    } else if b.length == MAXREQUEST / 2 {
      assert Tiles(pieceLength, b3);
    }
  }

  /** The requests of a piece tile it exactly for the lengths of TilingLength. */
  lemma TilesExactly(pieceLength: int)
    ensures Tiles(pieceLength, FIRST) <==> TilingLength(pieceLength)
    ensures Tiles(pieceLength, Block(0, 16384)) <==>
            pieceLength > 0 &&
            (pieceLength % 16384 == 0 || (pieceLength >= 32768 && pieceLength % 16384 in {8192, 10240}))
  {
    if pieceLength >= 0 {
      TailTiles(pieceLength, 0);
    }
  }

  /** `n` whole blocks of 16384 bytes from offset `begin`. */
  function Whole(begin: int, n: nat): seq<Block>
    decreases n
  {
    if n == 0 then [] else [Block(begin, 16384)] + Whole(begin + 16384, n - 1)
  }

  /**
   * The requests of a piece of two or more whole blocks: all of the blocks, and before the last of them one request for
   * no bytes.
   */
  lemma {:induction false} WholeBlocks(begin: int, n: nat)
    requires n >= 2
    ensures var pieceLength := begin + 16384 * n;
      && Tiles(pieceLength, Block(begin, 16384))
      && Sequence(pieceLength, Block(begin, 16384)) ==
         Whole(begin, n - 1) + [Block(pieceLength - 16384, 0), Block(pieceLength - 16384, 16384)]
    decreases n
  {
    var pieceLength := begin + 16384 * n;
    var b := Block(begin, 16384);
    if n == 2 {
      LastBlocks(begin);
    } else {
      var next := Block(begin + 16384, 16384);
      assert Next(pieceLength, b) == next;
      WholeBlocks(begin + 16384, n - 1);
      hide Next;
      assert Sequence(pieceLength, b) == [b] + Sequence(pieceLength, next);
      assert Whole(begin, n - 1) == [b] + Whole(begin + 16384, n - 2);
    }
  }

  lemma LastBlocks(begin: int)
    ensures var pieceLength := begin + 32768;
      && Tiles(pieceLength, Block(begin, 16384))
      && Sequence(pieceLength, Block(begin, 16384)) ==
         Whole(begin, 1) + [Block(begin + 16384, 0), Block(begin + 16384, 16384)]
  {
    var pieceLength := begin + 32768;
    var last := Block(begin + 16384, 16384);
    assert Tiles(pieceLength, last) && Sequence(pieceLength, last) == [last];
    var none := Block(begin + 16384, 0);
    assert Next(pieceLength, none) == last;
    assert Tiles(pieceLength, none) && Sequence(pieceLength, none) == [none, last];
    assert Next(pieceLength, Block(begin, 16384)) == none;
    assert Whole(begin, 1) == [Block(begin, 16384)] + Whole(begin + 16384, 0);
  }
}
