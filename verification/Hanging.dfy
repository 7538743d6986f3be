/** A DHT table that hangs: from a new table to a call of addNode that never returns. */
module Hanging {
  import opened Distance
  import opened Splitting

  function Copies(n: Node, k: nat): (r: seq<Node>)
    ensures |r| == k && forall i | 0 <= i < k :: r[i] == n
  {
    seq(k, _ => n)
  }

  // The first bucket with the own node, and with `k` nodes at distance 60.
  function Filled(own: Node, n: Node, k: nat): NodeLists {
    var m: NodeLists := map[0 := [own]];
    if k == 0 then m else m[60 := Copies(n, k)]
  }

  lemma FilledTotal(own: Node, n: Node, k: nat)
    ensures ListsOk(Filled(own, n, k)) && Total(Filled(own, n, k)) == k + 1
  {
    var e: NodeLists := map[];
    EmptySum(MAXDISTANCE + 1);
    SumUpdate(e, 0, [own], MAXDISTANCE + 1);
    assert e[0 := [own]] == Filled(own, n, 0);
    SumUpdate(Filled(own, n, 0), 60, Copies(n, k), MAXDISTANCE + 1);
    hide SumTo;
  }

  lemma Fills(own: Node, n: Node, k: nat)
    requires k < BUCKETNUM - 1
    ensures var ss := [Shape(0, MAXDISTANCE, Filled(own, n, k))];
      First(ss, 60) == 0 &&
      TurnOf(ss, 60, n) == (Added, [Shape(0, MAXDISTANCE, Filled(own, n, k + 1))])
  {
    FilledTotal(own, n, k);
    hide SumTo, Total;
    var s := Shape(0, MAXDISTANCE, Filled(own, n, k));
    assert (if k == 0 then [] else Copies(n, k)) + [n] == Copies(n, k + 1);
    assert Append(s, 60, n).nodes == Filled(own, n, k + 1);
    assert [s][0 := Append(s, 60, n)] == [Append(s, 60, n)];
  }

  lemma UpperTotal(own: Node, n: Node)
    ensures Moved(Filled(own, n, 159), 160) == map[]
    ensures var u := Moved(Filled(own, n, 159), 80);
      u == map[60 := Copies(n, 159)] && Total(u) == 159 && Total(u[60 := Copies(n, 160)]) == 160
  {
    var e: NodeLists := map[];
    EmptySum(MAXDISTANCE + 1);
    SumUpdate(e, 60, Copies(n, 159), MAXDISTANCE + 1);
    SumUpdate(e, 60, Copies(n, 160), MAXDISTANCE + 1);
    assert Moved(Filled(own, n, 159), 80) == e[60 := Copies(n, 159)];
    assert e[60 := Copies(n, 159)][60 := Copies(n, 160)] == e[60 := Copies(n, 160)];
    hide SumTo;
  }

  /** The table after the last node at distance 60 that is added. */
  function Hung(own: Node, n: Node): seq<Shape> {
    var m := Filled(own, n, 159);
    [Shape(0, 40, m), Shape(80, 160, map[]), Shape(40, 80, map[60 := Copies(n, 160)])]
  }

  lemma HungForever(own: Node, n: Node)
    ensures First(Hung(own, n), 60) == 2 && forall k: nat :: StillSplitting(Hung(own, n), 60, k)
  {
    hide SumTo, Total;
    UpperTotal(own, n);
    FilledTotal(own, n, 159);
    var ss := Hung(own, n);
    var u: NodeLists := map[60 := Copies(n, 159)];
    assert u[60 := Copies(n, 160)] == ss[2].nodes;
    FirstIs(ss, 60, 2);
    assert AllForever(ss, 60);
    NeverEndsExactly(ss, 60);
  }

  /** `k` turns of addNode's loop, over as many calls as they make: how many calls added the node, and the table. */
  function TurnsOn(ss: seq<Shape>, d: nat, n: Node, k: nat): (r: (nat, seq<Shape>))
    requires First(ss, d) < |ss|
    ensures First(r.1, d) < |r.1|
    decreases k
  {
    if k == 0 then (0, ss)
    else
      var (turn, tt) := TurnOf(ss, d, n);
      TurnCovers(ss, d, n);
      var (added, uu) := TurnsOn(tt, d, n, k - 1);
      (added + (if turn == Added then 1 else 0), uu)
  }

  lemma TurnCovers(ss: seq<Shape>, d: nat, n: Node)
    requires First(ss, d) < |ss|
    ensures First(TurnOf(ss, d, n).1, d) < |TurnOf(ss, d, n).1|
  {
    SplitCovers(ss, d);
    var i := First(ss, d);
    var tt := ss[i := Append(ss[i], d, n)];
    assert Covers(tt[i], d);
  }

  lemma TurnsFirst(ss: seq<Shape>, d: nat, n: Node, k: nat, turn: Turn, tt: seq<Shape>)
    requires First(ss, d) < |ss| && k > 0 && TurnOf(ss, d, n) == (turn, tt)
    ensures First(tt, d) < |tt|
    ensures TurnsOn(ss, d, n, k).0 == TurnsOn(tt, d, n, k - 1).0 + (if turn == Added then 1 else 0)
    ensures TurnsOn(ss, d, n, k).1 == TurnsOn(tt, d, n, k - 1).1
  {
    TurnCovers(ss, d, n);
    hide TurnOf, First;
  }

  // The last three turns: two splits, and the node is added.
  lemma LastTurns(own: Node, n: Node)
    ensures var ss := [Shape(0, 160, Filled(own, n, 159))];
      First(ss, 60) == 0 && TurnsOn(ss, 60, n, 3) == (1, Hung(own, n))
  {
    FilledTotal(own, n, 159);
    UpperTotal(own, n);
    var m := Filled(own, n, 159);
    var s0 := [Shape(0, 160, m)];
    var s1 := [Shape(0, 80, m), Shape(80, 160, map[])];
    var s2 := s1[0 := Shape(0, 40, m)] + [Shape(40, 80, map[60 := Copies(n, 159)])];
    hide SumTo, Total;
    assert SplitAt(s0, 0) == s1;
    assert SplitAt(s1, 0) == s2;
    assert Copies(n, 159) + [n] == Copies(n, 160);
    assert Append(s2[2], 60, n).nodes == map[60 := Copies(n, 160)];
    assert s2[2 := Append(s2[2], 60, n)] == Hung(own, n);
    FirstIs(s2, 60, 2);
    hide StillSplitting, TurnsOn, SplitAt, Filled;
    TurnsFirst(s0, 60, n, 3, Again, s1);
    TurnsFirst(s1, 60, n, 2, Again, s2);
    TurnsFirst(s2, 60, n, 1, Added, Hung(own, n));
    NoTurns(Hung(own, n), 60, n);
  }

  lemma NoTurns(ss: seq<Shape>, d: nat, n: Node)
    requires First(ss, d) < |ss|
    ensures TurnsOn(ss, d, n, 0) == (0, ss)
  {
  }

  lemma {:induction false} FillsUp(own: Node, n: Node, k: nat)
    requires k <= 159
    ensures var ss := [Shape(0, 160, Filled(own, n, k))];
      First(ss, 60) == 0 && TurnsOn(ss, 60, n, 162 - k) == (160 - k, Hung(own, n))
    decreases 159 - k
  {
    hide TurnOf, TurnsOn, First, Filled, Hung;
    if k == 159 {
      LastTurns(own, n);
    } else {
      Fills(own, n, k);
      FillsUp(own, n, k + 1);
      TurnsFirst([Shape(0, 160, Filled(own, n, k))], 60, n, 162 - k, Added, [Shape(0, 160, Filled(own, n, k + 1))]);
    }
  }

  /**
   * A table that hangs. A new table holds its own node. A node at distance 60 is added by each of 160 calls, the last
   * of which splits the first bucket twice. The next call for such a node never ends.
   */
  lemma Hangs(own: Node, n: Node)
    requires Hamming(own.id, n.id) == 60
    ensures var d, ss := Hamming(own.id, n.id), [Shape(0, MAXDISTANCE, map[0 := [own]])];
      First(ss, d) < |ss| &&
      var (added, tt) := TurnsOn(ss, d, n, 162);
      added == 160 && forall k: nat :: StillSplitting(tt, d, k)
  {
    hide Hamming, TurnsOn, StillSplitting, Copies;
    FillsUp(own, n, 0);
    HungForever(own, n);
    assert Filled(own, n, 0) == map[0 := [own]];
  }

  const ZEROS: NodeID := [0, 0, 0, 0, 0, 0, 0, 0, 0, 0, 0, 0, 0, 0, 0, 0, 0, 0, 0, 0]
  const SIXTY: NodeID := [255, 255, 255, 255, 255, 255, 255, 15, 0, 0, 0, 0, 0, 0, 0, 0, 0, 0, 0, 0]

  lemma DiffersUpTo60(k: nat)
    requires k < 160
    ensures Differ(ZEROS, SIXTY, k) <==> k < 60
  {
    assert ZEROS[k / 8] == 0;
    assert SIXTY[k / 8] == if k / 8 < 7 then 255 else if k / 8 == 7 then 15 else 0;
  }

  lemma {:induction false} CountUpTo60(n: nat)
    requires n <= 160
    ensures Differences(ZEROS, SIXTY, n) == if n < 60 then n else 60
  {
    if n > 0 {
      DiffersUpTo60(n - 1);
      CountUpTo60(n - 1);
    }
  }

  /** There are ids at that distance. */
  lemma SixtyApart()
    ensures Hamming(ZEROS, SIXTY) == 60
  {
    CountUpTo60(160);
  }
}
