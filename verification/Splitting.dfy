/** The routing table of dht/table.go as values: what a split does, and when splitting never ends. */
module Splitting {
  import opened Arithmetic
  import opened Distance

  datatype Node = Node(handle: nat, id: NodeID)

  const BUCKETNUM: nat := 160
  const MAXDISTANCE: nat := 160

  type NodeLists = map<nat, seq<Node>>

  function Listed(m: NodeLists, d: nat): nat {
    if d in m then |m[d]| else 0
  }

  /** How many nodes are listed at distances below `k`. */
  function SumTo(m: NodeLists, k: nat): nat {
    if k == 0 then 0 else SumTo(m, k - 1) + Listed(m, k - 1)
  }

  function Total(m: NodeLists): nat {
    SumTo(m, MAXDISTANCE + 1)
  }

  lemma {:induction false} SumUpdate(m: NodeLists, d: nat, ns: seq<Node>, k: nat)
    ensures SumTo(m[d := ns], k) == SumTo(m, k) + if d < k then |ns| - Listed(m, d) else 0
  {
    if k > 0 {
      SumUpdate(m, d, ns, k - 1);
    }
  }

  lemma {:induction false} SumBelow(a: NodeLists, b: NodeLists, k: nat)
    requires forall d | 0 <= d < k :: Listed(a, d) <= Listed(b, d)
    ensures SumTo(a, k) <= SumTo(b, k)
    ensures (exists d | 0 <= d < k :: Listed(a, d) < Listed(b, d)) ==> SumTo(a, k) < SumTo(b, k)
  {
    if k > 0 {
      SumBelow(a, b, k - 1);
    }
  }

  /** 2 << i on a 64-bit int. */
  function Shift(i: nat): int {
    if i < 62 then 2 * Pow2(i) else if i == 62 then -0x8000_0000_0000_0000 else 0
  }

  /** It is the 64-bit number that differs from twice 2^i by a multiple of 2^64. */
  lemma ShiftWraps(i: nat) returns (q: nat)
    ensures -0x8000_0000_0000_0000 <= Shift(i) < 0x8000_0000_0000_0000
    ensures Shift(i) == 2 * Pow2(i) - q * 0x1_0000_0000_0000_0000
  {
    if i < 62 {
      q := 0;
      Pow2Below(i, 62);
      Pow2Of62();
    } else if i == 62 {
      q := 1;
      Pow2Of62();
    } else {
      q := Pow2(i - 63);
      Pow2Sum(i - 63, 63);
      Pow2Of62();
    }
  }

  lemma Pow2Of62()
    ensures Pow2(62) == 0x4000_0000_0000_0000 && Pow2(63) == 0x8000_0000_0000_0000
  {
    hide Pow2;
    SmallPowers();
    Pow2Sum(8, 8);
    Pow2Sum(16, 8);
    Pow2Sum(24, 8);
    Pow2Sum(32, 8);
    Pow2Sum(40, 8);
    Pow2Sum(48, 8);
    Pow2Sum(56, 6);
    Pow2Sum(62, 1);
  }

  lemma {:induction false} Pow2Sum(i: nat, j: nat)
    ensures Pow2(i + j) == Pow2(i) * Pow2(j)
  {
    if j > 0 {
      Pow2Sum(i, j - 1);
    }
  }

  lemma {:induction false} Pow2Below(i: nat, j: nat)
    requires i < j
    ensures 2 * Pow2(i) <= Pow2(j)
    decreases j
  {
    if i + 1 < j {
      Pow2Below(i, j - 1);
    }
  }

  /** The room that `split` counts from distance `i` on. */
  function Grow(i: nat, end: nat, max: int): int
    decreases if i <= end then end - i + 1 else 0
  {
    if i <= end && max < BUCKETNUM then Grow(i + 1, end, max + Shift(i)) else max
  }

  lemma GrowStep(i: nat, end: nat, max: int)
    ensures Grow(i, end, max) == if i <= end && max < BUCKETNUM then Grow(i + 1, end, max + Shift(i)) else max
  {
  }

  /** Where a bucket may split: for large distances the shift overflows and there seems to be no room. */
  predicate MaySplit(begin: nat, end: nat) {
    begin <= end && begin <= 61 && (end >= 7 || (end == 6 && begin <= 5))
  }

  lemma {:induction false} NoRoom(i: nat, end: nat, max: int)
    requires i >= 63 && max < BUCKETNUM
    ensures Grow(i, end, max) == max
    decreases if i <= end then end - i + 1 else 0
  {
    if i <= end {
      NoRoom(i + 1, end, max);
    }
  }

  lemma {:induction false} Pow2Grows(i: nat)
    requires i >= 7
    ensures Pow2(i) >= 128
  {
    if i > 7 {
      Pow2Grows(i - 1);
    } else {
      assert Pow2(4) == 16;
    }
  }

  lemma MaySplitExactly(begin: nat, end: nat)
    ensures Grow(begin, end, 0) >= 160 <==> MaySplit(begin, end)
  {
    if begin >= 63 {
      NoRoom(begin, end, 0);
    } else if begin == 62 {
      NoRoom(63, end, Shift(62));
    } else if begin >= 7 {
      Pow2Grows(begin);
    } else if begin <= end {
      SmallPowers();
      SmallRoom(begin, begin, end);
    }
  }

  // From small distances the room is a sum of powers of two, and seven or eight of them are enough.
  lemma {:induction false} SmallRoom(begin: nat, i: nat, end: nat)
    requires begin < 7 && begin <= i <= 8 && i <= end + 1
    ensures Grow(i, end, Pow2(i + 1) - Pow2(begin + 1)) >= BUCKETNUM <==> end >= 7 || (end == 6 && begin <= 5)
    decreases 8 - i
  {
    SmallPowers();
    if i <= end && Pow2(i + 1) - Pow2(begin + 1) < BUCKETNUM {
      SmallRoom(begin, i + 1, end);
    }
  }

  lemma SmallPowers()
    ensures Pow2(1) == 2 && Pow2(2) == 4 && Pow2(3) == 8 && Pow2(4) == 16 && Pow2(5) == 32
    ensures Pow2(6) == 64 && Pow2(7) == 128 && Pow2(8) == 256 && Pow2(9) == 512
  {
    assert Pow2(3) == 8;
    assert Pow2(5) == 32;
    assert Pow2(7) == 128;
  }

  /** The lists a split moves from a bucket that ended at `end`. */
  function Moved(m: NodeLists, end: nat): NodeLists {
    map d | d in m && end / 2 < d <= end :: m[d]
  }

  lemma MovedIs(m: NodeLists, end: nat, t: NodeLists)
    requires forall d :: d in t <==> d in m && end / 2 < d <= end
    requires forall d | d in t :: t[d] == m[d]
    ensures t == Moved(m, end)
  {
  }

  predicate ListsOk(m: NodeLists) {
    forall d | d in m :: d <= MAXDISTANCE && m[d] != []
  }

  lemma {:induction false} EmptySum(k: nat)
    ensures SumTo(map[], k) == 0
  {
    if k > 0 {
      EmptySum(k - 1);
    }
  }

  /** A bucket: its range and its nodes. Its count is their total. */
  datatype Shape = Shape(begin: nat, end: nat, nodes: NodeLists)

  predicate Covers(s: Shape, d: nat) {
    s.begin <= d <= s.end
  }

  predicate IsFull(s: Shape) {
    Total(s.nodes) == BUCKETNUM
  }

  function Halved(s: Shape): Shape {
    s.(end := s.end / 2)
  }

  /** The new bucket of a split. */
  function Upper(s: Shape): Shape {
    Shape(s.end / 2, s.end, Moved(s.nodes, s.end))
  }

  /** `findBucket`: the first bucket whose range has the distance. */
  function First(ss: seq<Shape>, d: nat): (i: nat)
    ensures i <= |ss| && (i < |ss| ==> Covers(ss[i], d))
    ensures forall j | 0 <= j < i :: !Covers(ss[j], d)
  {
    if ss == [] || Covers(ss[0], d) then 0 else 1 + First(ss[1..], d)
  }

  lemma {:induction false} FirstIs(ss: seq<Shape>, d: nat, i: nat)
    requires i < |ss| && Covers(ss[i], d) && forall j | 0 <= j < i :: !Covers(ss[j], d)
    ensures First(ss, d) == i
  {
  }

  /** How one turn of `table.addNode`'s loop ends; after Again the loop goes round once more. */
  datatype Turn = Added | Dropped | Again

  function SplitAt(ss: seq<Shape>, i: nat): seq<Shape>
    requires i < |ss|
  {
    ss[i := Halved(ss[i])] + [Upper(ss[i])]
  }

  function Append(s: Shape, d: nat, n: Node): Shape {
    s.(nodes := s.nodes[d := (if d in s.nodes then s.nodes[d] else []) + [n]])
  }

  /** One turn of the loop, for a node at distance `d`. */
  function TurnOf(ss: seq<Shape>, d: nat, n: Node): (Turn, seq<Shape>)
    requires First(ss, d) < |ss|
  {
    var i := First(ss, d);
    if !IsFull(ss[i]) then (Added, ss[i := Append(ss[i], d, n)])
    else if !MaySplit(ss[i].begin, ss[i].end) then (Dropped, ss)
    else (Again, SplitAt(ss, i))
  }

  /** Whether the loop is still running after `k` turns. */
  predicate StillSplitting(ss: seq<Shape>, d: nat, k: nat)
    requires First(ss, d) < |ss|
    decreases k
  {
    k == 0 ||
    (TurnSplits(ss, d) && (SplitCovers(ss, d); StillSplitting(SplitAt(ss, First(ss, d)), d, k - 1)))
  }

  predicate TurnSplits(ss: seq<Shape>, d: nat)
    requires First(ss, d) < |ss|
  {
    var s := ss[First(ss, d)];
    IsFull(s) && MaySplit(s.begin, s.end)
  }

  // Splitting leaves no distance without a bucket.
  lemma SplitCovers(ss: seq<Shape>, d: nat)
    requires First(ss, d) < |ss|
    ensures First(SplitAt(ss, First(ss, d)), d) < |SplitAt(ss, First(ss, d))|
  {
    var i := First(ss, d);
    var t := SplitAt(ss, i);
    assert Covers(t[i], d) || Covers(t[|ss|], d);
  }

  predicate CoveredBy(ss: seq<Shape>, d: nat) {
    exists i | 0 <= i < |ss| :: Covers(ss[i], d)
  }

  /** The node is in a bucket whose range has its distance. */
  predicate HeldBy(ss: seq<Shape>, d: nat, n: Node) {
    exists i | 0 <= i < |ss| :: Holds(ss[i], d, n)
  }

  predicate Holds(s: Shape, d: nat, n: Node) {
    Covers(s, d) && d in s.nodes && n in s.nodes[d]
  }

  /** Every distance has a bucket, and every accepted node is in a bucket whose range has its distance. */
  ghost predicate Complete(ss: seq<Shape>, accepted: seq<(nat, Node)>) {
    (forall d: nat | d <= MAXDISTANCE :: CoveredBy(ss, d)) &&
    (forall a | a in accepted :: a.0 <= MAXDISTANCE && HeldBy(ss, a.0, a.1))
  }

  lemma NewComplete(own: Node)
    ensures Complete([Shape(0, MAXDISTANCE, map[0 := [own]])], [(0, own)])
  {
    var ss := [Shape(0, MAXDISTANCE, map[0 := [own]])];
    assert Holds(ss[0], 0, own);
    assert forall d: nat | d <= MAXDISTANCE :: Covers(ss[0], d);
  }

  /** A split, of any bucket, loses no node and leaves no distance without a bucket. */
  lemma SplitKeeps(ss: seq<Shape>, i: nat, d: nat)
    requires i < |ss|
    ensures CoveredBy(ss, d) ==> CoveredBy(SplitAt(ss, i), d)
    ensures forall n | HeldBy(ss, d, n) :: HeldBy(SplitAt(ss, i), d, n)
  {
    var t := SplitAt(ss, i);
    assert t[i] == Halved(ss[i]) && t[|ss|] == Upper(ss[i]);
    assert forall j | 0 <= j < |ss| && j != i :: t[j] == ss[j];
    if CoveredBy(ss, d) {
      var j :| 0 <= j < |ss| && Covers(ss[j], d);
      assert Covers(t[j], d) || Covers(t[|ss|], d);
    }
    forall n | HeldBy(ss, d, n) ensures HeldBy(t, d, n) {
      var j :| 0 <= j < |ss| && Holds(ss[j], d, n);
      assert Holds(t[j], d, n) || Holds(t[|ss|], d, n);
    }
  }

  /** Adding a node where its distance belongs makes the table hold it, and loses no other. */
  lemma AppendKeeps(ss: seq<Shape>, i: nat, d: nat, n: Node, e: nat, m: Node)
    requires i < |ss| && Covers(ss[i], d)
    ensures var t := ss[i := Append(ss[i], d, n)];
      && HeldBy(t, d, n)
      && (CoveredBy(ss, e) ==> CoveredBy(t, e))
      && (HeldBy(ss, e, m) ==> HeldBy(t, e, m))
  {
    var t := ss[i := Append(ss[i], d, n)];
    assert Holds(t[i], d, n);
    if CoveredBy(ss, e) {
      var j :| 0 <= j < |ss| && Covers(ss[j], e);
      assert Covers(t[j], e);
    }
    if HeldBy(ss, e, m) {
      var j :| 0 <= j < |ss| && Holds(ss[j], e, m);
      assert Holds(t[j], e, m);
    }
  }

  lemma SplitKeepsAll(ss: seq<Shape>, i: nat, accepted: seq<(nat, Node)>)
    requires i < |ss| && Complete(ss, accepted)
    ensures Complete(SplitAt(ss, i), accepted)
  {
    hide CoveredBy, HeldBy, SplitAt;
    forall d: nat | d <= MAXDISTANCE ensures CoveredBy(SplitAt(ss, i), d) {
      SplitKeeps(ss, i, d);
    }
    forall a | a in accepted ensures HeldBy(SplitAt(ss, i), a.0, a.1) {
      SplitKeeps(ss, i, a.0);
    }
  }

  lemma AppendKeepsAll(ss: seq<Shape>, i: nat, d: nat, n: Node, accepted: seq<(nat, Node)>)
    requires i < |ss| && Covers(ss[i], d) && d <= MAXDISTANCE && Complete(ss, accepted)
    ensures Complete(ss[i := Append(ss[i], d, n)], accepted + [(d, n)])
  {
    hide CoveredBy, HeldBy, Append;
    var t := ss[i := Append(ss[i], d, n)];
    forall e: nat | e <= MAXDISTANCE ensures CoveredBy(t, e) {
      AppendKeeps(ss, i, d, n, e, n);
    }
    forall a | a in accepted + [(d, n)] ensures a.0 <= MAXDISTANCE && HeldBy(t, a.0, a.1) {
      AppendKeeps(ss, i, d, n, a.0, a.1);
    }
  }

  /** After every turn the table still holds what it held, and the node if it was added. */
  lemma TurnKeeps(ss: seq<Shape>, d: nat, n: Node, accepted: seq<(nat, Node)>)
    requires First(ss, d) < |ss| && d <= MAXDISTANCE && Complete(ss, accepted)
    ensures var (turn, tt) := TurnOf(ss, d, n);
      Complete(tt, accepted + if turn == Added then [(d, n)] else [])
  {
    hide Complete, IsFull, MaySplit, Append, SplitAt;
    var i := First(ss, d);
    AppendKeepsAll(ss, i, d, n, accepted);
    SplitKeepsAll(ss, i, accepted);
    assert accepted + [] == accepted;
  }

  /** Every node of the bucket moves in a split. */
  predicate AllMove(s: Shape) {
    forall d | d in s.nodes :: s.end / 2 < d <= s.end
  }

  lemma MovedTotal(s: Shape)
    requires ListsOk(s.nodes)
    ensures Total(Upper(s).nodes) <= Total(s.nodes)
    ensures Total(Upper(s).nodes) == Total(s.nodes) <==> AllMove(s)
    ensures AllMove(s) ==> Upper(s).nodes == s.nodes
  {
    SumBelow(Upper(s).nodes, s.nodes, MAXDISTANCE + 1);
    if !AllMove(s) {
      var d :| d in s.nodes && !(s.end / 2 < d <= s.end);
      assert Listed(Upper(s).nodes, d) < Listed(s.nodes, d);
    } else {
      assert Upper(s).nodes == s.nodes;
    }
  }

  /**
   * A bucket from which splitting, for the distance `d`, comes back to a full bucket that splits in the same way.
   * It is full, may split down to a range in whose upper half the distance lies, and there all of its nodes lie too.
   */
  predicate Forever(s: Shape, d: nat)
    decreases s.end
  {
    IsFull(s) && MaySplit(s.begin, s.end) &&
    if d < s.end / 2 then Forever(Halved(s), d)
    else d > s.end / 2 && AllMove(s) && MaySplit(s.end / 2, s.end)
  }

  predicate AllForever(ss: seq<Shape>, d: nat) {
    forall i | 0 <= i < |ss| && Covers(ss[i], d) :: Forever(ss[i], d)
  }

  predicate ShapesOk(ss: seq<Shape>) {
    forall i | 0 <= i < |ss| :: ListsOk(ss[i].nodes)
  }

  lemma UpperForever(s: Shape, d: nat)
    requires ListsOk(s.nodes) && Covers(s, d) && Forever(s, d)
    ensures Covers(Halved(s), d) ==> Forever(Halved(s), d)
    ensures Covers(Upper(s), d) ==> Forever(Upper(s), d)
  {
    MovedTotal(s);
  }

  lemma ForeverKept(ss: seq<Shape>, d: nat)
    requires First(ss, d) < |ss| && ShapesOk(ss) && AllForever(ss, d)
    ensures TurnSplits(ss, d)
    ensures ShapesOk(SplitAt(ss, First(ss, d))) && AllForever(SplitAt(ss, First(ss, d)), d)
  {
    UpperForever(ss[First(ss, d)], d);
    hide MaySplit, Forever, IsFull;
    assert Forever(ss[First(ss, d)], d);
  }

  lemma {:induction false} NeverStops(ss: seq<Shape>, d: nat, k: nat)
    requires First(ss, d) < |ss| && ShapesOk(ss) && AllForever(ss, d)
    ensures StillSplitting(ss, d, k)
    decreases k
  {
    ForeverKept(ss, d);
    if k > 0 {
      SplitCovers(ss, d);
      NeverStops(SplitAt(ss, First(ss, d)), d, k - 1);
    }
  }

  /** How many turns of its own a bucket that is not Forever takes until the loop stops at what became of it. */
  function Fate(s: Shape, d: nat): nat
    decreases s.end
  {
    if !IsFull(s) || !MaySplit(s.begin, s.end) then 0
    else if d < s.end / 2 then 1 + Fate(Halved(s), d)
    else if d == s.end / 2 then 2
    else 1
  }

  // How many turns a bucket may take before its range has lost the distance.
  function Turns(s: Shape, d: nat): nat {
    if !Covers(s, d) then 0 else if d <= s.end / 2 then s.end + 2 else 1
  }

  /** How many turns may be taken by the buckets before `p`. */
  function Wait(ss: seq<Shape>, d: nat, p: nat): nat
    requires p <= |ss|
  {
    if p == 0 then 0 else Wait(ss, d, p - 1) + Turns(ss[p - 1], d)
  }

  lemma {:induction false} WaitLess(ss: seq<Shape>, tt: seq<Shape>, d: nat, p: nat, i: nat)
    requires p <= |ss| && p <= |tt| && forall j | 0 <= j < p && j != i :: tt[j] == ss[j]
    requires i < p ==> Turns(tt[i], d) < Turns(ss[i], d)
    ensures if i < p then Wait(tt, d, p) < Wait(ss, d, p) else Wait(tt, d, p) == Wait(ss, d, p)
  {
    if p > 0 {
      WaitLess(ss, tt, d, p - 1, i);
    }
  }

  // What a bucket that is not Forever leaves behind: one that is not Forever either, and nearer to its end.
  lemma NotForever(s: Shape, d: nat) returns (upper: bool)
    requires ListsOk(s.nodes) && Covers(s, d) && !Forever(s, d) && IsFull(s) && MaySplit(s.begin, s.end)
    ensures var t := if upper then Upper(s) else Halved(s);
      Covers(t, d) && !Forever(t, d) && Fate(t, d) < Fate(s, d)
  {
    MovedTotal(s);
    if d < s.end / 2 {
      upper := false;
    } else if d == s.end / 2 && IsFull(Upper(s)) {
      upper := false;
      EmptySum(MAXDISTANCE + 1);
      assert s.nodes != map[];
      var k :| k in s.nodes;
      assert k in Halved(s).nodes && k > s.end / 2;
    } else {
      upper := true;
    }
  }

  lemma SplitOk(ss: seq<Shape>, i: nat)
    requires ShapesOk(ss) && i < |ss|
    ensures ShapesOk(SplitAt(ss, i)) && ListsOk(ss[i].nodes)
  {
  }

  // A bucket that has the distance and splits has fewer turns left.
  lemma FewerTurns(s: Shape, d: nat)
    ensures Covers(s, d) && IsFull(s) && MaySplit(s.begin, s.end) ==> Turns(Halved(s), d) < Turns(s, d)
  {
    hide Total;
  }

  /** A bucket that is not Forever stops the loop, in the end. */
  lemma {:induction false} Stops(ss: seq<Shape>, d: nat, p: nat) returns (k: nat)
    requires First(ss, d) < |ss| && ShapesOk(ss) && p < |ss| && Covers(ss[p], d) && !Forever(ss[p], d)
    ensures !StillSplitting(ss, d, k)
    decreases Fate(ss[p], d), Wait(ss, d, p)
  {
    hide First, Forever, Fate, Turns, Wait, MaySplit, IsFull, ShapesOk, Total, Upper;
    var i := First(ss, d);
    if !TurnSplits(ss, d) {
      k := 1;
    } else {
      SplitCovers(ss, d);
      SplitOk(ss, i);
      FewerTurns(ss[i], d);
      var tt := SplitAt(ss, i);
      var q := p;
      if i < p {
        WaitLess(ss, tt, d, p, i);
      } else {
        assert ListsOk(ss[p].nodes);
        var upper := NotForever(ss[p], d);
        if upper {
          q := |ss|;
        }
      }
      var k' := Stops(tt, d, q);
      k := k' + 1;
    }
  }

  /** `addNode` never returns if and only if every bucket that has the distance in its range is Forever. */
  lemma NeverEndsExactly(ss: seq<Shape>, d: nat)
    requires First(ss, d) < |ss| && ShapesOk(ss)
    ensures (forall k: nat :: StillSplitting(ss, d, k)) <==> AllForever(ss, d)
  {
    if AllForever(ss, d) {
      forall k: nat ensures StillSplitting(ss, d, k) {
        NeverStops(ss, d, k);
      }
    } else {
      var p :| 0 <= p < |ss| && Covers(ss[p], d) && !Forever(ss[p], d);
      var k := Stops(ss, d, p);
    }
  }

  /** The table at which the loop stops, given a number of turns `k` that is enough. */
  function StopTable(ss: seq<Shape>, d: nat, k: nat): (tt: seq<Shape>)
    requires First(ss, d) < |ss| && !StillSplitting(ss, d, k)
    ensures First(tt, d) < |tt| && !TurnSplits(tt, d)
    decreases k
  {
    if TurnSplits(ss, d) then (SplitCovers(ss, d); StopTable(SplitAt(ss, First(ss, d)), d, k - 1)) else ss
  }

  lemma {:induction false} StopTableSame(ss: seq<Shape>, d: nat, k: nat, j: nat)
    requires First(ss, d) < |ss| && !StillSplitting(ss, d, k) && !StillSplitting(ss, d, j)
    ensures StopTable(ss, d, k) == StopTable(ss, d, j)
    decreases k
  {
    if TurnSplits(ss, d) {
      SplitCovers(ss, d);
      StopTableSame(SplitAt(ss, First(ss, d)), d, k - 1, j - 1);
    }
  }

  /** How a call of `addNode` ends: the node is added if the bucket at which the loop stops has room, else dropped. */
  function Ending(ss: seq<Shape>, d: nat, n: Node, k: nat): (bool, seq<Shape>)
    requires First(ss, d) < |ss| && !StillSplitting(ss, d, k)
  {
    var tt := StopTable(ss, d, k);
    var i := First(tt, d);
    if IsFull(tt[i]) then (false, tt) else (true, tt[i := Append(tt[i], d, n)])
  }

  /** Every turn is a step toward the ending, or is the ending. */
  lemma TurnsEnd(ss: seq<Shape>, d: nat, n: Node, k: nat)
    requires First(ss, d) < |ss| && !StillSplitting(ss, d, k)
    ensures var (turn, tt) := TurnOf(ss, d, n);
      if turn == Again then
        k > 0 && First(tt, d) < |tt| && !StillSplitting(tt, d, k - 1) && Ending(tt, d, n, k - 1) == Ending(ss, d, n, k)
      else (turn == Added, tt) == Ending(ss, d, n, k)
  {
    SplitCovers(ss, d);
    hide MaySplit, IsFull;
  }

  lemma EndingSame(ss: seq<Shape>, d: nat, n: Node, k: nat)
    requires First(ss, d) < |ss| && !StillSplitting(ss, d, k)
    ensures forall j: nat | !StillSplitting(ss, d, j) :: Ending(ss, d, n, j) == Ending(ss, d, n, k)
  {
    forall j: nat | !StillSplitting(ss, d, j) ensures Ending(ss, d, n, j) == Ending(ss, d, n, k) {
      StopTableSame(ss, d, k, j);
      hide *;
    }
  }
}
