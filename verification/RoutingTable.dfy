/** The routing table of dht/table.go: buckets that split in place, into ranges that overlap. */
module RoutingTable {
  import opened Distance
  import opened Splitting

  class Bucket {
    var nodes: NodeLists
    var count: nat
    var begin: nat
    var end: nat

    ghost predicate Valid()
      reads this
    {
      ListsOk(nodes) && count == Total(nodes) && count <= BUCKETNUM
    }

    function View(): Shape
      reads this
    {
      Shape(begin, end, nodes)
    }

    constructor (begin: nat, end: nat)
      ensures Valid() && nodes == map[] && count == 0 && this.begin == begin && this.end == end
    {
      nodes, count := map[], 0;
      this.begin, this.end := begin, end;
      new;
      EmptySum(MAXDISTANCE + 1);
    }

    predicate Full()
      reads this
    {
      count == BUCKETNUM
    }

    method AddNode(d: nat, n: Node) returns (ok: bool)
      requires Valid() && d <= MAXDISTANCE
      modifies this`nodes, this`count
      ensures Valid()
      ensures ok <==> old(!Full() && Covers(View(), d))
      ensures ok ==> nodes == old(nodes)[d := (if d in old(nodes) then old(nodes[d]) else []) + [n]]
      ensures ok ==> count == old(count) + 1
      ensures !ok ==> nodes == old(nodes) && count == old(count)
    {
      if Full() {
        return false;
      }
      if d < begin || d > end {
        return false;
      }
      ghost var was := nodes;
      var list := if d in nodes then nodes[d] else [];
      SumUpdate(was, d, list + [n], MAXDISTANCE + 1);
      nodes := nodes[d := list + [n]];
      count := count + 1;
      return true;
    }

    /**
     * `split`: the upper half of the range goes to a new bucket, with copies of the lists that lie in it. The
     * new bucket takes every node it is given, and the old one drops none.
     */
    method Split() returns (nb: Bucket?)
      requires Valid()
      modifies this`end
      ensures Valid()
      ensures nb == null <==> !MaySplit(begin, old(end))
      ensures nb == null ==> end == old(end)
      ensures nb != null ==>
        && fresh(nb) && nb.Valid() && end == old(end) / 2
        && nb.begin == old(end) / 2 && nb.end == old(end) && nb.nodes == Moved(nodes, old(end))
    {
      hide Grow, Shift, MaySplit, Total, ListsOk, Moved;
      MaySplitExactly(begin, end);
      var max, i := 0, begin;
      while i <= end && max < BUCKETNUM
        invariant end == old(end) && Grow(i, end, max) == Grow(begin, end, 0)
        decreases if i <= end then end - i + 1 else 0
      {
        GrowStep(i, end, max);
        max := max + Shift(i);
        i := i + 1;
      }
      GrowStep(i, end, max);
      if max < BUCKETNUM {
        return null;
      }
      var b := new Bucket(end / 2, end);
      ghost var oldEnd := end;
      end := end / 2;
      var ds := nodes.Keys;
      while ds != {}
        invariant end == oldEnd / 2
        invariant ds <= nodes.Keys && b.Valid() && fresh(b) && b.begin == end && b.end == oldEnd
        invariant forall d :: d in b.nodes <==> d in nodes && d !in ds && end < d <= oldEnd
        invariant forall d | d in b.nodes :: b.nodes[d] == nodes[d]
        decreases ds
      {
        var d :| d in ds;
        if d > end {
          b.CopyList(d, nodes[d], nodes, count);
        }
        ds := ds - {d};
      }
      MovedIs(nodes, oldEnd, b.nodes);
      return b;
    }

    // The inner loop of `split`: every node of one list is added, or none if the distance is out of range.
    method CopyList(d: nat, list: seq<Node>, ghost whole: NodeLists, ghost limit: nat)
      requires Valid() && d !in nodes && d in whole && whole[d] == list && ListsOk(whole)
      requires forall k | k in nodes :: k in whole && nodes[k] == whole[k]
      requires limit == Total(whole) <= BUCKETNUM
      modifies this`nodes, this`count
      ensures Valid()
      ensures nodes == if Covers(View(), d) then old(nodes)[d := list] else old(nodes)
    {
      var i := 0;
      while i < |list|
        invariant 0 <= i <= |list| && Valid()
        invariant nodes == if Covers(View(), d) && i > 0 then old(nodes)[d := list[..i]] else old(nodes)
      {
        SumBelow(nodes, whole, MAXDISTANCE + 1);
        assert Listed(nodes, d) <= i < Listed(whole, d);
        var _ := AddNode(d, list[i]);
        assert list[..i] + [list[i]] == list[..i + 1];
        i := i + 1;
      }
      assert list[..|list|] == list;
    }
  }

  /** The buckets as values. */
  ghost function ShapesOf(bs: seq<Bucket>): (ss: seq<Shape>)
    reads bs
    ensures |ss| == |bs| && forall i | 0 <= i < |bs| :: ss[i] == bs[i].View()
  {
    if bs == [] then [] else [bs[0].View()] + ShapesOf(bs[1..])
  }

  lemma {:induction false} ShapesAre(bs: seq<Bucket>, ss: seq<Shape>)
    requires |bs| == |ss| && forall i | 0 <= i < |bs| :: bs[i].View() == ss[i]
    ensures ShapesOf(bs) == ss
  {
  }

  lemma SplitAtIs(ss: seq<Shape>, i: nat)
    requires i < |ss|
    ensures |SplitAt(ss, i)| == |ss| + 1
    ensures forall j | 0 <= j < |ss| :: SplitAt(ss, i)[j] == if j == i then ss[i].(end := ss[i].end / 2) else ss[j]
    ensures SplitAt(ss, i)[|ss|] == Shape(ss[i].end / 2, ss[i].end, Moved(ss[i].nodes, ss[i].end))
  {
  }

  lemma IsAppend(s: Shape, t: Shape, d: nat, n: Node)
    requires t.begin == s.begin && t.end == s.end
    requires t.nodes == s.nodes[d := (if d in s.nodes then s.nodes[d] else []) + [n]]
    ensures t == Append(s, d, n)
  {
  }

  class Table {
    const own: Node
    var count: nat
    var buckets: seq<Bucket>
    // The nodes accepted so far with their distances, the own node first.
    ghost var accepted: seq<(nat, Node)>

    ghost function Shapes(): seq<Shape>
      reads this, buckets
    {
      ShapesOf(buckets)
    }

    /** Every distance has a bucket, and every accepted node is in a bucket whose range has its distance. */
    ghost predicate Valid()
      reads this, buckets
    {
      && (forall i, j | 0 <= i < j < |buckets| :: buckets[i] != buckets[j])
      && (forall b | b in buckets :: b.Valid())
      && Complete(Shapes(), accepted)
      && |accepted| == count + 1
    }

    constructor (own: Node)
      ensures Valid() && this.own == own && count == 0 && accepted == [(0, own)]
      ensures |buckets| == 1 && fresh(buckets[0]) && Shapes() == [Shape(0, MAXDISTANCE, map[0 := [own]])]
    {
      var b := new Bucket(0, MAXDISTANCE);
      hide Complete;
      ghost var none: seq<Node> := [];
      var _ := b.AddNode(0, own);
      assert b.nodes == map[0 := none + [own]] && none + [own] == [own];
      this.own := own;
      count := 0;
      buckets := [b];
      accepted := [(0, own)];
      new;
      assert Shapes() == [b.View()];
      NewComplete(own);
    }

    /** `findBucket`: the first bucket whose range has the distance. */
    method FindBucket(d: nat) returns (i: nat)
      requires Valid() && d <= MAXDISTANCE
      ensures i < |buckets| && Covers(buckets[i].View(), d)
      ensures forall j | 0 <= j < i :: !Covers(buckets[j].View(), d)
    {
      assert CoveredBy(Shapes(), d);
      ghost var k :| 0 <= k < |buckets| && Covers(Shapes()[k], d);
      i := 0;
      while !Covers(buckets[i].View(), d)
        invariant 0 <= i <= k && forall j | 0 <= j < i :: !Covers(buckets[j].View(), d)
        decreases k - i
      {
        i := i + 1;
      }
    }

    lemma Unfold()
      requires Valid()
      ensures forall i, j | 0 <= i < j < |buckets| :: buckets[i] != buckets[j]
      ensures forall i | 0 <= i < |buckets| :: buckets[i].Valid() && Shapes()[i] == buckets[i].View()
      ensures |Shapes()| == |buckets| && Complete(Shapes(), accepted) && |accepted| == count + 1
      ensures forall i | 0 <= i < |buckets| :: buckets[i].Full() == IsFull(Shapes()[i])
    {
      forall i | 0 <= i < |buckets| ensures buckets[i].Valid() {
        assert buckets[i] in buckets;
      }
      hide Complete, SumTo;
    }

    lemma Fold()
      requires forall i, j | 0 <= i < j < |buckets| :: buckets[i] != buckets[j]
      requires forall i | 0 <= i < |buckets| :: buckets[i].Valid()
      requires Complete(Shapes(), accepted) && |accepted| == count + 1
      ensures Valid()
    {
      hide Complete, SumTo;
    }

    /** Splits bucket `i` in place; no accepted node is lost, whatever the ranges. */
    method SplitBucket(i: nat) returns (ok: bool)
      requires Valid() && i < |buckets|
      modifies this`buckets, buckets
      ensures Valid() && accepted == old(accepted) && count == old(count)
      ensures ok <==> old(MaySplit(buckets[i].begin, buckets[i].end))
      ensures |buckets| == |old(buckets)| + (if ok then 1 else 0) && old(buckets) <= buckets
      ensures forall b | b in buckets :: b in old(buckets) || fresh(b)
      ensures Shapes() == if ok then SplitAt(old(Shapes()), i) else old(Shapes())
    {
      hide Valid, Bucket.Valid, ShapesOf, Complete, MaySplit, SplitAt, Moved, IsFull;
      ghost var ss := Shapes();
      Unfold();
      SplitKeepsAll(ss, i, accepted);
      SplitAtIs(ss, i);
      var b := buckets[i];
      var nb := b.Split();
      if nb == null {
        ShapesAre(buckets, ss);
        Fold();
        return false;
      }
      buckets := buckets + [nb];
      ShapesAre(buckets, SplitAt(ss, i));
      Fold();
      return true;
    }

    ghost function Distance(n: Node): nat {
      Hamming(own.id, n.id)
    }

    lemma ValidShapes(d: nat)
      requires Valid() && d <= MAXDISTANCE
      ensures ShapesOk(Shapes()) && First(Shapes(), d) < |Shapes()|
    {
      assert CoveredBy(Shapes(), d);
      forall i | 0 <= i < |buckets| ensures ListsOk(Shapes()[i].nodes) {
        assert buckets[i] in buckets;
      }
      hide MaySplit, SumTo;
    }

    lemma DistanceIs(n: Node)
      ensures Distance(n) == Hamming(own.id, n.id) <= MAXDISTANCE
    {
      IsMetric(own.id, n.id, n.id);
    }

    // The bucket found is the one that the specification finds.
    lemma FirstBucket(d: nat, i: nat)
      requires Valid() && i < |buckets| && Covers(buckets[i].View(), d)
      requires forall j | 0 <= j < i :: !Covers(buckets[j].View(), d)
      ensures |Shapes()| == |buckets| && First(Shapes(), d) == i
      ensures buckets[i].Full() == IsFull(Shapes()[i])
      ensures MaySplit(buckets[i].begin, buckets[i].end) == MaySplit(Shapes()[i].begin, Shapes()[i].end)
    {
      FirstIs(Shapes(), d, i);
      assert buckets[i] in buckets;
      hide First, MaySplit, SumTo;
    }

    /**
     * One turn of `addNode`'s loop. A full bucket is split, or the node is dropped; otherwise the node is added.
     */
    method AddTurn(n: Node) returns (turn: Turn)
      requires Valid()
      modifies this, buckets
      ensures Valid() && old(accepted) <= accepted && Distance(n) <= MAXDISTANCE
      ensures turn == Added ==> accepted == old(accepted) + [(Distance(n), n)] && count == old(count) + 1
      ensures turn != Added ==> accepted == old(accepted) && count == old(count)
      ensures forall b | b in buckets :: b in old(buckets) || fresh(b)
      ensures old(First(Shapes(), Distance(n)) < |Shapes()|)
      ensures (turn, Shapes()) == TurnOf(old(Shapes()), Distance(n), n)
    {
      hide *;
      var d := ComputeDistance(own.id, n.id);
      DistanceIs(n);
      ghost var ss := Shapes();
      ValidShapes(d);
      var i := FindBucket(d);
      FirstBucket(d, i);
      TurnIs(ss, d, n, i);
      if buckets[i].Full() {
        var ok := SplitBucket(i);
        return if ok then Again else Dropped;
      }
      Accept(i, d, n);
      return Added;
    }

    // The end of `addNode`: a bucket with room takes the node.
    method Accept(i: nat, d: nat, n: Node)
      requires Valid() && i < |buckets| && Covers(buckets[i].View(), d) && !buckets[i].Full() && d <= MAXDISTANCE
      modifies this`count, this`accepted, buckets
      ensures Valid() && accepted == old(accepted) + [(d, n)] && count == old(count) + 1
      ensures buckets == old(buckets)
      ensures Shapes() == old(Shapes())[i := Append(old(Shapes())[i], d, n)]
    {
      hide Valid, Bucket.Valid, ShapesOf, Complete, Append, Covers, IsFull;
      ghost var ss := Shapes();
      Unfold();
      AppendKeepsAll(ss, i, d, n, accepted);
      var b := buckets[i];
      var _ := b.AddNode(d, n);
      count := count + 1;
      accepted := accepted + [(d, n)];
      assert b.View() == Append(ss[i], d, n) by {
        IsAppend(ss[i], b.View(), d, n);
      }
      ShapesAre(buckets, ss[i := Append(ss[i], d, n)]);
      Fold();
    }

    lemma TurnsLeft(n: Node) returns (k: nat)
      requires Valid() && !AllForever(Shapes(), Distance(n))
      ensures First(Shapes(), Distance(n)) < |Shapes()| && !StillSplitting(Shapes(), Distance(n), k)
    {
      var d := Distance(n);
      IsMetric(own.id, n.id, n.id);
      ValidShapes(d);
      var p :| 0 <= p < |Shapes()| && Covers(Shapes()[p], d) && !Forever(Shapes()[p], d);
      hide *;
      k := Stops(Shapes(), d, p);
    }

    /** `addNode`, except where its loop never ends: there every bucket that has the distance is Forever. */
    method AddNode(n: Node) returns (added: bool)
      requires Valid() && !AllForever(Shapes(), Distance(n))
      modifies this, buckets
      ensures Valid()
      ensures accepted == old(accepted) + if added then [(Distance(n), n)] else []
      ensures old(First(Shapes(), Distance(n)) < |Shapes()|)
      ensures forall k: nat | !old(StillSplitting(Shapes(), Distance(n), k)) ::
                (added, Shapes()) == Ending(old(Shapes()), Distance(n), n, k)
    {
      hide *;
      ghost var d := Distance(n);
      IsMetric(own.id, n.id, n.id);
      ghost var k := TurnsLeft(n);
      EndingSame(Shapes(), d, n, k);
      ghost var ending := Ending(Shapes(), d, n, k);
      var turn := Again;
      while turn == Again
        invariant Valid() && forall i | 0 <= i < |buckets| :: buckets[i] in old(buckets) || fresh(buckets[i])
        invariant accepted == old(accepted) + if turn == Added then [(d, n)] else []
        invariant turn == Again ==>
                    First(Shapes(), d) < |Shapes()| && !StillSplitting(Shapes(), d, k) &&
                    Ending(Shapes(), d, n, k) == ending
        invariant turn != Again ==> (turn == Added, Shapes()) == ending
        decreases turn == Again, k
      {
        ghost var before, ss := buckets, Shapes();
        assert forall b | b in before :: b in old(buckets) || fresh(b);
        turn := AddTurn(n);
        assert forall b | b in buckets :: b in before || fresh(b);
        TurnsEnd(ss, d, n, k);
        k := k - if turn == Again then 1 else 0;
      }
      added := turn == Added;
    }
  }

  lemma TurnIs(ss: seq<Shape>, d: nat, n: Node, i: nat)
    requires i < |ss| && First(ss, d) == i
    ensures !IsFull(ss[i]) ==> TurnOf(ss, d, n) == (Added, ss[i := Append(ss[i], d, n)])
    ensures IsFull(ss[i]) ==>
      TurnOf(ss, d, n) == if MaySplit(ss[i].begin, ss[i].end) then (Again, SplitAt(ss, i)) else (Dropped, ss)
  {
    hide First, MaySplit, IsFull, Append, SplitAt;
  }
}
