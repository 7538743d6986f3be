/** Canonical documents: the ones the encoder writes. Encoding undoes decoding on them. */
module Canonical {
  import opened Bytes
  import opened Decimal
  import opened Trees
  import opened Encoding

  function Keys(es: seq<Entry>): (ks: seq<bytes>)
    ensures |ks| == |es| && forall i | 0 <= i < |es| :: ks[i] == es[i].key
  {
    if es == [] then [] else [es[0].key] + Keys(es[1..])
  }

  /** Every int fits in 64 bits and the keys of every dictionary strictly increase. */
  ghost predicate IsCanonical(t: Tree)
    decreases t
  {
    match t
    case TInt(n) => IsInt64(n)
    case TStr(_) => true
    case TList(items) => forall i | 0 <= i < |items| :: IsCanonical(items[i])
    case TDict(es) => StrictlyIncreasing(Keys(es)) && forall i | 0 <= i < |es| :: IsCanonical(es[i].val)
  }

  lemma {:induction false} Untouched(es: seq<Entry>, acc: map<bytes, Value>, k: bytes)
    requires k in acc && k !in Keys(es)
    ensures k in DenoteEntries(es, acc) && DenoteEntries(es, acc)[k] == acc[k]
  {
    if es != [] {
      assert Keys(es)[0] == es[0].key;
      Untouched(es[1..], acc[es[0].key := Denote(es[0].val)], k);
    }
  }

  lemma {:induction false} DenotedKeys(es: seq<Entry>, acc: map<bytes, Value>)
    ensures DenoteEntries(es, acc).Keys == acc.Keys + set k | k in Keys(es)
  {
    if es != [] {
      DenotedKeys(es[1..], acc[es[0].key := Denote(es[0].val)]);
    }
  }

  lemma {:induction false} DenotedAt(es: seq<Entry>, acc: map<bytes, Value>, i: nat)
    requires i < |es| && StrictlyIncreasing(Keys(es))
    ensures es[i].key in DenoteEntries(es, acc) && DenoteEntries(es, acc)[es[i].key] == Denote(es[i].val)
  {
    var ks := Keys(es);
    var acc' := acc[es[0].key := Denote(es[0].val)];
    assert ks[1..] == Keys(es[1..]);
    if i == 0 {
      forall k | k in ks[1..] ensures k != ks[0] {
        LessTrichotomy(k, k);
      }
      Untouched(es[1..], acc', es[0].key);
    } else {
      DenotedAt(es[1..], acc', i - 1);
    }
  }

  /** Of entries with one key the last gives the value, in any order and at any number. */
  lemma {:induction false} LastEntryWins(es: seq<Entry>, acc: map<bytes, Value>, i: nat)
    requires i < |es| && forall j | i < j < |es| :: es[j].key != es[i].key
    ensures es[i].key in DenoteEntries(es, acc) && DenoteEntries(es, acc)[es[i].key] == Denote(es[i].val)
  {
    var acc' := acc[es[0].key := Denote(es[0].val)];
    if i == 0 {
      assert forall j | 0 <= j < |es[1..]| :: es[1..][j] == es[j + 1];
      Untouched(es[1..], acc', es[0].key);
    } else {
      LastEntryWins(es[1..], acc', i - 1);
    }
  }

  /** A list has its items' values, in order. */
  lemma {:induction false} DenotedItem(ts: seq<Tree>, acc: seq<Value>, i: nat)
    requires i < |acc| + |ts|
    ensures DenoteItems(ts, acc)[i] == if i < |acc| then acc[i] else Denote(ts[i - |acc|])
    decreases |ts|
  {
    if ts != [] {
      DenotedItem(ts[1..], acc + [Denote(ts[0])], i);
    }
  }

  lemma {:induction false} ToItemsSnoc(vs: seq<Value>, v: Value)
    ensures ToItems(vs + [v]) == ToItems(vs) + [ToTree(v)]
  {
    if vs != [] {
      assert (vs + [v])[1..] == vs[1..] + [v];
      ToItemsSnoc(vs[1..], v);
    } else {
      assert vs + [v] == [v];
    }
  }

  /** The encoder's document for the value of a canonical document is that document. */
  lemma {:induction false} CanonicalRebuilds(t: Tree)
    requires IsCanonical(t)
    ensures ToTree(Denote(t)) == t
    decreases t, 0
  {
    match t
    case TInt(_) =>
    case TStr(_) =>
    case TList(items) => ItemsRebuild(items, []);
    case TDict(es) =>
      forall i | 0 <= i < |es| ensures ToTree(Denote(es[i].val)) == es[i].val {
        CanonicalRebuilds(es[i].val);
      }
      DictRebuilds(es);
  }

  lemma {:induction false} ItemsRebuild(ts: seq<Tree>, acc: seq<Value>)
    requires forall i | 0 <= i < |ts| :: IsCanonical(ts[i])
    ensures ToItems(DenoteItems(ts, acc)) == ToItems(acc) + ts
    decreases ts, 0
  {
    if ts != [] {
      var v := Denote(ts[0]);
      CanonicalRebuilds(ts[0]);
      ItemsRebuild(ts[1..], acc + [v]);
      ToItemsSnoc(acc, v);
      assert ToItems(acc) + [ts[0]] + ts[1..] == ToItems(acc) + ts;
      hide ToItems, Denote, ToTree;
    }
  }

  lemma {:induction false} EntriesRebuild(v: Value, es: seq<Entry>)
    requires v.Dict? && forall i | 0 <= i < |es| :: es[i].key in v.m && ToTree(v.m[es[i].key]) == es[i].val
    ensures (forall k | k in Keys(es) :: k in v.m) && ToEntries(v, Keys(es)) == es
  {
    if es != [] {
      EntriesRebuild(v, es[1..]);
      assert es[0] == Entry(es[0].key, ToTree(v.m[es[0].key]));
    }
  }

  lemma DictRebuilds(es: seq<Entry>)
    requires StrictlyIncreasing(Keys(es)) && forall i | 0 <= i < |es| :: ToTree(Denote(es[i].val)) == es[i].val
    ensures ToTree(Denote(TDict(es))) == TDict(es)
  {
    hide *;
    var m := DenoteEntries(es, map[]);
    DenotedSorted(es);
    DenotedAll(es);
    EntriesRebuild(Dict(m), es);
    DictToTree(m, Keys(es));
    UnfoldDict(es);
  }

  lemma UnfoldDict(es: seq<Entry>)
    ensures Denote(TDict(es)) == Dict(DenoteEntries(es, map[]))
  {
  }

  lemma DenotedSorted(es: seq<Entry>)
    requires StrictlyIncreasing(Keys(es))
    ensures SortedKeys(DenoteEntries(es, map[]).Keys) == Keys(es)
  {
    var m: map<bytes, Value> := map[];
    DenotedKeys(es, m);
    assert m.Keys == {};
    assert DenoteEntries(es, m).Keys == set k | k in Keys(es);
    IncreasingIsSorted(Keys(es));
  }

  lemma DenotedAll(es: seq<Entry>)
    requires StrictlyIncreasing(Keys(es)) && forall i | 0 <= i < |es| :: ToTree(Denote(es[i].val)) == es[i].val
    ensures var m := DenoteEntries(es, map[]);
      forall i | 0 <= i < |es| :: es[i].key in m && ToTree(m[es[i].key]) == es[i].val
  {
    hide *;
    var m := DenoteEntries(es, map[]);
    forall i | 0 <= i < |es| ensures es[i].key in m && m[es[i].key] == Denote(es[i].val) {
      DenotedAt(es, map[], i);
    }
  }

  /** A canonical document is strictly written and none of its ints overflows. */
  lemma {:induction false} CanonicalIsStrict(t: Tree)
    requires IsCanonical(t)
    ensures Strict(t) && !Overflows(t)
    decreases t, 0
  {
    match t
    case TInt(_) =>
    case TStr(_) =>
    case TList(items) => ItemsAreStrict(items);
    case TDict(es) =>
      LaterKeysNonempty(Keys(es));
      EntriesAreStrict(es, true);
  }

  lemma {:induction false} ItemsAreStrict(ts: seq<Tree>)
    requires forall i | 0 <= i < |ts| :: IsCanonical(ts[i])
    ensures StrictItems(ts) && !AnyOverflows(ts)
    decreases ts, 0
  {
    if ts != [] {
      CanonicalIsStrict(ts[0]);
      ItemsAreStrict(ts[1..]);
    }
  }

  lemma {:induction false} EntriesAreStrict(es: seq<Entry>, first: bool)
    requires forall i | 0 <= i < |es| :: IsCanonical(es[i].val) && ((first && i == 0) || es[i].key != [])
    ensures StrictEntries(es, first) && !AnyEntryOverflows(es)
    decreases es, 0
  {
    if es != [] {
      CanonicalIsStrict(es[0].val);
      EntriesAreStrict(es[1..], false);
    }
  }

  /** The encoder writes canonical documents only: sorting the keys of a map makes them strictly increase. */
  lemma {:induction false} EncodedIsCanonical(v: Value)
    requires Int64s(v)
    ensures IsCanonical(ToTree(v))
    decreases v, 1, 0
  {
    match v
    case Int(_) =>
    case Str(_) =>
    case List(items) => EncodedItemsCanonical(items);
    case Dict(m) =>
      var ks := SortedKeys(m.Keys);
      SortedKeysIn(m.Keys);
      SortedKeysIncrease(m.Keys);
      EncodedEntriesCanonical(v, ks);
      assert Keys(ToEntries(v, ks)) == ks;
  }

  lemma {:induction false} EncodedItemsCanonical(vs: seq<Value>)
    requires forall i | 0 <= i < |vs| :: Int64s(vs[i])
    ensures forall i | 0 <= i < |vs| :: IsCanonical(ToItems(vs)[i])
    decreases vs, 0, 0
  {
    if vs != [] {
      EncodedIsCanonical(vs[0]);
      EncodedItemsCanonical(vs[1..]);
    }
  }

  lemma {:induction false} EncodedEntriesCanonical(v: Value, ks: seq<bytes>)
    requires v.Dict? && Int64s(v) && forall k | k in ks :: k in v.m
    ensures forall i | 0 <= i < |ks| :: IsCanonical(ToEntries(v, ks)[i].val)
    decreases v, 0, |ks|
  {
    if ks != [] {
      EncodedIsCanonical(v.m[ks[0]]);
      EncodedEntriesCanonical(v, ks[1..]);
    }
  }
}
