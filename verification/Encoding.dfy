/** What bencode/encode.go writes for ints, strings, lists and maps. */
module Encoding {
  import opened Bytes
  import opened Decimal
  import opened Trees

  // The order in which the keys of a map are written, however they come out of the map.
  ghost predicate Least(k: bytes, ks: set<bytes>) {
    k in ks && forall k' | k' in ks :: k' == k || Less(k, k')
  }

  lemma {:induction false} LeastExists(ks: set<bytes>) returns (k: bytes)
    requires ks != {}
    ensures Least(k, ks)
    decreases |ks|
  {
    k :| k in ks;
    var rest := ks - {k};
    if rest != {} {
      var k' := LeastExists(rest);
      LessTrichotomy(k, k');
      if Less(k', k) {
        k := k';
      } else {
        forall j | j in ks ensures j == k || Less(k, j) {
          if j != k && j != k' {
            LessTransitive(k, k', j);
          }
        }
      }
    }
  }

  lemma SomeLeast(ks: set<bytes>)
    requires ks != {}
    ensures exists k :: Least(k, ks)
  {
    var k := LeastExists(ks);
  }

  lemma LeastUnique(a: bytes, b: bytes, ks: set<bytes>)
    requires Least(a, ks) && Least(b, ks)
    ensures a == b
  {
    LessTrichotomy(a, b);
  }

  ghost function SortedKeys(ks: set<bytes>): (r: seq<bytes>)
    ensures |r| == |ks|
  {
    if ks == {} then []
    else
      SomeLeast(ks);
      var k :| Least(k, ks);
      [k] + SortedKeys(ks - {k})
  }

  /** A value as the document the encoder writes for it. */
  ghost function ToTree(v: Value): Tree
    decreases v, 1, 0
  {
    match v
    case Int(n) => TInt(n)
    case Str(s) => TStr(s)
    case List(items) => TList(ToItems(items))
    case Dict(m) =>
      SortedKeysIn(m.Keys);
      TDict(ToEntries(v, SortedKeys(m.Keys)))
  }

  ghost function ToItems(vs: seq<Value>): (ts: seq<Tree>)
    ensures |ts| == |vs|
    decreases vs, 0, 0
  {
    if vs == [] then [] else [ToTree(vs[0])] + ToItems(vs[1..])
  }

  ghost function ToEntries(v: Value, ks: seq<bytes>): (es: seq<Entry>)
    requires v.Dict? && forall k | k in ks :: k in v.m
    ensures |es| == |ks| && forall i | 0 <= i < |ks| :: es[i].key == ks[i]
    decreases v, 0, |ks|
  {
    if ks == [] then [] else [Entry(ks[0], ToTree(v.m[ks[0]]))] + ToEntries(v, ks[1..])
  }

  lemma {:induction false} SortedKeysIn(ks: set<bytes>)
    ensures forall k :: k in SortedKeys(ks) <==> k in ks
  {
    if ks != {} {
      var r := SortedKeys(ks);
      SortedKeysIn(ks - {r[0]});
    }
  }

  lemma PrependLess(k: bytes, ks: seq<bytes>)
    requires StrictlyIncreasing(ks) && forall j | j in ks :: Less(k, j)
    ensures StrictlyIncreasing([k] + ks)
  {
    hide Less;
  }

  lemma {:induction false} SortedKeysIncrease(ks: set<bytes>)
    ensures StrictlyIncreasing(SortedKeys(ks))
  {
    if ks != {} {
      var k := SortedKeys(ks)[0];
      var rest := SortedKeys(ks - {k});
      assert SortedKeys(ks) == [k] + rest && Least(k, ks);
      hide SortedKeys, Less, StrictlyIncreasing;
      SortedKeysIncrease(ks - {k});
      SortedKeysIn(ks - {k});
      PrependLess(k, rest);
    }
  }

  lemma SortedHead(ks: set<bytes>, k: bytes)
    requires Least(k, ks)
    ensures SortedKeys(ks) == [k] + SortedKeys(ks - {k})
  {
    var r := SortedKeys(ks)[0];
    LeastUnique(k, r, ks);
  }

  lemma IncreasingHead(s: seq<bytes>)
    requires s != [] && StrictlyIncreasing(s)
    ensures Least(s[0], set k | k in s)
    ensures (set k | k in s) - {s[0]} == set k | k in s[1..]
  {
    forall k | k in s[1..] ensures k != s[0] {
      LessTrichotomy(k, k);
    }
    assert s == [s[0]] + s[1..];
  }

  /** A strictly increasing sequence is the sorted sequence of its elements: sorting has one result. */
  lemma {:induction false} IncreasingIsSorted(s: seq<bytes>)
    requires StrictlyIncreasing(s)
    ensures SortedKeys(set k | k in s) == s
  {
    if s == [] {
      assert (set k | k in s) == {};
    } else {
      IncreasingHead(s);
      SortedHead((set k | k in s), s[0]);
      IncreasingIsSorted(s[1..]);
    }
  }

  // Entries with the keys `ks`, which are those of the map.
  ghost predicate EntriesOf(m: map<bytes, Value>, es: seq<Entry>) {
    && (forall k | k in m :: exists i | 0 <= i < |es| :: es[i].key == k)
    && (forall i | 0 <= i < |es| :: es[i].key in m && es[i].val == ToTree(m[es[i].key]))
    && (forall i, j | 0 <= i < j < |es| :: ComesBefore(es[i].key, es[j].key))
  }

  lemma AreEntriesOf(m: map<bytes, Value>, ks: seq<bytes>, es: seq<Entry>)
    requires |es| == |ks| && forall k :: k in ks <==> k in m
    requires forall i | 0 <= i < |ks| :: es[i] == Entry(ks[i], ToTree(m[ks[i]]))
    requires forall i, j | 0 <= i < j < |ks| :: ComesBefore(ks[i], ks[j])
    ensures EntriesOf(m, es)
  {
    hide ToTree, ComesBefore;
    forall k | k in m ensures exists i | 0 <= i < |es| :: es[i].key == k {
      var i :| 0 <= i < |ks| && ks[i] == k;
      assert es[i].key == k;
    }
  }

  /** The entries written for a map: every key with its own value, in byte-wise order of the keys. */
  lemma EntriesInOrder(m: map<bytes, Value>)
    ensures ToTree(Dict(m)).TDict? && EntriesOf(m, ToTree(Dict(m)).entries)
  {
    hide *;
    var ks := SortedKeys(m.Keys);
    SortedKeysIn(m.Keys);
    SortedKeysIncrease(m.Keys);
    IncreasingExactly(ks);
    EntriesHave(Dict(m), ks);
    DictToTree(m, ks);
    AreEntriesOf(m, ks, ToEntries(Dict(m), ks));
  }

  lemma {:induction false} EntriesHave(v: Value, ks: seq<bytes>)
    requires v.Dict? && forall k | k in ks :: k in v.m
    ensures forall i | 0 <= i < |ks| :: ToEntries(v, ks)[i] == Entry(ks[i], ToTree(v.m[ks[i]]))
  {
    if ks != [] {
      EntriesHave(v, ks[1..]);
    }
  }

  ghost predicate Int64s(v: Value)
    decreases v
  {
    match v
    case Int(n) => IsInt64(n)
    case Str(_) => true
    case List(items) => forall i | 0 <= i < |items| :: Int64s(items[i])
    case Dict(m) => forall k | k in m :: Int64s(m[k])
  }

  /** The encoder's document is strictly written, has no int out of range, and stands for the value. */
  lemma {:induction false} ToTreeDenotes(v: Value)
    requires Int64s(v)
    ensures Strict(ToTree(v)) && !Overflows(ToTree(v)) && Denote(ToTree(v)) == v
    decreases v, 1, 0
  {
    match v
    case Int(n) =>
    case Str(s) =>
    case List(items) =>
      ListTree(items);
      ToItemsDenote(items, []);
      hide *;
    case Dict(m) =>
      KeysToEntries(m);
      DictTree(m);
      ToEntriesDenote(v, SortedKeys(m.Keys), true, map[]);
      hide *;
  }

  lemma ListTree(items: seq<Value>)
    ensures Strict(ToTree(List(items))) == StrictItems(ToItems(items))
    ensures Overflows(ToTree(List(items))) == AnyOverflows(ToItems(items))
    ensures Denote(ToTree(List(items))) == List(DenoteItems(ToItems(items), []))
    ensures [] + items == items
  {
  }

  lemma DictToTree(m: map<bytes, Value>, ks: seq<bytes>)
    requires SortedKeys(m.Keys) == ks && forall k | k in ks :: k in m
    ensures ToTree(Dict(m)) == TDict(ToEntries(Dict(m), ks))
  {
  }

  lemma DictTree(m: map<bytes, Value>)
    requires forall k | k in SortedKeys(m.Keys) :: k in m
    ensures var es := ToEntries(Dict(m), SortedKeys(m.Keys));
      && Strict(ToTree(Dict(m))) == StrictEntries(es, true)
      && Overflows(ToTree(Dict(m))) == AnyEntryOverflows(es)
      && Denote(ToTree(Dict(m))) == Dict(DenoteEntries(es, map[]))
    ensures m == map[] + (map k | k in SortedKeys(m.Keys) :: m[k])
  {
    hide ToTree, ToEntries, SortedKeys, StrictEntries, DenoteEntries, AnyEntryOverflows;
    MapRebuilt(m);
    DictToTree(m, SortedKeys(m.Keys));
  }

  lemma MapRebuilt(m: map<bytes, Value>)
    requires forall k | k in SortedKeys(m.Keys) :: k in m
    ensures m == map[] + (map k | k in SortedKeys(m.Keys) :: m[k])
  {
    SortedKeysIn(m.Keys);
    hide SortedKeys;
  }

  lemma KeysToEntries(m: map<bytes, Value>)
    ensures forall k :: k in SortedKeys(m.Keys) <==> k in m
    ensures forall i | 1 <= i < |SortedKeys(m.Keys)| :: SortedKeys(m.Keys)[i] != []
  {
    SortedKeysIn(m.Keys);
    SortedKeysIncrease(m.Keys);
    LaterKeysNonempty(SortedKeys(m.Keys));
  }

  lemma ItemsCons(t: Tree, ts: seq<Tree>, acc: seq<Value>)
    ensures StrictItems([t] + ts) == (Strict(t) && StrictItems(ts))
    ensures AnyOverflows([t] + ts) == (Overflows(t) || AnyOverflows(ts))
    ensures DenoteItems([t] + ts, acc) == DenoteItems(ts, acc + [Denote(t)])
  {
    assert ([t] + ts)[1..] == ts;
  }

  lemma {:induction false} ToItemsDenote(vs: seq<Value>, acc: seq<Value>)
    requires forall i | 0 <= i < |vs| :: Int64s(vs[i])
    ensures StrictItems(ToItems(vs)) && !AnyOverflows(ToItems(vs)) && DenoteItems(ToItems(vs), acc) == acc + vs
    decreases vs, 0, 0
  {
    if vs != [] {
      ItemsCons(ToTree(vs[0]), ToItems(vs[1..]), acc);
      ToTreeDenotes(vs[0]);
      ToItemsDenote(vs[1..], acc + [vs[0]]);
      assert acc + [vs[0]] + vs[1..] == acc + vs;
      hide ToTree, StrictItems, AnyOverflows, DenoteItems, Strict, Denote, Overflows;
    }
  }

  // Only the first of increasing keys can be the empty string.
  lemma LaterKeysNonempty(ks: seq<bytes>)
    requires StrictlyIncreasing(ks)
    ensures forall i | 1 <= i < |ks| :: ks[i] != []
  {
    forall i | 1 <= i < |ks| ensures ks[i] != [] {
      assert Less(ks[0], ks[i]);
    }
  }

  lemma {:induction false} ToEntriesDenote(v: Value, ks: seq<bytes>, first: bool, acc: map<bytes, Value>)
    requires v.Dict? && Int64s(v) && forall k | k in ks :: k in v.m
    requires forall i | 0 <= i < |ks| :: (i == 0 && first) || ks[i] != []
    ensures StrictEntries(ToEntries(v, ks), first) && !AnyEntryOverflows(ToEntries(v, ks))
    ensures DenoteEntries(ToEntries(v, ks), acc) == acc + map k | k in ks :: v.m[k]
    decreases v, 0, |ks|
  {
    if ks != [] {
      var k, es := ks[0], ToEntries(v, ks);
      ToTreeDenotes(v.m[k]);
      ToEntriesDenote(v, ks[1..], false, acc[k := v.m[k]]);
      assert es[1..] == ToEntries(v, ks[1..]);
      MapOf(v.m, ks, acc);
    }
  }

  lemma MapOf(m: map<bytes, Value>, ks: seq<bytes>, acc: map<bytes, Value>)
    requires ks != [] && forall k | k in ks :: k in m
    ensures acc[ks[0] := m[ks[0]]] + (map k | k in ks[1..] :: m[k]) == acc + map k | k in ks :: m[k]
  {
    assert ks == [ks[0]] + ks[1..];
  }
}
