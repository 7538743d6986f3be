/** The encoder object of bencode/encode.go: it appends to its buffer. */
module Encoder {
  import opened Bytes
  import opened Decimal
  import opened Trees
  import opened Encoding

  class EncodeState {
    var buffer: bytes

    constructor ()
      ensures buffer == []
    {
      buffer := [];
    }

    method WriteByte(c: byte)
      modifies this
      ensures buffer == old(buffer) + [c]
    {
      buffer := buffer + [c];
    }

    method Write(b: bytes)
      modifies this
      ensures buffer == old(buffer) + b
    {
      buffer := buffer + b;
    }

    method EncodeInt(n: int)
      modifies this
      ensures buffer == old(buffer) + Print(TInt(n))
    {
      var b := Itoa(n);
      WriteByte(CHI);
      Write(b);
      WriteByte(CHE);
    }

    method EncodeString(s: bytes)
      modifies this
      ensures buffer == old(buffer) + PrintString(s)
    {
      Write(Digits(|s|));
      WriteByte(COLON);
      Write(s);
    }

    /** `reflectValue` on an int, a string, a list or a map. */
    method EncodeValue(v: Value)
      modifies this
      ensures buffer == old(buffer) + Print(ToTree(v))
      decreases v, 1
    {
      match v
      case Int(n) => EncodeInt(n);
      case Str(s) => EncodeString(s);
      case List(items) => EncodeList(items);
      case Dict(m) => EncodeMap(m);
    }

    /** `arrayEncoder.encode` */
    method EncodeList(items: seq<Value>)
      modifies this
      ensures buffer == old(buffer) + Print(ToTree(List(items)))
      decreases List(items), 0
    {
      WriteByte(CHL);
      ghost var target := buffer + ItemsText(items, 0);
      var n := |items|;
      var i := 0;
      while i < n
        invariant 0 <= i <= n
        invariant buffer + ItemsText(items, i) == target
      {
        NextItem(items, i, buffer);
        EncodeValue(items[i]);
        i := i + 1;
      }
      ItemsDone(items, buffer);
      WriteByte(CHE);
    }

    /** `mapEncoder.encode`: the keys come in any order and are sorted first. */
    method EncodeMap(m: map<bytes, Value>)
      modifies this
      ensures buffer == old(buffer) + Print(ToTree(Dict(m)))
      decreases Dict(m), 0
    {
      hide *;
      WriteByte(CHD);
      var keys := MapKeys(m.Keys);
      keys := SortKeys(keys);
      ghost var target := buffer + EntriesText(m, keys, 0);
      var i := 0;
      while i < |keys|
        invariant 0 <= i <= |keys|
        invariant buffer + EntriesText(m, keys, i) == target
      {
        NextEntry(m, keys, i, buffer);
        EncodeString(keys[i]);
        EncodeValue(m[keys[i]]);
        i := i + 1;
      }
      EntriesDone(m, keys, buffer);
      WriteByte(CHE);
    }
  }

  // What is still to be written of a list, from item `i` on.
  ghost function ItemsText(vs: seq<Value>, i: nat): bytes
    requires i <= |vs|
  {
    PrintItems(ToItems(vs[i..]))
  }

  lemma NextItem(vs: seq<Value>, i: nat, b: bytes)
    requires i < |vs|
    ensures b + ItemsText(vs, i) == (b + Print(ToTree(vs[i]))) + ItemsText(vs, i + 1)
  {
    var rest := vs[i..];
    assert rest[1..] == vs[i + 1..];
    assert ToItems(rest)[1..] == ToItems(rest[1..]);
  }

  lemma ItemsDone(vs: seq<Value>, b: bytes)
    ensures b + ItemsText(vs, |vs|) == b
    ensures [CHL] + (ItemsText(vs, 0) + [CHE]) == Print(ToTree(List(vs)))
  {
    assert vs[0..] == vs;
  }

  ghost function EntriesText(m: map<bytes, Value>, ks: seq<bytes>, i: nat): bytes
    requires i <= |ks| && forall k | k in ks :: k in m
  {
    PrintEntries(ToEntries(Dict(m), ks[i..]))
  }

  lemma NextEntry(m: map<bytes, Value>, ks: seq<bytes>, i: nat, b: bytes)
    requires i < |ks| && forall k | k in ks :: k in m
    ensures b + EntriesText(m, ks, i) ==
            ((b + PrintString(ks[i])) + Print(ToTree(m[ks[i]]))) + EntriesText(m, ks, i + 1)
  {
    var rest := ks[i..];
    assert rest[1..] == ks[i + 1..];
    assert ToEntries(Dict(m), rest)[1..] == ToEntries(Dict(m), rest[1..]);
    var e := ToEntries(Dict(m), rest)[0];
    assert e == Entry(ks[i], ToTree(m[ks[i]]));
    hide PrintString, Print, ToTree, ToEntries;
  }

  lemma EntriesDone(m: map<bytes, Value>, ks: seq<bytes>, b: bytes)
    requires StrictlyIncreasing(ks) && forall k :: k in ks <==> k in m
    ensures b + EntriesText(m, ks, |ks|) == b
    ensures [CHD] + (EntriesText(m, ks, 0) + [CHE]) == Print(ToTree(Dict(m)))
  {
    assert ks[0..] == ks;
    assert m.Keys == set k | k in ks;
    IncreasingIsSorted(ks);
    DictToTree(m, ks);
    hide SortedKeys, ToTree, Less;
  }

  ghost predicate Distinct(ks: seq<bytes>) {
    forall i, j | 0 <= i < j < |ks| :: ks[i] != ks[j]
  }

  /** The keys of a map, each once, in no particular order. */
  method MapKeys(ks: set<bytes>) returns (r: seq<bytes>)
    ensures Distinct(r) && forall k :: k in r <==> k in ks
  {
    r := [];
    var rest := ks;
    while rest != {}
      invariant rest <= ks && Distinct(r)
      invariant forall k :: k in r <==> k in ks && k !in rest
      decreases rest
    {
      var k :| k in rest;
      r := r + [k];
      rest := rest - {k};
    }
  }

  /** Sorts distinct keys by insertion; any other sort gives the same sequence. */
  method SortKeys(ks: seq<bytes>) returns (r: seq<bytes>)
    requires Distinct(ks)
    ensures StrictlyIncreasing(r) && forall k :: k in r <==> k in ks
    ensures forall i, j | 0 <= i < j < |r| :: ComesBefore(r[i], r[j])
  {
    r := [];
    var i := 0;
    while i < |ks|
      invariant 0 <= i <= |ks|
      invariant StrictlyIncreasing(r) && forall k :: k in r <==> k in ks[..i]
    {
      assert ks[..i + 1] == ks[..i] + [ks[i]];
      assert ks[i] !in ks[..i];
      r := Insert(r, ks[i]);
      i := i + 1;
    }
    assert ks[..|ks|] == ks;
    IncreasingExactly(r);
    hide ComesBefore;
  }

  method Insert(r: seq<bytes>, k: bytes) returns (r': seq<bytes>)
    requires StrictlyIncreasing(r) && k !in r
    ensures StrictlyIncreasing(r') && forall j :: j in r' <==> j in r || j == k
  {
    var i := 0;
    while i < |r| && Less(r[i], k)
      invariant 0 <= i <= |r|
      invariant forall j | 0 <= j < i :: Less(r[j], k)
    {
      i := i + 1;
    }
    forall j | i <= j < |r| ensures Less(k, r[j]) {
      LessTrichotomy(k, r[i]);
      if i < j {
        LessTransitive(k, r[i], r[j]);
      }
    }
    r' := r[..i] + [k] + r[i..];
  }

  /** `Marshal` */
  method Marshal(v: Value) returns (b: bytes)
    ensures b == Print(ToTree(v))
  {
    var e := new EncodeState();
    e.EncodeValue(v);
    b := e.buffer;
  }
}
