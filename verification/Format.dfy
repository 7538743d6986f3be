/** The bencode format byte by byte, with every byte of it written as a number. */
module Format {
  import opened Bytes
  import opened Decimal
  import opened Validity
  import opened Grammar
  import opened GrammarProofs
  import opened Trees
  import opened StrictDocuments
  import opened Decoding
  import opened Encoding
  import opened Descent
  import opened Exactness
  import opened Codec

  /** What is written for each kind of document: `i`, `l`, `d`, `e` and `:`, and a minus sign. */
  lemma PrintIs(t: Tree)
    ensures t.TInt? ==> Print(t) == [105] + (if t.n < 0 then [45] + Digits(-t.n) else Digits(t.n)) + [101]
    ensures t.TStr? ==> Print(t) == Digits(|t.s|) + [58] + t.s
    ensures t.TList? ==> Print(t) == [108] + PrintItems(t.items) + [101]
    ensures t.TDict? ==> Print(t) == [100] + PrintEntries(t.entries) + [101]
  {
    hide Digits;
  }

  /** A key as a string, and the text of its value. */
  function Keyed(key: bytes, text: bytes): bytes {
    Digits(|key|) + [58] + key + text
  }

  /** Items one after the other, and entries, each key as a string before its value. */
  lemma PartsAre(ts: seq<Tree>, es: seq<Entry>)
    ensures PrintItems(ts) == if ts == [] then [] else Print(ts[0]) + PrintItems(ts[1..])
    ensures PrintEntries(es) ==
            if es == [] then []
            else Keyed(es[0].key, Print(es[0].val)) + PrintEntries(es[1..])
  {
    hide Print, Digits;
  }

  /** The first byte of an input decides what can be stored for it. */
  lemma FirstByteDecides(data: bytes)
    requires Unmarshal(data).Stored?
    ensures data != []
    ensures match Unmarshal(data).val
      case Some(Dict(_)) => data[0] == 100
      case Some(List(_)) => data[0] == 108
      case Some(Int(_)) => data[0] == 105 && !Unmarshal(data).err
      case Some(Str(_)) => 48 <= data[0] <= 57 && !Unmarshal(data).err
      case None => data[0] == 105 && Unmarshal(data).err
  {
    UnmarshalExactly(data);
    hide Unmarshal, ItemAt, IntAt, StringAt, ItemsAt, EntriesAt, TopString, BlankEvery, HeadFrom, EmptyStringThenSpace;
    DocumentBegins(data);
  }

  lemma DocumentBegins(data: bytes)
    requires Document(data)
    ensures data != [] && (data[0] in {100, 105, 108} || 48 <= data[0] <= 57)
  {
    hide FirstKey, ListFrom, IntFrom, StringFrom, BlankEvery, HeadFrom;
  }

  lemma BlanksEnd(data: bytes, j: nat)
    requires j <= |data|
    ensures BlankEvery(data, j, 1) <==> forall k | j <= k < |data| :: data[k] in {32, 9, 13, 10, 0}
  {
    BlankEveryByte(data, j);
    hide BlankEvery;
  }

  lemma PrintBegins(t: Tree)
    requires !t.TStr?
    ensures Print(t)[0] in {100, 105, 108}
  {
    hide Digits;
  }

  // A document that is no string, with bytes after it.
  lemma DocumentThenBytes(t: Tree, rest: bytes)
    requires Strict(t) && !t.TStr?
    ensures Document(Print(t) + rest) <==> forall k | 0 <= k < |rest| :: rest[k] in {32, 9, 13, 10, 0}
  {
    hide Print, Strict, ItemAt, HeadFrom, BlankEvery, Digits, StringFrom;
    var data := Print(t) + rest;
    assert Occurs(data, 0, Print(t));
    hide Occurs, Strict, ItemAt, HeadFrom, BlankEvery, Digits;
    TreeReads(data, 0, t);
    StrictHead(data, t);
    BlanksEnd(data, |Print(t)|);
    BlanksOf(Print(t), rest);
  }

  lemma BlanksOf(a: bytes, rest: bytes)
    ensures (forall k | |a| <= k < |a + rest| :: (a + rest)[k] in {32, 9, 13, 10, 0}) <==>
            forall k | 0 <= k < |rest| :: rest[k] in {32, 9, 13, 10, 0}
  {
    var data := a + rest;
    if forall k | |a| <= k < |data| :: data[k] in {32, 9, 13, 10, 0} {
      forall k | 0 <= k < |rest| ensures rest[k] in {32, 9, 13, 10, 0} {
        assert data[|a| + k] == rest[k];
      }
    }
  }

  /**
   * A document that is no string may be followed by blanks, tabs, line ends and zero bytes, and by nothing else; they
   * change nothing.
   */
  lemma BlanksAfter(t: Tree, rest: bytes)
    requires Strict(t) && !t.TStr?
    ensures Unmarshal(Print(t) + rest) ==
            if forall k | 0 <= k < |rest| :: rest[k] in {32, 9, 13, 10, 0}
            then Stored(TopDenote(t), Overflows(t)) else Rejected
  {
    var data := Print(t) + rest;
    assert Occurs(data, 0, Print(t));
    hide Print, Occurs, Strict, Document, Unmarshal, TopDenote, Overflows, Decode;
    DocumentThenBytes(t, rest);
    PrintBegins(t);
    AcceptExactly(data);
    LoopExactly(data);
    UnmarshalExactly(data);
    if Document(data) {
      UnmarshalLock(data, t);
    }
  }

  lemma DigitsUpTo(data: bytes, i: nat, j: nat)
    requires DigitsFrom(data, i) == Got(j)
    ensures i < j <= |data| && data[j - 1] == 101 && AllDigits(data[i..j - 1])
    decreases |data| - i
  {
    if IsDigit(data[i]) {
      DigitsUpTo(data, i + 1, j);
      assert data[i..j - 1] == [data[i]] + data[i + 1..j - 1];
    }
  }

  lemma NatIs(data: bytes, i: nat, j: nat) returns (n: nat)
    requires NonZeroDigitAt(data, i) && DigitsFrom(data, i + 1) == Got(j)
    ensures i + 1 < j <= |data| && data[j - 1] == 101 && n > 0 && data[i..j - 1] == Digits(n)
  {
    DigitsUpTo(data, i + 1, j);
    hide DigitsFrom, Digits;
    var ds := data[i..j - 1];
    assert ds == [data[i]] + data[i + 1..j - 1];
    n := Accumulate(ds, 0);
    DigitsOfAccumulated(ds);
  }

  /** After `i` the scanner takes printed ints and nothing else: no empty text, leading zero, plus sign or `-0`. */
  lemma IntIs(data: bytes, i: nat, j: nat) returns (n: int)
    requires IntFrom(data, i) == Got(j)
    ensures i < j <= |data| && data[i..j] == Itoa(n) + [101]
  {
    hide DigitsFrom, Digits;
    if NonZeroDigitAt(data, i) {
      n := NatIs(data, i, j);
      assert data[i..j] == data[i..j - 1] + [101];
    } else if data[i] == CH0 {
      n := 0;
      ZeroIs();
      assert data[i..j] == [data[i], data[i + 1]] == [48, 101];
    } else {
      var m: int := NatIs(data, i + 1, j);
      n := -m;
      assert data[i..j] == [45] + data[i + 1..j - 1] + [101];
    }
  }

  lemma ZeroIs()
    ensures Itoa(0) == [48] && Digits(0) == [48]
  {
  }

  /**
   * Ints, on every input that begins with `i`: Unmarshal rejects it, or it is `i`, a printed int, `e` and white space.
   * Of these it gives the int, or nothing and an error if that does not fit in 64 bits.
   */
  lemma IntInput(data: bytes) returns (n: int, rest: bytes)
    requires data != [] && data[0] == 105 && Unmarshal(data) != Rejected
    ensures data == [105] + Itoa(n) + [101] + rest
    ensures forall k | 0 <= k < |rest| :: rest[k] in {32, 9, 13, 10, 0}
    ensures Unmarshal(data) ==
            if -0x8000_0000_0000_0000 <= n <= 0x7fff_ffff_ffff_ffff then Stored(Some(Int(n)), false)
            else Stored(None, true)
  {
    hide *;
    var j := IntDocument(data);
    n := IntIs(data, 1, j);
    rest := data[j..];
    assert data == [105] + data[1..j] + rest;
    assert [105] + (Itoa(n) + [101]) + rest == [105] + Itoa(n) + [101] + rest;
    IntThenBytes(n, rest);
    assert Unmarshal(data) == Unmarshal([105] + Itoa(n) + [101] + rest);
  }

  lemma IntDocument(data: bytes) returns (j: nat)
    requires data != [] && data[0] == 105 && Unmarshal(data) != Rejected
    ensures IntFrom(data, 1) == Got(j)
  {
    UnmarshalExactly(data);
    LoopExactly(data);
    hide Unmarshal, IntFrom, Decode, BlankEvery;
    var item := ItemAt(data, 0);
    j := item.end;
  }

  /** And so for every int, whatever follows it. */
  lemma IntThenBytes(n: int, rest: bytes)
    ensures Unmarshal([105] + Itoa(n) + [101] + rest) ==
            if exists k | 0 <= k < |rest| :: rest[k] !in {32, 9, 13, 10, 0} then Rejected
            else if -0x8000_0000_0000_0000 <= n <= 0x7fff_ffff_ffff_ffff then Stored(Some(Int(n)), false)
            else Stored(None, true)
  {
    hide Unmarshal, Itoa;
    assert [105] + (Itoa(n) + [101]) + rest == [105] + Itoa(n) + [101] + rest;
    BlanksAfter(TInt(n), rest);
  }

  /** Inside a list or a dictionary an int that does not fit becomes the nearest bound, and an error is saved. */
  lemma IntInList(n: int)
    ensures Unmarshal([108, 105] + Itoa(n) + [101, 101]) ==
            if n > 0x7fff_ffff_ffff_ffff then Stored(Some(List([Int(9223372036854775807)])), true)
            else if n < -0x8000_0000_0000_0000 then Stored(Some(List([Int(-9223372036854775808)])), true)
            else Stored(Some(List([Int(n)])), false)
  {
    hide Unmarshal, Itoa;
    var t := TList([TInt(n)]);
    OneItem(TInt(n));
    assert [108] + ([105] + (Itoa(n) + [101]) + [101]) == [108, 105] + Itoa(n) + [101, 101];
    UnmarshalStrict(t);
  }

  lemma OneItem(t: Tree)
    ensures Print(TList([t])) == [108] + (Print(t) + [101])
    ensures Denote(TList([t])) == List([Denote(t)]) && Overflows(TList([t])) == Overflows(t)
    ensures Strict(TList([t])) == Strict(t)
  {
    assert PrintItems([t]) == Print(t) + PrintItems([]);
    assert DenoteItems([t], []) == DenoteItems([], [] + [Denote(t)]);
    assert AnyOverflows([t]) == (Overflows(t) || AnyOverflows([]));
    assert StrictItems([t]) == (Strict(t) && StrictItems([]));
  }

  /** The keys of a map are written in byte-wise order, however they come. */
  lemma TwoKeys(a: bytes, x: Value, b: bytes, y: Value)
    requires ComesBefore(a, b)
    ensures Marshal(Dict(map[b := y, a := x])) ==
            [100] + Keyed(a, Marshal(x)) + Keyed(b, Marshal(y)) + [101]
  {
    hide ToTree, Print, Digits, ComesBefore, SortedKeys, StrictlyIncreasing;
    var m := map[b := y, a := x];
    KeysDiffer(a, b);
    TwoSorted(a, b);
    assert m.Keys == {a, b};
    DictToTree(m, [a, b]);
    TwoEntries(m, a, b);
    TwoPrinted(Entry(a, ToTree(x)), Entry(b, ToTree(y)));
  }

  lemma KeysDiffer(a: bytes, b: bytes)
    requires ComesBefore(a, b)
    ensures a != b
  {
  }

  lemma TwoSorted(a: bytes, b: bytes)
    requires ComesBefore(a, b)
    ensures SortedKeys({a, b}) == [a, b]
  {
    LessExactly(a, b);
    assert StrictlyIncreasing([a, b]);
    assert {a, b} == set k | k in [a, b];
    IncreasingIsSorted([a, b]);
  }

  lemma TwoEntries(m: map<bytes, Value>, a: bytes, b: bytes)
    requires a in m && b in m
    ensures ToEntries(Dict(m), [a, b]) == [Entry(a, ToTree(m[a])), Entry(b, ToTree(m[b]))]
  {
    EntriesHave(Dict(m), [a, b]);
  }

  lemma TwoPrinted(d: Entry, e: Entry)
    ensures Print(TDict([d, e])) == [100] + Keyed(d.key, Print(d.val)) + Keyed(e.key, Print(e.val)) + [101]
  {
    hide *;
    var x, y := Keyed(d.key, Print(d.val)), Keyed(e.key, Print(e.val));
    assert [d, e][1..] == [e] && [e][1..] == [];
    PartsAre([], [d, e]);
    PartsAre([], [e]);
    PartsAre([], []);
    assert y + [] == y;
    PrintIs(TDict([d, e]));
    assert [100] + (x + y) + [101] == [100] + x + y + [101];
  }

  /** The inputs on which Unmarshal never returns: zeros, a colon, and white space after it. */
  lemma NeverReturnsExactly(data: bytes)
    ensures Unmarshal(data) == NeverReturns <==>
            exists z: nat | 0 < z < |data| - 1 ::
              (forall j | 0 <= j < z :: data[j] == 48) && data[z] == 58 && data[z + 1] in {32, 9, 13, 10, 0}
  {
    UnmarshalExactly(data);
    hide Unmarshal, Document, ValueAt, IntAt, TopString;
  }

  /** One document with every kind in it: `d1:ali-12e3:xyze1:bi2ee` is {"a": [-12, "xyz"], "b": 2}, both ways. */
  lemma Example()
    ensures var v := Dict(map[[98] := Int(2), [97] := List([Int(-12), Str([120, 121, 122])])]);
      var data: bytes :=
        [100, 49, 58, 97, 108, 105, 45, 49, 50, 101, 51, 58, 120, 121, 122, 101, 49, 58, 98, 105, 50, 101, 101];
      Marshal(v) == data && Unmarshal(data) == Stored(Some(v), false)
  {
    hide Marshal, Unmarshal, Int64s, Digits, ComesBefore, ToTree, Print;
    var x, y := List([Int(-12), Str([120, 121, 122])]), Int(2);
    ExampleFits();
    RoundTrip(Dict(map[[98] := y, [97] := x]));
    ExampleOrder();
    TwoKeys([97], x, [98], y);
    ExampleParts();
    ExampleBytes();
  }

  lemma ExampleBytes()
    ensures var x: bytes := [108, 105, 45, 49, 50, 101, 51, 58, 120, 121, 122, 101];
      [100] + ([49] + [58] + [97] + x) + ([49] + [58] + [98] + [105, 50, 101]) + [101] ==
      [100, 49, 58, 97, 108, 105, 45, 49, 50, 101, 51, 58, 120, 121, 122, 101, 49, 58, 98, 105, 50, 101, 101]
  {
  }

  lemma ExampleFits()
    ensures Int64s(Dict(map[[98] := Int(2), [97] := List([Int(-12), Str([120, 121, 122])])]))
  {
    var items := [Int(-12), Str([120, 121, 122])];
    assert Int64s(items[0]) && Int64s(items[1]);
    assert Int64s(List(items));
  }

  lemma ExampleOrder()
    ensures ComesBefore([97], [98])
  {
    var a: seq<int>, b: seq<int> := [97], [98];
    assert a[..0] == b[..0] && a[0] < b[0];
  }

  lemma ExampleParts()
    ensures Digits(1) == [49]
    ensures Marshal(Int(2)) == [105, 50, 101]
    ensures Marshal(List([Int(-12), Str([120, 121, 122])])) == [108, 105, 45, 49, 50, 101, 51, 58, 120, 121, 122, 101]
  {
    var s: bytes := [120, 121, 122];
    assert Digits(12) == [49, 50];
    var vs := [Int(-12), Str(s)];
    assert vs[1..] == [Str(s)];
    assert ToItems([Str(s)]) == [TStr(s)];
    assert ToItems(vs) == [TInt(-12), TStr(s)];
    assert PrintItems([TStr(s)]) == Print(TStr(s)) + PrintItems([]) == [51, 58] + s;
    assert PrintItems([TInt(-12), TStr(s)]) == Print(TInt(-12)) + PrintItems([TStr(s)]);
  }

  predicate Accepted(data: bytes) {
    Check(data) == Accept
  }

  /** The cases of bencode/scanner_test.go: `foo`, `ed`, `3:12`, `ie`, `i-0e` and `i01e` are not valid. */
  lemma TestsRejected()
    ensures !Accepted([102, 111, 111])
    ensures !Accepted([101, 100])
    ensures !Accepted([51, 58, 49, 50])
    ensures !Accepted([105, 101])
    ensures !Accepted([105, 45, 48, 101])
    ensures !Accepted([105, 48, 49, 101])
  {
    hide Check;
    AcceptExactly([102, 111, 111]);
    AcceptExactly([101, 100]);
    AcceptExactly([51, 58, 49, 50]);
    AcceptExactly([105, 101]);
    AcceptExactly([105, 45, 48, 101]);
    AcceptExactly([105, 48, 49, 101]);
    assert HeadFrom([51, 58, 49, 50], 1, 3) == Length(2, 3);
  }

  /** And `i0e`, `i-100e`, `de`, `le`, `3:foo` and `i100e` are. */
  lemma TestsAccepted()
    ensures Accepted([105, 48, 101])
    ensures Accepted([105, 45, 49, 48, 48, 101])
    ensures Accepted([100, 101])
    ensures Accepted([108, 101])
    ensures Accepted([51, 58, 102, 111, 111])
    ensures Accepted([105, 49, 48, 48, 101])
  {
    hide Check;
    AcceptExactly([105, 48, 101]);
    AcceptExactly([105, 45, 49, 48, 48, 101]);
    AcceptExactly([100, 101]);
    AcceptExactly([108, 101]);
    AcceptExactly([51, 58, 102, 111, 111]);
    AcceptExactly([105, 49, 48, 48, 101]);
  }

  /** As are `d3:foo3:bare`, `d3:fool2:ab2:cdee` and `d3:food2:ab2:cdee`. */
  lemma TestsNested()
    ensures Accepted([100, 51, 58, 102, 111, 111, 51, 58, 98, 97, 114, 101])
    ensures Accepted([100, 51, 58, 102, 111, 111, 108, 50, 58, 97, 98, 50, 58, 99, 100, 101, 101])
    ensures Accepted([100, 51, 58, 102, 111, 111, 100, 50, 58, 97, 98, 50, 58, 99, 100, 101, 101])
  {
    hide Check, Document;
    StringEntry();
    AcceptExactly([100, 51, 58, 102, 111, 111, 51, 58, 98, 97, 114, 101]);
    ListEntry();
    AcceptExactly([100, 51, 58, 102, 111, 111, 108, 50, 58, 97, 98, 50, 58, 99, 100, 101, 101]);
    DictEntry();
    AcceptExactly([100, 51, 58, 102, 111, 111, 100, 50, 58, 97, 98, 50, 58, 99, 100, 101, 101]);
  }

  lemma StringEntry()
    ensures Document([100, 51, 58, 102, 111, 111, 51, 58, 98, 97, 114, 101])
  {
    var data: bytes := [100, 51, 58, 102, 111, 111, 51, 58, 98, 97, 114, 101];
    assert NextKey(data, 11) == Got(12);
    assert StringFrom(data, 7, 3) == Got(11);
    assert DictValueAt(data, 6) == Got(12);
    assert StringFrom(data, 1, 0) == Got(6);
    assert FirstKey(data, 1) == Got(12);
  }

  lemma ListEntry()
    ensures Document([100, 51, 58, 102, 111, 111, 108, 50, 58, 97, 98, 50, 58, 99, 100, 101, 101])
  {
    var data: bytes := [100, 51, 58, 102, 111, 111, 108, 50, 58, 97, 98, 50, 58, 99, 100, 101, 101];
    assert NextKey(data, 16) == Got(17);
    assert StringFrom(data, 12, 2) == Got(15);
    assert ListFrom(data, 11) == Got(16);
    assert StringFrom(data, 8, 2) == Got(11);
    assert ListFrom(data, 7) == Got(16);
    assert DictValueAt(data, 6) == Got(17);
    assert StringFrom(data, 1, 0) == Got(6);
    assert FirstKey(data, 1) == Got(17);
  }

  lemma DictEntry()
    ensures Document([100, 51, 58, 102, 111, 111, 100, 50, 58, 97, 98, 50, 58, 99, 100, 101, 101])
  {
    var data: bytes := [100, 51, 58, 102, 111, 111, 100, 50, 58, 97, 98, 50, 58, 99, 100, 101, 101];
    assert NextKey(data, 16) == Got(17);
    assert StringFrom(data, 12, 2) == Got(15);
    assert DictValueAt(data, 11) == Got(16) by {
      assert NextKey(data, 15) == Got(16);
    }
    assert StringFrom(data, 7, 0) == Got(11);
    assert FirstKey(data, 7) == Got(16);
    assert DictValueAt(data, 6) == Got(17);
    assert StringFrom(data, 1, 0) == Got(6);
    assert FirstKey(data, 1) == Got(17);
  }
}
