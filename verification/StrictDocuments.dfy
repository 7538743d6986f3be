/** Strictly written documents are read by the grammar exactly up to their end. */
module StrictDocuments {
  import opened Bytes
  import opened Decimal
  import opened Trees
  import opened Grammar

  lemma {:induction false} HeadOfDigits(data: bytes, i: nat, ds: bytes, n: nat)
    requires AllDigits(ds) && Occurs(data, i, ds + [COLON])
    ensures HeadFrom(data, i, n) == Length(i + |ds| + 1, Accumulate(ds, n))
    decreases |ds|
  {
    OccursAt(data, i, ds + [COLON], 0);
    if ds != [] {
      assert ds + [COLON] == [ds[0]] + (ds[1..] + [COLON]);
      OccursSplit(data, i, [ds[0]], ds[1..] + [COLON]);
      HeadOfDigits(data, i + 1, ds[1..], n * 10 + (ds[0] - CH0));
    }
  }

  // A printed string read from its first digit, and from just after it.
  lemma StringReads(data: bytes, i: nat, s: bytes)
    requires Occurs(data, i, PrintString(s))
    ensures IsDigit(data[i]) && (s != [] ==> data[i] != CH0)
    ensures StringFrom(data, i, 0) == Got(i + |PrintString(s)|)
    ensures HeadFrom(data, i + 1, data[i] - CH0) == HeadFrom(data, i, 0)
    ensures HeadFrom(data, i, 0) == Length(i + |Digits(|s|)| + 1, |s|)
    ensures StringFrom(data, i + 1, data[i] - CH0) == Got(i + |PrintString(s)|)
  {
    hide *;
    var ds := Digits(|s|);
    StringText(s);
    OccursSplit(data, i, ds + [COLON], s);
    OccursBounds(data, i + |ds| + 1, s);
    OccursAt(data, i, ds + [COLON], 0);
    DigitIs(ds);
    HeadOfDigits(data, i, ds, 0);
    DigitsRoundTrip(|s|);
    HeadFirst(data, i);
    HeadGives(data, i, i + |ds| + 1, |s|);
  }

  lemma StringText(s: bytes)
    ensures PrintString(s) == Digits(|s|) + [COLON] + s && |PrintString(s)| == |Digits(|s|)| + 1 + |s|
  {
    hide Digits;
  }

  lemma DigitIs(ds: bytes)
    requires ds != [] && AllDigits(ds)
    ensures IsDigit(ds[0])
  {
  }

  lemma OccursBounds(data: bytes, i: nat, x: bytes)
    requires Occurs(data, i, x)
    ensures i + |x| <= |data|
  {
  }

  lemma HeadFirst(data: bytes, i: nat)
    requires i < |data| && IsDigit(data[i])
    ensures HeadFrom(data, i, 0) == HeadFrom(data, i + 1, data[i] - CH0)
    ensures StringFrom(data, i, 0) == StringFrom(data, i + 1, data[i] - CH0)
  {
  }

  lemma HeadGives(data: bytes, i: nat, start: nat, n: nat)
    requires HeadFrom(data, i, 0) == Length(start, n) && start + n <= |data|
    ensures StringFrom(data, i, 0) == Got(start + n)
  {
    hide HeadFrom;
  }

  lemma {:induction false} DigitsRead(data: bytes, i: nat, ds: bytes)
    requires AllDigits(ds) && Occurs(data, i, ds + [CHE])
    ensures DigitsFrom(data, i) == Got(i + |ds| + 1)
    decreases |ds|
  {
    OccursAt(data, i, ds + [CHE], 0);
    if ds != [] {
      assert ds + [CHE] == [ds[0]] + (ds[1..] + [CHE]);
      OccursSplit(data, i, [ds[0]], ds[1..] + [CHE]);
      DigitsRead(data, i + 1, ds[1..]);
    }
  }

  lemma NatReads(data: bytes, i: nat, n: nat)
    requires n > 0 && Occurs(data, i, Digits(n) + [CHE])
    ensures NonZeroDigitAt(data, i) && DigitsFrom(data, i + 1) == Got(i + |Digits(n)| + 1)
  {
    OccursAt(data, i, Digits(n) + [CHE], 0);
    DigitsRead(data, i, Digits(n));
  }

  lemma IntReads(data: bytes, i: nat, n: int)
    requires Occurs(data, i, Itoa(n) + [CHE])
    ensures IntFrom(data, i) == Got(i + |Itoa(n)| + 1)
  {
    if n == 0 {
      OccursAt(data, i, [CH0, CHE], 0);
      OccursAt(data, i, [CH0, CHE], 1);
      hide DigitsFrom;
    } else if n > 0 {
      NatReads(data, i, n);
      hide DigitsFrom, Digits, Occurs;
    } else {
      hide DigitsFrom, Digits, Occurs;
      assert Itoa(n) + [CHE] == [MINUS] + (Digits(-n) + [CHE]);
      OccursSplit(data, i, [MINUS], Digits(-n) + [CHE]);
      NatReads(data, i + 1, -n);
    }
  }

  lemma ScalarItem(data: bytes, i: nat, t: Tree)
    requires (t.TInt? || t.TStr?) && Occurs(data, i, Print(t))
    ensures ItemAt(data, i) == Got(i + |Print(t)|)
  {
    hide Itoa, Digits, IntFrom, StringFrom;
    OccursAt(data, i, Print(t), 0);
    match t
    case TInt(n) =>
      OccursSplit(data, i, [CHI], Itoa(n) + [CHE]);
      IntReads(data, i + 1, n);
    case TStr(s) => StringReads(data, i, s);
  }

  lemma ListItem(data: bytes, i: nat, ts: seq<Tree>)
    requires Occurs(data, i, Print(TList(ts)))
    ensures Strict(TList(ts)) == StrictItems(ts) && Occurs(data, i + 1, PrintItems(ts) + [CHE])
    ensures ItemAt(data, i) == ListFrom(data, i + 1) && |Print(TList(ts))| == |PrintItems(ts)| + 2
  {
    OccursSplit(data, i, [CHL], PrintItems(ts) + [CHE]);
  }

  lemma DictItem(data: bytes, i: nat, es: seq<Entry>)
    requires Occurs(data, i, Print(TDict(es)))
    ensures Strict(TDict(es)) == StrictEntries(es, true) && Occurs(data, i + 1, PrintEntries(es) + [CHE])
    ensures ItemAt(data, i) == FirstKey(data, i + 1) && |Print(TDict(es))| == |PrintEntries(es)| + 2
  {
    OccursSplit(data, i, [CHD], PrintEntries(es) + [CHE]);
  }

  lemma {:induction false} TreeReads(data: bytes, i: nat, t: Tree)
    requires Strict(t) && Occurs(data, i, Print(t))
    ensures ItemAt(data, i) == Got(i + |Print(t)|)
    decreases t
  {
    hide *;
    match t
    case TList(items) =>
      ListItem(data, i, items);
      ItemsRead(data, i + 1, items);
    case TDict(es) =>
      DictItem(data, i, es);
      EntriesRead(data, i + 1, es, true);
    case _ => ScalarItem(data, i, t);
  }

  // The first item and the rest of a list's text.
  lemma ItemOccurs(data: bytes, i: nat, ts: seq<Tree>)
    requires ts != [] && Occurs(data, i, PrintItems(ts) + [CHE])
    ensures Occurs(data, i, Print(ts[0])) && Occurs(data, i + |Print(ts[0])|, PrintItems(ts[1..]) + [CHE])
    ensures i + |Print(ts[0])| < |data|
  {
    hide *;
    ItemsText(ts);
    OccursSplit(data, i, Print(ts[0]), PrintItems(ts[1..]) + [CHE]);
    OccursInside(data, i + |Print(ts[0])|, PrintItems(ts[1..]) + [CHE]);
  }

  lemma ItemsText(ts: seq<Tree>)
    requires ts != []
    ensures PrintItems(ts) + [CHE] == Print(ts[0]) + (PrintItems(ts[1..]) + [CHE])
  {
    var v, r := Print(ts[0]), PrintItems(ts[1..]);
    assert PrintItems(ts) == v + r;
    hide *;
    assert v + r + [CHE] == v + (r + [CHE]);
  }

  lemma NoItemsRead(data: bytes, i: nat)
    requires Occurs(data, i, [CHE])
    ensures ListFrom(data, i) == Got(i + 1)
  {
    OccursAt(data, i, [CHE], 0);
  }

  lemma ItemThenList(data: bytes, i: nat, j: nat)
    requires ItemAt(data, i) == Got(j)
    ensures ListFrom(data, i) == ListFrom(data, j)
  {
  }

  lemma UnfoldStrictItems(ts: seq<Tree>)
    requires StrictItems(ts)
    ensures ts == [] ==> PrintItems(ts) + [CHE] == [CHE] && |PrintItems(ts)| == 0
    ensures ts != [] ==>
      && Strict(ts[0]) && StrictItems(ts[1..])
      && |PrintItems(ts)| == |Print(ts[0])| + |PrintItems(ts[1..])|
  {
  }

  lemma {:induction false} ItemsRead(data: bytes, i: nat, ts: seq<Tree>)
    requires StrictItems(ts) && Occurs(data, i, PrintItems(ts) + [CHE])
    ensures ListFrom(data, i) == Got(i + |PrintItems(ts)| + 1)
    decreases ts
  {
    hide *;
    UnfoldStrictItems(ts);
    if ts == [] {
      NoItemsRead(data, i);
    } else {
      var j := i + |Print(ts[0])|;
      ItemOccurs(data, i, ts);
      TreeReads(data, i, ts[0]);
      ItemThenList(data, i, j);
      ItemsRead(data, j, ts[1..]);
    }
  }

  // The key, the value and the rest of a dictionary's text.
  lemma EntryOccurs(data: bytes, i: nat, es: seq<Entry>)
    requires es != [] && Occurs(data, i, PrintEntries(es) + [CHE])
    ensures Occurs(data, i, PrintString(es[0].key))
    ensures Occurs(data, i + |PrintString(es[0].key)|, Print(es[0].val))
    ensures Occurs(data, i + |PrintString(es[0].key)| + |Print(es[0].val)|, PrintEntries(es[1..]) + [CHE])
    ensures i + |PrintString(es[0].key)| + |Print(es[0].val)| < |data|
  {
    hide *;
    var k, v, r := PrintString(es[0].key), Print(es[0].val), PrintEntries(es[1..]) + [CHE];
    EntriesText(es);
    OccursSplit(data, i, k, v + r);
    OccursSplit(data, i + |k|, v, r);
    OccursInside(data, i + |k| + |v|, r);
  }

  lemma EntriesText(es: seq<Entry>)
    requires es != []
    ensures PrintEntries(es) + [CHE] ==
            PrintString(es[0].key) + (Print(es[0].val) + (PrintEntries(es[1..]) + [CHE]))
  {
    var k, v, r := PrintString(es[0].key), Print(es[0].val), PrintEntries(es[1..]);
    assert PrintEntries(es) == k + (v + r);
    hide *;
    assert k + (v + r) + [CHE] == k + (v + (r + [CHE]));
  }

  lemma OccursInside(data: bytes, i: nat, x: bytes)
    requires Occurs(data, i, x) && x != []
    ensures i < |data|
  {
  }

  lemma KeyRead(data: bytes, i: nat, key: bytes, first: bool)
    requires Occurs(data, i, PrintString(key)) && (first || key != [])
    ensures (if first then FirstKey(data, i) else NextKey(data, i)) == DictValueAt(data, i + |PrintString(key)|)
  {
    StringReads(data, i, key);
  }

  lemma NoEntriesRead(data: bytes, i: nat, first: bool)
    requires Occurs(data, i, [CHE])
    ensures (if first then FirstKey(data, i) else NextKey(data, i)) == Got(i + 1)
  {
    OccursAt(data, i, [CHE], 0);
    assert HeadFrom(data, i, 0) == Shut(i + 1);
  }

  lemma {:induction false} EntriesRead(data: bytes, i: nat, es: seq<Entry>, first: bool)
    requires StrictEntries(es, first) && Occurs(data, i, PrintEntries(es) + [CHE])
    ensures (if first then FirstKey(data, i) else NextKey(data, i)) == Got(i + |PrintEntries(es)| + 1)
    decreases es
  {
    hide *;
    UnfoldStrict(es, first);
    if es == [] {
      NoEntriesRead(data, i, first);
    } else {
      var key, val := es[0].key, es[0].val;
      var j := i + |PrintString(key)|;
      EntryOccurs(data, i, es);
      KeyRead(data, i, key, first);
      TreeReads(data, j, val);
      ValueThenKey(data, j, j + |Print(val)|);
      EntriesRead(data, j + |Print(val)|, es[1..], false);
    }
  }

  lemma ValueThenKey(data: bytes, i: nat, j: nat)
    requires ItemAt(data, i) == Got(j)
    ensures DictValueAt(data, i) == NextKey(data, j)
  {
  }

  lemma UnfoldStrict(es: seq<Entry>, first: bool)
    requires StrictEntries(es, first)
    ensures es == [] ==> PrintEntries(es) + [CHE] == [CHE] && |PrintEntries(es)| == 0
    ensures es != [] ==>
      && Strict(es[0].val) && (first || es[0].key != []) && StrictEntries(es[1..], false)
      && |PrintEntries(es)| == |PrintString(es[0].key)| + |Print(es[0].val)| + |PrintEntries(es[1..])|
  {
  }

  lemma EmptyKeyFails(data: bytes, i: nat)
    requires Occurs(data, i, PrintString([]))
    ensures NextKey(data, i) == Bad
  {
    OccursAt(data, i, PrintString([]), 0);
  }

  lemma BadItem(data: bytes, i: nat)
    requires ItemAt(data, i) == Bad
    ensures ListFrom(data, i) == Bad && DictValueAt(data, i) == Bad
  {
  }

  lemma ScalarsStrict(t: Tree)
    requires t.TInt? || t.TStr?
    ensures Strict(t)
  {
  }

  lemma UnfoldSloppy(ts: seq<Tree>)
    requires !StrictItems(ts)
    ensures ts != [] && (!Strict(ts[0]) || !StrictItems(ts[1..]))
  {
  }

  lemma UnfoldSloppyEntries(es: seq<Entry>, first: bool)
    requires !StrictEntries(es, first)
    ensures es != []
    ensures !Strict(es[0].val) || (!first && es[0].key == []) || !StrictEntries(es[1..], false)
  {
  }

  /** No other printed document is read by the grammar: an empty key after the first is refused. */
  lemma {:induction false} SloppyFails(data: bytes, i: nat, t: Tree)
    requires !Strict(t) && Occurs(data, i, Print(t))
    ensures ItemAt(data, i) == Bad
    decreases t
  {
    hide *;
    match t
    case TList(items) =>
      ListItem(data, i, items);
      SloppyItemsFail(data, i + 1, items);
    case TDict(es) =>
      DictItem(data, i, es);
      SloppyEntriesFail(data, i + 1, es, true);
    case _ => ScalarsStrict(t);
  }

  lemma {:induction false} SloppyItemsFail(data: bytes, i: nat, ts: seq<Tree>)
    requires !StrictItems(ts) && Occurs(data, i, PrintItems(ts) + [CHE])
    ensures ListFrom(data, i) == Bad
    decreases ts
  {
    hide *;
    UnfoldSloppy(ts);
    ItemOccurs(data, i, ts);
    if Strict(ts[0]) {
      var j := i + |Print(ts[0])|;
      TreeReads(data, i, ts[0]);
      ItemThenList(data, i, j);
      SloppyItemsFail(data, j, ts[1..]);
    } else {
      SloppyFails(data, i, ts[0]);
      BadItem(data, i);
    }
  }

  lemma {:induction false} SloppyEntriesFail(data: bytes, i: nat, es: seq<Entry>, first: bool)
    requires !StrictEntries(es, first) && Occurs(data, i, PrintEntries(es) + [CHE])
    ensures (if first then FirstKey(data, i) else NextKey(data, i)) == Bad
    decreases es
  {
    hide *;
    UnfoldSloppyEntries(es, first);
    EntryOccurs(data, i, es);
    var key, val := es[0].key, es[0].val;
    if !first && key == [] {
      EmptyKeyFails(data, i);
    } else {
      var j := i + |PrintString(key)|;
      KeyRead(data, i, key, first);
      if Strict(val) {
        TreeReads(data, j, val);
        ValueThenKey(data, j, j + |Print(val)|);
        SloppyEntriesFail(data, j + |Print(val)|, es[1..], false);
      } else {
        SloppyFails(data, j, val);
        BadItem(data, j);
      }
    }
  }
}
