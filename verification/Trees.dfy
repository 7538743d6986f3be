/** Bencoded documents as trees: their bytes, and the values they stand for. */
module Trees {
  import opened Bytes
  import opened Decimal

  /** What Go code holds for a bencoded document: int, string, []interface{} and map[string]interface{}. */
  datatype Value = Int(n: int) | Str(s: bytes) | List(items: seq<Value>) | Dict(m: map<bytes, Value>)

  /** A document as written: the entries of a dictionary are in the order of the input. */
  datatype Tree = TInt(n: int) | TStr(s: bytes) | TList(items: seq<Tree>) | TDict(entries: seq<Entry>)

  datatype Entry = Entry(key: bytes, val: Tree)

  function PrintString(s: bytes): bytes {
    Digits(|s|) + [COLON] + s
  }

  function Print(t: Tree): (r: bytes)
    ensures r != []
    decreases t
  {
    match t
    case TInt(n) => [CHI] + (Itoa(n) + [CHE])
    case TStr(s) => PrintString(s)
    case TList(items) => [CHL] + (PrintItems(items) + [CHE])
    case TDict(entries) => [CHD] + (PrintEntries(entries) + [CHE])
  }

  function PrintItems(ts: seq<Tree>): bytes
    decreases ts
  {
    if ts == [] then [] else Print(ts[0]) + PrintItems(ts[1..])
  }

  function PrintEntries(es: seq<Entry>): bytes
    decreases es
  {
    if es == [] then [] else PrintString(es[0].key) + (Print(es[0].val) + PrintEntries(es[1..]))
  }

  /** Only the first key of a dictionary may be empty: the scanner takes no other key that begins with `0`. */
  predicate Strict(t: Tree)
    decreases t
  {
    match t
    case TList(items) => StrictItems(items)
    case TDict(es) => StrictEntries(es, true)
    case _ => true
  }

  predicate StrictItems(ts: seq<Tree>)
    decreases ts
  {
    ts != [] ==> Strict(ts[0]) && StrictItems(ts[1..])
  }

  predicate StrictEntries(es: seq<Entry>, first: bool)
    decreases es
  {
    es != [] ==> Strict(es[0].val) && (first || es[0].key != []) && StrictEntries(es[1..], false)
  }

  /** The value of a document: a repeated key keeps its last value, an int out of range becomes the bound. */
  function Denote(t: Tree): Value
    decreases t
  {
    match t
    case TInt(n) => Int(Clamp(n))
    case TStr(s) => Str(s)
    case TList(items) => List(DenoteItems(items, []))
    case TDict(es) => Dict(DenoteEntries(es, map[]))
  }

  function DenoteItems(ts: seq<Tree>, vs: seq<Value>): (r: seq<Value>)
    ensures |r| == |vs| + |ts|
    decreases ts
  {
    if ts == [] then vs else DenoteItems(ts[1..], vs + [Denote(ts[0])])
  }

  function DenoteEntries(es: seq<Entry>, m: map<bytes, Value>): map<bytes, Value>
    decreases es
  {
    if es == [] then m else DenoteEntries(es[1..], m[es[0].key := Denote(es[0].val)])
  }

  /** Whether some int of the document does not fit in 64 bits. */
  predicate Overflows(t: Tree)
    decreases t
  {
    match t
    case TInt(n) => !IsInt64(n)
    case TStr(_) => false
    case TList(items) => AnyOverflows(items)
    case TDict(es) => AnyEntryOverflows(es)
  }

  predicate AnyOverflows(ts: seq<Tree>)
    decreases ts
  {
    ts != [] && (Overflows(ts[0]) || AnyOverflows(ts[1..]))
  }

  predicate AnyEntryOverflows(es: seq<Entry>)
    decreases es
  {
    es != [] && (Overflows(es[0].val) || AnyEntryOverflows(es[1..]))
  }

  // `x` is what `data` holds from `i` on.
  predicate Occurs(data: bytes, i: nat, x: bytes) {
    i + |x| <= |data| && data[i..i + |x|] == x
  }

  lemma OccursSplit(data: bytes, i: nat, a: bytes, b: bytes)
    requires Occurs(data, i, a + b)
    ensures Occurs(data, i, a) && Occurs(data, i + |a|, b)
  {
    assert data[i..i + |a|] == data[i..i + |a + b|][..|a|] == a;
    assert data[i + |a|..i + |a| + |b|] == data[i..i + |a + b|][|a|..] == b;
  }

  lemma OccursAt(data: bytes, i: nat, x: bytes, k: nat)
    requires Occurs(data, i, x) && k < |x|
    ensures data[i + k] == x[k]
  {
    assert data[i..i + |x|][k] == data[i + k];
  }
}
