/** A decoder with no scanner in it: plain recursive descent over the bytes. */
module Descent {
  import opened Bytes
  import opened Decimal
  import opened Trees
  import opened Grammar

  datatype Parse<+T> = Parsed(val: T, end: nat, over: bool) | Stuck

  /**
   * A string inside a container: `0:`, or a length that begins with another digit and the content. And `00`
   * reads as an empty string when a digit or an `e` follows.
   */
  function StringAt(data: bytes, i: nat): (r: Parse<bytes>)
    ensures r.Parsed? ==> i < r.end <= |data|
  {
    if i >= |data| || !IsDigit(data[i]) then Stuck
    else if data[i] == CH0 then
      if i + 1 < |data| && data[i + 1] == COLON then Parsed([], i + 2, false)
      else if i + 2 < |data| && data[i + 1] == CH0 && (IsDigit(data[i + 2]) || data[i + 2] == CHE) then
        Parsed([], i + 2, false)
      else Stuck
    else
      match HeadFrom(data, i, 0)
      case Length(start, n) =>
        if start + n <= |data| then Parsed(data[start..start + n], start + n, false) else Stuck
      case _ => Stuck
  }

  /** An int, from after its `i`. */
  function IntAt(data: bytes, i: nat): (r: Parse<int>)
    ensures r.Parsed? ==> i < r.end <= |data|
  {
    match IntFrom(data, i)
    case Got(j) =>
      var (n, ok) := Atoi(data[i..j - 1]);
      Parsed(n, j, !ok)
    case _ => Stuck
  }

  function ValueAt(data: bytes, i: nat): (r: Parse<Value>)
    ensures r.Parsed? ==> i < r.end <= |data|
    decreases if i <= |data| then |data| - i else 0, 0
  {
    if i >= |data| then Stuck
    else if data[i] == CHL then
      match ItemsAt(data, i + 1, [], false)
      case Parsed(vs, j, over) => Parsed(List(vs), j, over)
      case Stuck => Stuck
    else if data[i] == CHD then
      match EntriesAt(data, i + 1, map[], false)
      case Parsed(m, j, over) => Parsed(Dict(m), j, over)
      case Stuck => Stuck
    else if data[i] == CHI then
      match IntAt(data, i + 1)
      case Parsed(n, j, over) => Parsed(Int(n), j, over)
      case Stuck => Stuck
    else
      match StringAt(data, i)
      case Parsed(s, j, over) => Parsed(Str(s), j, over)
      case Stuck => Stuck
  }

  function ItemsAt(data: bytes, i: nat, acc: seq<Value>, over: bool): (r: Parse<seq<Value>>)
    ensures r.Parsed? ==> i < r.end <= |data|
    decreases if i <= |data| then |data| - i else 0, 1
  {
    if i < |data| && data[i] == CHE then Parsed(acc, i + 1, over)
    else
      match ValueAt(data, i)
      case Parsed(v, j, o) => ItemsAt(data, j, acc + [v], over || o)
      case Stuck => Stuck
  }

  function EntriesAt(data: bytes, i: nat, acc: map<bytes, Value>, over: bool): (r: Parse<map<bytes, Value>>)
    ensures r.Parsed? ==> i < r.end <= |data|
    decreases if i <= |data| then |data| - i else 0, 1
  {
    if i < |data| && data[i] == CHE then Parsed(acc, i + 1, over)
    else
      match StringAt(data, i)
      case Stuck => Stuck
      case Parsed(key, j, _) =>
        match ValueAt(data, j)
        case Parsed(v, k, o) => EntriesAt(data, k, acc[key := v], over || o)
        case Stuck => Stuck
  }
}
