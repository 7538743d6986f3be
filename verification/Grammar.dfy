/** The language the scanner accepts, as a recursive descent over the input with no scanner in it. */
module Grammar {
  import opened Bytes

  /** One item of a container: a value that ends at `end`, or the `e` before `end` that closes the container. */
  datatype Item = Got(end: nat) | Closed(end: nat) | Bad

  /** The digits of a string length: the content begins at `start`; or only zeros, and then an `e` before `end`. */
  datatype Head = Length(start: nat, n: nat) | Shut(end: nat) | NoHead

  function HeadFrom(data: bytes, i: nat, n: nat): (h: Head)
    ensures h.Length? ==> i < h.start <= |data|
    ensures h.Shut? ==> i < h.end <= |data| && n == 0
    ensures n > 0 && h.Length? ==> h.n > 0
    decreases |data| - i
  {
    if i >= |data| then NoHead
    else if IsDigit(data[i]) then HeadFrom(data, i + 1, n * 10 + (data[i] - CH0))
    else if data[i] == COLON then Length(i + 1, n)
    else if data[i] == CHE && n == 0 then Shut(i + 1)
    else NoHead
  }

  function StringFrom(data: bytes, i: nat, n: nat): (r: Item)
    ensures !r.Bad? ==> i < r.end <= |data|
  {
    match HeadFrom(data, i, n)
    case Length(start, m) => if start + m <= |data| then Got(start + m) else Bad
    case Shut(end) => Closed(end)
    case NoHead => Bad
  }

  function DigitsFrom(data: bytes, i: nat): (r: Item)
    ensures !r.Bad? ==> i < r.end <= |data|
    decreases |data| - i
  {
    if i >= |data| then Bad
    else if IsDigit(data[i]) then DigitsFrom(data, i + 1)
    else if data[i] == CHE then Got(i + 1)
    else Bad
  }

  predicate NonZeroDigitAt(data: bytes, i: nat) {
    i < |data| && CH0 < data[i] <= CH9
  }

  // After the `i`: no leading zeros, and no negative zero.
  function IntFrom(data: bytes, i: nat): (r: Item)
    ensures !r.Bad? ==> i < r.end <= |data|
  {
    if NonZeroDigitAt(data, i) then DigitsFrom(data, i + 1)
    else if i < |data| && data[i] == MINUS && NonZeroDigitAt(data, i + 1) then DigitsFrom(data, i + 2)
    else if i + 1 < |data| && data[i] == CH0 && data[i + 1] == CHE then Got(i + 2)
    else Bad
  }

  function ItemAt(data: bytes, i: nat): (r: Item)
    ensures !r.Bad? ==> i < r.end <= |data|
    decreases |data| - i, 0
  {
    if i >= |data| then Bad
    else if data[i] == CHD then FirstKey(data, i + 1)
    else if data[i] == CHL then ListFrom(data, i + 1)
    else if data[i] == CHI then IntFrom(data, i + 1)
    else if data[i] == CHE then Closed(i + 1)
    else if IsDigit(data[i]) then StringFrom(data, i + 1, data[i] - CH0)
    else Bad
  }

  function ListFrom(data: bytes, i: nat): (r: Item)
    ensures !r.Bad? ==> i < r.end <= |data| && r.Got?
    decreases |data| - i, 1
  {
    match ItemAt(data, i)
    case Got(j) => ListFrom(data, j)
    case Closed(j) => Got(j)
    case Bad => Bad
  }

  // The first key may be empty, may have leading zeros and may even have no length at all.
  function FirstKey(data: bytes, i: nat): (r: Item)
    ensures !r.Bad? ==> i < r.end <= |data| && r.Got?
    decreases |data| - i, 1
  {
    match StringFrom(data, i, 0)
    case Got(j) => DictValueAt(data, j)
    case Closed(j) => Got(j)
    case Bad => Bad
  }

  // A dictionary may end after a key that has no value.
  function DictValueAt(data: bytes, i: nat): (r: Item)
    ensures !r.Bad? ==> i < r.end <= |data| && r.Got?
    decreases |data| - i, 1
  {
    match ItemAt(data, i)
    case Got(j) => NextKey(data, j)
    case Closed(j) => Got(j)
    case Bad => Bad
  }

  function NextKey(data: bytes, i: nat): (r: Item)
    ensures !r.Bad? ==> i < r.end <= |data| && r.Got?
    decreases |data| - i, 1
  {
    if NonZeroDigitAt(data, i) then
      match StringFrom(data, i + 1, data[i] - CH0)
      case Got(j) => DictValueAt(data, j)
      case _ => Bad
    else if i < |data| && data[i] == CHE then Got(i + 1)
    else Bad
  }

  /** Every `n`-th byte from `i` is white space, and the last stride ends exactly with the input. */
  predicate BlankEvery(data: bytes, i: nat, n: nat)
    requires n > 0
    decreases if i <= |data| then |data| - i else 0
  {
    i == |data| || (i < |data| && IsSpace(data[i]) && BlankEvery(data, i + n, n))
  }

  lemma {:induction false} BlankEveryByte(data: bytes, i: nat)
    requires i <= |data|
    ensures BlankEvery(data, i, 1) <==> forall j | i <= j < |data| :: IsSpace(data[j])
    decreases |data| - i
  {
    if i < |data| {
      BlankEveryByte(data, i + 1);
    }
  }

  // A blank leaves room for a whole stride.
  lemma BlankRoom(data: bytes, i: nat, n: nat)
    requires n > 0 && BlankEvery(data, i, n) && i < |data|
    ensures i + n <= |data|
  {
    assert BlankEvery(data, i + n, n);
  }

  /**
   * A whole input: one value, and then white space. After a string of length n > 0 only every n-th byte is
   * looked at; an empty string is no value.
   */
  predicate Document(data: bytes) {
    match ItemAt(data, 0)
    case Got(j) =>
      if IsDigit(data[0]) then
        var head := HeadFrom(data, 1, data[0] - CH0);
        head.n > 0 && BlankEvery(data, j, head.n)
      else
        BlankEvery(data, j, 1)
    case _ => false
  }
}
