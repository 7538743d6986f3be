/** Which struct fields survive in `typeFields` of bencode/encode.go: the in-place dominance pass. */
module Fields {
  import opened Bytes

  datatype Field = Field(name: bytes, tag: bool, index: seq<int>)

  /** `byIndex.Less` */
  method IndexLess(x: seq<int>, y: seq<int>) returns (less: bool)
    ensures less <==> Less(x, y)
    ensures less <==> ComesBefore(x, y)
  {
    LessExactly(x, y);
    hide ComesBefore;
    var k := 0;
    while k < |x|
      invariant 0 <= k <= |x| && k <= |y|
      invariant Less(x, y) <==> Less(x[k..], y[k..])
    {
      if k >= |y| {
        return false;
      }
      assert x[k..][1..] == x[k + 1..] && y[k..][1..] == y[k + 1..];
      if x[k] != y[k] {
        return x[k] < y[k];
      }
      k := k + 1;
    }
    return |x| < |y|;
  }

  /** Less deep, or as deep and tagged where the other is not. */
  predicate Prior(x: Field, y: Field) {
    |x.index| < |y.index| || (|x.index| == |y.index| && x.tag && !y.tag)
  }

  /** The order in which the fields are sorted. */
  predicate Before(x: Field, y: Field) {
    if x.name != y.name then Less(x.name, y.name)
    else if |x.index| != |y.index| then |x.index| < |y.index|
    else if x.tag != y.tag then x.tag
    else Less(x.index, y.index)
  }

  ghost predicate Sorted(s: seq<Field>) {
    forall i, j | 0 <= i < j < |s| :: !Before(s[j], s[i])
  }

  /** Go's rule for embedded fields: prior to every other field of its name. */
  ghost predicate Dominates(s: seq<Field>, k: nat)
    requires k < |s|
  {
    forall j | 0 <= j < |s| && j != k && s[j].name == s[k].name :: Prior(s[k], s[j])
  }

  /** Of the first `n` fields, those that dominate, in order. */
  ghost function Dominant(s: seq<Field>, n: nat): (r: seq<Field>)
    requires n <= |s|
    ensures |r| <= n
  {
    if n == 0 then [] else Dominant(s, n - 1) + if Dominates(s, n - 1) then [s[n - 1]] else []
  }

  /** At most one field of a name dominates. */
  lemma OnePerName(s: seq<Field>, j: nat, k: nat)
    requires j < |s| && k < |s| && s[j].name == s[k].name && Dominates(s, j) && Dominates(s, k)
    ensures j == k
  {
  }

  /**
   * Go's rule in full: a field is seen if and only if every other field of its name is deeper, or is as deep and has
   * no tag where this one has.
   */
  lemma DominatesExactly(s: seq<Field>, k: nat)
    requires k < |s|
    ensures Dominates(s, k) <==>
            forall j | 0 <= j < |s| && j != k && s[j].name == s[k].name ::
              |s[j].index| > |s[k].index| || (|s[j].index| == |s[k].index| && s[k].tag && !s[j].tag)
  {
  }

  /** The order of sorting puts the prior of two fields of one name first, and is total. */
  lemma PriorIsBefore(x: Field, y: Field)
    requires x.name == y.name
    ensures Prior(x, y) ==> Before(x, y) && !Before(y, x)
    ensures !Prior(x, y) && !Prior(y, x) ==> (Before(x, y) <==> ComesBefore(x.index, y.index))
    ensures Before(x, y) || Before(y, x) || x == y
  {
    LessExactly(x.index, y.index);
    LessTrichotomy(x.index, y.index);
    hide Less, ComesBefore;
  }

  lemma NamesInOrder(x: Field, y: Field)
    requires x.name != y.name
    ensures Before(x, y) <==> ComesBefore(x.name, y.name)
  {
    LessExactly(x.name, y.name);
  }

  // A maximal run of one name in the sorted fields.
  ghost predicate IsGroup(s: seq<Field>, i: nat, end: nat) {
    && i < end <= |s|
    && (forall k | i <= k < end :: s[k].name == s[i].name)
    && (end < |s| ==> s[end].name != s[i].name)
    && (i > 0 ==> s[i - 1].name != s[i].name)
  }

  // Sorting brings the fields of a name together.
  lemma OutsideGroup(s: seq<Field>, i: nat, end: nat, j: nat)
    requires Sorted(s) && IsGroup(s, i, end) && j < |s| && (j < i || end <= j)
    ensures s[j].name != s[i].name
  {
    if j < i - 1 {
      LessTrichotomy(s[i - 1].name, s[i].name);
      assert !Before(s[i], s[i - 1]) && !Before(s[i - 1], s[j]);
    }
    if j > end {
      LessTrichotomy(s[end].name, s[i].name);
      assert !Before(s[end], s[i]) && !Before(s[j], s[end]);
    }
  }

  // In a group the first field dominates, if it is alone or prior to the second; no other does.
  lemma GroupDominance(s: seq<Field>, i: nat, end: nat, k: nat)
    requires Sorted(s) && IsGroup(s, i, end) && i <= k < end
    ensures Dominates(s, k) <==> k == i && (end == i + 1 || Prior(s[i], s[i + 1]))
  {
    if k > i {
      assert !Before(s[k], s[i]);
    } else if end > i + 1 && Prior(s[i], s[i + 1]) {
      forall j | 0 <= j < |s| && j != i && s[j].name == s[i].name ensures Prior(s[i], s[j]) {
        if j < i || end <= j {
          OutsideGroup(s, i, end, j);
        } else {
          assert j > i + 1 ==> !Before(s[j], s[i + 1]);
        }
      }
    } else if end == i + 1 {
      forall j | 0 <= j < |s| && j != i ensures s[j].name != s[i].name {
        OutsideGroup(s, i, end, j);
      }
    }
  }

  lemma {:induction false} GroupDominant(s: seq<Field>, i: nat, end: nat, k: nat)
    requires Sorted(s) && IsGroup(s, i, end) && i < k <= end
    ensures Dominant(s, k) == Dominant(s, i) + if end == i + 1 || Prior(s[i], s[i + 1]) then [s[i]] else []
    decreases k
  {
    hide Sorted, Before, Less, Dominates, Prior;
    GroupDominance(s, i, end, k - 1);
    if k > i + 1 {
      GroupDominant(s, i, end, k - 1);
    }
  }

  /** `dominantField` on a group of at least two: two fields alike at its head annihilate the group. */
  function DominantField(first: Field, second: Field): Option<Field> {
    if |first.index| == |second.index| && first.tag == second.tag then None else Some(first)
  }

  lemma SecondOfGroup(s: seq<Field>, i: nat, end: nat)
    requires Sorted(s) && IsGroup(s, i, end) && i + 1 < end
    ensures DominantField(s[i], s[i + 1]) == if Prior(s[i], s[i + 1]) then Some(s[i]) else None
  {
    assert !Before(s[i + 1], s[i]);
  }

  lemma NoneDominant(s: seq<Field>)
    ensures Dominant(s, 0) == []
  {
  }

  /**
   * The pass over the sorted fields, which writes what it keeps over what it has read. It keeps exactly the
   * dominant fields, in order.
   */
  method Compact(fields: array<Field>) returns (out: nat)
    requires Sorted(fields[..])
    modifies fields
    ensures out <= fields.Length
    ensures fields[..out] == Dominant(old(fields[..]), fields.Length)
  {
    hide Less, Before, Prior, Dominates, Dominant, Sorted;
    ghost var s := fields[..];
    NoneDominant(s);
    out := 0;
    var i := 0;
    while i < fields.Length
      invariant 0 <= out <= i <= fields.Length == |s|
      invariant i > 0 && i < |s| ==> s[i - 1].name != s[i].name
      invariant fields[..out] == Dominant(s, i)
      invariant forall k | i <= k < |s| :: fields[k] == s[k]
    {
      var fi := fields[i];
      var advance := 1;
      while i + advance < fields.Length && fields[i + advance].name == fi.name
        invariant 1 <= advance <= |s| - i
        invariant forall k | i <= k < i + advance :: s[k].name == fi.name
      {
        advance := advance + 1;
      }
      assert IsGroup(s, i, i + advance);
      GroupDominant(s, i, i + advance, i + advance);
      if advance == 1 {
        fields[out] := fi;
        out := out + 1;
      } else {
        SecondOfGroup(s, i, i + advance);
        var dominant := DominantField(fields[i], fields[i + 1]);
        if dominant.Some? {
          fields[out] := dominant.value;
          out := out + 1;
        }
      }
      i := i + advance;
    }
  }
}
