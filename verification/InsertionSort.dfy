/** The insertion sort, charged by inversions. */
module InsertionSort {
  import opened SortSpec

  /** Where a key goes in a sorted list: behind everything that is not greater. */
  function Place(s: seq<int>, key: int): (p: nat)
    ensures p <= |s|
    ensures forall i :: p <= i < |s| ==> s[i] > key
    ensures p > 0 ==> s[p - 1] <= key
  {
    if s == [] || s[|s| - 1] <= key then |s| else Place(s[..|s| - 1], key)
  }

  function Inserted(s: seq<int>, key: int): seq<int> {
    var p := Place(s, key);
    s[..p] + [key] + s[p..]
  }

  lemma {:induction false} InsertedSorts(s: seq<int>, key: int)
    requires Sorted(s)
    ensures Sorted(Inserted(s, key))
  {
    var p, r := Place(s, key), Inserted(s, key);
    forall i | 0 <= i < p ensures s[i] <= key { assert s[i] <= s[p - 1]; }
    forall i, j | 0 <= i < j < |r| ensures r[i] <= r[j] {
      assert r[i] == if i < p then s[i] else if i == p then key else s[i - 1];
      assert r[j] == if j < p then s[j] else if j == p then key else s[j - 1];
    }
  }

  lemma {:induction false} InsertedKeeps(s: seq<int>, key: int)
    ensures multiset(Inserted(s, key)) == multiset(s) + multiset{key}
  {
    var p := Place(s, key);
    assert s == s[..p] + s[p..];
  }

  lemma {:induction false} PlaceCounts(s: seq<int>, key: int)
    requires Sorted(s)
    ensures Greater(s, key) == |s| - Place(s, key)
    ensures HasAtMost(s, key) <==> Place(s, key) > 0
  {
    var p := Place(s, key);
    GreaterAtEnd(s, key, p);
    if p > 0 { assert s[p - 1] in s; }
  }

  /** Shifts the elements of the sorted front that are greater than `key` one place up. */
  method ShiftGreater(arr: array<int>, i: nat, key: int, ghost s: seq<int>, ops: Ops) returns (p: nat)
    requires 0 < i < arr.Length && s == arr[..i]
    modifies arr, ops
    ensures p <= i && (p > 0 ==> s[p - 1] <= key) && (forall t :: p <= t < i ==> s[t] > key)
    ensures forall t :: 0 <= t < p ==> arr[t] == s[t]
    ensures forall t :: p < t <= i ==> arr[t] == s[t - 1]
    ensures forall t :: i < t < arr.Length ==> arr[t] == old(arr[t])
    ensures ops.moves == old(ops.moves) + (i - p)
    ensures ops.comparisons == old(ops.comparisons) + (i - p) + if p > 0 then 1 else 0
  {
    var j := i - 1;
    var order := ops.Compare(arr[j], key);
    while j >= 0 && order > 0
      invariant -1 <= j < i
      invariant j >= 0 ==> (order > 0 <==> s[j] > key)
      invariant forall t :: 0 <= t <= j ==> arr[t] == s[t]
      invariant forall t :: j + 1 < t <= i ==> arr[t] == s[t - 1]
      invariant forall t :: i < t < arr.Length ==> arr[t] == old(arr[t])
      invariant forall t :: j < t < i ==> s[t] > key
      invariant ops.moves == old(ops.moves) + (i - 1 - j)
      invariant ops.comparisons == old(ops.comparisons) + (i - 1 - j) + if j >= 0 then 1 else 0
    {
      arr[j + 1] := arr[j];
      ops.Move(1);
      j := j - 1;
      if j >= 0 { order := ops.Compare(arr[j], key); }
    }
    p := j + 1;
  }

  /** One pass of the outer loop: the key leaves, the greater elements move up, the key comes back. */
  method InsertKey(arr: array<int>, i: nat, ghost s: seq<int>, ops: Ops)
    requires 0 < i < arr.Length && s == arr[..i] && Sorted(s)
    modifies arr, ops
    ensures arr[..i + 1] == Inserted(s, old(arr[i]))
    ensures forall t :: i < t < arr.Length ==> arr[t] == old(arr[t])
    ensures ops.moves == old(ops.moves) + 2 + Greater(s, old(arr[i]))
    ensures ops.comparisons == old(ops.comparisons) + Greater(s, old(arr[i]))
                               + if HasAtMost(s, old(arr[i])) then 1 else 0
  {
    var key := arr[i];
    ops.Move(1);
    var p := ShiftGreater(arr, i, key, s, ops);
    arr[p] := key;
    ops.Move(1);
    PlaceCounts(s, key);
    InsertedIs(arr[..i + 1], s, key, p);
  }

  lemma {:induction false} InsertedIs(row: seq<int>, s: seq<int>, key: int, p: nat)
    requires p <= |s| && (p > 0 ==> s[p - 1] <= key) && forall t :: p <= t < |s| ==> s[t] > key
    requires |row| == |s| + 1 && row[p] == key
    requires (forall t :: 0 <= t < p ==> row[t] == s[t]) && (forall t :: p < t < |row| ==> row[t] == s[t - 1])
    ensures row == Inserted(s, key)
  {
    PlaceIs(s, key, p);
    assert row == s[..p] + [key] + s[p..];
  }

  lemma {:induction false} PlaceIs(s: seq<int>, key: int, p: nat)
    requires p <= |s| && (p > 0 ==> s[p - 1] <= key) && forall t :: p <= t < |s| ==> s[t] > key
    ensures Place(s, key) == p
  {
    if s != [] && s[|s| - 1] > key {
      PlaceIs(s[..|s| - 1], key, p);
    }
  }

  /** What one more key adds to the counts does not depend on how the ones before are ordered. */
  lemma {:induction false} CostExtended(values: seq<int>, i: nat, s: seq<int>)
    requires 0 < i < |values| && multiset(s) == multiset(values[..i])
    ensures Inversions(values[..i + 1]) == Inversions(values[..i]) + Greater(s, values[i])
    ensures Stops(values[..i + 1]) == Stops(values[..i]) + if HasAtMost(s, values[i]) then 1 else 0
  {
    assert values[..i + 1][..i] == values[..i];
    GreaterOfMultiset(s, values[..i], values[i]);
    AtMostOfMultiset(s, values[..i], values[i]);
  }

  lemma {:induction false} AtMostOfMultiset(s: seq<int>, t: seq<int>, k: int)
    requires multiset(s) == multiset(t)
    ensures HasAtMost(s, k) <==> HasAtMost(t, k)
  {
    assert forall x :: x in s <==> x in multiset(s);
    assert forall x :: x in t <==> x in multiset(t);
  }

  lemma {:induction false} OrderExtended(values: seq<int>, i: nat, s: seq<int>)
    requires 0 < i < |values| && SortedPermutation(s, values[..i])
    ensures SortedPermutation(Inserted(s, values[i]), values[..i + 1])
  {
    assert values[..i + 1] == values[..i] + [values[i]];
    InsertedSorts(s, values[i]);
    InsertedKeeps(s, values[i]);
  }

  /** The pass as the outer loop sees it. */
  method SortNext(arr: array<int>, i: nat, ghost values: seq<int>, ops: Ops)
    requires 0 < i < arr.Length == |values| && SortedPermutation(arr[..i], values[..i]) && arr[i] == values[i]
    modifies arr, ops
    ensures SortedPermutation(arr[..i + 1], values[..i + 1])
    ensures forall t :: i < t < arr.Length ==> arr[t] == old(arr[t])
    ensures ops.moves == old(ops.moves) + 2 + Inversions(values[..i + 1]) - Inversions(values[..i])
    ensures ops.comparisons == old(ops.comparisons) + Inversions(values[..i + 1]) - Inversions(values[..i])
                               + Stops(values[..i + 1]) - Stops(values[..i])
  {
    ghost var s := arr[..i];
    CostExtended(values, i, s);
    OrderExtended(values, i, s);
    InsertKey(arr, i, s, ops);
  }

  lemma {:induction false} OneValue(values: seq<int>)
    requires values != []
    ensures Inversions(values[..1]) == 0 && Stops(values[..1]) == 0 && SortedPermutation(values[..1], values[..1])
  {
    assert values[..1][..0] == [];
  }

  method CopyOf(values: seq<int>) returns (arr: array<int>)
    ensures fresh(arr) && arr[..] == values
  {
    arr := new int[|values|](k requires 0 <= k < |values| => values[k]);
  }

  /** The outer loop. */
  method SortInPlace(arr: array<int>, ghost values: seq<int>, ops: Ops)
    requires arr[..] == values && values != []
    modifies arr, ops
    ensures SortedPermutation(arr[..], values)
    ensures ops.moves == old(ops.moves) + Inversions(values) + 2 * (|values| - 1)
    ensures ops.comparisons == old(ops.comparisons) + Inversions(values) + Stops(values)
  {
    var i := 1;
    OneValue(values);
    assert arr[..1] == values[..1];
    while i < arr.Length
      invariant 1 <= i <= arr.Length
      invariant SortedPermutation(arr[..i], values[..i])
      invariant forall t :: i <= t < arr.Length ==> arr[t] == values[t]
      invariant ops.moves == old(ops.moves) + Inversions(values[..i]) + 2 * (i - 1)
      invariant ops.comparisons == old(ops.comparisons) + Inversions(values[..i]) + Stops(values[..i])
    {
      SortNext(arr, i, values, ops);
      i := i + 1;
    }
    assert values[..i] == values && arr[..i] == arr[..];
  }

  /** Sorts a copy, and charges exactly two moves per key and one per inversion, and one
      comparison per inversion plus one for each key that meets an element no greater. */
  method InsertionSort(values: seq<int>, ops: Ops) returns (arr: array<int>)
    modifies ops
    ensures fresh(arr) && SortedPermutation(arr[..], values)
    ensures values != [] ==> ops.moves == old(ops.moves) + Inversions(values) + 2 * (|values| - 1)
    ensures values != [] ==> ops.comparisons == old(ops.comparisons) + Inversions(values) + Stops(values)
    ensures values == [] ==> ops.moves == old(ops.moves) && ops.comparisons == old(ops.comparisons)
  {
    arr := CopyOf(values);
    if arr.Length > 0 {
      SortInPlace(arr, values, ops);
    }
  }

  /** So moves are the inversions plus 2(n - 1), and comparisons exceed the inversions by at
      most n - 1. */
  lemma InsertionCostBounds(values: seq<int>)
    requires values != []
    ensures Inversions(values) <= Inversions(values) + Stops(values) <= Inversions(values) + |values| - 1
    ensures Inversions(values) == |InversionPairs(values)|
  {
    StopsBound(values);
    InversionsCountPairs(values);
  }
}
