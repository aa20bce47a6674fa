/** The merge sort, charged to the closed form n * ceil(log2 n) - 2^ceil(log2 n). */
module MergeSort {
  import opened SortSpec

  function Merged(a: seq<int>, b: seq<int>): seq<int>
    decreases |a| + |b|
  {
    if a == [] then b
    else if b == [] then a
    else if a[0] <= b[0] then [a[0]] + Merged(a[1..], b)
    else [b[0]] + Merged(a, b[1..])
  }

  lemma {:induction false} HeadCounts(x: int, s: seq<int>, rest: seq<int>, t: seq<int>)
    requires s != [] && s[0] == x && multiset(rest) == multiset(s[1..]) + multiset(t)
    ensures multiset([x] + rest) == multiset(s) + multiset(t)
  {
    assert s == [x] + s[1..];
  }

  lemma {:induction false} MergedKeeps(a: seq<int>, b: seq<int>)
    ensures multiset(Merged(a, b)) == multiset(a) + multiset(b)
    decreases |a| + |b|
  {
    if a != [] && b != [] {
      if a[0] <= b[0] {
        MergedKeeps(a[1..], b);
        HeadCounts(a[0], a, Merged(a[1..], b), b);
      } else {
        MergedKeeps(a, b[1..]);
        HeadCounts(b[0], b, Merged(a, b[1..]), a);
      }
    }
  }

  lemma {:induction false} MergedSorts(a: seq<int>, b: seq<int>)
    requires Sorted(a) && Sorted(b)
    ensures Sorted(Merged(a, b))
    decreases |a| + |b|
  {
    if a != [] && b != [] {
      if a[0] <= b[0] {
        MergedSorts(a[1..], b);
        Prefixed(a[0], Merged(a[1..], b));
      } else {
        MergedSorts(a, b[1..]);
        Prefixed(b[0], Merged(a, b[1..]));
      }
    }
  }

  lemma {:induction false} Prefixed(x: int, s: seq<int>)
    requires Sorted(s) && (s != [] ==> x <= s[0])
    ensures Sorted([x] + s)
  {
    forall j | 0 <= j < |s| ensures x <= s[j] { assert s[0] <= s[j]; }
  }

  /** Merges two lists; every output costs a move, and no comparison is spent on the last. */
  method Merge(left: seq<int>, right: seq<int>, ops: Ops) returns (out: seq<int>)
    modifies ops
    ensures out == Merged(left, right)
    ensures ops.moves == old(ops.moves) + |left| + |right|
    ensures ops.comparisons >= old(ops.comparisons)
    ensures |left| > 0 && |right| > 0 ==> ops.comparisons <= old(ops.comparisons) + |left| + |right| - 1
    ensures |left| == 0 || |right| == 0 ==> ops.comparisons == old(ops.comparisons)
  {
    out := [];
    var i, j := 0, 0;
    while i < |left| && j < |right|
      invariant 0 <= i <= |left| && 0 <= j <= |right|
      invariant out + Merged(left[i..], right[j..]) == Merged(left, right)
      invariant ops.moves == old(ops.moves) + i + j
      invariant ops.comparisons == old(ops.comparisons) + i + j
      invariant i + j == 0 || i < |left| || j < |right|
      invariant |left| == 0 || |right| == 0 ==> i + j == 0
      decreases |left| + |right| - i - j
    {
      var order := ops.Compare(left[i], right[j]);
      MergeOne(left[i..], right[j..], out);
      if order <= 0 {
        out := out + [left[i]];
        ops.Move(1);
        i := i + 1;
      } else {
        out := out + [right[j]];
        ops.Move(1);
        j := j + 1;
      }
    }
    if i < |left| {
      out := out + left[i..];
      ops.Move(|left| - i);
    }
    if j < |right| {
      out := out + right[j..];
      ops.Move(|right| - j);
    }
  }

  lemma {:induction false} MergeOne(a: seq<int>, b: seq<int>, out: seq<int>)
    requires a != [] && b != []
    ensures out + Merged(a, b) ==
              if a[0] <= b[0] then out + [a[0]] + Merged(a[1..], b) else out + [b[0]] + Merged(a, b[1..])
  {
    if a[0] <= b[0] {
      assert out + ([a[0]] + Merged(a[1..], b)) == out + [a[0]] + Merged(a[1..], b);
    } else {
      assert out + ([b[0]] + Merged(a, b[1..])) == out + [b[0]] + Merged(a, b[1..]);
    }
  }

  /** The moves merge sort makes on n elements. */
  function MergeMoves(n: nat): nat {
    if n <= 1 then 0 else MergeMoves(n / 2) + MergeMoves(n - n / 2) + n
  }

  /** The most comparisons it makes. */
  function MergeComparisons(n: nat): nat {
    if n <= 1 then 0 else MergeComparisons(n / 2) + MergeComparisons(n - n / 2) + n - 1
  }

  method MergeSort(values: seq<int>, ops: Ops) returns (out: seq<int>)
    modifies ops
    ensures SortedPermutation(out, values)
    ensures ops.moves == old(ops.moves) + MergeMoves(|values|)
    ensures old(ops.comparisons) <= ops.comparisons <= old(ops.comparisons) + MergeComparisons(|values|)
    decreases |values|
  {
    if |values| <= 1 { return values; }
    var mid := |values| / 2;
    var left := MergeSort(values[..mid], ops);
    var right := MergeSort(values[mid..], ops);
    MergedHalves(values, mid, left, right);
    out := Merge(left, right, ops);
  }

  lemma {:induction false} MergedHalves(values: seq<int>, mid: nat, left: seq<int>, right: seq<int>)
    requires mid <= |values|
    requires SortedPermutation(left, values[..mid]) && SortedPermutation(right, values[mid..])
    ensures SortedPermutation(Merged(left, right), values)
    ensures |left| == mid && |right| == |values| - mid
  {
    assert values == values[..mid] + values[mid..];
    MergedSorts(left, right);
    MergedKeeps(left, right);
    assert |left| == |multiset(left)| == |multiset(values[..mid])| == mid;
    assert |right| == |multiset(right)| == |multiset(values[mid..])| == |values| - mid;
  }

  function Closed(n: nat, k: nat): int {
    n * k - Pow2(k)
  }

  lemma {:induction false} ClosedAtPower(k: nat)
    ensures Closed(Pow2(k), k) == Closed(Pow2(k), k + 1)
  {
    assert Pow2(k + 1) == 2 * Pow2(k);
    assert Pow2(k) * (k + 1) == Pow2(k) * k + Pow2(k);
  }

  lemma {:induction false} Distribute(a: int, b: int, k: int)
    ensures (a + b) * (k + 1) == a * k + b * k + (a + b)
  {
  }

  /** The closed form splits over the halves as the recursion does. */
  lemma {:induction false} ClosedSplits(n: nat)
    requires n > 1
    ensures Closed(n, CeilLog2(n)) ==
              Closed(n / 2, CeilLog2(n / 2)) + Closed(n - n / 2, CeilLog2(n - n / 2)) + n
  {
    var k := CeilLog2(n - n / 2);
    LowerHalf(n);
    if CeilLog2(n / 2) != k {
      ClosedAtPower(k - 1);
    }
    Distribute(n / 2, n - n / 2, k);
    assert Pow2(k + 1) == 2 * Pow2(k);
  }

  /** Merge sort's exact number of moves, and its bound on comparisons, in closed form. */
  lemma {:induction false} MergeSortCost(n: nat)
    requires n >= 1
    ensures MergeMoves(n) == n * CeilLog2(n) - Pow2(CeilLog2(n)) + n
    ensures MergeComparisons(n) == n * CeilLog2(n) - Pow2(CeilLog2(n)) + 1
  {
    if n > 1 {
      MergeSortCost(n / 2);
      MergeSortCost(n - n / 2);
      ClosedSplits(n);
    }
  }
}
