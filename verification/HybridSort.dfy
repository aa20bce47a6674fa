/** The counting sort, the run detector, and the dispatcher over all the sorts. */
module HybridSort {
  import opened Wrappers
  import opened SortSpec
  import Insertion = InsertionSort
  import Merging = MergeSort

  // ----- counting sort

  function Count(s: seq<int>, v: int): nat {
    multiset(s)[v]
  }

  /** One bucket for every value from `minValue` to `maxValue`. */
  method FillBuckets(values: seq<int>, minValue: int, maxValue: int, ops: Ops) returns (counts: array<nat>)
    requires forall v :: v in values ==> minValue <= v <= maxValue
    modifies ops
    ensures fresh(counts) && counts.Length == (if maxValue >= minValue then maxValue - minValue + 1 else 0)
    ensures forall k :: 0 <= k < counts.Length ==> counts[k] == Count(values, minValue + k)
    ensures ops.moves == old(ops.moves) + counts.Length + |values| && ops.comparisons == old(ops.comparisons)
  {
    var size := if maxValue >= minValue then maxValue - minValue + 1 else 0;
    counts := new nat[size](_ => 0);
    ops.Move(size);
    for i := 0 to |values|
      invariant forall k :: 0 <= k < size ==> counts[k] == Count(values[..i], minValue + k)
      invariant ops.moves == old(ops.moves) + size + i && ops.comparisons == old(ops.comparisons)
    {
      assert values[..i + 1] == values[..i] + [values[i]];
      assert values[i] in values;
      counts[values[i] - minValue] := counts[values[i] - minValue] + 1;
      ops.Move(1);
    }
    assert values[..|values|] == values;
  }

  function Repeat(v: int, n: nat): (s: seq<int>)
    ensures |s| == n && forall i :: 0 <= i < n ==> s[i] == v
  {
    seq(n, _ => v)
  }

  lemma {:induction false} RepeatCounts(v: int, n: nat, x: int)
    ensures Count(Repeat(v, n), x) == if x == v then n else 0
  {
    if n > 0 {
      RepeatCounts(v, n - 1, x);
      assert Repeat(v, n) == Repeat(v, n - 1) + [v];
      assert multiset(Repeat(v, n)) == multiset(Repeat(v, n - 1)) + multiset{v};
    } else {
      assert Repeat(v, 0) == [];
    }
  }

  lemma {:induction false} CountConcat(a: seq<int>, b: seq<int>, x: int)
    ensures Count(a + b, x) == Count(a, x) + Count(b, x)
  {
  }

  lemma {:induction false} AppendBucket(out: seq<int>, values: seq<int>, v: int, n: nat)
    requires Sorted(out) && (forall x :: x in out ==> x < v) && n == Count(values, v)
    requires forall x :: Count(out, x) == if x < v then Count(values, x) else 0
    ensures var r := out + Repeat(v, n);
            && Sorted(r) && (forall x :: x in r ==> x < v + 1)
            && forall x :: Count(r, x) == if x < v + 1 then Count(values, x) else 0
  {
    var r := out + Repeat(v, n);
    forall x ensures Count(r, x) == if x < v + 1 then Count(values, x) else 0 {
      CountConcat(out, Repeat(v, n), x);
      RepeatCounts(v, n, x);
      if x >= v { assert Count(out, x) == 0; }
    }
    forall i, j | 0 <= i < j < |r| ensures r[i] <= r[j] {
      if i < |out| { assert out[i] in out; }
    }
  }

  /** Sorts without comparing; a move for each bucket and two for each value. */
  method CountingSort(values: seq<int>, minValue: int, maxValue: int, ops: Ops) returns (out: seq<int>)
    requires forall v :: v in values ==> minValue <= v <= maxValue
    modifies ops
    ensures SortedPermutation(out, values)
    ensures ops.comparisons == old(ops.comparisons)
    ensures ops.moves == old(ops.moves) + (if maxValue >= minValue then maxValue - minValue + 1 else 0) + 2 * |values|
  {
    var counts := FillBuckets(values, minValue, maxValue, ops);
    out := [];
    forall x | x < minValue ensures Count(values, x) == 0 { assert x !in values; }
    for index := 0 to counts.Length
      invariant forall k :: 0 <= k < counts.Length ==> counts[k] == Count(values, minValue + k)
      invariant Sorted(out) && forall x :: x in out ==> x < minValue + index
      invariant forall x :: Count(out, x) == if x < minValue + index then Count(values, x) else 0
      invariant ops.moves == old(ops.moves) + counts.Length + |values| + |out| && ops.comparisons == old(ops.comparisons)
    {
      var count := counts[index];
      AppendBucket(out, values, minValue + index, count);
      if count != 0 {
        out := out + Repeat(minValue + index, count);
        ops.Move(count);
      } else {
        assert out + Repeat(minValue + index, 0) == out;
      }
    }
    forall x ensures Count(out, x) == Count(values, x) {
      if x >= minValue + counts.Length { assert x !in values; }
    }
    forall x ensures multiset(out)[x] == multiset(values)[x] { assert Count(out, x) == Count(values, x); }
    assert multiset(out) == multiset(values);
    assert |out| == |multiset(out)| == |multiset(values)| == |values|;
  }

  // ----- run detection

  predicate IsRun(s: seq<int>, start: nat, length: nat) {
    start + length <= |s| && forall k :: start <= k < start + length - 1 ==> s[k] <= s[k + 1]
  }

  ghost predicate LongestRunIs(s: seq<int>, r: nat) {
    && (exists start: nat :: IsRun(s, start, r))
    && (forall start: nat, length: nat :: IsRun(s, start, length) ==> length <= r)
  }

  /** The length of the longest contiguous non-decreasing run. */
  method LongestNonDecreasingRun(values: seq<int>) returns (longest: nat)
    ensures LongestRunIs(values, longest)
    ensures longest == 0 <==> values == []
  {
    if |values| == 0 {
      assert IsRun(values, 0, 0);
      return 0;
    }
    var best, current := 1, 1;
    ghost var at: nat := 0;
    assert values[..1] == [values[0]];
    for idx := 1 to |values|
      invariant 1 <= current <= idx && 1 <= best
      invariant IsRun(values, idx - current, current)
      invariant idx - current > 0 ==> values[idx - current - 1] > values[idx - current]
      invariant IsRun(values, at, best)
      invariant forall start: nat, length: nat :: IsRun(values, start, length) && start + length <= idx && length > best ==>
        start + length > idx - current
    {
      if values[idx - 1] <= values[idx] {
        current := current + 1;
      } else {
        if current > best { best, at := current, idx - current; }
        current := 1;
      }
    }
    longest := if best > current then best else current;
    if best <= current { at := |values| - current; }
    assert IsRun(values, at, longest);
  }

  // ----- the dispatcher

  /** The `params` of config.json; a missing one has a default. */
  datatype Config = Config(insertionThreshold: Option<int>, runDetectionMin: Option<int>, countingSpanLimit: Option<int>)

  function Or(o: Option<int>, default_: int): int {
    if o.Some? then o.value else default_
  }

  function MinOf(s: seq<int>): (m: int)
    requires s != []
    ensures m in s && forall v :: v in s ==> m <= v
  {
    if |s| == 1 then s[0]
    else
      assert s == s[..|s| - 1] + [s[|s| - 1]];
      var m := MinOf(s[..|s| - 1]);
      if s[|s| - 1] < m then s[|s| - 1] else m
  }

  function MaxOf(s: seq<int>): (m: int)
    requires s != []
    ensures m in s && forall v :: v in s ==> m >= v
  {
    if |s| == 1 then s[0]
    else
      assert s == s[..|s| - 1] + [s[|s| - 1]];
      var m := MaxOf(s[..|s| - 1]);
      if s[|s| - 1] > m then s[|s| - 1] else m
  }

  datatype Branch = Inserts | Counts | Merges

  ghost predicate RunsAtLeast(s: seq<int>, least: int) {
    exists r: nat :: LongestRunIs(s, r) && r >= least
  }

  ghost function BranchFor(values: seq<int>, config: Config): Branch {
    if |values| <= Or(config.insertionThreshold, 12) then Inserts
    else if values != [] && MaxOf(values) - MinOf(values) <= Or(config.countingSpanLimit, 128) then Counts
    else if RunsAtLeast(values, Or(config.runDetectionMin, 10)) then Inserts
    else Merges
  }

  function MovesOf(values: seq<int>, branch: Branch): nat {
    if values == [] then 0
    else
      match branch
      case Inserts => Inversions(values) + 2 * (|values| - 1)
      case Counts => MaxOf(values) - MinOf(values) + 1 + 2 * |values|
      case Merges => Merging.MergeMoves(|values|)
  }

  function MostComparisons(values: seq<int>, branch: Branch): nat {
    if values == [] then 0
    else
      match branch
      case Inserts => Inversions(values) + Stops(values)
      case Counts => 0
      case Merges => Merging.MergeComparisons(|values|)
  }

  lemma {:induction false} InsertedLast(front: seq<int>, values: seq<int>, n: nat)
    requires |values| == n + 1 && SortedPermutation(front, values[..n])
    ensures SortedPermutation(Insertion.Inserted(front, values[n]), values)
  {
    Insertion.InsertedSorts(front, values[n]);
    Insertion.InsertedKeeps(front, values[n]);
    assert values == values[..n] + [values[n]];
  }

  /** The reference every sort is compared with. */
  function SortedOf(values: seq<int>): (r: seq<int>)
    ensures SortedPermutation(r, values)
  {
    if values == [] then []
    else
      var n := |values| - 1;
      var front := SortedOf(values[..n]);
      InsertedLast(front, values, n);
      Insertion.Inserted(front, values[n])
  }

  /** Whatever the three thresholds are set to, the result is the sorted list; the moves are
      exactly those of the branch the settings choose, and the comparisons at most. */
  method HybridSort(values: seq<int>, config: Config, ops: Ops) returns (out: seq<int>)
    modifies ops
    ensures out == SortedOf(values)
    ensures ops.moves == old(ops.moves) + MovesOf(values, BranchFor(values, config))
    ensures old(ops.comparisons) <= ops.comparisons
    ensures ops.comparisons <= old(ops.comparisons) + MostComparisons(values, BranchFor(values, config))
  {
    var insertionThreshold := Or(config.insertionThreshold, 12);
    var runDetectionMin := Or(config.runDetectionMin, 10);
    var countingSpanLimit := Or(config.countingSpanLimit, 128);
    if |values| <= insertionThreshold {
      var arr := Insertion.InsertionSort(values, ops);
      SortedPermutationUnique(arr[..], SortedOf(values));
      return arr[..];
    }
    if |values| > 0 {
      var minValue, maxValue := MinOf(values), MaxOf(values);
      if maxValue - minValue <= countingSpanLimit {
        out := CountingSort(values, minValue, maxValue, ops);
        SortedPermutationUnique(out, SortedOf(values));
        return out;
      }
    }
    var longest := LongestNonDecreasingRun(values);
    LongestRunUnique(values, longest, runDetectionMin);
    if longest >= runDetectionMin {
      var arr := Insertion.InsertionSort(values, ops);
      SortedPermutationUnique(arr[..], SortedOf(values));
      return arr[..];
    }
    out := Merging.MergeSort(values, ops);
    SortedPermutationUnique(out, SortedOf(values));
  }

  lemma {:induction false} LongestRunUnique(s: seq<int>, longest: nat, least: int)
    requires LongestRunIs(s, longest)
    ensures RunsAtLeast(s, least) <==> longest >= least
  {
    if RunsAtLeast(s, least) {
      var r: nat :| LongestRunIs(s, r) && r >= least;
      var start: nat :| IsRun(s, start, r);
      assert r <= longest;
    }
  }

  predicate WithinSpan(values: seq<int>, limit: int) {
    forall x, y :: x in values && y in values ==> x - y <= limit
  }

  ghost predicate HasRun(values: seq<int>, least: int) {
    exists start: nat, length: nat :: IsRun(values, start, length) && length >= least
  }

  lemma {:induction false} SomeLongestRun(s: seq<int>, start: nat, length: nat) returns (r: nat)
    requires IsRun(s, start, length)
    ensures LongestRunIs(s, r) && r >= length
    decreases |s| - length
  {
    if start': nat, length': nat :| IsRun(s, start', length') && length' > length {
      r := SomeLongestRun(s, start', length');
    } else {
      r := length;
    }
  }

  lemma {:induction false} RunsIff(s: seq<int>, least: int)
    ensures RunsAtLeast(s, least) <==> HasRun(s, least)
  {
    if start: nat, length: nat :| IsRun(s, start, length) && length >= least {
      var r := SomeLongestRun(s, start, length);
    }
    if RunsAtLeast(s, least) {
      var r: nat :| LongestRunIs(s, r) && r >= least;
      var start: nat :| IsRun(s, start, r);
    }
  }

  /** When each branch is taken: short lists are inserted, other lists of nearby values counted, the rest inserted if they
      hold a long run and merged if not. The thresholds default to 12, 128 and 10. */
  lemma {:induction false} BranchIff(values: seq<int>, config: Config)
    ensures var short := |values| <= (if config.insertionThreshold.Some? then config.insertionThreshold.value else 12);
            var near := values != [] && WithinSpan(values, if config.countingSpanLimit.Some? then config.countingSpanLimit.value else 128);
            var run := HasRun(values, if config.runDetectionMin.Some? then config.runDetectionMin.value else 10);
            BranchFor(values, config) == if short then Inserts else if near then Counts else if run then Inserts else Merges
  {
    RunsIff(values, if config.runDetectionMin.Some? then config.runDetectionMin.value else 10);
    if values != [] {
      assert MaxOf(values) in values && MinOf(values) in values;
    }
  }

  /** The baseline gives the same list. */
  method BaselineSort(values: seq<int>, config: Config, ops: Ops) returns (out: seq<int>)
    modifies ops
    ensures out == SortedOf(values)
    ensures ops.moves == old(ops.moves) + Merging.MergeMoves(|values|)
    ensures old(ops.comparisons) <= ops.comparisons <= old(ops.comparisons) + Merging.MergeComparisons(|values|)
  {
    out := Merging.MergeSort(values, ops);
    SortedPermutationUnique(out, SortedOf(values));
  }

  /** The costs of the three branches in closed form: inserting makes as many moves as there are inverted pairs plus
      2(n - 1), counting makes no comparison and at most limit + 1 + 2n moves, and merging makes
      n * ceil(log2 n) - 2^ceil(log2 n) + n moves. */
  lemma BranchCosts(values: seq<int>, config: Config)
    requires values != []
    ensures var n, branch := |values|, BranchFor(values, config);
            && (branch == Inserts ==>
                  MostComparisons(values, branch) <= |InversionPairs(values)| + n - 1
                  && MovesOf(values, branch) == |InversionPairs(values)| + 2 * (n - 1))
            && (branch == Counts ==>
                  MostComparisons(values, branch) == 0
                  && MovesOf(values, branch) <= Or(config.countingSpanLimit, 128) + 1 + 2 * n)
            && (branch == Merges ==>
                  MovesOf(values, branch) == n * CeilLog2(n) - Pow2(CeilLog2(n)) + n
                  && MostComparisons(values, branch) == n * CeilLog2(n) - Pow2(CeilLog2(n)) + 1)
  {
    Insertion.InsertionCostBounds(values);
    Merging.MergeSortCost(|values|);
  }
}
