/** What the sorting demo counts, and what it should come to. */
module SortSpec {

  /** The operation counters every sort charges. */
  class Ops {
    var comparisons: nat
    var moves: nat

    constructor ()
      ensures comparisons == 0 && moves == 0
    {
      comparisons, moves := 0, 0;
    }

    method Compare(a: int, b: int) returns (order: int)
      modifies this`comparisons
      ensures comparisons == old(comparisons) + 1
      ensures (order > 0 <==> a > b) && (order < 0 <==> a < b)
    {
      comparisons := comparisons + 1;
      order := (if a > b then 1 else 0) - (if a < b then 1 else 0);
    }

    method Move(count: nat)
      modifies this`moves
      ensures moves == old(moves) + count
    {
      moves := moves + count;
    }
  }

  predicate Sorted(s: seq<int>) {
    forall i, j :: 0 <= i < j < |s| ==> s[i] <= s[j]
  }

  predicate SortedPermutation(r: seq<int>, s: seq<int>) {
    Sorted(r) && multiset(r) == multiset(s)
  }

  lemma {:induction false} DropLast(s: seq<int>)
    requires s != []
    ensures multiset(s[..|s| - 1]) == multiset(s) - multiset{s[|s| - 1]}
    ensures |s| == |multiset(s)|
  {
    assert s == s[..|s| - 1] + [s[|s| - 1]];
  }

  lemma {:induction false} DropAt(s: seq<int>, i: nat)
    requires i < |s|
    ensures multiset(s[..i] + s[i + 1..]) == multiset(s) - multiset{s[i]}
  {
    assert s == s[..i] + [s[i]] + s[i + 1..];
  }

  lemma {:induction false} LastIsLargest(s: seq<int>, x: int)
    requires Sorted(s) && x in multiset(s)
    ensures s != [] && x <= s[|s| - 1]
  {
    var i :| 0 <= i < |s| && s[i] == x;
  }

  lemma {:induction false} LastsAgree(a: seq<int>, b: seq<int>)
    requires Sorted(a) && Sorted(b) && multiset(a) == multiset(b) && a != []
    ensures |a| == |b| && a[|a| - 1] == b[|a| - 1]
    ensures multiset(a[..|a| - 1]) == multiset(b[..|a| - 1])
  {
    DropLast(a);
    assert |b| == |multiset(b)|;
    assert a[|a| - 1] in multiset(a);
    LastIsLargest(b, a[|a| - 1]);
    assert b[|b| - 1] in multiset(b);
    LastIsLargest(a, b[|b| - 1]);
    DropLast(b);
  }

  /** There is only one sorted permutation, so any two correct sorts agree. */
  lemma {:induction false} SortedPermutationUnique(a: seq<int>, b: seq<int>)
    requires Sorted(a) && Sorted(b) && multiset(a) == multiset(b)
    ensures a == b
    decreases |a|
  {
    if a == [] {
      assert |multiset(b)| == 0;
    } else {
      var n := |a| - 1;
      LastsAgree(a, b);
      var a', b' := a[..n], b[..n];
      SortedPermutationUnique(a', b');
      assert a == a' + [a[n]] && b == b' + [b[n]];
    }
  }

  // ----- inversions

  /** How many elements of `s` are greater than `k`. */
  function Greater(s: seq<int>, k: int): nat {
    if s == [] then 0
    else Greater(s[..|s| - 1], k) + if s[|s| - 1] > k then 1 else 0
  }

  /** The number of pairs that stand in the wrong order. */
  function Inversions(s: seq<int>): nat {
    if s == [] then 0
    else Inversions(s[..|s| - 1]) + Greater(s[..|s| - 1], s[|s| - 1])
  }

  ghost function InversionPairs(s: seq<int>): set<(int, int)> {
    set i, j | 0 <= i < j < |s| && s[i] > s[j] :: (i, j)
  }

  ghost function GreaterAt(s: seq<int>, k: int, n: int): set<(int, int)> {
    set i | 0 <= i < |s| && s[i] > k :: (i, n)
  }

  lemma {:induction false} GreaterCounts(s: seq<int>, k: int, n: int)
    ensures |GreaterAt(s, k, n)| == Greater(s, k)
  {
    if s == [] {
      assert GreaterAt(s, k, n) == {};
    } else {
      var l := |s| - 1;
      GreaterCounts(s[..l], k, n);
      assert GreaterAt(s, k, n) == GreaterAt(s[..l], k, n) + if s[l] > k then {(l, n)} else {};
    }
  }

  /** `Inversions` counts exactly the pairs i < j with s[i] > s[j]. */
  lemma {:induction false} InversionsCountPairs(s: seq<int>)
    ensures |InversionPairs(s)| == Inversions(s)
  {
    if s == [] {
      assert InversionPairs(s) == {};
    } else {
      var l := |s| - 1;
      InversionsCountPairs(s[..l]);
      GreaterCounts(s[..l], s[l], l);
      assert InversionPairs(s) == InversionPairs(s[..l]) + GreaterAt(s[..l], s[l], l);
    }
  }

  lemma {:induction false} GreaterOfMultiset(s: seq<int>, t: seq<int>, k: int)
    requires multiset(s) == multiset(t)
    ensures Greater(s, k) == Greater(t, k)
    decreases |s|
  {
    if s == [] {
      assert |multiset(t)| == 0;
    } else {
      var n := |s| - 1;
      assert s[n] in multiset(t);
      var i :| 0 <= i < |t| && t[i] == s[n];
      DropLast(s);
      DropAt(t, i);
      GreaterOfMultiset(s[..n], t[..i] + t[i + 1..], k);
      GreaterInside(t[..i], t[i], t[i + 1..], k);
      assert t == t[..i] + [t[i]] + t[i + 1..];
    }
  }

  lemma {:induction false} GreaterInside(a: seq<int>, x: int, b: seq<int>, k: int)
    ensures Greater(a + [x] + b, k) == Greater(a + b, k) + if x > k then 1 else 0
  {
    var s := a + [x] + b;
    if b == [] {
      assert a + b == a && s[..|s| - 1] == a;
    } else {
      var n := |b| - 1;
      assert s[..|s| - 1] == a + [x] + b[..n];
      assert (a + b)[..|a + b| - 1] == a + b[..n];
      GreaterInside(a, x, b[..n], k);
    }
  }

  /** In a sorted list the greater ones stand at the end. */
  lemma {:induction false} GreaterAtEnd(s: seq<int>, k: int, p: nat)
    requires p <= |s|
    requires forall i :: 0 <= i < p ==> s[i] <= k
    requires forall i :: p <= i < |s| ==> s[i] > k
    ensures Greater(s, k) == |s| - p
  {
    if s != [] {
      var n := |s| - 1;
      GreaterAtEnd(s[..n], k, if p <= n then p else n);
    }
  }

  predicate HasAtMost(s: seq<int>, k: int) {
    exists x :: x in s && x <= k
  }

  /** How many elements have an earlier one that is no greater. */
  function Stops(s: seq<int>): nat {
    if |s| <= 1 then 0
    else Stops(s[..|s| - 1]) + if HasAtMost(s[..|s| - 1], s[|s| - 1]) then 1 else 0
  }

  lemma {:induction false} StopsBound(s: seq<int>)
    requires s != []
    ensures Stops(s) <= |s| - 1
  {
    if |s| > 1 { StopsBound(s[..|s| - 1]); }
  }

  // ----- powers of two

  function Pow2(k: nat): nat {
    if k == 0 then 1 else 2 * Pow2(k - 1)
  }

  /** The ceiling of the binary logarithm. */
  function CeilLog2(n: nat): nat
    requires n >= 1
  {
    if n == 1 then 0 else 1 + CeilLog2(n - n / 2)
  }

  lemma {:induction false} CeilLog2Bounds(n: nat)
    requires n >= 1
    ensures n <= Pow2(CeilLog2(n))
    ensures n > 1 ==> CeilLog2(n) >= 1 && Pow2(CeilLog2(n) - 1) < n
  {
    if n > 1 {
      CeilLog2Bounds(n - n / 2);
      if n - n / 2 > 1 {
        var k := CeilLog2(n - n / 2);
        assert Pow2(k) == 2 * Pow2(k - 1);
      }
    }
  }

  lemma {:induction false} Pow2Rises(j: nat, k: nat)
    requires j <= k
    ensures Pow2(j) <= Pow2(k)
    ensures j < k ==> 2 * Pow2(j) <= Pow2(k)
  {
    if j < k { Pow2Rises(j, k - 1); }
  }

  /** The lower half has the logarithm of the upper half, or is a power of two one below. */
  lemma {:induction false} LowerHalf(n: nat)
    requires n > 1
    ensures var k := CeilLog2(n);
            CeilLog2(n / 2) == k - 1 || (k >= 2 && CeilLog2(n / 2) == k - 2 && n / 2 == Pow2(k - 2))
  {
    var k, a := CeilLog2(n), CeilLog2(n / 2);
    CeilLog2Bounds(n);
    CeilLog2Bounds(n / 2);
    if a >= k {
      Pow2Rises(k - 1, a - 1);
      assert false;
    }
    if a + 2 <= k {
      Pow2Rises(a, k - 2);
      assert Pow2(k - 1) == 2 * Pow2(k - 2);
      if a + 2 < k {
        assert false;
      }
    }
  }
}
