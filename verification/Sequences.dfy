/** Filtering and sorting, for the filter/map/sort chains of the process cleanup. */
module Sequences {

  function Filter<T>(s: seq<T>, keep: T -> bool): seq<T> {
    if s == [] then []
    else (if keep(s[0]) then [s[0]] else []) + Filter(s[1..], keep)
  }

  lemma {:induction false} FilterContents<T>(s: seq<T>, keep: T -> bool)
    ensures forall x :: x in Filter(s, keep) <==> x in s && keep(x)
    ensures forall j :: 0 <= j < |Filter(s, keep)| ==> Filter(s, keep)[j] in s && keep(Filter(s, keep)[j])
  {
    if s != [] {
      FilterContents(s[1..], keep);
      assert s == [s[0]] + s[1..];
    }
  }

  ghost predicate Distinct<T>(s: seq<T>, key: T -> nat) {
    forall i, j :: 0 <= i < j < |s| ==> key(s[i]) != key(s[j])
  }

  ghost predicate Increasing<T>(s: seq<T>, key: T -> nat) {
    forall i, j :: 0 <= i < j < |s| ==> key(s[i]) < key(s[j])
  }

  ghost predicate Sorted<T>(s: seq<T>, key: T -> nat) {
    forall i, j :: 0 <= i < j < |s| ==> key(s[i]) <= key(s[j])
  }

  lemma {:induction false} FilterDistinct<T>(s: seq<T>, keep: T -> bool, key: T -> nat)
    requires Distinct(s, key)
    ensures Distinct(Filter(s, keep), key)
  {
    if s != [] {
      FilterDistinct(s[1..], keep, key);
      FilterContents(s[1..], keep);
      var t := Filter(s[1..], keep);
      forall j | 0 <= j < |t| ensures key(s[0]) != key(t[j]) {
        var k :| 0 <= k < |s[1..]| && s[1..][k] == t[j];
        assert s[k + 1] == t[j];
      }
    }
  }

  lemma {:induction false} FilterIncreasing<T>(s: seq<T>, keep: T -> bool, key: T -> nat)
    requires Increasing(s, key)
    ensures Increasing(Filter(s, keep), key)
  {
    if s != [] {
      FilterIncreasing(s[1..], keep, key);
      FilterContents(s[1..], keep);
      var t := Filter(s[1..], keep);
      forall j | 0 <= j < |t| ensures key(s[0]) < key(t[j]) {
        var k :| 0 <= k < |s[1..]| && s[1..][k] == t[j];
        assert s[k + 1] == t[j];
      }
    }
  }

  function InsertBy<T>(x: T, s: seq<T>, key: T -> nat): seq<T> {
    if s == [] || key(x) <= key(s[0]) then [x] + s
    else [s[0]] + InsertBy(x, s[1..], key)
  }

  /** sort((left, right) => key(left) - key(right)) */
  function SortBy<T>(s: seq<T>, key: T -> nat): seq<T> {
    if s == [] then [] else InsertBy(s[0], SortBy(s[1..], key), key)
  }

  lemma {:induction false} InsertByKeeps<T>(x: T, s: seq<T>, key: T -> nat)
    ensures multiset(InsertBy(x, s, key)) == multiset(s) + multiset{x}
  {
    if s != [] && key(x) > key(s[0]) {
      InsertByKeeps(x, s[1..], key);
      assert s == [s[0]] + s[1..];
    }
  }

  lemma {:induction false} InsertBySorts<T>(x: T, s: seq<T>, key: T -> nat)
    requires Sorted(s, key)
    ensures Sorted(InsertBy(x, s, key), key)
  {
    if s != [] && key(x) > key(s[0]) {
      InsertBySorts(x, s[1..], key);
      InsertByKeeps(x, s[1..], key);
      var t := InsertBy(x, s[1..], key);
      forall j | 0 <= j < |t| ensures key(s[0]) <= key(t[j]) {
        assert t[j] in multiset(t);
        assert t[j] == x || t[j] in s[1..];
      }
    }
  }

  lemma {:induction false} SortBySorts<T>(s: seq<T>, key: T -> nat)
    ensures Sorted(SortBy(s, key), key) && multiset(SortBy(s, key)) == multiset(s)
  {
    if s != [] {
      SortBySorts(s[1..], key);
      InsertBySorts(s[0], SortBy(s[1..], key), key);
      InsertByKeeps(s[0], SortBy(s[1..], key), key);
      assert s == [s[0]] + s[1..];
    }
  }

  lemma {:induction false} SameElements<T>(s: seq<T>, t: seq<T>)
    requires multiset(s) == multiset(t)
    ensures |s| == |t| && forall x :: x in s <==> x in t
  {
    assert |s| == |multiset(s)| == |multiset(t)| == |t|;
    forall x ensures x in s <==> x in t {
      assert x in s <==> x in multiset(s);
    }
  }

  /** Sorting elements with distinct keys lists the same elements in strictly rising order. */
  lemma {:induction false} SortByDistinct<T>(s: seq<T>, key: T -> nat)
    requires Distinct(s, key)
    ensures var r := SortBy(s, key);
            Increasing(r, key) && |r| == |s| && forall x :: x in r <==> x in s
  {
    var r := SortBy(s, key);
    SortBySorts(s, key);
    SameElements(s, r);
    DistinctCounts(s, key);
    forall i, j | 0 <= i < j < |r| ensures key(r[i]) < key(r[j]) {
      if key(r[i]) == key(r[j]) {
        assert r[i] in multiset(r) && r[j] in multiset(r);
        assert r[i] in s && r[j] in s;
        var a :| 0 <= a < |s| && s[a] == r[i];
        var b :| 0 <= b < |s| && s[b] == r[j];
        assert a == b;
        TwiceCounts(r, i, j);
        assert false;
      }
    }
  }

  lemma {:induction false} DistinctCounts<T>(s: seq<T>, key: T -> nat)
    requires Distinct(s, key)
    ensures forall x :: multiset(s)[x] <= 1
  {
    if s != [] {
      assert s == [s[0]] + s[1..];
      DistinctCounts(s[1..], key);
      forall k | 0 <= k < |s[1..]| ensures s[1..][k] != s[0] {
        assert key(s[0]) != key(s[k + 1]);
      }
      assert s[0] !in multiset(s[1..]);
    }
  }

  lemma {:induction false} TwiceCounts<T>(s: seq<T>, i: nat, j: nat)
    requires i < j < |s| && s[i] == s[j]
    ensures multiset(s)[s[i]] >= 2
  {
    assert s == s[..i + 1] + s[i + 1..];
    assert s[..i + 1] == s[..i] + [s[i]];
    assert s[i + 1..] == s[i + 1..j] + [s[j]] + s[j + 1..];
  }

  /** Dropping the last of a strictly rising list leaves what is below some other element. */
  lemma {:induction false} AllButLast<T>(s: seq<T>, key: T -> nat)
    requires s != [] && Increasing(s, key)
    ensures forall x :: x in s[..|s| - 1] <==> x in s && exists y :: y in s && key(x) < key(y)
  {
    var n := |s| - 1;
    forall x ensures x in s[..n] <==> x in s && exists y :: y in s && key(x) < key(y) {
      if x in s[..n] {
        var i :| 0 <= i < n && s[..n][i] == x;
        assert s[i] == x && s[n] in s && key(s[i]) < key(s[n]);
      }
      if x in s && exists y :: y in s && key(x) < key(y) {
        var y :| y in s && key(x) < key(y);
        var i :| 0 <= i < |s| && s[i] == x;
        var j :| 0 <= j < |s| && s[j] == y;
        assert i < j;
        assert s[..n][i] == x;
      }
    }
  }
}
