/** Bottom-up merge sort on sequences: what one pass does, and why the passes sort stably. */
module Merging {
  import opened Common

  /** The merge that takes from the first sequence while its head is not larger. */
  function Merge<T>(p: seq<T>, q: seq<T>, key: T -> int): (m: seq<T>)
    ensures |m| == |p| + |q|
    decreases |p| + |q|
  {
    if p == [] then q
    else if q == [] then p
    else if key(p[0]) <= key(q[0]) then [p[0]] + Merge(p[1..], q, key)
    else [q[0]] + Merge(p, q[1..], key)
  }

  /** One pass merges runs of `n` elements in pairs. */
  function Pass<T>(s: seq<T>, n: nat, key: T -> int): (r: seq<T>)
    requires 0 < n
    ensures |r| == |s|
    decreases |s|
  {
    if s == [] then []
    else
      var a, b := Min(n, |s|), Min(2 * n, |s|);
      Merge(s[..a], s[a..b], key) + Pass(s[b..], n, key)
  }

  /** Passes with runs of doubling length until one merge does it all. */
  function Passes<T>(s: seq<T>, n: nat, key: T -> int): seq<T>
    requires 0 < n
    decreases |s| - n
  {
    var r := Pass(s, n, key);
    if |s| <= 2 * n then r else Passes(r, 2 * n, key)
  }

  ghost predicate Sorted<T>(s: seq<T>, key: T -> int) {
    forall i, j :: 0 <= i < j < |s| ==> key(s[i]) <= key(s[j])
  }

  /** Every run of `n` elements from a multiple of `n` is sorted. */
  ghost predicate RunsSorted<T>(s: seq<T>, n: nat, key: T -> int)
    requires 0 < n
    decreases |s|
  {
    s == [] || (Sorted(s[..Min(n, |s|)], key) && RunsSorted(s[Min(n, |s|)..], n, key))
  }

  /** The elements with key `v`, in order. */
  ghost function WithKey<T>(s: seq<T>, v: int, key: T -> int): seq<T> {
    if s == [] then [] else (if key(s[0]) == v then [s[0]] else []) + WithKey(s[1..], v, key)
  }

  // ---------------------------------------------------------------- merging

  lemma {:induction false} MergeElements<T>(p: seq<T>, q: seq<T>, key: T -> int)
    ensures multiset(Merge(p, q, key)) == multiset(p) + multiset(q)
    decreases |p| + |q|
  {
    if p == [] || q == [] {
    } else if key(p[0]) <= key(q[0]) {
      MergeElements(p[1..], q, key);
      HeadCounts(p);
      HeadJoins(p[0], Merge(p[1..], q, key));
    } else {
      MergeElements(p, q[1..], key);
      HeadCounts(q);
      HeadJoins(q[0], Merge(p, q[1..], key));
    }
  }

  lemma HeadCounts<T>(s: seq<T>)
    requires s != []
    ensures multiset(s) == multiset{s[0]} + multiset(s[1..])
  {
    assert s == [s[0]] + s[1..];
  }

  lemma HeadJoins<T>(x: T, s: seq<T>)
    ensures multiset([x] + s) == multiset{x} + multiset(s)
  {
  }

  lemma {:induction false} MergeSorted<T>(p: seq<T>, q: seq<T>, key: T -> int)
    requires Sorted(p, key) && Sorted(q, key)
    ensures Sorted(Merge(p, q, key), key)
    decreases |p| + |q|
  {
    if p != [] && q != [] {
      var m := Merge(p, q, key);
      if key(p[0]) <= key(q[0]) {
        MergeSorted(p[1..], q, key);
        MergeElements(p[1..], q, key);
        HeadLeast(p[0], m[1..], p[1..], q, key);
      } else {
        MergeSorted(p, q[1..], key);
        MergeElements(p, q[1..], key);
        HeadLeast(q[0], m[1..], p, q[1..], key);
      }
    }
  }

  lemma HeadLeast<T>(x: T, m: seq<T>, p: seq<T>, q: seq<T>, key: T -> int)
    requires multiset(m) == multiset(p) + multiset(q)
    requires forall y :: y in p || y in q ==> key(x) <= key(y)
    ensures forall i :: 0 <= i < |m| ==> key(x) <= key(m[i])
  {
    forall i | 0 <= i < |m|
      ensures key(x) <= key(m[i])
    {
      assert m[i] in multiset(m);
    }
  }

  lemma {:induction false} WithKeyConcat<T>(p: seq<T>, q: seq<T>, v: int, key: T -> int)
    ensures WithKey(p + q, v, key) == WithKey(p, v, key) + WithKey(q, v, key)
  {
    if p == [] {
      assert p + q == q;
    } else {
      WithKeyConcat(p[1..], q, v, key);
      assert (p + q)[1..] == p[1..] + q;
    }
  }

  lemma {:induction false} NoneWithKey<T>(p: seq<T>, v: int, key: T -> int)
    requires forall i :: 0 <= i < |p| ==> key(p[i]) != v
    ensures WithKey(p, v, key) == []
  {
    if p != [] {
      NoneWithKey(p[1..], v, key);
    }
  }

  /** Elements of equal key keep their order, those of the first sequence before those of the second. */
  lemma {:induction false} MergeStable<T>(p: seq<T>, q: seq<T>, v: int, key: T -> int)
    requires Sorted(p, key) && Sorted(q, key)
    ensures WithKey(Merge(p, q, key), v, key) == WithKey(p, v, key) + WithKey(q, v, key)
    decreases |p| + |q|
  {
    if p != [] && q != [] {
      if key(p[0]) <= key(q[0]) {
        MergeStable(p[1..], q, v, key);
        assert Merge(p, q, key)[1..] == Merge(p[1..], q, key);
      } else {
        MergeStable(p, q[1..], v, key);
        assert Merge(p, q, key)[1..] == Merge(p, q[1..], key);
        if key(q[0]) == v {
          NoneWithKey(p, v, key);
        }
      }
    }
  }

  // ---------------------------------------------------------------- passes

  lemma PassStep<T>(s: seq<T>, n: nat, key: T -> int) returns (p: seq<T>, q: seq<T>, rest: seq<T>)
    requires 0 < n && s != []
    ensures p == s[..Min(n, |s|)] && q == s[Min(n, |s|)..Min(2 * n, |s|)] && rest == s[Min(2 * n, |s|)..]
    ensures s == p + q + rest && |rest| < |s| && Pass(s, n, key) == Merge(p, q, key) + Pass(rest, n, key)
  {
    p, q, rest := s[..Min(n, |s|)], s[Min(n, |s|)..Min(2 * n, |s|)], s[Min(2 * n, |s|)..];
  }

  lemma {:induction false} PassElements<T>(s: seq<T>, n: nat, key: T -> int)
    requires 0 < n
    ensures multiset(Pass(s, n, key)) == multiset(s)
    decreases |s|
  {
    if s != [] {
      hide Pass, Merge, Min;
      var p, q, rest := PassStep(s, n, key);
      MergeElements(p, q, key);
      PassElements(rest, n, key);
    }
  }

  lemma {:induction false} PassStable<T>(s: seq<T>, n: nat, v: int, key: T -> int)
    requires 0 < n && RunsSorted(s, n, key)
    ensures WithKey(Pass(s, n, key), v, key) == WithKey(s, v, key)
    decreases |s|
  {
    if s != [] {
      hide Pass, Merge, Min, WithKey, RunsSorted;
      var p, q, rest := PassStep(s, n, key);
      SecondRun(s, n, key);
      PassStable(rest, n, v, key);
      MergeStable(p, q, v, key);
      WithKeyConcat(Merge(p, q, key), Pass(rest, n, key), v, key);
      WithKeyConcat(p, q, v, key);
      WithKeyConcat(p + q, rest, v, key);
    }
  }

  /** A pass over sorted runs makes sorted runs of twice the length. */
  lemma {:induction false} PassSorts<T>(s: seq<T>, n: nat, key: T -> int)
    requires 0 < n && RunsSorted(s, n, key)
    ensures RunsSorted(Pass(s, n, key), 2 * n, key)
    decreases |s|
  {
    if s != [] {
      var a, b := Min(n, |s|), Min(2 * n, |s|);
      SecondRun(s, n, key);
      MergeSorted(s[..a], s[a..b], key);
      PassSorts(s[b..], n, key);
      var m, r := Merge(s[..a], s[a..b], key), Pass(s[b..], n, key);
      assert (m + r)[..b] == m && (m + r)[b..] == r;
    }
  }

  lemma SecondRun<T>(s: seq<T>, n: nat, key: T -> int)
    requires 0 < n && RunsSorted(s, n, key) && s != []
    ensures var a, b := Min(n, |s|), Min(2 * n, |s|);
            Sorted(s[..a], key) && Sorted(s[a..b], key) && RunsSorted(s[b..], n, key)
  {
    hide Sorted;
    var a, b := Min(n, |s|), Min(2 * n, |s|);
    var t := s[a..];
    RunsUnfold(s, n, key);
    SliceTwice(s, a, b);
    if t == [] {
      EmptySorted(s[a..b], key);
    } else {
      RunsUnfold(t, n, key);
    }
  }

  lemma RunsUnfold<T>(s: seq<T>, n: nat, key: T -> int)
    requires 0 < n && RunsSorted(s, n, key) && s != []
    ensures Sorted(s[..Min(n, |s|)], key) && RunsSorted(s[Min(n, |s|)..], n, key)
  {
    hide Sorted;
  }

  lemma SliceTwice<T>(s: seq<T>, a: nat, b: nat)
    requires a <= b <= |s|
    ensures s[a..][..b - a] == s[a..b] && s[a..][b - a..] == s[b..]
  {
  }

  lemma EmptySorted<T>(s: seq<T>, key: T -> int)
    requires s == []
    ensures Sorted(s, key)
  {
  }

  lemma {:induction false} OneRun<T>(s: seq<T>, n: nat, key: T -> int)
    requires 0 < n && RunsSorted(s, n, key) && |s| <= n
    ensures Sorted(s, key)
  {
    if s != [] {
      assert s[..Min(n, |s|)] == s;
    }
  }

  lemma {:induction false} SinglesSorted<T>(s: seq<T>, key: T -> int)
    ensures RunsSorted(s, 1, key)
  {
    if s != [] {
      SinglesSorted(s[1..], key);
      assert Min(1, |s|) == 1;
    }
  }

  /** All passes together sort the sequence: the same elements, in order of their keys, stably. */
  lemma {:induction false} PassesSort<T>(s: seq<T>, n: nat, key: T -> int)
    requires 0 < n && RunsSorted(s, n, key)
    ensures var r := Passes(s, n, key);
            && Sorted(r, key) && multiset(r) == multiset(s)
            && forall v :: WithKey(r, v, key) == WithKey(s, v, key)
    decreases |s| - n
  {
    PassSorts(s, n, key);
    PassElements(s, n, key);
    forall v
      ensures WithKey(Pass(s, n, key), v, key) == WithKey(s, v, key)
    {
      PassStable(s, n, v, key);
    }
    var r := Pass(s, n, key);
    if |s| <= 2 * n {
      OneRun(r, 2 * n, key);
    } else {
      PassesSort(r, 2 * n, key);
    }
  }

  /** The number of passes the doubling makes. */
  function PassCount(len: nat, n: nat): (c: nat)
    requires 0 < n
    ensures c >= 1
    decreases len - n
  {
    if len <= 2 * n then 1 else 1 + PassCount(len, 2 * n)
  }

  /** They are the least number of doublings that reaches the length, and at least one. */
  lemma {:induction false} PassCountIsLog(len: nat, n: nat)
    requires 0 < n
    ensures var c := PassCount(len, n); len <= n * Pow2(c) && (c > 1 ==> n * Pow2(c - 1) < len)
    decreases len - n
  {
    if len > 2 * n {
      PassCountIsLog(len, 2 * n);
      var c := PassCount(len, 2 * n);
      assert n * Pow2(c + 1) == 2 * n * Pow2(c);
      if c > 1 {
        assert n * Pow2(c) == 2 * n * Pow2(c - 1);
      } else {
        assert Pow2(1) == 2 * Pow2(0);
      }
    }
  }
}
