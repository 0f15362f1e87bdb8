/** Circular doubly linked lists threaded through the `fd` and `bk` words.

    Small bins (with their header) and the chains of equal-sized tree chunks are both rings. */
module Rings {
  import opened Common
  import opened Memory

  ghost predicate Aligned(c: seq<int>) {
    forall i :: 0 <= i < |c| ==> c[i] % 16 == 0
  }

  function After(n: nat, i: nat): nat
    requires i < n
  {
    if i + 1 < n then i + 1 else 0
  }

  function Before(n: nat, i: nat): nat
    requires i < n
  {
    if i > 0 then i - 1 else n - 1
  }

  /** `fd` and `bk` of `c[i]` lead to its two neighbours in the cyclic order of `c`. */
  ghost predicate LinkedAt(m: Mem, c: seq<int>, i: nat)
    requires i < |c|
  {
    Fd(m, c[i]) == c[After(|c|, i)] && Bk(m, c[i]) == c[Before(|c|, i)]
  }

  /** The chunks of `c` form one cycle: `fd` leads from each to the one after it, and `bk` back again. */
  ghost predicate Ring(m: Mem, c: seq<int>) {
    && |c| > 0
    && Distinct(c)
    && Aligned(c)
    && (forall i :: 0 <= i < |c| ==> LinkedAt(m, c, i))
  }

  /** The four stores that put `x` between `b` and its successor `f`. */
  function LinkBetween(m: Mem, b: int, f: int, x: int): Mem {
    m[b + FD := x][f + BK := x][x + FD := f][x + BK := b]
  }

  /** The two stores that take a chunk with neighbours `f` and `b` out of its ring. */
  function UnlinkBetween(m: Mem, b: int, f: int): Mem {
    m[f + BK := b][b + FD := f]
  }

  function WithSecond(c: seq<int>, x: int): seq<int>
    requires |c| > 0
  {
    [c[0], x] + c[1..]
  }

  function Without(c: seq<int>, k: nat): seq<int>
    requires k < |c|
  {
    c[..k] + c[k + 1..]
  }

  lemma UnlinkStores(m: Mem, b: int, f: int, q: int)
    requires b % 16 == 0 && f % 16 == 0 && q % 16 == 0
    ensures var n := UnlinkBetween(m, b, f);
            && Fd(n, q) == (if q == b then f else Fd(m, q))
            && Bk(n, q) == (if q == f then b else Bk(m, q))
  {
  }

  lemma LinkStores(m: Mem, b: int, f: int, x: int, q: int)
    requires b % 16 == 0 && f % 16 == 0 && x % 16 == 0 && q % 16 == 0 && x != b && x != f
    ensures var n := LinkBetween(m, b, f, x);
            && Fd(n, q) == (if q == b then x else if q == x then f else Fd(m, q))
            && Bk(n, q) == (if q == f then x else if q == x then b else Bk(m, q))
  {
  }

  lemma RingFrame(m: Mem, n: Mem, c: seq<int>)
    requires Ring(m, c)
    requires forall i :: 0 <= i < |c| ==> Fd(m, c[i]) == Fd(n, c[i]) && Bk(m, c[i]) == Bk(n, c[i])
    ensures Ring(n, c)
  {
    forall i | 0 <= i < |c|
      ensures LinkedAt(n, c, i)
    {
      assert LinkedAt(m, c, i);
    }
  }

  lemma RingInsert(m: Mem, c: seq<int>, x: int)
    requires Ring(m, c) && x !in c && x % 16 == 0
    ensures Ring(LinkBetween(m, c[0], Fd(m, c[0]), x), WithSecond(c, x))
  {
    var n := LinkBetween(m, c[0], Fd(m, c[0]), x);
    var d := WithSecond(c, x);
    assert forall i :: 2 <= i < |d| ==> d[i] == c[i - 1];
    assert LinkedAt(m, c, 0);
    forall i: nat | i < |d|
      ensures LinkedAt(n, d, i)
    {
      if i >= 2 {
        assert LinkedAt(m, c, i - 1);
      }
      LinkStores(m, c[0], Fd(m, c[0]), x, d[i]);
      hide LinkBetween, Fd, Bk;
    }
  }

  lemma RingRemove(m: Mem, c: seq<int>, k: nat)
    requires Ring(m, c) && k < |c| && |c| >= 2
    ensures Ring(UnlinkBetween(m, Bk(m, c[k]), Fd(m, c[k])), Without(c, k))
  {
    var n := UnlinkBetween(m, Bk(m, c[k]), Fd(m, c[k]));
    var d := Without(c, k);
    assert LinkedAt(m, c, k);
    forall i: nat | i < |d|
      ensures LinkedAt(n, d, i)
    {
      RingRemoveAt(m, c, k, i);
    }
  }

  lemma RingRemoveAt(m: Mem, c: seq<int>, k: nat, i: nat)
    requires |c| >= 2 && k < |c| && i + 1 < |c|
    requires Distinct(c) && Aligned(c)
    requires LinkedAt(m, c, k) && LinkedAt(m, c, if i < k then i else i + 1)
    ensures LinkedAt(UnlinkBetween(m, Bk(m, c[k]), Fd(m, c[k])), Without(c, k), i)
  {
    var d := Without(c, k);
    var j := if i < k then i else i + 1;
    assert d[i] == c[j];
    var a, b := After(|d|, i), Before(|d|, i);
    assert d[a] == c[if a < k then a else a + 1];
    assert d[b] == c[if b < k then b else b + 1];
    UnlinkStores(m, c[Before(|c|, k)], c[After(|c|, k)], c[j]);
    hide UnlinkBetween, Fd, Bk, Without;
  }

  function Rotated(c: seq<int>): seq<int>
    requires |c| > 0
  {
    [c[|c| - 1]] + c[..|c| - 1]
  }

  lemma RingRotate(m: Mem, c: seq<int>)
    requires Ring(m, c)
    ensures Ring(m, Rotated(c))
  {
    var d := Rotated(c);
    assert forall i :: 0 <= i < |d| ==> d[i] == c[Before(|c|, i)];
    forall i: nat | i < |d|
      ensures LinkedAt(m, d, i)
    {
      assert LinkedAt(m, c, Before(|c|, i));
    }
  }
}
