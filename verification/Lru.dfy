/** One set of a cache that evicts the least recently used tag, and the ideal it refines: a list of all tags by how
    recently they were used, of which the set shows the first few. */
module Lru {
  import opened Common

  /** Where `t` is first in `s`, or `|s|`. */
  function Find(s: seq<int>, t: int): (i: nat)
    ensures i <= |s| && (i < |s| ==> s[i] == t) && forall k :: 0 <= k < i ==> s[k] != t
  {
    if s == [] || s[0] == t then 0 else 1 + Find(s[1..], t)
  }

  lemma FindIs(s: seq<int>, t: int, i: nat)
    requires i <= |s| && (forall k :: 0 <= k < i ==> s[k] != t) && (i < |s| ==> s[i] == t)
    ensures Find(s, t) == i
  {
    var j := Find(s, t);
    assert j < |s| ==> s[j] == t;
  }

  /** A reference to `t` in a set: `t` comes to the front, the tags before it, or all but the last, move back. */
  function Touch(s: seq<int>, t: int): (r: seq<int>)
    requires s != []
    ensures |r| == |s|
  {
    var i := Find(s, t);
    if i < |s| then [t] + (s[..i] + s[i + 1..]) else [t] + s[..|s| - 1]
  }

  /** A reference to `t` in an unbounded list. */
  function MoveToFront(r: seq<int>, t: int): seq<int> {
    var i := Find(r, t);
    if i < |r| then [t] + (r[..i] + r[i + 1..]) else [t] + r
  }

  function Zeros(n: nat): (z: seq<int>)
    ensures |z| == n && forall i :: 0 <= i < n ==> z[i] == 0
  {
    if n == 0 then [] else [0] + Zeros(n - 1)
  }

  /** All tags referenced by the trace `h`, most recent first; the zeros a set starts out with count as one earlier
      reference to block 0. */
  function Recency(h: seq<int>): seq<int> {
    if h == [] then [0] else MoveToFront(Recency(h[..|h| - 1]), h[|h| - 1])
  }

  /** A set of `ways` tags after the trace `h`. */
  function SetAfter(ways: nat, h: seq<int>): (s: seq<int>)
    requires 0 < ways
    ensures |s| == ways
  {
    if h == [] then Zeros(ways) else Touch(SetAfter(ways, h[..|h| - 1]), h[|h| - 1])
  }

  /** The first `ways` tags of `r`, with zeros behind them. */
  function Shown(r: seq<int>, ways: nat): (s: seq<int>)
    ensures |s| == ways && forall i :: 0 <= i < ways ==> s[i] == if i < |r| then r[i] else 0
  {
    (r + Zeros(ways))[..ways]
  }

  lemma MoveKeeps(r: seq<int>, t: int)
    requires Distinct(r) && 0 in r
    ensures Distinct(MoveToFront(r, t)) && 0 in MoveToFront(r, t)
    ensures forall x :: x in MoveToFront(r, t) <==> x == t || x in r
  {
    var i := Find(r, t);
    var m := MoveToFront(r, t);
    if i < |r| {
      assert r == r[..i] + [t] + r[i + 1..];
    }
    assert forall x :: x in m <==> x == t || x in r;
  }

  lemma {:induction false} RecencyDistinct(h: seq<int>)
    ensures Distinct(Recency(h)) && 0 in Recency(h)
  {
    if h != [] {
      RecencyDistinct(h[..|h| - 1]);
      MoveKeeps(Recency(h[..|h| - 1]), h[|h| - 1]);
    }
  }

  /** What a set shows of the list shows what is in it. */
  lemma FindShown(r: seq<int>, ways: nat, t: int)
    requires 0 in r
    ensures Find(Shown(r, ways), t) == if Find(r, t) < ways && Find(r, t) < |r| then Find(r, t) else ways
  {
    var i, s := Find(r, t), Shown(r, ways);
    var j := if i < ways && i < |r| then i else ways;
    var z := Find(r, 0);
    FindIs(s, t, j);
  }

  /** A reference changes what is shown as it changes the list. */
  lemma TouchShown(r: seq<int>, ways: nat, t: int)
    requires 0 in r && 0 < ways
    ensures Touch(Shown(r, ways), t) == Shown(MoveToFront(r, t), ways)
  {
    hide Find, Zeros;
    FindShown(r, ways, t);
    var i, s, m := Find(r, t), Shown(r, ways), MoveToFront(r, t);
    forall k | 0 <= k < ways ensures Touch(s, t)[k] == Shown(m, ways)[k] {
      if i < |r| {
        MovedAt(r, t, k);
      }
    }
  }

  /** What is at place `k` once `t` has been moved to the front. */
  lemma MovedAt(r: seq<int>, t: int, k: nat)
    requires Find(r, t) < |r|
    ensures |MoveToFront(r, t)| == |r|
    ensures k < |r| ==> MoveToFront(r, t)[k] == if k == 0 then t else if k <= Find(r, t) then r[k - 1] else r[k]
  {
    hide Find;
  }

  /** A set of a cache shows the most recently used tags, in order. */
  lemma {:induction false} SetIsShown(ways: nat, h: seq<int>)
    requires 0 < ways
    ensures SetAfter(ways, h) == Shown(Recency(h), ways)
  {
    if h != [] {
      SetIsShown(ways, h[..|h| - 1]);
      RecencyDistinct(h[..|h| - 1]);
      TouchShown(Recency(h[..|h| - 1]), ways, h[|h| - 1]);
    }
  }

  /** The different tags other than `t` in `f` since `t` was last there. */
  function Since(f: seq<int>, t: int): set<int> {
    if f == [] || f[|f| - 1] == t then {} else {f[|f| - 1]} + Since(f[..|f| - 1], t)
  }

  function Tags(s: seq<int>): set<int> { set x | x in s }

  lemma {:induction false} TagsCount(s: seq<int>)
    requires Distinct(s)
    ensures |Tags(s)| == |s|
  {
    if s != [] {
      TagsCount(s[1..]);
      assert Tags(s) == {s[0]} + Tags(s[1..]);
    } else {
      assert Tags(s) == {};
    }
  }

  /** Where `t` is once `x` has been moved to the front. */
  lemma MovedPlace(r: seq<int>, x: int, t: int)
    requires Distinct(r) && t in r && x != t
    ensures Find(MoveToFront(r, x), t) == Find(r, t) + if Find(r, x) < Find(r, t) then 0 else 1
  {
    var i, j, m := Find(r, x), Find(r, t), MoveToFront(r, x);
    assert j < |r|;
    FindIs(m, t, if i < j then j else j + 1);
  }

  /** The tags before `t`, once `x` has been moved to the front. */
  lemma MoveBefore(r: seq<int>, x: int, t: int)
    requires Distinct(r) && t in r && x != t
    ensures var m := MoveToFront(r, x); Tags(m[..Find(m, t)]) == {x} + Tags(r[..Find(r, t)])
  {
    hide Find, Tags, Distinct;
    MovedPlace(r, x, t);
    var i, j := Find(r, x), Find(r, t);
    if i < j {
      MovedSlice(r, x, i, j);
      var a, c := r[..i], r[i + 1..j];
      TagsConcat([x], a + c);
      TagsConcat(a, c);
      TagsConcat(a + [x], c);
      TagsConcat(a, [x]);
    } else {
      assert MoveToFront(r, x)[..j + 1] == [x] + r[..j];
      TagsConcat([x], r[..j]);
    }
    assert Tags([x]) == {x} by {
      TagsOne(x);
    }
  }

  lemma TagsOne(x: int)
    ensures Tags([x]) == {x}
  {
  }

  lemma MovedSlice(r: seq<int>, x: int, i: nat, j: nat)
    requires i == Find(r, x) < j <= |r|
    ensures MoveToFront(r, x)[..j] == [x] + (r[..i] + r[i + 1..j]) && r[..j] == r[..i] + [x] + r[i + 1..j]
  {
    hide Find, MoveToFront;
    MovedAt(r, x, 0);
    var m, n := MoveToFront(r, x), [x] + (r[..i] + r[i + 1..j]);
    forall k | 0 <= k < j ensures m[k] == n[k] {
      MovedAt(r, x, k);
      PieceAt(r, x, i, j, k);
    }
    SameUpTo(m, n);
    SplitAround(r, i, j);
  }

  lemma PieceAt(r: seq<int>, x: int, i: nat, j: nat, k: nat)
    requires i < j <= |r| && k < j
    ensures ([x] + (r[..i] + r[i + 1..j]))[k] == if k == 0 then x else if k <= i then r[k - 1] else r[k]
  {
  }

  lemma SameUpTo(m: seq<int>, n: seq<int>)
    requires |n| <= |m| && forall k :: 0 <= k < |n| ==> m[k] == n[k]
    ensures m[..|n|] == n
  {
  }

  lemma SplitAround(r: seq<int>, i: nat, j: nat)
    requires i < j <= |r|
    ensures r[..j] == r[..i] + [r[i]] + r[i + 1..j]
  {
  }

  lemma TagsConcat(x: seq<int>, y: seq<int>)
    ensures Tags(x + y) == Tags(x) + Tags(y)
  {
    assert forall v :: v in x + y <==> v in x || v in y;
  }

  lemma SinceStep(g: seq<int>, x: int, t: int)
    ensures Since([0] + (g + [x]), t) == if x == t then {} else {x} + Since([0] + g, t)
    ensures t in [0] + (g + [x]) <==> x == t || t in [0] + g
  {
    var f := [0] + (g + [x]);
    assert f[..|f| - 1] == [0] + g && f == [0] + g + [x];
  }

  /** The tags more recent than `t` are those referenced since. */
  lemma {:induction false} RecentSince(h: seq<int>, t: int)
    ensures t in Recency(h) <==> t in [0] + h
    ensures t in Recency(h) ==> Tags(Recency(h)[..Find(Recency(h), t)]) == Since([0] + h, t)
  {
    if h == [] {
      assert [0] + h == [0];
      if t == 0 {
        assert Recency(h)[..0] == [];
      }
    } else {
      RecentStep(h[..|h| - 1], h[|h| - 1], t);
      RecentSince(h[..|h| - 1], t);
      assert h == h[..|h| - 1] + [h[|h| - 1]];
    }
  }

  lemma RecentStep(g: seq<int>, x: int, t: int)
    ensures var r := Recency(g);
            var m := MoveToFront(r, x);
            && (t in m <==> x == t || t in r)
            && (t in r ==> Tags(m[..Find(m, t)]) == if x == t then {} else {x} + Tags(r[..Find(r, t)]))
            && (x == t ==> Tags(m[..Find(m, t)]) == {})
            && (t in [0] + (g + [x]) <==> x == t || t in [0] + g)
            && Since([0] + (g + [x]), t) == if x == t then {} else {x} + Since([0] + g, t)
  {
    var r := Recency(g);
    var m := MoveToFront(r, x);
    RecencyDistinct(g);
    MoveKeeps(r, x);
    SinceStep(g, x, t);
    hide Recency, Since;
    if t == x {
      assert m[0] == t;
      FindIs(m, t, 0);
      assert m[..0] == [];
    } else if t in r {
      MoveBefore(r, x, t);
    }
  }

  /** A reference to `t` hits exactly if fewer than `ways` different other tags were referenced since `t` last was. */
  lemma HitIff(ways: nat, h: seq<int>, t: int)
    requires 0 < ways
    ensures t in SetAfter(ways, h) <==> t in [0] + h && |Since([0] + h, t)| < ways
  {
    var r := Recency(h);
    var i := Find(r, t);
    SetIsShown(ways, h);
    RecencyDistinct(h);
    FindShown(r, ways, t);
    RecentSince(h, t);
    assert t in r <==> i < |r|;
    assert t in SetAfter(ways, h) <==> Find(SetAfter(ways, h), t) < ways;
    if i < |r| {
      TagsCount(r[..i]);
    }
  }

  /** A set is the first part of the same set with more ways. */
  lemma Inclusion(few: nat, many: nat, h: seq<int>)
    requires 0 < few <= many
    ensures SetAfter(few, h) == SetAfter(many, h)[..few]
  {
    SetIsShown(few, h);
    SetIsShown(many, h);
  }
}
