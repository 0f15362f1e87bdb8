/** The bitwise tries that hold free chunks of at least 256 bytes, as values.

    A node stands for one chunk size.  Its `chain` lists the addresses of the free chunks of that size; the
    first is the one the parent and child pointers lead to, the others hang off it in a ring.  A subtree that
    covers the `w` sizes from `lo` sends the lower half to its left child and the upper half to its right. */
module Tries {
  import opened Common
  import opened Rings

  datatype Tree = Leaf | Node(chain: seq<int>, size: int, left: Tree, right: Tree)

  ghost function Elems(c: seq<int>): set<int> {
    set p | p in c
  }

  ghost function Addrs(t: Tree): set<int> {
    match t
    case Leaf => {}
    case Node(c, _, l, r) => Elems(c) + Addrs(l) + Addrs(r)
  }

  ghost function Sizes(t: Tree): set<int> {
    match t
    case Leaf => {}
    case Node(_, s, l, r) => {s} + Sizes(l) + Sizes(r)
  }

  /** Every address in `t` stands at a node of the size that `b` gives it. */
  ghost predicate Sized(t: Tree, b: map<int, int>) {
    match t
    case Leaf => true
    case Node(c, s, l, r) =>
      && (forall p :: p in c ==> p in b && b[p] == s)
      && Sized(l, b) && Sized(r, b)
  }

  /** No address stands at two places. */
  ghost predicate NoRepeat(t: Tree) {
    match t
    case Leaf => true
    case Node(c, _, l, r) =>
      && |c| > 0
      && Distinct(c)
      && Elems(c) !! Addrs(l)
      && Elems(c) !! Addrs(r)
      && Addrs(l) !! Addrs(r)
      && NoRepeat(l) && NoRepeat(r)
  }

  /** The trie property: all sizes lie in [lo, lo + w), each size has one node, and the children split the
      interval at its middle. */
  ghost predicate IsTrie(t: Tree, lo: int, w: nat) {
    match t
    case Leaf => true
    case Node(_, s, l, r) =>
      && lo <= s < lo + w
      && s !in Sizes(l) && s !in Sizes(r)
      && (w == 1 || w % 2 == 0)
      && IsTrie(l, lo, w / 2)
      && IsTrie(r, lo + w / 2, w / 2)
  }

  lemma {:induction false} SizesInRange(t: Tree, lo: int, w: nat)
    requires IsTrie(t, lo, w)
    ensures forall s :: s in Sizes(t) ==> lo <= s < lo + w
  {
    match t
    case Leaf =>
    case Node(_, s, l, r) =>
      SizesInRange(l, lo, w / 2);
      SizesInRange(r, lo + w / 2, w / 2);
  }

  ghost function Height(t: Tree): nat {
    match t
    case Leaf => 0
    case Node(_, _, l, r) => 1 + if Height(l) > Height(r) then Height(l) else Height(r)
  }

  /** A trie over 2^n sizes is at most n + 1 deep, so a descent makes at most one step for each size bit that
      the bin leaves open. */
  lemma {:induction false} HeightBound(t: Tree, lo: int, n: nat)
    requires IsTrie(t, lo, Pow2(n))
    ensures Height(t) <= n + 1
  {
    match t
    case Leaf =>
    case Node(_, s, l, r) =>
      if n == 0 {
        assert l == Leaf && r == Leaf;
      } else {
        HeightBound(l, lo, n - 1);
        HeightBound(r, lo + Pow2(n - 1), n - 1);
      }
  }

  // ---------------------------------------------------------------- insertion

  function Insert(t: Tree, x: int, s: int, lo: int, w: nat): Tree {
    match t
    case Leaf => Node([x], s, Leaf, Leaf)
    case Node(c, z, l, r) =>
      if z == s then Node(if |c| > 0 then WithSecond(c, x) else [x], z, l, r)
      else if s < lo + w / 2 then Node(c, z, Insert(l, x, s, lo, w / 2), r)
      else Node(c, z, l, Insert(r, x, s, lo + w / 2, w / 2))
  }

  lemma {:induction false} InsertIsTrie(t: Tree, x: int, s: int, lo: int, w: nat, k: nat)
    requires w == Pow2(k)
    requires IsTrie(t, lo, w) && lo <= s < lo + w
    ensures IsTrie(Insert(t, x, s, lo, w), lo, w)
    ensures Sizes(Insert(t, x, s, lo, w)) == Sizes(t) + {s}
  {
    match t
    case Leaf =>
    case Node(c, z, l, r) =>
      if z == s {
      } else {
        assert k > 0 && w / 2 == Pow2(k - 1);
        if s < lo + w / 2 {
          InsertIsTrie(l, x, s, lo, w / 2, k - 1);
        } else {
          InsertIsTrie(r, x, s, lo + w / 2, w / 2, k - 1);
        }
      }
  }

  lemma WithSecondContents(c: seq<int>, x: int)
    requires Distinct(c) && x !in c && |c| > 0
    ensures Distinct(WithSecond(c, x)) && |WithSecond(c, x)| > 0
    ensures Elems(WithSecond(c, x)) == Elems(c) + {x}
  {
    var d := WithSecond(c, x);
    assert c == [c[0]] + c[1..];
    assert forall i :: 2 <= i < |d| ==> d[i] == c[i - 1];
  }

  lemma {:induction false} InsertContents(t: Tree, x: int, s: int, lo: int, w: nat)
    requires NoRepeat(t) && x !in Addrs(t)
    ensures NoRepeat(Insert(t, x, s, lo, w))
    ensures Addrs(Insert(t, x, s, lo, w)) == Addrs(t) + {x}
  {
    match t
    case Leaf =>
    case Node(c, z, l, r) =>
      if z == s {
        WithSecondContents(c, x);
        hide WithSecond, Distinct, Elems;
      } else if s < lo + w / 2 {
        InsertContents(l, x, s, lo, w / 2);
      } else {
        InsertContents(r, x, s, lo + w / 2, w / 2);
      }
  }

  lemma {:induction false} SizedFrame(t: Tree, b: map<int, int>, d: map<int, int>)
    requires Sized(t, b)
    requires forall p :: p in Addrs(t) && p in b ==> p in d && d[p] == b[p]
    ensures Sized(t, d)
  {
    match t
    case Leaf =>
    case Node(c, s, l, r) =>
      SizedFrame(l, b, d);
      SizedFrame(r, b, d);
  }

  lemma {:induction false} InsertSized(t: Tree, x: int, s: int, lo: int, w: nat, b: map<int, int>)
    requires Sized(t, b) && x !in Addrs(t)
    ensures Sized(Insert(t, x, s, lo, w), b[x := s])
  {
    match t
    case Leaf =>
      assert Sized(Leaf, b[x := s]);
      var c := [x];
      assert forall p :: p in c ==> p == x;
    case Node(c, z, l, r) =>
      assert x !in Elems(c);
      SizedFrame(l, b, b[x := s]);
      SizedFrame(r, b, b[x := s]);
      if z == s {
        if |c| > 0 {
          assert forall p :: p in WithSecond(c, x) ==> p in c || p == x;
        }
      } else if s < lo + w / 2 {
        InsertSized(l, x, s, lo, w / 2, b);
      } else {
        InsertSized(r, x, s, lo + w / 2, w / 2, b);
      }
  }

  // ---------------------------------------------------------------- removal

  function RightmostChain(t: Tree): seq<int>
    requires t.Node?
  {
    if t.right.Node? then RightmostChain(t.right)
    else if t.left.Node? then RightmostChain(t.left)
    else t.chain
  }

  function RightmostSize(t: Tree): int
    requires t.Node?
  {
    if t.right.Node? then RightmostSize(t.right)
    else if t.left.Node? then RightmostSize(t.left)
    else t.size
  }

  /** `t` without the leaf that the rightmost walk ends at. */
  function DropRightmost(t: Tree): Tree
    requires t.Node?
  {
    if t.right.Node? then Node(t.chain, t.size, t.left, DropRightmost(t.right))
    else if t.left.Node? then Node(t.chain, t.size, DropRightmost(t.left), Leaf)
    else Leaf
  }

  /** What takes the place of a node whose last chunk leaves: nothing if it was a leaf, else the rightmost leaf
      below it. */
  function Replacement(l: Tree, r: Tree): Tree {
    if r.Node? then Node(RightmostChain(r), RightmostSize(r), l, DropRightmost(r))
    else if l.Node? then Node(RightmostChain(l), RightmostSize(l), DropRightmost(l), Leaf)
    else Leaf
  }

  /** A chain without `x`; when `x` led the chain, the last chunk takes the lead. */
  function ChainWithout(c: seq<int>, x: int): seq<int>
    requires x in c && |c| > 1
  {
    if c[0] == x then Rotated(Without(c, 0)) else var k := IndexOf(c, x); Without(c, k)
  }

  function IndexOf(c: seq<int>, x: int): (k: nat)
    requires x in c
    ensures k < |c| && c[k] == x
  {
    if c[0] == x then 0 else 1 + IndexOf(c[1..], x)
  }

  ghost function Remove(t: Tree, x: int): Tree {
    match t
    case Leaf => Leaf
    case Node(c, s, l, r) =>
      if x in c then
        if |c| > 1 then Node(ChainWithout(c, x), s, l, r) else Replacement(l, r)
      else if x in Addrs(l) then Node(c, s, Remove(l, x), r)
      else Node(c, s, l, Remove(r, x))
  }

  lemma {:induction false} DropRightmostContents(t: Tree)
    requires t.Node? && NoRepeat(t)
    ensures NoRepeat(DropRightmost(t))
    ensures |RightmostChain(t)| > 0 && Distinct(RightmostChain(t))
    ensures Addrs(t) == Addrs(DropRightmost(t)) + Elems(RightmostChain(t))
    ensures Elems(RightmostChain(t)) !! Addrs(DropRightmost(t))
  {
    if t.right.Node? {
      DropRightmostContents(t.right);
    } else if t.left.Node? {
      DropRightmostContents(t.left);
    }
  }

  lemma {:induction false} DropRightmostIsTrie(t: Tree, lo: int, w: nat)
    requires t.Node? && IsTrie(t, lo, w)
    ensures IsTrie(DropRightmost(t), lo, w)
    ensures lo <= RightmostSize(t) < lo + w
    ensures Sizes(t) == Sizes(DropRightmost(t)) + {RightmostSize(t)}
    ensures RightmostSize(t) !in Sizes(DropRightmost(t))
  {
    if t.right.Node? {
      DropRightmostIsTrie(t.right, lo + w / 2, w / 2);
      SizesInRange(t.left, lo, w / 2);
    } else if t.left.Node? {
      DropRightmostIsTrie(t.left, lo, w / 2);
    }
  }

  lemma {:induction false} DropRightmostSized(t: Tree, b: map<int, int>)
    requires t.Node? && Sized(t, b)
    ensures Sized(DropRightmost(t), b)
    ensures forall p :: p in RightmostChain(t) ==> p in b && b[p] == RightmostSize(t)
  {
    if t.right.Node? {
      DropRightmostSized(t.right, b);
    } else if t.left.Node? {
      DropRightmostSized(t.left, b);
    }
  }

  lemma WithoutContents(c: seq<int>, k: nat)
    requires Distinct(c) && k < |c|
    ensures Distinct(Without(c, k)) && Elems(Without(c, k)) == Elems(c) - {c[k]}
  {
    var d := Without(c, k);
    assert forall i :: 0 <= i < |d| ==> d[i] == if i < k then c[i] else c[i + 1];
    forall p | p in c && p != c[k]
      ensures p in d
    {
      var i := IndexOf(c, p);
      assert d[if i < k then i else i - 1] == p;
    }
  }

  lemma RotatedContents(c: seq<int>)
    requires Distinct(c) && |c| > 0
    ensures Distinct(Rotated(c)) && Elems(Rotated(c)) == Elems(c)
  {
    var d := Rotated(c);
    assert forall i :: 0 <= i < |d| ==> d[i] == c[Before(|c|, i)];
    assert c == c[..|c| - 1] + [c[|c| - 1]];
  }

  lemma ChainWithoutContents(c: seq<int>, x: int)
    requires Distinct(c) && x in c && |c| > 1
    ensures Distinct(ChainWithout(c, x)) && |ChainWithout(c, x)| == |c| - 1
    ensures Elems(ChainWithout(c, x)) == Elems(c) - {x}
  {
    WithoutContents(c, if c[0] == x then 0 else IndexOf(c, x));
    RotatedContents(Without(c, 0));
  }

  lemma ReplacementContents(l: Tree, r: Tree)
    requires NoRepeat(l) && NoRepeat(r) && Addrs(l) !! Addrs(r)
    ensures NoRepeat(Replacement(l, r))
    ensures Addrs(Replacement(l, r)) == Addrs(l) + Addrs(r)
  {
    if r.Node? {
      DropRightmostContents(r);
    } else if l.Node? {
      DropRightmostContents(l);
    }
    hide Elems, Distinct, RightmostChain, DropRightmost;
  }

  lemma {:induction false} RemoveContents(t: Tree, x: int)
    requires NoRepeat(t) && x in Addrs(t)
    ensures NoRepeat(Remove(t, x))
    ensures Addrs(Remove(t, x)) == Addrs(t) - {x}
  {
    var Node(c, s, l, r) := t;
    if x in c {
      if |c| > 1 {
        ChainWithoutContents(c, x);
      } else {
        assert c == [x];
        ReplacementContents(l, r);
      }
    } else if x in Addrs(l) {
      RemoveContents(l, x);
    } else {
      RemoveContents(r, x);
    }
    hide Distinct, ChainWithout, Replacement;
  }

  lemma {:induction false} RemoveIsTrie(t: Tree, x: int, lo: int, w: nat)
    requires IsTrie(t, lo, w)
    ensures IsTrie(Remove(t, x), lo, w)
    ensures Sizes(Remove(t, x)) <= Sizes(t)
  {
    match t
    case Leaf =>
    case Node(c, s, l, r) =>
      SizesInRange(l, lo, w / 2);
      SizesInRange(r, lo + w / 2, w / 2);
      if x in c {
        if |c| == 1 {
          if r.Node? {
            DropRightmostIsTrie(r, lo + w / 2, w / 2);
          } else if l.Node? {
            DropRightmostIsTrie(l, lo, w / 2);
          }
        }
      } else if x in Addrs(l) {
        RemoveIsTrie(l, x, lo, w / 2);
      } else {
        RemoveIsTrie(r, x, lo + w / 2, w / 2);
      }
  }

  lemma {:induction false} RemoveSized(t: Tree, x: int, b: map<int, int>)
    requires Sized(t, b) && NoRepeat(t) && x in Addrs(t)
    ensures Sized(Remove(t, x), b - {x})
  {
    var Node(c, s, l, r) := t;
    if x in c {
      SizedFrame(l, b, b - {x});
      SizedFrame(r, b, b - {x});
      if |c| > 1 {
        ChainWithoutContents(c, x);
      } else {
        if r.Node? {
          DropRightmostSized(r, b - {x});
        } else if l.Node? {
          DropRightmostSized(l, b - {x});
        }
      }
    } else if x in Addrs(l) {
      SizedFrame(r, b, b - {x});
      RemoveSized(l, x, b);
    } else {
      SizedFrame(l, b, b - {x});
      RemoveSized(r, x, b);
    }
  }

  // ---------------------------------------------------------------- search

  /** The least size along the walk that goes left where it can and right otherwise. */
  ghost function LeastSize(t: Tree): int
    requires t.Node?
  {
    var next := if t.left.Node? then t.left else t.right;
    if next.Node? && LeastSize(next) < t.size then LeastSize(next) else t.size
  }

  /** The leftmost walk passes the least size of the whole trie. */
  lemma {:induction false} LeastSizeIsLeast(t: Tree, lo: int, w: nat)
    requires t.Node? && IsTrie(t, lo, w)
    ensures LeastSize(t) in Sizes(t)
    ensures forall s :: s in Sizes(t) ==> LeastSize(t) <= s
  {
    if t.left.Node? {
      LeastSizeIsLeast(t.left, lo, w / 2);
      SizesInRange(t.left, lo, w / 2);
      SizesInRange(t.right, lo + w / 2, w / 2);
    } else if t.right.Node? {
      LeastSizeIsLeast(t.right, lo + w / 2, w / 2);
    }
  }
}
