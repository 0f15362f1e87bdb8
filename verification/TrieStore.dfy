/** How a trie lies in the store: the parent, child, ring and index words of its chunks. */
module TrieStore {
  import opened Common
  import opened Memory
  import opened Rings
  import opened Tries

  /** The chunks of one node: a ring of which only the leader has tree pointers. */
  ghost predicate ChainStored(m: Mem, c: seq<int>, i: int) {
    && Ring(m, c)
    && (forall k :: 0 <= k < |c| ==> Index(m, c[k]) == i)
    && (forall k :: 1 <= k < |c| ==>
          Parent(m, c[k]) == 0 && Child(m, c[k], false) == 0 && Child(m, c[k], true) == 0)
  }

  /** The words of `m` reached from `a` spell out `t`, whose root has parent pointer `par` and whose chunks all
      carry the bin index `i`. */
  ghost predicate Stored(m: Mem, t: Tree, a: int, par: int, i: int) {
    match t
    case Leaf => a == 0
    case Node(c, _, l, r) =>
      && |c| > 0 && a == c[0] && a != 0 && par != 0
      && ChainStored(m, c, i)
      && Parent(m, a) == par
      && Stored(m, l, Child(m, a, false), a, i)
      && Stored(m, r, Child(m, a, true), a, i)
  }

  /** Chunks this far apart have disjoint link words. */
  ghost predicate Apart(s: set<int>) {
    forall p, q :: p in s && q in s && p != q ==> p + 64 <= q || q + 64 <= p
  }

  lemma ChainFrame(m: Mem, n: Mem, c: seq<int>, i: int)
    requires ChainStored(m, c, i)
    requires forall p :: p in Elems(c) ==> SameLinks(m, n, p)
    ensures ChainStored(n, c, i)
  {
    forall k | 0 <= k < |c|
      ensures SameLinks(m, n, c[k])
    {
      assert c[k] in Elems(c);
    }
    RingFrame(m, n, c);
    hide Ring;
  }

  lemma {:induction false} StoredFrame(m: Mem, n: Mem, t: Tree, a: int, par: int, i: int)
    requires Stored(m, t, a, par, i)
    requires forall p :: p in Addrs(t) ==> SameLinks(m, n, p)
    ensures Stored(n, t, a, par, i)
  {
    match t
    case Leaf =>
    case Node(c, _, l, r) =>
      assert a in Elems(c);
      ChainFrame(m, n, c, i);
      StoredFrame(m, n, l, Child(m, a, false), a, i);
      StoredFrame(m, n, r, Child(m, a, true), a, i);
      hide ChainStored, Elems;
  }

  /** The address of a child pointer. */
  function SlotOf(p: int, turn: bool): int {
    p + if turn then CHILD1 else CHILD0
  }

  function ClearChild(m: Mem, q: int, turn: bool): Mem {
    m[SlotOf(q, turn) := 0]
  }

  // ---------------------------------------------------------------- paths

  /** A path of turns, true for right. */
  ghost predicate OnPath(t: Tree, path: seq<bool>) {
    path == [] || (t.Node? && OnPath(if path[0] then t.right else t.left, path[1..]))
  }

  ghost function At(t: Tree, path: seq<bool>): Tree
    requires OnPath(t, path)
  {
    if path == [] then t else At(if path[0] then t.right else t.left, path[1..])
  }

  ghost function Put(t: Tree, path: seq<bool>, sub: Tree): Tree
    requires OnPath(t, path)
  {
    if path == [] then sub
    else if path[0] then Node(t.chain, t.size, t.left, Put(t.right, path[1..], sub))
    else Node(t.chain, t.size, Put(t.left, path[1..], sub), t.right)
  }

  /** The pointer that leads to the subtree at the end of `path`, and the parent of that subtree. */
  ghost function PtrAt(m: Mem, t: Tree, a: int, par: int, path: seq<bool>): (int, int)
    requires OnPath(t, path)
  {
    if path == [] then (a, par)
    else PtrAt(m, if path[0] then t.right else t.left, Child(m, a, path[0]), a, path[1..])
  }

  lemma {:induction false} StoredAt(m: Mem, t: Tree, a: int, par: int, i: int, path: seq<bool>)
    requires Stored(m, t, a, par, i) && OnPath(t, path) && NoRepeat(t)
    ensures var (b, q) := PtrAt(m, t, a, par, path); Stored(m, At(t, path), b, q, i)
    ensures Addrs(At(t, path)) <= Addrs(t) && NoRepeat(At(t, path))
  {
    if path != [] {
      StoredAt(m, if path[0] then t.right else t.left, Child(m, a, path[0]), a, i, path[1..]);
    }
  }

  lemma {:induction false} SizedAt(t: Tree, path: seq<bool>, b: map<int, int>)
    requires Sized(t, b) && OnPath(t, path)
    ensures Sized(At(t, path), b)
  {
    if path != [] {
      SizedAt(if path[0] then t.right else t.left, path[1..], b);
    }
  }

  /** Extending a path by one turn. */
  lemma {:induction false} Extend(m: Mem, t: Tree, a: int, par: int, path: seq<bool>, turn: bool)
    requires OnPath(t, path) && At(t, path).Node?
    ensures OnPath(t, path + [turn])
    ensures At(t, path + [turn]) == if turn then At(t, path).right else At(t, path).left
    ensures var (b, q) := PtrAt(m, t, a, par, path);
            PtrAt(m, t, a, par, path + [turn]) == (Child(m, b, turn), b)
    ensures forall sub :: Put(t, path + [turn], sub) ==
              Put(t, path, var n := At(t, path);
                           if turn then Node(n.chain, n.size, n.left, sub)
                           else Node(n.chain, n.size, sub, n.right))
  {
    if path == [] {
      assert (path + [turn])[1..] == [];
    } else {
      assert (path + [turn])[1..] == path[1..] + [turn];
      Extend(m, if path[0] then t.right else t.left, Child(m, a, path[0]), a, path[1..], turn);
    }
  }

  /** Rewriting the subtree at the end of a path, root pointer unchanged, rewrites the whole. */
  lemma {:induction false} StoredPut(m: Mem, n: Mem, t: Tree, a: int, par: int, i: int, path: seq<bool>, sub: Tree)
    requires Stored(m, t, a, par, i) && OnPath(t, path) && NoRepeat(t)
    requires forall p :: p in Addrs(t) && p !in Addrs(At(t, path)) ==> SameLinks(m, n, p)
    requires var (b, q) := PtrAt(m, t, a, par, path); Stored(n, sub, b, q, i)
    ensures Stored(n, Put(t, path, sub), a, par, i)
  {
    if path != [] {
      var next, other := if path[0] then t.right else t.left, if path[0] then t.left else t.right;
      StoredAt(m, next, Child(m, a, path[0]), a, i, path[1..]);
      assert a in Elems(t.chain);
      ChainFrame(m, n, t.chain, i);
      StoredPut(m, n, next, Child(m, a, path[0]), a, i, path[1..], sub);
      StoredFrame(m, n, other, Child(m, a, !path[0]), a, i);
    }
  }

  // ---------------------------------------------------------------- insertion

  /** A descent for size `s` goes down `path`: no node on the way has that size, and each turn is the half that
      holds it. */
  ghost predicate Follows(t: Tree, path: seq<bool>, s: int, lo: int, w: nat) {
    path == [] ||
    (&& t.Node? && t.size != s
     && (path[0] <==> s >= lo + w / 2)
     && Follows(if path[0] then t.right else t.left, path[1..], s, if path[0] then lo + w / 2 else lo, w / 2))
  }

  ghost function LoAt(path: seq<bool>, lo: int, w: nat): int {
    if path == [] then lo else LoAt(path[1..], if path[0] then lo + w / 2 else lo, w / 2)
  }

  ghost function WidthAt(path: seq<bool>, w: nat): nat {
    if path == [] then w else WidthAt(path[1..], w / 2)
  }

  lemma {:induction false} FollowsOnPath(t: Tree, path: seq<bool>, s: int, lo: int, w: nat)
    requires Follows(t, path, s, lo, w)
    ensures OnPath(t, path)
  {
    if path != [] {
      FollowsOnPath(if path[0] then t.right else t.left, path[1..], s, if path[0] then lo + w / 2 else lo, w / 2);
    }
  }

  lemma {:induction false} FollowsExtend(t: Tree, path: seq<bool>, s: int, lo: int, w: nat)
    requires Follows(t, path, s, lo, w) && OnPath(t, path)
    requires At(t, path).Node? && At(t, path).size != s
    ensures var l, v := LoAt(path, lo, w), WidthAt(path, w);
            var turn := s >= l + v / 2;
            && Follows(t, path + [turn], s, lo, w)
            && LoAt(path + [turn], lo, w) == (if turn then l + v / 2 else l)
            && WidthAt(path + [turn], w) == v / 2
  {
    var turn := s >= LoAt(path, lo, w) + WidthAt(path, w) / 2;
    if path == [] {
      assert (path + [turn])[1..] == [];
    } else {
      assert (path + [turn])[1..] == path[1..] + [turn];
      FollowsExtend(if path[0] then t.right else t.left, path[1..], s, if path[0] then lo + w / 2 else lo, w / 2);
    }
  }

  /** Inserting in the whole trie is inserting where the descent has come to. */
  lemma {:induction false} InsertIsPut(t: Tree, path: seq<bool>, x: int, s: int, lo: int, w: nat)
    requires Follows(t, path, s, lo, w) && OnPath(t, path)
    ensures Insert(t, x, s, lo, w) == Put(t, path, Insert(At(t, path), x, s, LoAt(path, lo, w), WidthAt(path, w)))
  {
    if path != [] {
      InsertIsPut(if path[0] then t.right else t.left, path[1..], x, s, if path[0] then lo + w / 2 else lo, w / 2);
    }
  }

  lemma {:induction false} TrieAt(t: Tree, path: seq<bool>, lo: int, w: nat)
    requires IsTrie(t, lo, w) && OnPath(t, path)
    ensures IsTrie(At(t, path), LoAt(path, lo, w), WidthAt(path, w))
  {
    if path != [] {
      TrieAt(if path[0] then t.right else t.left, path[1..], if path[0] then lo + w / 2 else lo, w / 2);
    }
  }

  /** A chunk linked to itself, with no children, is a stored leaf. */
  lemma SingletonStored(n: Mem, x: int, s: int, par: int, i: int)
    requires x != 0 && x % 16 == 0 && par != 0
    requires Fd(n, x) == x && Bk(n, x) == x && Parent(n, x) == par && Index(n, x) == i
    requires Child(n, x, false) == 0 && Child(n, x, true) == 0
    ensures Stored(n, Node([x], s, Leaf, Leaf), x, par, i)
  {
    assert LinkedAt(n, [x], 0);
  }

  /** Linking `x` into the ring of a node. */
  lemma ChainInsertStored(m: Mem, n: Mem, t: Tree, a: int, par: int, i: int, x: int)
    requires t.Node? && Stored(m, t, a, par, i) && NoRepeat(t)
    requires x !in Addrs(t) && x % 16 == 0 && x > 0 && Apart(Addrs(t) + {x})
    requires Index(m, x) == i && Child(m, x, false) == 0 && Child(m, x, true) == 0
    requires n == LinkBetween(m, a, Fd(m, a), x)[x + PARENT := 0]
    ensures Stored(n, Node(WithSecond(t.chain, x), t.size, t.left, t.right), a, par, i)
  {
    var c := t.chain;
    assert x !in Elems(c) && a in Elems(c);
    assert Fd(m, a) in Elems(c) by {
      assert LinkedAt(m, c, 0);
    }
    assert Apart(Elems(c) + {x}) by {
      assert Elems(c) <= Addrs(t);
    }
    ChainInsertChain(m, n, c, i, x);
    var all := Addrs(t) + {x};
    assert a in all && Fd(m, a) in all && x in all;
    forall p | p in Addrs(t)
      ensures Parent(m, p) == Parent(n, p)
      ensures Child(m, p, false) == Child(n, p, false) && Child(m, p, true) == Child(n, p, true)
      ensures p !in Elems(c) ==> SameLinks(m, n, p)
    {
      hide LinkBetween, Elems, SameLinks;
      assert p in all;
      StoresApart(m, n, a, Fd(m, a), x, p);
    }
    hide ChainStored, LinkBetween, Elems, Apart;
    StoredFrame(m, n, t.left, Child(m, a, false), a, i);
    StoredFrame(m, n, t.right, Child(m, a, true), a, i);
  }

  lemma ChainInsertChain(m: Mem, n: Mem, c: seq<int>, i: int, x: int)
    requires ChainStored(m, c, i) && x !in c && x % 16 == 0 && Apart(Elems(c) + {x})
    requires Index(m, x) == i && Child(m, x, false) == 0 && Child(m, x, true) == 0
    requires n == LinkBetween(m, c[0], Fd(m, c[0]), x)[x + PARENT := 0]
    ensures ChainStored(n, WithSecond(c, x), i)
  {
    var a, f, d := c[0], Fd(m, c[0]), WithSecond(c, x);
    var n1 := LinkBetween(m, a, f, x);
    RingInsert(m, c, x);
    assert f in Elems(c) by {
      assert LinkedAt(m, c, 0);
    }
    assert forall k :: 2 <= k < |d| ==> d[k] == c[k - 1];
    var all := Elems(c) + {x};
    assert a in all && f in all && x in all && a != x && f != x;
    hide Ring, LinkBetween, WithSecond;
    forall k | 0 <= k < |d|
      ensures Fd(n1, d[k]) == Fd(n, d[k]) && Bk(n1, d[k]) == Bk(n, d[k])
      ensures Index(n, d[k]) == i
      ensures k > 0 ==> Parent(n, d[k]) == 0 && Child(n, d[k], false) == 0 && Child(n, d[k], true) == 0
    {
      if k == 1 {
        OwnStores(m, n, a, f, x);
      } else {
        assert d[k] == c[if k == 0 then 0 else k - 1];
        assert d[k] in Elems(c) && d[k] in all && d[k] != x;
        StoresApart(m, n, a, f, x, d[k]);
      }
      hide SameLinks;
    }
    RingFrame(n1, n, d);
  }

  lemma OwnStores(m: Mem, n: Mem, b: int, f: int, x: int)
    requires n == LinkBetween(m, b, f, x)[x + PARENT := 0]
    requires b + 64 <= x || x + 64 <= b
    requires f + 64 <= x || x + 64 <= f
    ensures Fd(LinkBetween(m, b, f, x), x) == Fd(n, x) && Bk(LinkBetween(m, b, f, x), x) == Bk(n, x)
    ensures Parent(n, x) == 0 && Index(n, x) == Index(m, x)
    ensures Child(m, x, false) == Child(n, x, false) && Child(m, x, true) == Child(n, x, true)
  {
  }

  lemma StoresApart(m: Mem, n: Mem, b: int, f: int, x: int, p: int)
    requires n == LinkBetween(m, b, f, x)[x + PARENT := 0]
    requires p + 64 <= x || x + 64 <= p
    requires p == b || p + 64 <= b || b + 64 <= p
    requires p == f || p + 64 <= f || f + 64 <= p
    ensures Parent(m, p) == Parent(n, p) && Index(m, p) == Index(n, p)
    ensures Child(m, p, false) == Child(n, p, false) && Child(m, p, true) == Child(n, p, true)
    ensures Fd(LinkBetween(m, b, f, x), p) == Fd(n, p) && Bk(LinkBetween(m, b, f, x), p) == Bk(n, p)
    ensures p != b && p != f ==> SameLinks(m, n, p)
  {
  }

  /** Hanging a new leaf from an empty child pointer. */
  lemma LeafInsertStored(m: Mem, n: Mem, t: Tree, a: int, par: int, i: int, turn: bool, x: int, s: int)
    requires t.Node? && Stored(m, t, a, par, i) && NoRepeat(t)
    requires x !in Addrs(t) && x % 16 == 0 && x > 0
    requires Child(m, a, turn) == 0
    requires Stored(n, Node([x], s, Leaf, Leaf), x, a, i)
    requires Child(n, a, turn) == x && Child(n, a, !turn) == Child(m, a, !turn)
    requires Fd(n, a) == Fd(m, a) && Bk(n, a) == Bk(m, a) && Parent(n, a) == Parent(m, a) && Index(n, a) == Index(m, a)
    requires forall p :: p in Addrs(t) && p != a ==> SameLinks(m, n, p)
    ensures (if turn then t.right else t.left) == Leaf
    ensures Stored(n, Node(t.chain, t.size, if turn then t.left else Node([x], s, Leaf, Leaf),
                           if turn then Node([x], s, Leaf, Leaf) else t.right), a, par, i)
  {
    var c := t.chain;
    assert a in Elems(c);
    forall k | 0 <= k < |c|
      ensures Fd(m, c[k]) == Fd(n, c[k]) && Bk(m, c[k]) == Bk(n, c[k])
      ensures k > 0 ==> SameLinks(m, n, c[k])
    {
      assert c[k] in Elems(c);
    }
    RingFrame(m, n, c);
    if turn {
      StoredFrame(m, n, t.left, Child(m, a, false), a, i);
    } else {
      StoredFrame(m, n, t.right, Child(m, a, true), a, i);
    }
    hide Ring, Elems;
  }

  // ---------------------------------------------------------------- removal

  ghost predicate SameTreeWords(m: Mem, n: Mem, p: int) {
    && Child(m, p, false) == Child(n, p, false)
    && Child(m, p, true) == Child(n, p, true)
    && Parent(m, p) == Parent(n, p)
    && Index(m, p) == Index(n, p)
  }

  lemma UnlinkApart(m: Mem, b: int, f: int, p: int)
    requires p == b || p + 64 <= b || b + 64 <= p
    requires p == f || p + 64 <= f || f + 64 <= p
    ensures SameTreeWords(m, UnlinkBetween(m, b, f), p)
    ensures p != b && p != f ==> SameLinks(m, UnlinkBetween(m, b, f), p)
  {
  }

  /** Taking `x` out of a chain of several chunks.  When it was the leader, the new leader starts with the null
      tree pointers of a chain member. */
  lemma ChainRemoveStored(m: Mem, c: seq<int>, i: int, x: int)
    requires ChainStored(m, c, i) && |c| > 1 && x in c && Apart(Elems(c))
    ensures var n := UnlinkBetween(m, Bk(m, x), Fd(m, x));
            var d := ChainWithout(c, x);
            && ChainStored(n, d, i)
            && Bk(m, x) in Elems(c) && Fd(m, x) in Elems(c)
            && Bk(m, x) != x
            && (x == c[0] ==> d[0] == Bk(m, x) && Child(n, d[0], false) == 0 && Child(n, d[0], true) == 0)
            && (x != c[0] ==> d[0] == c[0])
  {
    var k := IndexOf(c, x);
    var b, f := Bk(m, x), Fd(m, x);
    assert LinkedAt(m, c, k);
    var n := UnlinkBetween(m, b, f);
    var d := ChainWithout(c, x);
    RingRemove(m, c, k);
    if x == c[0] {
      RingRotate(n, Without(c, 0));
    }
    assert b in Elems(c) && f in Elems(c);
    forall j | 0 <= j < |d|
      ensures Index(n, d[j]) == i
      ensures j > 0 || x == c[0] ==> Parent(n, d[j]) == 0 && Child(n, d[j], false) == 0 && Child(n, d[j], true) == 0
    {
      var l := ChainWithoutAt(c, x, j);
      assert c[l] in Elems(c);
      UnlinkApart(m, b, f, c[l]);
      hide SameLinks, UnlinkBetween, Ring;
    }
  }

  /** Where the `j`th chunk of the shortened chain stood. */
  lemma ChainWithoutAt(c: seq<int>, x: int, j: nat) returns (l: nat)
    requires Distinct(c) && x in c && |c| > 1 && j < |c| - 1
    ensures |ChainWithout(c, x)| == |c| - 1
    ensures l < |c| && ChainWithout(c, x)[j] == c[l] && c[l] != x
    ensures x == c[0] || j > 0 ==> l > 0
    ensures x != c[0] && j == 0 ==> l == 0
    ensures x == c[0] && j == 0 ==> l == |c| - 1
  {
    var k := IndexOf(c, x);
    if x == c[0] {
      l := if j == 0 then |c| - 1 else j;
    } else {
      l := if j < k then j else j + 1;
    }
  }

  /** The parent and the turn at which the rightmost walk below `a` reaches its leaf. */
  ghost function RightmostSlot(m: Mem, t: Tree, a: int): (int, bool)
    requires t.Node? && (t.left.Node? || t.right.Node?)
  {
    var turn := t.right.Node?;
    var next := if turn then t.right else t.left;
    if next.left.Node? || next.right.Node? then RightmostSlot(m, next, Child(m, a, turn)) else (a, turn)
  }

  /** Clearing one child pointer disturbs no other link. */
  lemma ClearApart(m: Mem, q: int, turn: bool, p: int)
    requires p == q || p + 64 <= q || q + 64 <= p
    ensures var n := ClearChild(m, q, turn);
            && Child(n, q, turn) == 0
            && (p != q ==> SameLinks(m, n, p))
            && Fd(m, p) == Fd(n, p) && Bk(m, p) == Bk(n, p)
            && Child(m, q, !turn) == Child(n, q, !turn)
            && Parent(m, p) == Parent(n, p) && Index(m, p) == Index(n, p)
  {
  }

  lemma SlotInTree(m: Mem, t: Tree, a: int, par: int, i: int)
    requires t.Node? && (t.left.Node? || t.right.Node?)
    requires Stored(m, t, a, par, i)
    ensures RightmostSlot(m, t, a).0 in Addrs(t)
  {
    var turn := t.right.Node?;
    var next := if turn then t.right else t.left;
    if next.left.Node? || next.right.Node? {
      SlotInTree(m, next, Child(m, a, turn), a, i);
    } else {
      assert a in Elems(t.chain);
    }
  }

  lemma ClearFrame(m: Mem, t: Tree, q: int, turn: bool)
    requires Apart(Addrs(t)) && q in Addrs(t)
    ensures var n := ClearChild(m, q, turn);
            && Child(n, q, turn) == 0 && Child(m, q, !turn) == Child(n, q, !turn)
            && (forall p :: p in Addrs(t) ==> Fd(m, p) == Fd(n, p) && Bk(m, p) == Bk(n, p)
                                              && Index(m, p) == Index(n, p))
            && (forall p :: p in Addrs(t) ==> Parent(m, p) == Parent(n, p))
            && (forall p :: p in Addrs(t) && p != q ==> SameLinks(m, n, p))
  {
    ClearApart(m, q, turn, q);
    forall p | p in Addrs(t)
      ensures Fd(m, p) == Fd(ClearChild(m, q, turn), p) && Bk(m, p) == Bk(ClearChild(m, q, turn), p)
      ensures Index(m, p) == Index(ClearChild(m, q, turn), p) && Parent(m, p) == Parent(ClearChild(m, q, turn), p)
      ensures p != q ==> SameLinks(m, ClearChild(m, q, turn), p)
    {
      ClearApart(m, q, turn, p);
      hide ClearChild, SameLinks;
    }
  }

  /** Clearing the pointer to the rightmost leaf takes that leaf, and nothing else, out of the trie. */
  lemma {:induction false} DropRightmostStored(m: Mem, t: Tree, a: int, par: int, i: int)
    requires t.Node? && (t.left.Node? || t.right.Node?)
    requires Stored(m, t, a, par, i) && NoRepeat(t) && Apart(Addrs(t))
    ensures var (q, turn) := RightmostSlot(m, t, a);
            Stored(ClearChild(m, q, turn), DropRightmost(t), a, par, i)
    decreases t, 1
  {
    hide ClearChild, ChainStored, Ring, Apart, Distinct;
    var (q, turn) := RightmostSlot(m, t, a);
    SlotInTree(m, t, a, par, i);
    ClearFrame(m, t, q, turn);
    assert a in Elems(t.chain);
    if t.right.Node? {
      if t.right.left.Node? || t.right.right.Node? {
        SlotInTree(m, t.right, Child(m, a, true), a, i);
        DropBelow(m, t, a, par, i, true);
      } else {
        DropHere(m, t, a, par, i, true);
      }
    } else if t.left.left.Node? || t.left.right.Node? {
      SlotInTree(m, t.left, Child(m, a, false), a, i);
      DropBelow(m, t, a, par, i, false);
    } else {
      DropHere(m, t, a, par, i, false);
    }
  }

  lemma DropHere(m: Mem, t: Tree, a: int, par: int, i: int, turn: bool)
    requires t.Node? && (t.left.Node? || t.right.Node?) && turn == t.right.Node?
    requires RightmostSlot(m, t, a) == (a, turn)
    requires DropRightmost(t) == Node(t.chain, t.size, if turn then t.left else Leaf, Leaf)
    requires Stored(m, t, a, par, i) && NoRepeat(t) && Apart(Addrs(t))
    ensures Stored(ClearChild(m, a, turn), DropRightmost(t), a, par, i)
  {
    hide ClearChild, ChainStored, Ring, Apart, Distinct;
    var n := ClearChild(m, a, turn);
    assert a in Elems(t.chain);
    ClearFrame(m, t, a, turn);
    ChainTailFrame(m, n, t.chain, i);
    if turn {
      StoredFrame(m, n, t.left, Child(m, a, false), a, i);
    }
  }

  lemma {:induction false} DropBelow(m: Mem, t: Tree, a: int, par: int, i: int, turn: bool)
    requires t.Node? && (t.left.Node? || t.right.Node?) && turn == t.right.Node?
    requires var next := if turn then t.right else t.left;
             && (next.left.Node? || next.right.Node?)
             && RightmostSlot(m, next, Child(m, a, turn)) == RightmostSlot(m, t, a)
             && RightmostSlot(m, t, a).0 in Addrs(next)
    requires Stored(m, t, a, par, i) && NoRepeat(t) && Apart(Addrs(t))
    ensures var (q, b) := RightmostSlot(m, t, a);
            Stored(ClearChild(m, q, b), DropRightmost(t), a, par, i)
    decreases t, 0
  {
    hide ClearChild, ChainStored, Ring, Apart, Distinct;
    var (q, b) := RightmostSlot(m, t, a);
    var n := ClearChild(m, q, b);
    var next := if turn then t.right else t.left;
    ClearFrame(m, t, q, b);
    assert a in Elems(t.chain);
    ChainFrame(m, n, t.chain, i);
    ApartSubset(Addrs(next), Addrs(t));
    DropRightmostStored(m, next, Child(m, a, turn), a, i);
    if turn {
      StoredFrame(m, n, t.left, Child(m, a, false), a, i);
    }
  }

  lemma ApartSubset(s: set<int>, u: set<int>)
    requires s <= u && Apart(u)
    ensures Apart(s)
  {
  }

  /** A chain keeps its form when only the leader's tree pointers change. */
  lemma ChainTailFrame(m: Mem, n: Mem, c: seq<int>, i: int)
    requires ChainStored(m, c, i)
    requires forall p :: p in Elems(c) ==> Fd(m, p) == Fd(n, p) && Bk(m, p) == Bk(n, p) && Index(m, p) == Index(n, p)
    requires forall p :: p in Elems(c) && p != c[0] ==> SameLinks(m, n, p)
    ensures ChainStored(n, c, i)
  {
    forall k | 0 <= k < |c|
      ensures c[k] in Elems(c)
    {
    }
    RingFrame(m, n, c);
  }

  /** The stores that hand the place of `x` in the tree to `r`: its parent, and each child it has. */
  function Adopted(m: Mem, x: int, par: int, r: int): Mem {
    var m1 := m[r + PARENT := par];
    var c0 := Child(m1, x, false);
    var m2 := if c0 != 0 then m1[r + CHILD0 := c0][c0 + PARENT := r] else m1;
    var c1 := Child(m2, x, true);
    if c1 != 0 then m2[r + CHILD1 := c1][c1 + PARENT := r] else m2
  }

  ghost predicate Clear(p: int, q: int) {
    p + 64 <= q || q + 64 <= p
  }

  /** What `Adopted` writes, word by word. */
  lemma AdoptedWords(m: Mem, x: int, par: int, r: int, c0: int, c1: int, p: int)
    requires c0 == Child(m, x, false) && c1 == Child(m, x, true)
    requires Clear(x, r) && (p == r || Clear(p, r))
    requires c0 != 0 ==> Clear(c0, x) && Clear(c0, r) && (p == c0 || Clear(p, c0))
    requires c1 != 0 ==> Clear(c1, x) && Clear(c1, r) && (p == c1 || Clear(p, c1))
    requires c0 != 0 && c1 != 0 ==> Clear(c0, c1)
    requires Child(m, r, false) == 0 && Child(m, r, true) == 0
    ensures var n := Adopted(m, x, par, r);
            && Fd(n, p) == Fd(m, p) && Bk(n, p) == Bk(m, p) && Index(n, p) == Index(m, p)
            && (p == r ==> Parent(n, p) == par && Child(n, p, false) == c0 && Child(n, p, true) == c1)
            && (p != r ==> Child(n, p, false) == Child(m, p, false) && Child(n, p, true) == Child(m, p, true))
            && (p != r && (c0 != 0 ==> p != c0) && (c1 != 0 ==> p != c1) ==> Parent(n, p) == Parent(m, p))
            && (p != r && ((c0 != 0 && p == c0) || (c1 != 0 && p == c1)) ==> Parent(n, p) == r)
  {
  }

  /** A subtree moved under a new parent: only its root's parent word changes. */
  lemma ReparentStored(m: Mem, n: Mem, t: Tree, a: int, par: int, par': int, i: int)
    requires Stored(m, t, a, par, i) && par' != 0 && NoRepeat(t)
    requires t.Node? ==> Parent(n, a) == par'
    requires forall p :: p in Addrs(t) ==>
               Fd(m, p) == Fd(n, p) && Bk(m, p) == Bk(n, p) && Index(m, p) == Index(n, p)
               && Child(m, p, false) == Child(n, p, false) && Child(m, p, true) == Child(n, p, true)
    requires forall p :: p in Addrs(t) && p != a ==> Parent(m, p) == Parent(n, p)
    ensures Stored(n, t, a, par', i)
  {
    if t.Node? {
      hide ChainStored, Distinct;
      assert a in Elems(t.chain);
      ChainTailFrame(m, n, t.chain, i);
      StoredFrame(m, n, t.left, Child(m, a, false), a, i);
      StoredFrame(m, n, t.right, Child(m, a, true), a, i);
    }
  }

  lemma RootOf(m: Mem, t: Tree, a: int, par: int, i: int)
    requires Stored(m, t, a, par, i)
    ensures t.Node? <==> a != 0
    ensures t.Node? ==> a in Addrs(t)
  {
    if t.Node? {
      assert a in Elems(t.chain);
    }
  }

  /** The chain `d` with leader `r` takes the place of `x` above the subtrees `lt` and `rt`. */
  lemma AdoptStored(m: Mem, x: int, par: int, r: int, d: seq<int>, s: int, lt: Tree, rt: Tree, i: int)
    requires ChainStored(m, d, i) && d[0] == r && r != 0 && par != 0
    requires Child(m, r, false) == 0 && Child(m, r, true) == 0
    requires Stored(m, lt, Child(m, x, false), x, i) && Stored(m, rt, Child(m, x, true), x, i)
    requires NoRepeat(Node(d, s, lt, rt)) && x !in Addrs(Node(d, s, lt, rt))
    requires Apart(Addrs(Node(d, s, lt, rt)) + {x})
    ensures Stored(Adopted(m, x, par, r), Node(d, s, lt, rt), r, par, i)
  {
    hide ChainStored, Adopted, Distinct;
    var t := Node(d, s, lt, rt);
    var n := Adopted(m, x, par, r);
    var c0, c1 := Child(m, x, false), Child(m, x, true);
    assert r in Elems(d);
    RootOf(m, lt, c0, x, i);
    RootOf(m, rt, c1, x, i);
    var all := Addrs(t) + {x};
    assert r in all && x in all && (c0 != 0 ==> c0 in all) && (c1 != 0 ==> c1 in all);
    forall p | p in Addrs(t)
      ensures Fd(m, p) == Fd(n, p) && Bk(m, p) == Bk(n, p) && Index(m, p) == Index(n, p)
      ensures p != r ==> Child(n, p, false) == Child(m, p, false) && Child(n, p, true) == Child(m, p, true)
      ensures p != r && (c0 != 0 ==> p != c0) && (c1 != 0 ==> p != c1) ==> Parent(n, p) == Parent(m, p)
      ensures p == r ==> Parent(n, p) == par && Child(n, p, false) == c0 && Child(n, p, true) == c1
      ensures p != r && ((c0 != 0 && p == c0) || (c1 != 0 && p == c1)) ==> Parent(n, p) == r
    {
      hide Stored, NoRepeat;
      assert p in all;
      AdoptedWords(m, x, par, r, c0, c1, p);
    }
    hide Apart;
    ChainTailFrame(m, n, d, i);
    ReparentStored(m, n, lt, c0, x, r, i);
    ReparentStored(m, n, rt, c1, x, r, i);
  }

  /** Rewriting the subtree at the end of a path and the pointer that leads to it. */
  lemma StoredPutRoot(m: Mem, n: Mem, t: Tree, a: int, par: int, i: int, path: seq<bool>, turn: bool,
                      sub: Tree, r: int)
    requires Stored(m, t, a, par, i) && OnPath(t, path) && At(t, path).Node? && NoRepeat(t)
    requires OnPath(t, path + [turn])
    requires var xp := PtrAt(m, t, a, par, path).0;
             && Child(n, xp, turn) == r && Child(n, xp, !turn) == Child(m, xp, !turn)
             && Fd(n, xp) == Fd(m, xp) && Bk(n, xp) == Bk(m, xp)
             && Parent(n, xp) == Parent(m, xp) && Index(n, xp) == Index(m, xp)
             && Stored(n, sub, r, xp, i)
             && (forall p :: p in Addrs(t) && p !in Addrs(At(t, path + [turn])) && p != xp ==> SameLinks(m, n, p))
    ensures Stored(n, Put(t, path + [turn], sub), a, par, i)
  {
    hide ChainStored, Distinct;
    var (xp, q) := PtrAt(m, t, a, par, path);
    StoredAt(m, t, a, par, i, path);
    Extend(m, t, a, par, path, turn);
    var u := At(t, path);
    assert xp in Elems(u.chain);
    ChainTailFrame(m, n, u.chain, i);
    if turn {
      StoredFrame(m, n, u.left, Child(m, xp, false), xp, i);
    } else {
      StoredFrame(m, n, u.right, Child(m, xp, true), xp, i);
    }
    StoredPut(m, n, t, a, par, i, path,
              if turn then Node(u.chain, u.size, u.left, sub) else Node(u.chain, u.size, sub, u.right));
  }

  // ---------------------------------------------------------------- where a chunk sits

  ghost function PathTo(t: Tree, x: int): seq<bool>
    requires x in Addrs(t)
  {
    if x in t.chain then []
    else if x in Addrs(t.left) then [false] + PathTo(t.left, x)
    else [true] + PathTo(t.right, x)
  }

  lemma {:induction false} PathToLeads(t: Tree, x: int)
    requires x in Addrs(t)
    ensures OnPath(t, PathTo(t, x)) && At(t, PathTo(t, x)).Node? && x in At(t, PathTo(t, x)).chain
    ensures Remove(t, x) == Put(t, PathTo(t, x), Remove(At(t, PathTo(t, x)), x))
  {
    if x in t.chain {
    } else if x in Addrs(t.left) {
      PathToLeads(t.left, x);
    } else {
      assert x !in Elems(t.chain);
      PathToLeads(t.right, x);
    }
  }
}
