/** Why `unlink_large_chunk` keeps the bins well formed. */
module TreeRemoval {
  import opened Common
  import opened Memory
  import opened Rings
  import opened Tries
  import opened TrieStore
  import opened TreeIndex
  import opened BinMaps
  import opened Bins
  import opened TreeInsertion

  /** The trie of tree bin `i` as it lies in the store, its chunks apart from one another. */
  ghost predicate InTree(m: Mem, tree: Tree, i: int) {
    && Stored(m, tree, Rd(m, TreeBinAt(i)), TreeBinAt(i), i)
    && NoRepeat(tree) && Apart(Addrs(tree))
    && (forall p :: p in Addrs(tree) ==> HEAP_MIN <= p)
    && 0 < TreeBinAt(i) < HEAP_MIN
  }

  /** The node that holds `x`. */
  ghost function NodeOf(tree: Tree, x: int): (u: Tree)
    requires x in Addrs(tree)
    ensures u.Node? && x in u.chain
  {
    PathToLeads(tree, x);
    At(tree, PathTo(tree, x))
  }

  ghost function ParentOf(m: Mem, tree: Tree, i: int, x: int): int
    requires x in Addrs(tree)
  {
    PathToLeads(tree, x);
    PtrAt(m, tree, Rd(m, TreeBinAt(i)), TreeBinAt(i), PathTo(tree, x)).1
  }

  /** What the words of `x` say about its place. */
  lemma Located(m: Mem, tree: Tree, i: int, x: int)
    requires InTree(m, tree, i) && x in Addrs(tree)
    ensures OnPath(tree, PathTo(tree, x))
    ensures var u := NodeOf(tree, x);
            && NoRepeat(u) && Addrs(u) <= Addrs(tree)
            && Stored(m, u, u.chain[0], ParentOf(m, tree, i, x), i)
            && Index(m, x) == i
            && PtrAt(m, tree, Rd(m, TreeBinAt(i)), TreeBinAt(i), PathTo(tree, x)).0 == u.chain[0]
            && Parent(m, x) == (if x == u.chain[0] then ParentOf(m, tree, i, x) else 0)
            && (Bk(m, x) != x <==> |u.chain| > 1)
            && Bk(m, x) in Elems(u.chain) && Fd(m, x) in Elems(u.chain)
            && Bk(m, Fd(m, x)) == x && Fd(m, Bk(m, x)) == x
  {
    hide Stored, At, PathTo, OnPath, PtrAt, NoRepeat, Addrs, ChainStored, Elems, Apart;
    var path := PathTo(tree, x);
    PathToLeads(tree, x);
    StoredAt(m, tree, Rd(m, TreeBinAt(i)), TreeBinAt(i), i, path);
    var u := At(tree, path);
    LocatedIn(m, u, PtrAt(m, tree, Rd(m, TreeBinAt(i)), TreeBinAt(i), path).0, ParentOf(m, tree, i, x), i, x);
  }

  lemma LocatedIn(m: Mem, u: Tree, a: int, par: int, i: int, x: int)
    requires u.Node? && Stored(m, u, a, par, i) && x in u.chain && NoRepeat(u)
    ensures a == u.chain[0] && Index(m, x) == i && Parent(m, x) == (if x == u.chain[0] then par else 0)
    ensures Bk(m, x) != x <==> |u.chain| > 1
    ensures Bk(m, x) in Elems(u.chain) && Fd(m, x) in Elems(u.chain)
    ensures Bk(m, Fd(m, x)) == x && Fd(m, Bk(m, x)) == x
  {
    hide Addrs, Fd, Bk;
    var k := IndexOf(u.chain, x);
    assert LinkedAt(m, u.chain, k);
    assert LinkedAt(m, u.chain, Before(|u.chain|, k));
    assert LinkedAt(m, u.chain, After(|u.chain|, k));
  }

  /** The trie of a bin is no deeper than its size bits allow. */
  lemma BinHeight(tree: Tree, i: int)
    requires 0 <= i && IsTrie(tree, BinLo(i), BinWidth(i))
    ensures Height(tree) <= BinBits(i) + 1
  {
    hide Height, IsTrie;
    BinWidthIsPower(i);
    HeightBound(tree, BinLo(i), BinBits(i));
  }

  lemma {:induction false} PathWithin(t: Tree, path: seq<bool>)
    requires OnPath(t, path)
    ensures |path| + Height(At(t, path)) <= Height(t)
  {
    if path != [] {
      PathWithin(if path[0] then t.right else t.left, path[1..]);
    }
  }

  lemma TurnLowers(t: Tree, turn: bool)
    requires t.Node?
    ensures Height(if turn then t.right else t.left) + 1 <= Height(t)
  {
  }

  lemma HeightNode(t: Tree)
    requires t.Node?
    ensures 1 <= Height(t)
  {
  }

  lemma NodeHeight(m: Mem, sm: bv32, tm: bv32, rings: seq<seq<int>>, trees: seq<Tree>, b: map<int, int>, least: int,
                   i: BinIndex, x: int)
    requires BinsOk(m, sm, tm, rings, trees, b, least) && |trees| == NTREEBINS && x in Addrs(trees[i])
    ensures Height(NodeOf(trees[i], x)) <= BinBits(i) + 1
  {
    hide Height, BinBits;
    var tree := trees[i];
    assert TreeBinOk(m, tm, i, tree, b);
    BinHeight(tree, i);
    PathToLeads(tree, x);
    PathWithin(tree, PathTo(tree, x));
  }

  /** The last turn of the path to `x`, and the node it is made at. */
  ghost function Above(tree: Tree, x: int): seq<bool>
    requires x in Addrs(tree) && PathTo(tree, x) != []
  {
    PathTo(tree, x)[..|PathTo(tree, x)| - 1]
  }

  ghost function LastTurn(tree: Tree, x: int): bool
    requires x in Addrs(tree) && PathTo(tree, x) != []
  {
    PathTo(tree, x)[|PathTo(tree, x)| - 1]
  }

  lemma {:induction false} PathPrefix(t: Tree, path: seq<bool>, turn: bool)
    requires OnPath(t, path + [turn])
    ensures OnPath(t, path) && At(t, path).Node?
  {
    if path != [] {
      assert (path + [turn])[1..] == path[1..] + [turn];
      PathPrefix(if path[0] then t.right else t.left, path[1..], turn);
    } else {
      assert OnPath(t, [turn]);
    }
  }

  /** A leader is the root exactly when its path is empty; otherwise one child pointer of its parent, and not
      the other, leads to it. */
  lemma LeaderAbove(m: Mem, tree: Tree, i: int, x: int)
    requires InTree(m, tree, i) && x in Addrs(tree) && x == NodeOf(tree, x).chain[0]
    ensures x == Rd(m, TreeBinAt(i)) <==> PathTo(tree, x) == []
    ensures PathTo(tree, x) == [] ==> ParentOf(m, tree, i, x) == TreeBinAt(i)
    ensures PathTo(tree, x) != [] ==>
              var pp, turn := Above(tree, x), LastTurn(tree, x);
              var xp := ParentOf(m, tree, i, x);
              && PathTo(tree, x) == pp + [turn]
              && OnPath(tree, pp) && At(tree, pp).Node?
              && xp == PtrAt(m, tree, Rd(m, TreeBinAt(i)), TreeBinAt(i), pp).0
              && xp in Addrs(tree) && xp !in Addrs(NodeOf(tree, x))
              && Child(m, xp, turn) == x && Child(m, xp, !turn) != x
  {
    hide Apart, ChainStored, Distinct;
    var root, h, path := Rd(m, TreeBinAt(i)), TreeBinAt(i), PathTo(tree, x);
    PathToLeads(tree, x);
    Located(m, tree, i, x);
    if path == [] {
      assert PtrAt(m, tree, root, h, path) == (root, h);
    } else {
      var pp, turn := Above(tree, x), LastTurn(tree, x);
      assert path == pp + [turn];
      PathPrefix(tree, pp, turn);
      Extend(m, tree, root, h, pp, turn);
      StoredAt(m, tree, root, h, i, pp);
      var w := At(tree, pp);
      var (xp, q) := PtrAt(m, tree, root, h, pp);
      assert xp in Elems(w.chain);
      var u := NodeOf(tree, x);
      assert x in Elems(u.chain) && x in Addrs(u);
      RootOf(m, if turn then w.left else w.right, Child(m, xp, !turn), xp, i);
      RootApart(m, tree, i, x, pp, turn);
    }
  }

  lemma RootApart(m: Mem, tree: Tree, i: int, x: int, pp: seq<bool>, turn: bool)
    requires InTree(m, tree, i) && OnPath(tree, pp + [turn]) && x in Addrs(At(tree, pp + [turn]))
    ensures x != Rd(m, TreeBinAt(i))
  {
    hide Apart, ChainStored, Distinct;
    var path := pp + [turn];
    var next := if path[0] then tree.right else tree.left;
    StoredAt(m, next, Child(m, Rd(m, TreeBinAt(i)), path[0]), Rd(m, TreeBinAt(i)), i, path[1..]);
    assert Rd(m, TreeBinAt(i)) in Elems(tree.chain);
  }

  /** The first part of an unlink is done: in `n` the chain led by `r` (nothing when `r` is null) stands ready to
      take the place of the leader `x`, and the rest of the trie is as in `m`. */
  ghost predicate Vacated(m: Mem, n: Mem, tree: Tree, i: int, x: int, r: int)
    requires x in Addrs(tree)
  {
    var u := NodeOf(tree, x);
    var rest := Remove(u, x);
    && (r == 0 <==> rest == Leaf)
    && (r != 0 ==>
          && |rest.chain| > 0 && r == rest.chain[0] && ChainStored(n, rest.chain, i)
          && Child(n, r, false) == 0 && Child(n, r, true) == 0
          && Stored(n, rest.left, Child(n, x, false), x, i)
          && Stored(n, rest.right, Child(n, x, true), x, i))
    && Rd(n, TreeBinAt(i)) == Rd(m, TreeBinAt(i))
    && Parent(n, x) == Parent(m, x) && Index(n, x) == Index(m, x)
    && (forall p :: p in Addrs(tree) && p !in Addrs(u) ==> SameLinks(m, n, p))
  }

  lemma UnlinkTouches(m: Mem, b: int, f: int, h: int)
    requires h < HEAP_MIN <= b && HEAP_MIN <= f
    ensures Touches(m, UnlinkBetween(m, b, f), {b, f}, h) && Rd(UnlinkBetween(m, b, f), h) == Rd(m, h)
  {
    assert b in {b, f} && f in {b, f};
  }

  /** A chain member that is not the leader leaves; nothing else is needed. */
  lemma TailRemoved(m: Mem, tree: Tree, i: int, x: int)
    requires InTree(m, tree, i) && x in Addrs(tree) && x != NodeOf(tree, x).chain[0]
    ensures var n := UnlinkBetween(m, Bk(m, x), Fd(m, x));
            Stored(n, Remove(tree, x), Rd(m, TreeBinAt(i)), TreeBinAt(i), i)
  {
    hide ChainStored, Distinct, UnlinkBetween, RightmostChain, DropRightmost, Ring;
    var root, h, path := Rd(m, TreeBinAt(i)), TreeBinAt(i), PathTo(tree, x);
    var u := NodeOf(tree, x);
    Located(m, tree, i, x);
    PathToLeads(tree, x);
    UnlinkFrame(m, tree, i, x);
    var n := UnlinkBetween(m, Bk(m, x), Fd(m, x));
    ApartSubset(Elems(u.chain), Addrs(tree));
    ChainRemoveStored(m, u.chain, i, x);
    assert u.chain[0] in Elems(u.chain);
    StoredFrame(m, n, u.left, Child(m, u.chain[0], false), u.chain[0], i);
    StoredFrame(m, n, u.right, Child(m, u.chain[0], true), u.chain[0], i);
    assert Stored(n, Remove(u, x), u.chain[0], ParentOf(m, tree, i, x), i);
    StoredPut(m, n, tree, root, h, i, path, Remove(u, x));
  }

  lemma UnlinkFrame(m: Mem, tree: Tree, i: int, x: int)
    requires InTree(m, tree, i) && x in Addrs(tree)
    ensures var n := UnlinkBetween(m, Bk(m, x), Fd(m, x));
            && (forall p :: p in Addrs(tree) ==> SameTreeWords(m, n, p))
            && (forall p :: p in Addrs(tree) && p !in Elems(NodeOf(tree, x).chain) ==> SameLinks(m, n, p))
            && Rd(n, TreeBinAt(i)) == Rd(m, TreeBinAt(i))
  {
    Located(m, tree, i, x);
    var u := NodeOf(tree, x);
    var b, f := Bk(m, x), Fd(m, x);
    assert b in Addrs(tree) && f in Addrs(tree);
    hide Stored, NoRepeat, NodeOf;
    UnlinkTouches(m, b, f, TreeBinAt(i));
    forall p | p in Addrs(tree)
      ensures SameTreeWords(m, UnlinkBetween(m, b, f), p)
      ensures p !in Elems(u.chain) ==> SameLinks(m, UnlinkBetween(m, b, f), p)
    {
      UnlinkApart(m, b, f, p);
      hide UnlinkBetween, SameLinks, SameTreeWords;
    }
  }

  /** The leader of a longer chain leaves its place to the last chunk of the chain. */
  lemma LeaderVacates(m: Mem, tree: Tree, i: int, x: int)
    requires InTree(m, tree, i) && x in Addrs(tree)
    requires x == NodeOf(tree, x).chain[0] && |NodeOf(tree, x).chain| > 1
    ensures Vacated(m, UnlinkBetween(m, Bk(m, x), Fd(m, x)), tree, i, x, Bk(m, x))
  {
    hide ChainStored, Distinct, UnlinkBetween;
    var u := NodeOf(tree, x);
    var n := UnlinkBetween(m, Bk(m, x), Fd(m, x));
    Located(m, tree, i, x);
    UnlinkFrame(m, tree, i, x);
    ApartSubset(Elems(u.chain), Addrs(tree));
    ChainRemoveStored(m, u.chain, i, x);
    assert Bk(m, x) in Addrs(tree);
    assert x in Elems(u.chain);
    StoredFrame(m, n, u.left, Child(m, x, false), x, i);
    StoredFrame(m, n, u.right, Child(m, x, true), x, i);
  }

  /** A lone leaf leaves nothing behind. */
  lemma LeafVacates(m: Mem, tree: Tree, i: int, x: int)
    requires InTree(m, tree, i) && x in Addrs(tree)
    requires |NodeOf(tree, x).chain| == 1
    requires Child(m, x, false) == 0 && Child(m, x, true) == 0
    ensures Vacated(m, m, tree, i, x, 0)
  {
    hide ChainStored, Distinct;
    var u := NodeOf(tree, x);
    Located(m, tree, i, x);
    RootOf(m, u.left, 0, x, i);
    RootOf(m, u.right, 0, x, i);
  }

  /** A lone inner node leaves its place to the rightmost leaf below it. */
  lemma RightmostVacates(m: Mem, tree: Tree, i: int, x: int, cur: Tree, r: int, q: int, turn: bool)
    requires InTree(m, tree, i) && x in Addrs(tree)
    requires |NodeOf(tree, x).chain| == 1 && cur.Node?
    requires var u := NodeOf(tree, x);
             && (u.left.Node? || u.right.Node?)
             && RightmostSlot(m, u, x) == (q, turn)
             && RightmostChain(u) == cur.chain && RightmostSize(u) == cur.size
    requires !cur.left.Node? && !cur.right.Node? && Stored(m, cur, r, q, i)
    ensures Vacated(m, ClearChild(m, q, turn), tree, i, x, r)
    ensures q in Addrs(tree)
    ensures var n := ClearChild(m, q, turn);
            Touches(m, n, Addrs(tree), TreeBinAt(i)) && Rd(n, TreeBinAt(i)) == Rd(m, TreeBinAt(i)) && Index(n, x) == i
  {
    hide ChainStored, Distinct, ClearChild;
    var u := NodeOf(tree, x);
    Located(m, tree, i, x);
    ApartSubset(Addrs(u), Addrs(tree));
    DropRightmostStored(m, u, x, ParentOf(m, tree, i, x), i);
    DropRightmostContents(u);
    SlotInTree(m, u, x, ParentOf(m, tree, i, x), i);
    ClearFrame(m, tree, q, turn);
    assert x in Elems(u.chain) && x in Addrs(u);
    assert cur.chain == RightmostChain(u);
    SlotNotInLeaf(m, u, x, ParentOf(m, tree, i, x), i);
    forall p | p in Elems(cur.chain)
      ensures p in Addrs(tree) && p != q
    {
    }
    ChainFrame(m, ClearChild(m, q, turn), cur.chain, i);
    assert r in Elems(cur.chain);
    ClearStatic(m, q, turn, TreeBinAt(i));
    TouchesMore(m, ClearChild(m, q, turn), {q}, Addrs(tree), TreeBinAt(i));
  }

  lemma ClearStatic(m: Mem, q: int, turn: bool, h: int)
    requires h < HEAP_MIN <= q
    ensures Rd(ClearChild(m, q, turn), h) == Rd(m, h)
    ensures Touches(m, ClearChild(m, q, turn), {q}, h)
  {
    assert q in {q};
  }

  /** The parent of the rightmost leaf stays in the trie when the leaf goes. */
  lemma {:induction false} SlotNotInLeaf(m: Mem, t: Tree, a: int, par: int, i: int)
    requires t.Node? && (t.left.Node? || t.right.Node?) && NoRepeat(t)
    requires Stored(m, t, a, par, i)
    ensures RightmostSlot(m, t, a).0 !in Elems(RightmostChain(t))
  {
    hide ChainStored, Distinct;
    var turn := t.right.Node?;
    var next := if turn then t.right else t.left;
    if next.left.Node? || next.right.Node? {
      SlotNotInLeaf(m, next, Child(m, a, turn), a, i);
    } else {
      assert a in Elems(t.chain);
      assert RightmostChain(t) == next.chain;
    }
  }

  /** The stores of the second part: the pointer that led to `x` is made to lead to `r`, and `r` adopts the
      children of `x`. */
  function Redirected(m: Mem, slot: int, x: int, xp: int, r: int): Mem {
    if r != 0 then Adopted(m[slot := r], x, xp, r) else m[slot := r]
  }

  /** The chunks that stay, together with the departing leader, are still apart. */
  lemma RemainsApart(tree: Tree, x: int)
    requires x in Addrs(tree) && NoRepeat(tree) && NoRepeat(NodeOf(tree, x)) && Apart(Addrs(tree))
    requires Addrs(NodeOf(tree, x)) <= Addrs(tree)
    ensures var rest := Remove(NodeOf(tree, x), x);
            NoRepeat(rest) && x !in Addrs(rest) && Addrs(rest) <= Addrs(NodeOf(tree, x)) && Apart(Addrs(rest) + {x})
  {
    var u := NodeOf(tree, x);
    assert x in Elems(u.chain);
    RemoveContents(u, x);
    var rest := Remove(u, x);
    hide Remove, NodeOf, NoRepeat;
    ApartSubset(Addrs(rest) + {x}, Addrs(tree));
  }

  /** A store outside the node of `x` keeps it vacated. */
  lemma VacatedFrame(m: Mem, n: Mem, n': Mem, tree: Tree, i: int, x: int, r: int)
    requires InTree(m, tree, i) && x in Addrs(tree) && Vacated(m, n, tree, i, x, r)
    requires forall p :: p in Addrs(NodeOf(tree, x)) ==> SameLinks(n, n', p)
    ensures var rest := Remove(NodeOf(tree, x), x);
            r != 0 ==>
              && rest.Node? && |rest.chain| > 0 && r == rest.chain[0] && ChainStored(n', rest.chain, i)
              && Child(n', r, false) == 0 && Child(n', r, true) == 0
              && Stored(n', rest.left, Child(n', x, false), x, i)
              && Stored(n', rest.right, Child(n', x, true), x, i)
  {
    hide ChainStored, Distinct;
    Located(m, tree, i, x);
    var u := NodeOf(tree, x);
    assert x in Elems(u.chain) && x in Addrs(u);
    RemoveContents(u, x);
    hide NodeOf, Remove;
    var rest := Remove(u, x);
    if r != 0 {
      assert r in Elems(rest.chain);
      ChainFrame(n, n', rest.chain, i);
      StoredFrame(n, n', rest.left, Child(n, x, false), x, i);
      StoredFrame(n, n', rest.right, Child(n, x, true), x, i);
    }
  }

  /** `Adopted` leaves every other chunk's links alone. */
  lemma AdoptedApart(m: Mem, x: int, par: int, rest: Tree, i: int, p: int)
    requires rest.Node? && |rest.chain| > 0 && NoRepeat(rest) && x !in Addrs(rest)
    requires Child(m, rest.chain[0], false) == 0 && Child(m, rest.chain[0], true) == 0
    requires Stored(m, rest.left, Child(m, x, false), x, i) && Stored(m, rest.right, Child(m, x, true), x, i)
    requires Apart(Addrs(rest) + {x})
    requires forall q :: q in Addrs(rest) ==> p + 64 <= q || q + 64 <= p
    ensures SameLinks(m, Adopted(m, x, par, rest.chain[0]), p)
  {
    hide ChainStored, Adopted, Distinct;
    var r, c0, c1 := rest.chain[0], Child(m, x, false), Child(m, x, true);
    assert r in Elems(rest.chain);
    RootOf(m, rest.left, c0, x, i);
    RootOf(m, rest.right, c1, x, i);
    var all := Addrs(rest) + {x};
    assert r in all && x in all && (c0 != 0 ==> c0 in all) && (c1 != 0 ==> c1 in all);
    hide Stored, NoRepeat;
    AdoptedWords(m, x, par, r, c0, c1, p);
  }

  lemma AdoptedTouches(m: Mem, x: int, par: int, rest: Tree, i: int, h: int)
    requires rest.Node? && |rest.chain| > 0 && x !in Addrs(rest) && Apart(Addrs(rest) + {x})
    requires Child(m, rest.chain[0], false) == 0 && Child(m, rest.chain[0], true) == 0
    requires Stored(m, rest.left, Child(m, x, false), x, i) && Stored(m, rest.right, Child(m, x, true), x, i)
    requires forall q :: q in Addrs(rest) ==> HEAP_MIN <= q
    requires h < HEAP_MIN
    ensures Touches(m, Adopted(m, x, par, rest.chain[0]), Addrs(rest), h)
    ensures Rd(Adopted(m, x, par, rest.chain[0]), h) == Rd(m, h)
  {
    hide ChainStored, Distinct;
    var r, c0, c1 := rest.chain[0], Child(m, x, false), Child(m, x, true);
    assert r in Elems(rest.chain);
    RootOf(m, rest.left, c0, x, i);
    RootOf(m, rest.right, c1, x, i);
    var all, w := Addrs(rest) + {x}, Addrs(rest);
    assert x in all && r in all && (c0 != 0 ==> c0 in all) && (c1 != 0 ==> c1 in all);
    assert x !in w && r in w && (c0 != 0 ==> c0 in w) && (c1 != 0 ==> c1 in w);
    hide Stored, Adopted;
    forall a | a != h && (forall p :: p in w ==> a < p + FD || p + 64 <= a)
      ensures Rd(Adopted(m, x, par, r), a) == Rd(m, a)
    {
      AdoptedElsewhere(m, x, par, r, c0, c1, a);
    }
    AdoptedElsewhere(m, x, par, r, c0, c1, h);
  }

  lemma AdoptedElsewhere(m: Mem, x: int, par: int, r: int, c0: int, c1: int, a: int)
    requires c0 == Child(m, x, false) && c1 == Child(m, x, true)
    requires Clear(x, r) && (c0 != 0 ==> Clear(c0, x)) && (c1 != 0 ==> Clear(c1, x))
    requires a < r + FD || r + 64 <= a
    requires c0 != 0 ==> a < c0 + FD || c0 + 64 <= a
    requires c1 != 0 ==> a < c1 + FD || c1 + 64 <= a
    ensures Rd(Adopted(m, x, par, r), a) == Rd(m, a)
  {
  }

  /** Unlinking a leader that is the root of its bin. */
  lemma RootRelinked(m: Mem, n: Mem, tree: Tree, i: int, x: int, r: int)
    requires InTree(m, tree, i) && x in Addrs(tree) && x == NodeOf(tree, x).chain[0] && PathTo(tree, x) == []
    requires Vacated(m, n, tree, i, x, r)
    ensures var n' := Redirected(n, TreeBinAt(i), x, TreeBinAt(i), r);
            Rd(n', TreeBinAt(i)) == r && Stored(n', Remove(tree, x), r, TreeBinAt(i), i)
            && Touches(n, n', Addrs(Remove(tree, x)), TreeBinAt(i))
  {
    hide ChainStored, Distinct, Adopted;
    var h := TreeBinAt(i);
    var n1 := n[h := r];
    Located(m, tree, i, x);
    PathToLeads(tree, x);
    RemainsApart(tree, x);
    StaticStore(n, h, r, tree);
    VacatedFrame(m, n, n1, tree, i, x, r);
    var rest := Remove(tree, x);
    assert NodeOf(tree, x) == tree;
    hide NodeOf, Remove, InTree, SameLinks;
    if r != 0 {
      assert rest == Node(rest.chain, rest.size, rest.left, rest.right);
      AdoptStored(n1, x, h, r, rest.chain, rest.size, rest.left, rest.right, i);
      AdoptedTouches(n1, x, h, rest, i, h);
      hide Touches;
      StaticTouches(n, h, r, Adopted(n1, x, h, r), Addrs(rest));
    } else {
      StaticTouches(n, h, r, n1, Addrs(rest));
    }
  }

  lemma StaticStore(n: Mem, h: int, r: int, tree: Tree)
    requires h < HEAP_MIN && (forall p :: p in Addrs(tree) ==> HEAP_MIN <= p)
    ensures forall p :: p in Addrs(tree) ==> SameLinks(n, n[h := r], p)
  {
  }

  lemma StaticTouches(n: Mem, h: int, r: int, n': Mem, w: set<int>)
    requires n' == n[h := r] || Touches(n[h := r], n', w, h)
    ensures Touches(n, n', w, h)
  {
  }

  /** Unlinking a leader below its bin's root. */
  lemma BelowRelinked(m: Mem, n: Mem, tree: Tree, i: int, x: int, r: int, xp: int, turn: bool)
    requires InTree(m, tree, i) && x in Addrs(tree) && x == NodeOf(tree, x).chain[0] && PathTo(tree, x) != []
    requires Vacated(m, n, tree, i, x, r)
    requires xp == ParentOf(m, tree, i, x) && turn == LastTurn(tree, x)
    ensures var n' := Redirected(n, SlotOf(xp, turn), x, xp, r);
            Rd(n', TreeBinAt(i)) == Rd(m, TreeBinAt(i))
            && Stored(n', Remove(tree, x), Rd(m, TreeBinAt(i)), TreeBinAt(i), i)
            && Touches(n, n', Addrs(tree), TreeBinAt(i))
  {
    hide ChainStored, Distinct, Adopted, RightmostChain, DropRightmost;
    var root, h, path, pp := Rd(m, TreeBinAt(i)), TreeBinAt(i), PathTo(tree, x), Above(tree, x);
    var slot := SlotOf(xp, turn);
    var n1, n' := n[slot := r], Redirected(n, slot, x, xp, r);
    Located(m, tree, i, x);
    LeaderAbove(m, tree, i, x);
    PathToLeads(tree, x);
    RemainsApart(tree, x);
    var u := NodeOf(tree, x);
    var rest := Remove(u, x);
    SlotStore(n, xp, turn, r, tree, h);
    VacatedFrame(m, n, n1, tree, i, x, r);
    BelowAdopted(m, n1, tree, i, x, r, xp, rest);
    forall p | p in Addrs(tree) && p !in Addrs(u) && p != xp
      ensures SameLinks(m, n', p)
    {
      hide Stored, NodeOf, Remove, InTree, Apart;
    }
    assert SameLinks(m, n, xp) && SameLinks(n1, n', xp);
    StoredPutRoot(m, n', tree, root, h, i, pp, turn, rest, r);
    assert path == pp + [turn];
    hide Stored, NodeOf, Remove, InTree, Apart;
    SlotTouches(n, xp, turn, r, n', Addrs(tree), h);
  }

  lemma SlotStore(n: Mem, xp: int, turn: bool, r: int, tree: Tree, h: int)
    requires xp in Addrs(tree) && Apart(Addrs(tree)) && h < HEAP_MIN && (forall p :: p in Addrs(tree) ==> HEAP_MIN <= p)
    ensures var n1 := n[SlotOf(xp, turn) := r];
            && (forall p :: p in Addrs(tree) && p != xp ==> SameLinks(n, n1, p))
            && Child(n1, xp, turn) == r && Child(n1, xp, !turn) == Child(n, xp, !turn)
            && Fd(n1, xp) == Fd(n, xp) && Bk(n1, xp) == Bk(n, xp)
            && Parent(n1, xp) == Parent(n, xp) && Index(n1, xp) == Index(n, xp)
            && Rd(n1, h) == Rd(n, h)
  {
  }

  lemma SlotTouches(n: Mem, xp: int, turn: bool, r: int, n': Mem, w: set<int>, h: int)
    requires xp in w && Touches(n[SlotOf(xp, turn) := r], n', w, h)
    ensures Touches(n, n', w, h)
  {
  }

  /** The second part of an unlink below the root, seen from the chunks outside the node. */
  lemma BelowAdopted(m: Mem, n1: Mem, tree: Tree, i: int, x: int, r: int, xp: int, rest: Tree)
    requires InTree(m, tree, i) && x in Addrs(tree) && x == NodeOf(tree, x).chain[0]
    requires rest == Remove(NodeOf(tree, x), x) && xp != 0 && Addrs(NodeOf(tree, x)) <= Addrs(tree)
    requires NoRepeat(rest) && x !in Addrs(rest) && Addrs(rest) <= Addrs(NodeOf(tree, x)) && Apart(Addrs(rest) + {x})
    requires r == 0 <==> rest == Leaf
    requires r != 0 ==>
               && rest.Node? && |rest.chain| > 0 && r == rest.chain[0] && ChainStored(n1, rest.chain, i)
               && Child(n1, r, false) == 0 && Child(n1, r, true) == 0
               && Stored(n1, rest.left, Child(n1, x, false), x, i)
               && Stored(n1, rest.right, Child(n1, x, true), x, i)
    ensures var n' := if r != 0 then Adopted(n1, x, xp, r) else n1;
            && Stored(n', rest, r, xp, i)
            && (forall p :: p in Addrs(tree) && p !in Addrs(NodeOf(tree, x)) ==> SameLinks(n1, n', p))
            && Touches(n1, n', Addrs(tree), TreeBinAt(i))
            && Rd(n', TreeBinAt(i)) == Rd(n1, TreeBinAt(i))
  {
    hide ChainStored, Distinct, Adopted, NodeOf, Remove;
    if r != 0 {
      assert rest == Node(rest.chain, rest.size, rest.left, rest.right);
      AdoptStored(n1, x, xp, r, rest.chain, rest.size, rest.left, rest.right, i);
      AdoptedTouches(n1, x, xp, rest, i, TreeBinAt(i));
      hide Stored, SameLinks;
      forall p | p in Addrs(tree) && p !in Addrs(NodeOf(tree, x))
        ensures SameLinks(n1, Adopted(n1, x, xp, r), p)
      {
        AdoptedApart(n1, x, xp, rest, i, p);
      }
    }
  }

  /** A tree bin's trie, as the bins' invariant gives it. */
  lemma BinTree(m: Mem, sm: bv32, tm: bv32, rings: seq<seq<int>>, trees: seq<Tree>, b: map<int, int>, least: int,
                i: BinIndex)
    requires BinsOk(m, sm, tm, rings, trees, b, least)
    ensures InTree(m, trees[i], i)
    ensures forall p :: p in Addrs(trees[i]) <==> InTreeBin(b, p, i)
    ensures forall p :: p in Addrs(trees[i]) ==> p in b && least <= p
    ensures HEAP_MIN <= least
  {
    hide ComputeTreeIndex, SmallBinOk, Marked, Stored, IsTrie, Sized, NoRepeat;
    assert TreeBinOk(m, tm, i, trees[i], b);
    TreeBinApart(trees[i], i, b, least, m, tm);
  }

  /** All bins after `x` left its tree bin. */
  lemma RemovedBinsOk(m: Mem, n: Mem, sm: bv32, tm: bv32, tm': bv32, rings: seq<seq<int>>, trees: seq<Tree>,
                      b: map<int, int>, least: int, i: BinIndex, x: int, w: set<int>)
    requires BinsOk(m, sm, tm, rings, trees, b, least) && InTreeBin(b, x, i)
    requires forall j: BinIndex :: j != i ==> Marked(tm', j) == Marked(tm, j)
    requires Marked(tm', i) <==> Remove(trees[i], x).Node?
    requires Stored(n, Remove(trees[i], x), Rd(n, TreeBinAt(i)), TreeBinAt(i), i)
    requires Touches(m, n, w, TreeBinAt(i)) && w <= Addrs(trees[i])
    ensures BinsOk(n, sm, tm', rings, trees[i := Remove(trees[i], x)], b - {x}, least)
    ensures OnlyInside(m, n, b)
  {
    hide ComputeTreeIndex, Marked, Stored, BinWidth, BinLo, IsTrie, NoRepeat, Sized, SmallBinOk, Touches, Remove;
    var t, t', b' := trees[i], Remove(trees[i], x), b - {x};
    assert TreeBinOk(m, tm, i, t, b);
    RemoveContents(t, x);
    RemoveIsTrie(t, x, BinLo(i), BinWidth(i));
    RemoveSized(t, x, b);
    assert TreeBinOk(n, tm', i, t', b');
    OtherBins(m, n, sm, tm, tm', rings, trees, b, b', least, i, t', w);
    TouchesInside(m, n, w, TreeBinAt(i), b);
  }

  /** How far the walk to the rightmost leaf below `u` (at `x`) has come: to `cur` at `r`, through the `turn`
      pointer of `q`. */
  ghost predicate Walking(m: Mem, u: Tree, x: int, i: int, cur: Tree, r: int, q: int, turn: bool) {
    && u.Node? && (u.left.Node? || u.right.Node?)
    && cur.Node? && Stored(m, cur, r, q, i)
    && q in Addrs(u) && Addrs(cur) <= Addrs(u)
    && RightmostChain(u) == RightmostChain(cur) && RightmostSize(u) == RightmostSize(cur)
    && RightmostSlot(m, u, x) == if cur.left.Node? || cur.right.Node? then RightmostSlot(m, cur, r) else (q, turn)
  }

  lemma WalkStart(m: Mem, u: Tree, x: int, par: int, i: int)
    requires Stored(m, u, x, par, i) && u.Node?
    requires Child(m, x, true) != 0 || Child(m, x, false) != 0
    ensures var turn := Child(m, x, true) != 0;
            Walking(m, u, x, i, if turn then u.right else u.left, Child(m, x, turn), x, turn)
  {
    hide ChainStored;
    RootOf(m, u.right, Child(m, x, true), x, i);
    RootOf(m, u.left, Child(m, x, false), x, i);
    assert x in Elems(u.chain);
  }

  lemma WalkStep(m: Mem, u: Tree, x: int, i: int, cur: Tree, r: int, q: int, turn: bool)
    requires Walking(m, u, x, i, cur, r, q, turn)
    requires Child(m, r, true) != 0 || Child(m, r, false) != 0
    ensures var t := Child(m, r, true) != 0;
            && Walking(m, u, x, i, if t then cur.right else cur.left, Child(m, r, t), r, t)
            && (if t then cur.right else cur.left) < cur
  {
    hide ChainStored;
    RootOf(m, cur.right, Child(m, r, true), r, i);
    RootOf(m, cur.left, Child(m, r, false), r, i);
    assert r in Elems(cur.chain);
  }

  lemma WalkEnd(m: Mem, u: Tree, x: int, i: int, cur: Tree, r: int, q: int, turn: bool)
    requires Walking(m, u, x, i, cur, r, q, turn)
    requires Child(m, r, true) == 0 && Child(m, r, false) == 0
    ensures !cur.left.Node? && !cur.right.Node? && r != 0
    ensures RightmostSlot(m, u, x) == (q, turn) && RightmostChain(u) == cur.chain && RightmostSize(u) == cur.size
  {
    hide ChainStored;
    RootOf(m, cur.right, 0, r, i);
    RootOf(m, cur.left, 0, r, i);
  }

  lemma InNode(u: Tree, p: int, tree: Tree)
    requires u.Node? && p in Elems(u.chain) && Addrs(u) <= Addrs(tree)
    ensures p in Addrs(tree)
  {
  }

  /** Both outcomes of taking a chunk out of a ring of several. */
  lemma RemoveOneStores(m: Mem, tree: Tree, i: int, x: int)
    requires InTree(m, tree, i) && x in Addrs(tree) && |NodeOf(tree, x).chain| > 1
    ensures var n := UnlinkBetween(m, Bk(m, x), Fd(m, x));
            && (x == NodeOf(tree, x).chain[0] ==> Vacated(m, n, tree, i, x, Bk(m, x)))
            && (x != NodeOf(tree, x).chain[0] ==>
                  Stored(n, Remove(tree, x), Rd(m, TreeBinAt(i)), TreeBinAt(i), i))
            && Touches(m, n, Addrs(tree), TreeBinAt(i)) && Rd(n, TreeBinAt(i)) == Rd(m, TreeBinAt(i))
            && Index(n, x) == i
  {
    Located(m, tree, i, x);
    var u := NodeOf(tree, x);
    hide Vacated, Remove, UnlinkBetween;
    if x == u.chain[0] {
      LeaderVacates(m, tree, i, x);
    } else {
      TailRemoved(m, tree, i, x);
    }
    UnlinkFrame(m, tree, i, x);
    assert Bk(m, x) in Addrs(tree) && Fd(m, x) in Addrs(tree);
    UnlinkTouches(m, Bk(m, x), Fd(m, x), TreeBinAt(i));
    TouchesMore(m, UnlinkBetween(m, Bk(m, x), Fd(m, x)), {Bk(m, x), Fd(m, x)}, Addrs(tree), TreeBinAt(i));
  }

  lemma TouchesMore(m: Mem, n: Mem, w: set<int>, u: set<int>, h: int)
    requires Touches(m, n, w, h) && w <= u
    ensures Touches(m, n, u, h)
  {
    forall a | a != h && (forall p :: p in u ==> a < p + FD || p + 64 <= a)
      ensures Rd(n, a) == Rd(m, a)
    {
      assert forall p :: p in w ==> p in u;
    }
  }

  lemma TouchesNothing(m: Mem, w: set<int>, h: int)
    ensures Touches(m, m, w, h)
  {
  }

  /** The chunks that the second part of an unlink checks are chunks of the trie. */
  lemma ReplacementInTree(m: Mem, n: Mem, tree: Tree, i: int, x: int, r: int)
    requires InTree(m, tree, i) && x in Addrs(tree) && Vacated(m, n, tree, i, x, r) && r != 0
    ensures r in Addrs(tree)
    ensures Child(n, x, false) != 0 ==> Child(n, x, false) in Addrs(tree)
    ensures Child(n, x, true) != 0 ==> Child(n, x, true) in Addrs(tree)
  {
    hide ChainStored, Distinct;
    Located(m, tree, i, x);
    RemainsApart(tree, x);
    var rest := Remove(NodeOf(tree, x), x);
    assert r in Elems(rest.chain);
    RootOf(n, rest.left, Child(n, x, false), x, i);
    RootOf(n, rest.right, Child(n, x, true), x, i);
  }

  /** The pointer that leads to the leader `x`: its bin's root word, or the child pointer of its parent. */
  function ParentSlot(n: Mem, i: int, x: int, xp: int): int {
    if x == Rd(n, TreeBinAt(i)) then TreeBinAt(i) else SlotOf(xp, Child(n, xp, false) != x)
  }

  /** Both shapes of the second part, and what they leave. */
  lemma Relinked(m: Mem, n: Mem, tree: Tree, i: int, x: int, r: int)
    requires InTree(m, tree, i) && x in Addrs(tree) && x == NodeOf(tree, x).chain[0]
    requires Vacated(m, n, tree, i, x, r)
    ensures var xp := ParentOf(m, tree, i, x);
            var n' := Redirected(n, ParentSlot(n, i, x, xp), x, xp, r);
            && Stored(n', Remove(tree, x), Rd(n', TreeBinAt(i)), TreeBinAt(i), i)
            && Touches(n, n', Addrs(tree), TreeBinAt(i))
    ensures x == Rd(n, TreeBinAt(i)) ==> (r == 0 <==> !Remove(tree, x).Node?)
    ensures x != Rd(n, TreeBinAt(i)) ==> Remove(tree, x).Node? && ParentOf(m, tree, i, x) in Addrs(tree)
    ensures ParentOf(m, tree, i, x) != 0
  {
    hide Redirected, Touches, ChainStored, Distinct;
    Located(m, tree, i, x);
    LeaderAbove(m, tree, i, x);
    var xp := ParentOf(m, tree, i, x);
    if PathTo(tree, x) == [] {
      RootRelinked(m, n, tree, i, x, r);
      PathToLeads(tree, x);
      RemainsApart(tree, x);
      TouchesMore(n, Redirected(n, TreeBinAt(i), x, TreeBinAt(i), r), Addrs(Remove(tree, x)), Addrs(tree),
          TreeBinAt(i));
    } else {
      assert SameLinks(m, n, xp);
      BelowRelinked(m, n, tree, i, x, r, xp, LastTurn(tree, x));
      assert x !in tree.chain by {
        PathToLeads(tree, x);
      }
    }
  }

  lemma ParentNotNull(m: Mem, tree: Tree, i: int, x: int)
    requires InTree(m, tree, i) && x in Addrs(tree)
    ensures ParentOf(m, tree, i, x) != 0
  {
    Located(m, tree, i, x);
  }

  lemma TreeMark(m: Mem, sm: bv32, tm: bv32, rings: seq<seq<int>>, trees: seq<Tree>, b: map<int, int>, least: int,
                 i: BinIndex, x: int)
    requires BinsOk(m, sm, tm, rings, trees, b, least) && InTreeBin(b, x, i)
    ensures Marked(tm, i)
  {
    hide ComputeTreeIndex, SmallBinOk, Marked, Stored, IsTrie, Sized, NoRepeat, Spaced;
    assert TreeBinOk(m, tm, i, trees[i], b);
    assert x in Addrs(trees[i]);
  }

  /** A chain that loses a member keeps its node. */
  lemma TailRemovedMark(m: Mem, sm: bv32, tm: bv32, rings: seq<seq<int>>, trees: seq<Tree>, b: map<int, int>,
                        least: int,
                        i: BinIndex, x: int)
    requires BinsOk(m, sm, tm, rings, trees, b, least) && InTreeBin(b, x, i) && x in Addrs(trees[i])
    requires x != NodeOf(trees[i], x).chain[0]
    ensures Marked(tm, i) && Remove(trees[i], x).Node?
  {
    TreeMark(m, sm, tm, rings, trees, b, least, i, x);
    hide BinsOk, ComputeTreeIndex, Marked;
    PathToLeads(trees[i], x);
  }

  /** The bins after a leader was unlinked. */
  lemma LeaderUnlinked(m: Mem, n: Mem, sm: bv32, tm: bv32, rings: seq<seq<int>>, trees: seq<Tree>,
                       b: map<int, int>, least: int, i: BinIndex, x: int, r: int, xp: int)
    requires BinsOk(m, sm, tm, rings, trees, b, least) && InTreeBin(b, x, i) && x in Addrs(trees[i])
    requires x == NodeOf(trees[i], x).chain[0] && xp == ParentOf(m, trees[i], i, x)
    requires Vacated(m, n, trees[i], i, x, r) && Touches(m, n, Addrs(trees[i]), TreeBinAt(i))
    ensures var n' := Redirected(n, ParentSlot(n, i, x, xp), x, xp, r);
            && OnlyInside(m, n', b)
            && (if x == Rd(n, TreeBinAt(i)) && r == 0
                then BinsOk(n', sm, ClearBit(tm, i), rings, trees[i := Remove(trees[i], x)], b - {x}, least)
                else BinsOk(n', sm, tm, rings, trees[i := Remove(trees[i], x)], b - {x}, least))
    ensures x != Rd(n, TreeBinAt(i)) ==> least <= xp
    ensures r != 0 ==>
              && least <= r
              && (Child(n, x, false) != 0 ==> least <= Child(n, x, false))
              && (Child(n, x, true) != 0 ==> least <= Child(n, x, true))
  {
    assert |trees| == NTREEBINS;
    hide BinsOk, InTreeBin, Remove, Stored, NodeOf, ParentOf, Vacated, Touches, Addrs, Marked, OnlyInside, Redirected,
      ParentSlot, ClearBit;
    var tree := trees[i];
    BinTree(m, sm, tm, rings, trees, b, least, i);
    Relinked(m, n, tree, i, x, r);
    if r != 0 {
      ReplacementInTree(m, n, tree, i, x, r);
    }
    TreeMark(m, sm, tm, rings, trees, b, least, i, x);
    var n' := Redirected(n, ParentSlot(n, i, x, xp), x, xp, r);
    TouchesTrans(m, n, n', Addrs(tree), Addrs(tree), TreeBinAt(i));
    assert Addrs(tree) + Addrs(tree) == Addrs(tree);
    MarkClear(tm, i);
    if x == Rd(n, TreeBinAt(i)) && r == 0 {
      RemovedBinsOk(m, n', sm, tm, ClearBit(tm, i), rings, trees, b, least, i, x, Addrs(tree));
    } else {
      RemovedBinsOk(m, n', sm, tm, tm, rings, trees, b, least, i, x, Addrs(tree));
    }
  }

  /** The bins after a chain member that leads no chain was unlinked. */
  lemma MemberUnlinked(m: Mem, n: Mem, sm: bv32, tm: bv32, rings: seq<seq<int>>, trees: seq<Tree>,
                       b: map<int, int>, least: int, i: BinIndex, x: int)
    requires BinsOk(m, sm, tm, rings, trees, b, least) && InTreeBin(b, x, i) && x in Addrs(trees[i])
    requires Parent(m, x) == 0
    requires Touches(m, n, Addrs(trees[i]), TreeBinAt(i))
    requires x != NodeOf(trees[i], x).chain[0] ==>
               Stored(n, Remove(trees[i], x), Rd(n, TreeBinAt(i)), TreeBinAt(i), i)
    ensures BinsOk(n, sm, tm, rings, trees[i := Remove(trees[i], x)], b - {x}, least)
    ensures OnlyInside(m, n, b)
  {
    assert |trees| == NTREEBINS;
    hide BinsOk, InTreeBin, Remove, Stored, NodeOf, ParentOf, Vacated, Touches, Addrs, Marked, OnlyInside;
    BinTree(m, sm, tm, rings, trees, b, least, i);
    Located(m, trees[i], i, x);
    ParentNotNull(m, trees[i], i, x);
    TailRemovedMark(m, sm, tm, rings, trees, b, least, i, x);
    RemovedBinsOk(m, n, sm, tm, tm, rings, trees, b, least, i, x, Addrs(trees[i]));
  }

  lemma LeaderKnown(m: Mem, sm: bv32, tm: bv32, rings: seq<seq<int>>, trees: seq<Tree>,
                    b: map<int, int>, least: int, i: BinIndex, x: int)
    requires BinsOk(m, sm, tm, rings, trees, b, least) && InTreeBin(b, x, i)
    ensures x in Addrs(trees[i])
    ensures Parent(m, x) != 0 <==> x == NodeOf(trees[i], x).chain[0]
    ensures Parent(m, x) != 0 ==> Parent(m, x) == ParentOf(m, trees[i], i, x)
  {
    assert |trees| == NTREEBINS;
    hide BinsOk, InTreeBin, Remove, Stored, NodeOf, ParentOf, Addrs;
    BinTree(m, sm, tm, rings, trees, b, least, i);
    Located(m, trees[i], i, x);
    ParentNotNull(m, trees[i], i, x);
  }
}
