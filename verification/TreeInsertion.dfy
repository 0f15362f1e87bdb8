/** Why `insert_large_chunk` keeps the bins well formed: the stores it makes, read against the tries. */
module TreeInsertion {
  import opened Common
  import opened Memory
  import opened Rings
  import opened Tries
  import opened TrieStore
  import opened TreeIndex
  import opened BinMaps
  import opened Bins

  /** The index word and null child pointers that a chunk gets before it goes into tree bin `i`. */
  function Prepared(m: Mem, x: int, i: int): Mem {
    m[x + INDEX := i][x + CHILD0 := 0][x + CHILD1 := 0]
  }

  /** A chunk with its own ring of one, under the parent (or bin) `par`. */
  function Rooted(m: Mem, x: int, par: int): Mem {
    m[x + PARENT := par][x + FD := x][x + BK := x]
  }

  lemma PreparedTouches(m: Mem, x: int, i: int, h: int)
    ensures Touches(m, Prepared(m, x, i), {x}, h)
  {
    assert x in {x};
  }

  lemma RootedTouches(m: Mem, x: int, par: int, h: int)
    ensures Touches(m, Rooted(m, x, par), {x}, h)
    ensures Touches(m, Rooted(m[h := x], x, par), {x}, h)
  {
    assert x in {x};
  }

  lemma TouchesTrans(m: Mem, n: Mem, o: Mem, w: set<int>, u: set<int>, h: int)
    requires Touches(m, n, w, h) && Touches(n, o, u, h)
    ensures Touches(m, o, w + u, h)
  {
    forall a | a != h && (forall p :: p in w + u ==> a < p + FD || p + 64 <= a)
      ensures Rd(o, a) == Rd(m, a)
    {
      assert forall p :: p in w ==> p in w + u;
      assert forall p :: p in u ==> p in w + u;
    }
  }

  lemma TouchedApart(m: Mem, n: Mem, w: set<int>, h: int, p: int)
    requires Touches(m, n, w, h) && HEAP_MIN <= p && h < HEAP_MIN
    requires forall q :: q in w ==> p + 64 <= q || q + 64 <= p
    ensures SameLinks(m, n, p)
  {
  }

  /** Touching only chunks of a bin, or the chunk that enters it, is touching only insides. */
  lemma TouchesInside(m: Mem, n: Mem, w: set<int>, h: int, b: map<int, int>)
    requires Touches(m, n, w, h) && h < HEAP_MIN
    requires forall p :: p in w ==> p in b && b[p] >= 64
    ensures OnlyInside(m, n, b)
  {
    forall a | HEAP_MIN <= a && (forall p :: p in b ==> a < p + FD || p + b[p] <= a)
      ensures Rd(n, a) == Rd(m, a)
    {
      forall p | p in w
        ensures a < p + FD || p + 64 <= a
      {
      }
    }
  }

  /** The chunks of one tree bin and a chunk about to enter it have disjoint link words. */
  lemma TreeBinApart(tree: Tree, i: int, b: map<int, int>, least: int, m: Mem, tm: bv32)
    requires Spaced(b, least) && (forall p :: p in Addrs(tree) ==> InTreeBin(b, p, i))
    ensures Apart(Addrs(tree))
  {
    hide ComputeTreeIndex;
  }

  /** One turn of the descent, on the trie and in the store at once. */
  lemma DescentStep(m: Mem, tree: Tree, root: int, bin: int, i: BinIndex, path: seq<bool>, s: int, k: int,
                    b: map<int, int>, tm: bv32)
    requires TreeBinOk(m, tm, i, tree, b) && HeadsRead(m, b)
    requires root == Rd(m, TreeBinAt(i)) && bin == TreeBinAt(i)
    requires Follows(tree, path, s, BinLo(i), BinWidth(i)) && OnPath(tree, path) && At(tree, path).Node?
    requires Steers(k, s, LoAt(path, BinLo(i), BinWidth(i)), WidthAt(path, BinWidth(i)))
    requires var t := PtrAt(m, tree, root, bin, path).0;
             ChunkSize(m, t) != s && Child(m, t, k >= SIGN_BIT) != 0
    ensures var turn := k >= SIGN_BIT;
            var t := PtrAt(m, tree, root, bin, path).0;
            && Follows(tree, path + [turn], s, BinLo(i), BinWidth(i)) && OnPath(tree, path + [turn])
            && PtrAt(m, tree, root, bin, path + [turn]) == (Child(m, t, turn), t)
            && Steers(k * 2 % WORD_MAX, s, LoAt(path + [turn], BinLo(i), BinWidth(i)),
                      WidthAt(path + [turn], BinWidth(i)))
            && At(tree, path + [turn]).Node?
            && At(tree, path + [turn]) == if turn then At(tree, path).right else At(tree, path).left
  {
    hide ChainStored, ComputeTreeIndex, BinLo, BinWidth, Marked;
    var turn := k >= SIGN_BIT;
    var (t, par) := PtrAt(m, tree, root, bin, path);
    StoredAt(m, tree, root, bin, i, path);
    var u := At(tree, path);
    SizedAt(tree, path, b);
    TrieAt(tree, path, BinLo(i), BinWidth(i));
    assert t in u.chain;
    Extend(m, tree, root, bin, path, turn);
    RootOf(m, if turn then u.right else u.left, Child(m, t, turn), t, i);
    SteeringStep(k, s, LoAt(path, BinLo(i), BinWidth(i)), WidthAt(path, BinWidth(i)));
    FollowsExtend(tree, path, s, BinLo(i), BinWidth(i));
  }

  /** A bin whose stored trie is the old one with `x` inserted holds what it held, and `x`. */
  lemma InsertedBinOk(m: Mem, n: Mem, tm: bv32, tm': bv32, i: BinIndex, t: Tree, x: int, s: int, b: map<int, int>)
    requires TreeBinOk(m, tm, i, t, b) && Marked(tm', i)
    requires x !in b && MIN_LARGE_SIZE <= s < WORD_MAX && i == ComputeTreeIndex(s)
    requires Stored(n, Insert(t, x, s, BinLo(i), BinWidth(i)), Rd(n, TreeBinAt(i)), TreeBinAt(i), i)
    ensures TreeBinOk(n, tm', i, Insert(t, x, s, BinLo(i), BinWidth(i)), b[x := s])
  {
    hide ComputeTreeIndex, Marked, Stored, Insert, BinWidth, BinLo, IsTrie, NoRepeat, Sized;
    var t', b' := Insert(t, x, s, BinLo(i), BinWidth(i)), b[x := s];
    InBinRange(s);
    BinWidthIsPower(i);
    InsertIsTrie(t, x, s, BinLo(i), BinWidth(i), BinBits(i));
    InsertContents(t, x, s, BinLo(i), BinWidth(i));
    InsertSized(t, x, s, BinLo(i), BinWidth(i), b);
    InsertRooted(t, x, s, BinLo(i), BinWidth(i));
    forall p
      ensures p in Addrs(t') <==> InTreeBin(b', p, i)
    {
      assert p in Addrs(t') <==> p in Addrs(t) || p == x;
      assert p != x ==> (InTreeBin(b', p, i) <==> InTreeBin(b, p, i));
    }
  }

  lemma InsertRooted(t: Tree, x: int, s: int, lo: int, w: nat)
    ensures Insert(t, x, s, lo, w).Node?
  {
  }

  lemma BinWidthIsPower(i: nat)
    ensures BinWidth(i) == Pow2(BinBits(i))
  {
  }

  /** All bins after `x` went into its tree bin. */
  lemma InsertedBinsOk(m: Mem, n: Mem, sm: bv32, tm: bv32, tm': bv32, rings: seq<seq<int>>, trees: seq<Tree>,
                       b: map<int, int>, least: int, i: BinIndex, x: int, s: int, w: set<int>)
    requires BinsOk(m, sm, tm, rings, trees, b, least) && Spaced(b[x := s], least)
    requires Marked(tm', i) && (forall j: BinIndex :: j != i ==> Marked(tm', j) == Marked(tm, j))
    requires x !in b && MIN_LARGE_SIZE <= s < WORD_MAX && i == ComputeTreeIndex(s)
    requires Stored(n, Insert(trees[i], x, s, BinLo(i), BinWidth(i)), Rd(n, TreeBinAt(i)), TreeBinAt(i), i)
    requires Touches(m, n, w, TreeBinAt(i)) && w <= Addrs(trees[i]) + {x}
    ensures BinsOk(n, sm, tm', rings, trees[i := Insert(trees[i], x, s, BinLo(i), BinWidth(i))], b[x := s], least)
    ensures OnlyInside(m, n, b[x := s])
  {
    hide ComputeTreeIndex, Marked, Stored, Insert, BinWidth, BinLo, IsTrie, NoRepeat, Sized, SmallBinOk, Spaced,
      Touches;
    var t', b' := Insert(trees[i], x, s, BinLo(i), BinWidth(i)), b[x := s];
    assert TreeBinOk(m, tm, i, trees[i], b);
    InsertedBinOk(m, n, tm, tm', i, trees[i], x, s, b);
    OtherBins(m, n, sm, tm, tm', rings, trees, b, b', least, i, t', w);
    TouchesInside(m, n, w, TreeBinAt(i), b');
  }

  lemma FirstStored(m: Mem, n: Mem, x: int, s: int, i: BinIndex)
    requires n == Rooted(Prepared(m, x, i)[TreeBinAt(i) := x], x, TreeBinAt(i))
    requires HEAP_MIN <= x && x % 16 == 0
    ensures Rd(n, TreeBinAt(i)) == x
    ensures Stored(n, Node([x], s, Leaf, Leaf), x, TreeBinAt(i), i)
  {
    SingletonStored(n, x, s, TreeBinAt(i), i);
  }

  /** A chunk alone in a bin that was empty. */
  lemma FirstInBin(m: Mem, n: Mem, sm: bv32, tm: bv32, tm': bv32, rings: seq<seq<int>>, trees: seq<Tree>,
                   b: map<int, int>, least: int, i: BinIndex, x: int, s: int)
    requires BinsOk(m, sm, tm, rings, trees, b, least) && !Marked(tm, i) && tm' == MarkBit(tm, i)
    requires x !in b && Spaced(b[x := s], least)
    requires MIN_LARGE_SIZE <= s < WORD_MAX && i == ComputeTreeIndex(s)
    requires n == Rooted(Prepared(m, x, i)[TreeBinAt(i) := x], x, TreeBinAt(i))
    ensures BinsOk(n, sm, tm', rings, trees[i := Insert(trees[i], x, s, BinLo(i), BinWidth(i))], b[x := s], least)
    ensures OnlyInside(m, n, b[x := s])
  {
    hide ComputeTreeIndex, Marked, Stored, BinLo, BinWidth, SmallBinOk;
    var h := TreeBinAt(i);
    assert HEAP_MIN <= x && x % 16 == 0 by {
      assert x in b[x := s];
    }
    FirstStored(m, n, x, s, i);
    MarkClear(tm, i);
    PreparedTouches(m, x, i, h);
    RootedTouches(Prepared(m, x, i), x, h, h);
    TouchesTrans(m, Prepared(m, x, i), n, {x}, {x}, h);
    assert {x} + {x} == {x};
    assert TreeBinOk(m, tm, i, trees[i], b);
    assert trees[i] == Leaf;
    InsertedBinsOk(m, n, sm, tm, tm', rings, trees, b, least, i, x, s, {x});
  }

  /** Preparing a chunk that is in no bin disturbs none. */
  lemma PrepareChunk(m: Mem, n: Mem, sm: bv32, tm: bv32, rings: seq<seq<int>>, trees: seq<Tree>,
                   b: map<int, int>, least: int, i: BinIndex, x: int, s: int)
    requires BinsOk(m, sm, tm, rings, trees, b, least)
    requires x !in b && Spaced(b[x := s], least) && MIN_LARGE_SIZE <= s
    requires n == Prepared(m, x, i)
    ensures BinsOk(n, sm, tm, rings, trees, b, least)
    ensures HeadsRead(m, b) ==> HeadsRead(n, b)
  {
    hide SmallBinOk, TreeBinOk, Marked;
    var b' := b[x := s];
    assert x in b' && b'[x] == s;
    forall p | p in b
      ensures p + b[p] <= x || x + s <= p
    {
      assert p in b' && b'[p] == b[p];
    }
    assert InsidesKept(m, n, b);
    BinsFrame(m, n, sm, tm, rings, trees, b, least);
  }

  /** What the descent of an insertion has reached, in the store where `x` is prepared. */
  ghost predicate Reached(m: Mem, tree: Tree, i: BinIndex, x: int, s: int, path: seq<bool>, t: int) {
    && Stored(m, tree, Rd(m, TreeBinAt(i)), TreeBinAt(i), i) && NoRepeat(tree)
    && x !in Addrs(tree) && HEAP_MIN <= x && x % 16 == 0 && Apart(Addrs(tree) + {x})
    && Index(m, x) == i && Child(m, x, false) == 0 && Child(m, x, true) == 0
    && Follows(tree, path, s, BinLo(i), BinWidth(i)) && OnPath(tree, path) && At(tree, path).Node?
    && t == PtrAt(m, tree, Rd(m, TreeBinAt(i)), TreeBinAt(i), path).0
  }

  lemma ReachedBy(m: Mem, sm: bv32, tm: bv32, rings: seq<seq<int>>, trees: seq<Tree>, b: map<int, int>, least: int,
                  i: BinIndex, x: int, s: int, path: seq<bool>, t: int)
    requires BinsOk(m, sm, tm, rings, trees, b, least) && x !in b && Spaced(b[x := s], least)
    requires MIN_LARGE_SIZE <= s
    requires Index(m, x) == i && Child(m, x, false) == 0 && Child(m, x, true) == 0
    requires Follows(trees[i], path, s, BinLo(i), BinWidth(i)) && OnPath(trees[i], path) && At(trees[i], path).Node?
    requires t == PtrAt(m, trees[i], Rd(m, TreeBinAt(i)), TreeBinAt(i), path).0
    ensures Reached(m, trees[i], i, x, s, path, t)
    ensures forall p :: p in Addrs(trees[i]) ==> p in b && least <= p
    ensures Sized(trees[i], b) && HEAP_MIN <= least && HEAP_MIN <= x
  {
    hide ComputeTreeIndex, Marked, SmallBinOk, Stored, NoRepeat, IsTrie, BinLo, BinWidth, Follows, OnPath, PtrAt, At;
    assert TreeBinOk(m, tm, i, trees[i], b);
    var b' := b[x := s];
    assert x in b' && b'[x] == s;
    forall p | p in Addrs(trees[i])
      ensures p in b && least <= p && p != x && b[p] >= MIN_LARGE_SIZE && b'[p] == b[p]
    {
      assert InTreeBin(b, p, i);
    }
    var all := Addrs(trees[i]) + {x};
    forall p, q | p in all && q in all && p != q
      ensures p + 64 <= q || q + 64 <= p
    {
      assert p in b' && q in b' && b'[p] >= 64 && b'[q] >= 64;
    }
  }

  lemma ReachedNode(m: Mem, tree: Tree, i: BinIndex, x: int, s: int, path: seq<bool>, t: int, b: map<int, int>)
    requires Reached(m, tree, i, x, s, path, t) && Sized(tree, b)
    ensures var u := At(tree, path);
            && Stored(m, u, t, PtrAt(m, tree, Rd(m, TreeBinAt(i)), TreeBinAt(i), path).1, i)
            && NoRepeat(u) && Addrs(u) <= Addrs(tree)
            && t in Addrs(u) && t in b && u.size == b[t]
            && Fd(m, t) in Addrs(u)
  {
    hide Apart, Follows, BinLo, BinWidth;
    StoredAt(m, tree, Rd(m, TreeBinAt(i)), TreeBinAt(i), i, path);
    SizedAt(tree, path, b);
    var u := At(tree, path);
    assert t in u.chain && t in Elems(u.chain);
    assert LinkedAt(m, u.chain, 0);
    assert Fd(m, t) in Elems(u.chain);
  }

  /** The trie with `x` hung from an empty child pointer. */
  lemma LeafStored(m: Mem, n: Mem, tree: Tree, i: BinIndex, x: int, s: int, path: seq<bool>, t: int, k: int,
                   b: map<int, int>)
    requires Reached(m, tree, i, x, s, path, t) && Sized(tree, b) && HeadsRead(m, b)
    requires Steers(k, s, LoAt(path, BinLo(i), BinWidth(i)), WidthAt(path, BinWidth(i)))
    requires IsTrie(tree, BinLo(i), BinWidth(i))
    requires ChunkSize(m, t) != s && Child(m, t, k >= SIGN_BIT) == 0
    requires forall p :: p in Addrs(tree) ==> HEAP_MIN <= p
    requires n == Rooted(m[SlotOf(t, k >= SIGN_BIT) := x], x, t)
    ensures Stored(n, Insert(tree, x, s, BinLo(i), BinWidth(i)), Rd(m, TreeBinAt(i)), TreeBinAt(i), i)
  {
    hide ChainStored, BinLo, BinWidth, Rooted, Distinct;
    var h, root, turn := TreeBinAt(i), Rd(m, TreeBinAt(i)), k >= SIGN_BIT;
    var u, par := At(tree, path), PtrAt(m, tree, root, h, path).1;
    ReachedNode(m, tree, i, x, s, path, t, b);
    TrieAt(tree, path, BinLo(i), BinWidth(i));
    var l, v := LoAt(path, BinLo(i), BinWidth(i)), WidthAt(path, BinWidth(i));
    LeafWidth(u, k, s, l, v);
    SteeringStep(k, s, l, v);
    InsertIsPut(tree, path, x, s, BinLo(i), BinWidth(i));
    LeafWords(m, n, tree, i, x, s, path, t, turn);
    LeafInsertStored(m, n, u, t, par, i, turn, x, s);
    var sub := Insert(u, x, s, l, v);
    assert sub == Node(u.chain, u.size, if turn then u.left else Node([x], s, Leaf, Leaf),
                       if turn then Node([x], s, Leaf, Leaf) else u.right);
    StoredPut(m, n, tree, root, h, i, path, sub);
  }

  lemma LeafWidth(u: Tree, k: int, s: int, l: int, v: nat)
    requires u.Node? && IsTrie(u, l, v) && u.size != s && Steers(k, s, l, v)
    ensures v > 0 && v % 2 == 0
  {
  }

  lemma LeafOwnWords(m: Mem, x: int, t: int, i: int, turn: bool)
    requires t + 64 <= x || x + 64 <= t
    requires Index(m, x) == i && Child(m, x, false) == 0 && Child(m, x, true) == 0
    ensures var n := Rooted(m[SlotOf(t, turn) := x], x, t);
            && Fd(n, x) == x && Bk(n, x) == x && Parent(n, x) == t && Index(n, x) == i
            && Child(n, x, false) == 0 && Child(n, x, true) == 0
            && Child(n, t, turn) == x && Child(n, t, !turn) == Child(m, t, !turn)
            && Fd(n, t) == Fd(m, t) && Bk(n, t) == Bk(m, t) && Parent(n, t) == Parent(m, t)
                && Index(n, t) == Index(m, t)
  {
  }

  lemma LeafWords(m: Mem, n: Mem, tree: Tree, i: BinIndex, x: int, s: int, path: seq<bool>, t: int, turn: bool)
    requires Reached(m, tree, i, x, s, path, t) && t in Addrs(tree) && HEAP_MIN <= t
    requires forall p :: p in Addrs(tree) ==> HEAP_MIN <= p
    requires n == Rooted(m[SlotOf(t, turn) := x], x, t)
    ensures Stored(n, Node([x], s, Leaf, Leaf), x, t, i)
    ensures Child(n, t, turn) == x && Child(n, t, !turn) == Child(m, t, !turn)
    ensures Fd(n, t) == Fd(m, t) && Bk(n, t) == Bk(m, t) && Parent(n, t) == Parent(m, t) && Index(n, t) == Index(m, t)
    ensures forall p :: p in Addrs(tree) && p != t ==> SameLinks(m, n, p)
  {
    var all := Addrs(tree) + {x};
    assert t in all && x in all && t != x;
    hide Stored, Follows, OnPath, PtrAt, At, NoRepeat, Rooted;
    LeafOwnWords(m, x, t, i, turn);
    SingletonStored(n, x, s, t, i);
    LeafTouches(m, x, t, turn, TreeBinAt(i));
    forall p | p in Addrs(tree) && p != t
      ensures SameLinks(m, n, p)
    {
      assert p in all;
      TouchedApart(m, n, {t, x}, TreeBinAt(i), p);
      hide Touches, SameLinks, Apart;
    }
  }

  lemma LeafTouches(m: Mem, x: int, t: int, turn: bool, h: int)
    requires h < HEAP_MIN <= t && HEAP_MIN <= x
    ensures var n := Rooted(m[SlotOf(t, turn) := x], x, t);
            Touches(m, n, {t, x}, h) && Rd(n, h) == Rd(m, h)
  {
    assert t in {t, x} && x in {t, x};
  }

  lemma ChainTouches(m: Mem, x: int, t: int, f: int, h: int)
    requires h < HEAP_MIN <= t && HEAP_MIN <= x && HEAP_MIN <= f
    ensures var n := LinkBetween(m, t, f, x)[x + PARENT := 0];
            Touches(m, n, {t, f, x}, h) && Rd(n, h) == Rd(m, h)
  {
    assert t in {t, f, x} && f in {t, f, x} && x in {t, f, x};
  }

  /** Hanging `x` from the empty child pointer that the descent found. */
  lemma LeafInserted(m0: Mem, m: Mem, sm: bv32, tm: bv32, rings: seq<seq<int>>, trees: seq<Tree>,
                     b: map<int, int>, least: int, i: BinIndex, x: int, s: int, t: int, k: int, path: seq<bool>)
    requires BinsOk(m, sm, tm, rings, trees, b, least) && HeadsRead(m, b) && Marked(tm, i)
    requires x !in b && Spaced(b[x := s], least)
    requires MIN_LARGE_SIZE <= s < WORD_MAX && i == ComputeTreeIndex(s)
    requires m == Prepared(m0, x, i)
    requires Follows(trees[i], path, s, BinLo(i), BinWidth(i)) && OnPath(trees[i], path) && At(trees[i], path).Node?
    requires t == PtrAt(m, trees[i], Rd(m, TreeBinAt(i)), TreeBinAt(i), path).0
    requires Steers(k, s, LoAt(path, BinLo(i), BinWidth(i)), WidthAt(path, BinWidth(i)))
    requires ChunkSize(m, t) != s && Child(m, t, k >= SIGN_BIT) == 0
    ensures least <= t
    ensures var n := Rooted(m[SlotOf(t, k >= SIGN_BIT) := x], x, t);
            && BinsOk(n, sm, tm, rings, trees[i := Insert(trees[i], x, s, BinLo(i), BinWidth(i))], b[x := s], least)
            && OnlyInside(m0, n, b[x := s])
  {
    PreparedIndex(m0, x, i);
    hide ComputeTreeIndex, Marked, SmallBinOk, Stored, NoRepeat, Spaced, Follows, OnPath, PtrAt, At, Steers, Reached,
      HeadsRead, Insert, BinLo, BinWidth, Rooted, Prepared, Touches, OnlyInside, ChunkSize, Sized, IsTrie;
    var h := TreeBinAt(i);
    var n := Rooted(m[SlotOf(t, k >= SIGN_BIT) := x], x, t);
    ReachedBy(m, sm, tm, rings, trees, b, least, i, x, s, path, t);
    ReachedNode(m, trees[i], i, x, s, path, t, b);
    assert TreeBinOk(m, tm, i, trees[i], b);
    LeafStored(m, n, trees[i], i, x, s, path, t, k, b);
    LeafTouches(m, x, t, k >= SIGN_BIT, h);
    Entered(m0, m, n, sm, tm, rings, trees, b, least, i, x, s, {t, x});
  }

  lemma PreparedIndex(m0: Mem, x: int, i: int)
    ensures var m := Prepared(m0, x, i); Index(m, x) == i && Child(m, x, false) == 0 && Child(m, x, true) == 0
  {
  }

  lemma Entered(m0: Mem, m: Mem, n: Mem, sm: bv32, tm: bv32, rings: seq<seq<int>>, trees: seq<Tree>,
                b: map<int, int>, least: int, i: BinIndex, x: int, s: int, w: set<int>)
    requires BinsOk(m, sm, tm, rings, trees, b, least) && Marked(tm, i)
    requires x !in b && Spaced(b[x := s], least)
    requires MIN_LARGE_SIZE <= s < WORD_MAX && i == ComputeTreeIndex(s)
    requires m == Prepared(m0, x, i) && Touches(m, n, w, TreeBinAt(i)) && w <= Addrs(trees[i]) + {x}
    requires Stored(n, Insert(trees[i], x, s, BinLo(i), BinWidth(i)), Rd(m, TreeBinAt(i)), TreeBinAt(i), i)
    requires Rd(n, TreeBinAt(i)) == Rd(m, TreeBinAt(i))
    ensures BinsOk(n, sm, tm, rings, trees[i := Insert(trees[i], x, s, BinLo(i), BinWidth(i))], b[x := s], least)
    ensures OnlyInside(m0, n, b[x := s])
  {
    hide ComputeTreeIndex, Marked, SmallBinOk, TreeBinOk, Stored, Insert, BinLo, BinWidth, Prepared, Touches, Spaced;
    InsertedBinsOk(m, n, sm, tm, tm, rings, trees, b, least, i, x, s, w);
    PreparedTouches(m0, x, i, TreeBinAt(i));
    TouchesInside(m0, m, {x}, TreeBinAt(i), b[x := s]);
  }

  /** Linking `x` into the ring of the node that the descent found. */
  lemma ChainInserted(m0: Mem, m: Mem, sm: bv32, tm: bv32, rings: seq<seq<int>>, trees: seq<Tree>,
                      b: map<int, int>, least: int, i: BinIndex, x: int, s: int, t: int, path: seq<bool>)
    requires BinsOk(m, sm, tm, rings, trees, b, least) && HeadsRead(m, b) && Marked(tm, i)
    requires x !in b && Spaced(b[x := s], least)
    requires MIN_LARGE_SIZE <= s < WORD_MAX && i == ComputeTreeIndex(s)
    requires m == Prepared(m0, x, i)
    requires Follows(trees[i], path, s, BinLo(i), BinWidth(i)) && OnPath(trees[i], path) && At(trees[i], path).Node?
    requires t == PtrAt(m, trees[i], Rd(m, TreeBinAt(i)), TreeBinAt(i), path).0
    requires ChunkSize(m, t) == s
    ensures least <= t && least <= Fd(m, t)
    ensures var n := LinkBetween(m, t, Fd(m, t), x)[x + PARENT := 0];
            && BinsOk(n, sm, tm, rings, trees[i := Insert(trees[i], x, s, BinLo(i), BinWidth(i))], b[x := s], least)
            && OnlyInside(m0, n, b[x := s])
  {
    PreparedIndex(m0, x, i);
    hide ComputeTreeIndex, Marked, SmallBinOk, Stored, NoRepeat, Spaced, Follows, OnPath, PtrAt, At, Reached, Insert,
      BinLo, BinWidth, LinkBetween, Prepared, Touches, OnlyInside, ChunkSize, Sized, IsTrie;
    var h, f := TreeBinAt(i), Fd(m, t);
    var n := LinkBetween(m, t, f, x)[x + PARENT := 0];
    ReachedBy(m, sm, tm, rings, trees, b, least, i, x, s, path, t);
    ReachedNode(m, trees[i], i, x, s, path, t, b);
    ChainStoredIn(m, n, trees[i], i, x, s, path, t, b);
    ChainTouches(m, x, t, f, h);
    Entered(m0, m, n, sm, tm, rings, trees, b, least, i, x, s, {t, f, x});
  }

  /** The trie with `x` in the ring of its size. */
  lemma ChainStoredIn(m: Mem, n: Mem, tree: Tree, i: BinIndex, x: int, s: int, path: seq<bool>, t: int, b: map<int,
                      int>)
    requires Reached(m, tree, i, x, s, path, t) && Sized(tree, b) && HeadsRead(m, b)
    requires ChunkSize(m, t) == s
    requires n == LinkBetween(m, t, Fd(m, t), x)[x + PARENT := 0]
    ensures Stored(n, Insert(tree, x, s, BinLo(i), BinWidth(i)), Rd(m, TreeBinAt(i)), TreeBinAt(i), i)
  {
    hide ChainStored, BinLo, BinWidth, LinkBetween, Distinct;
    var h, root := TreeBinAt(i), Rd(m, TreeBinAt(i));
    var u, par := At(tree, path), PtrAt(m, tree, root, h, path).1;
    ReachedNode(m, tree, i, x, s, path, t, b);
    InsertIsPut(tree, path, x, s, BinLo(i), BinWidth(i));
    ApartSubset(Addrs(u) + {x}, Addrs(tree) + {x});
    ChainInsertStored(m, n, u, t, par, i, x);
    forall p | p in Addrs(tree) && p !in Addrs(u)
      ensures SameLinks(m, n, p)
    {
      var all := Addrs(tree) + {x};
      assert p in all && t in all && x in all && Fd(m, t) in all;
      hide Apart, SameLinks;
      StoresApart(m, n, t, Fd(m, t), x, p);
    }
    StoredPut(m, n, tree, root, h, i, path, Node(WithSecond(u.chain, x), u.size, u.left, u.right));
  }
}
