/** The bins of free chunks as they lie in the store: 32 rings of small chunks and 32 tries of large ones. */
module Bins {
  import opened Memory
  import opened Rings
  import opened Tries
  import opened TrieStore
  import opened TreeIndex
  import opened BinMaps

  const NSMALLBINS := 32
  const MIN_CHUNK_SIZE := 32

  /** The allocator's own state lies below every chunk. */
  const HEAP_MIN := 0x1_0000

  /** `smallbin_at`: a header whose `fd` and `bk` are two words of the state record, its other fields falling on
      the words of neighbouring headers. */
  function SmallBinAt(i: int): int { 0x1000 + 16 * i }

  /** `treebin_at`: the word that holds the root of tree bin `i`. */
  function TreeBinAt(i: int): int { 0x2000 + 8 * i }

  function ChunkSize(m: Mem, p: int): int { Head(m, p) - Head(m, p) % 8 }

  /** The chunks of `b` (address to size) are aligned, large enough, above `least`, and do not overlap. */
  ghost predicate Spaced(b: map<int, int>, least: int) {
    && HEAP_MIN <= least
    && (forall p :: p in b ==>
          && least <= p && p % 16 == 0 && b[p] % 16 == 0 && MIN_CHUNK_SIZE <= b[p] && p + b[p] < WORD_MAX)
    && (forall p, q :: p in b && q in b && p != q ==> p + b[p] <= q || q + b[q] <= p)
  }

  /** `p` has the least size of all chunks in bins that is at least `nb`. */
  ghost predicate LeastFit(b: map<int, int>, nb: int, p: int) {
    p in b && nb <= b[p] && forall q :: q in b && nb <= b[q] ==> b[p] <= b[q]
  }

  ghost predicate NoneHolds(b: map<int, int>, nb: int) {
    forall q :: q in b ==> b[q] < nb
  }

  ghost predicate InSmallBin(b: map<int, int>, p: int, i: int) {
    p in b && b[p] < MIN_LARGE_SIZE && b[p] / 8 == i
  }

  ghost predicate InTreeBin(b: map<int, int>, p: int, i: int) {
    p in b && MIN_LARGE_SIZE <= b[p] < WORD_MAX && ComputeTreeIndex(b[p]) == i
  }

  /** Small bin `i` holds the chunks of `ring`; its links mean something only while the bin is marked. */
  ghost predicate SmallBinOk(m: Mem, sm: bv32, i: BinIndex, ring: seq<int>, b: map<int, int>) {
    && (Marked(sm, i) <==> |ring| > 0)
    && (|ring| > 0 ==> Ring(m, [SmallBinAt(i)] + ring))
    && (forall p :: p in ring <==> InSmallBin(b, p, i))
  }

  ghost predicate TreeBinOk(m: Mem, tm: bv32, i: BinIndex, t: Tree, b: map<int, int>) {
    && (Marked(tm, i) <==> t.Node?)
    && Stored(m, t, Rd(m, TreeBinAt(i)), TreeBinAt(i), i)
    && IsTrie(t, BinLo(i), BinWidth(i))
    && NoRepeat(t) && Sized(t, b)
    && (forall p :: p in Addrs(t) <==> InTreeBin(b, p, i))
  }

  /** Every bin is well formed, and together they hold exactly the chunks of `b`, each in the bin of its size. */
  ghost predicate BinsOk(m: Mem, sm: bv32, tm: bv32, rings: seq<seq<int>>, trees: seq<Tree>,
                         b: map<int, int>, least: int) {
    && |rings| == NSMALLBINS && |trees| == NTREEBINS
    && Spaced(b, least)
    && (forall i: BinIndex :: SmallBinOk(m, sm, i, rings[i], b))
    && (forall i: BinIndex :: TreeBinOk(m, tm, i, trees[i], b))
  }

  /** The head words of the binned chunks hold their sizes. */
  ghost predicate HeadsRead(m: Mem, b: map<int, int>) {
    forall p :: p in b ==> ChunkSize(m, p) == b[p]
  }

  /** The stores from `m` to `n` fell in the state record or strictly inside chunks of `b`, past their heads. */
  ghost predicate OnlyInside(m: Mem, n: Mem, b: map<int, int>) {
    forall a :: HEAP_MIN <= a && (forall p :: p in b ==> a < p + FD || p + b[p] <= a) ==> Rd(n, a) == Rd(m, a)
  }

  // ---------------------------------------------------------------- frames

  ghost predicate LinksKept(m: Mem, n: Mem, p: int, s: int) {
    Fd(m, p) == Fd(n, p) && Bk(m, p) == Bk(n, p) && (s >= MIN_LARGE_SIZE ==> SameLinks(m, n, p))
  }

  lemma SmallBinFrame(m: Mem, n: Mem, sm: bv32, sm': bv32, i: BinIndex, ring: seq<int>, b: map<int, int>,
                      b': map<int, int>)
    requires SmallBinOk(m, sm, i, ring, b)
    requires Marked(sm, i) == Marked(sm', i)
    requires Fd(m, SmallBinAt(i)) == Fd(n, SmallBinAt(i)) && Bk(m, SmallBinAt(i)) == Bk(n, SmallBinAt(i))
    requires forall p :: p in b && InSmallBin(b, p, i) ==> LinksKept(m, n, p, b[p])
    requires forall p :: InSmallBin(b, p, i) <==> InSmallBin(b', p, i)
    ensures SmallBinOk(n, sm', i, ring, b')
  {
    hide Marked;
    if |ring| > 0 {
      var c := [SmallBinAt(i)] + ring;
      forall k | 0 <= k < |c|
        ensures Fd(m, c[k]) == Fd(n, c[k]) && Bk(m, c[k]) == Bk(n, c[k])
      {
        if k > 0 {
          assert c[k] in ring;
        }
      }
      RingFrame(m, n, c);
    }
  }

  lemma TreeBinFrame(m: Mem, n: Mem, tm: bv32, tm': bv32, i: BinIndex, t: Tree, b: map<int, int>, b': map<int, int>)
    requires TreeBinOk(m, tm, i, t, b)
    requires Marked(tm, i) == Marked(tm', i)
    requires Rd(m, TreeBinAt(i)) == Rd(n, TreeBinAt(i))
    requires forall p :: p in b && InTreeBin(b, p, i) ==> LinksKept(m, n, p, b[p])
    requires forall p :: InTreeBin(b, p, i) <==> InTreeBin(b', p, i)
    requires forall p :: p in b && p in b' && InTreeBin(b, p, i) ==> b'[p] == b[p]
    ensures TreeBinOk(n, tm', i, t, b')
  {
    hide Marked, IsTrie, NoRepeat, ComputeTreeIndex;
    StoredFrame(m, n, t, Rd(m, TreeBinAt(i)), TreeBinAt(i), i);
    SizedFrame(t, b, b');
  }

  /** Stores to the link words of the chunks in `w` and to the one word `h` are all that separate `m` from `n`. */
  ghost predicate Touches(m: Mem, n: Mem, w: set<int>, h: int) {
    forall a :: a != h && (forall p :: p in w ==> a < p + FD || p + 64 <= a) ==> Rd(n, a) == Rd(m, a)
  }

  /** Every bin but tree bin `i` is as it was, when only that bin's chunks and its root word were touched. */
  lemma OtherBins(m: Mem, n: Mem, sm: bv32, tm: bv32, tm': bv32, rings: seq<seq<int>>, trees: seq<Tree>,
                  b: map<int, int>, b': map<int, int>, least: int, i: BinIndex, t': Tree, w: set<int>)
    requires BinsOk(m, sm, tm, rings, trees, b, least) && Spaced(b', least)
    requires TreeBinOk(n, tm', i, t', b')
    requires forall j: BinIndex :: j != i ==> Marked(tm', j) == Marked(tm, j)
    requires Touches(m, n, w, TreeBinAt(i))
    requires forall p :: p in w ==> InTreeBin(b, p, i) || InTreeBin(b', p, i)
    requires forall p :: p in b && !InTreeBin(b, p, i) ==> p in b' && b'[p] == b[p]
    requires forall p :: p in b' && !InTreeBin(b', p, i) ==> p in b && b'[p] == b[p]
    requires forall p :: InTreeBin(b, p, i) && p in b' ==> InTreeBin(b', p, i)
    requires forall p :: InTreeBin(b', p, i) && p in b ==> InTreeBin(b, p, i)
    ensures BinsOk(n, sm, tm', rings, trees[i := t'], b', least)
  {
    hide Marked, ComputeTreeIndex, SmallBinOk, TreeBinOk;
    forall p | p in b && !InTreeBin(b, p, i)
      ensures LinksKept(m, n, p, b[p])
    {
      UntouchedLinks(m, n, w, TreeBinAt(i), p, b, b', least, i);
    }
    forall j: BinIndex
      ensures SmallBinOk(n, sm, j, rings[j], b')
    {
      assert Fd(m, SmallBinAt(j)) == Fd(n, SmallBinAt(j)) && Bk(m, SmallBinAt(j)) == Bk(n, SmallBinAt(j));
      SmallBinFrame(m, n, sm, sm, j, rings[j], b, b');
    }
    var trees' := trees[i := t'];
    forall j: BinIndex
      ensures TreeBinOk(n, tm', j, trees'[j], b')
    {
      if j != i {
        assert Rd(m, TreeBinAt(j)) == Rd(n, TreeBinAt(j));
        TreeBinFrame(m, n, tm, tm', j, trees[j], b, b');
      }
    }
  }

  lemma UntouchedLinks(m: Mem, n: Mem, w: set<int>, h: int, p: int, b: map<int, int>, b': map<int, int>, least: int,
                       i: int)
    requires Spaced(b, least) && Spaced(b', least) && h < HEAP_MIN
    requires Touches(m, n, w, h)
    requires forall q :: q in w ==> InTreeBin(b, q, i) || InTreeBin(b', q, i)
    requires p in b && !InTreeBin(b, p, i) && p in b' && b'[p] == b[p]
    ensures LinksKept(m, n, p, b[p])
  {
    hide ComputeTreeIndex;
    forall q | q in w
      ensures p + b[p] <= q || q + 64 <= p
    {
      assert q != p;
    }
  }

  /** The state record and the insides of the chunks of `b` are as they were. */
  ghost predicate InsidesKept(m: Mem, n: Mem, b: map<int, int>) {
    && (forall a :: 0 <= a < HEAP_MIN ==> Rd(n, a) == Rd(m, a))
    && (forall p, a :: p in b && p + FD <= a < p + b[p] ==> Rd(n, a) == Rd(m, a))
  }

  /** Stores outside the insides of binned chunks leave the bins alone. */
  lemma BinsFrame(m: Mem, n: Mem, sm: bv32, tm: bv32, rings: seq<seq<int>>, trees: seq<Tree>, b: map<int, int>,
                  least: int)
    requires BinsOk(m, sm, tm, rings, trees, b, least) && InsidesKept(m, n, b)
    ensures BinsOk(n, sm, tm, rings, trees, b, least)
  {
    forall p | p in b
      ensures LinksKept(m, n, p, b[p])
    {
      InsideLinks(m, n, p, b);
    }
    hide InsidesKept, SmallBinOk, TreeBinOk, Marked, ComputeTreeIndex, Spaced, LinksKept;
    forall i: BinIndex
      ensures SmallBinOk(n, sm, i, rings[i], b) && TreeBinOk(n, tm, i, trees[i], b)
    {
      HeadersKept(m, n, b, i);
      SmallBinFrame(m, n, sm, sm, i, rings[i], b, b);
      TreeBinFrame(m, n, tm, tm, i, trees[i], b, b);
    }
  }

  lemma InsideLinks(m: Mem, n: Mem, p: int, b: map<int, int>)
    requires InsidesKept(m, n, b) && p in b && b[p] >= MIN_CHUNK_SIZE
    ensures LinksKept(m, n, p, b[p])
  {
  }

  lemma HeadersKept(m: Mem, n: Mem, b: map<int, int>, i: BinIndex)
    requires InsidesKept(m, n, b)
    ensures Fd(m, SmallBinAt(i)) == Fd(n, SmallBinAt(i)) && Bk(m, SmallBinAt(i)) == Bk(n, SmallBinAt(i))
    ensures Rd(m, TreeBinAt(i)) == Rd(n, TreeBinAt(i))
  {
  }

  /** A lower least address suits the bins as well. */
  lemma BinsLower(m: Mem, sm: bv32, tm: bv32, rings: seq<seq<int>>, trees: seq<Tree>, b: map<int, int>, least: int,
                  least': int)
    requires BinsOk(m, sm, tm, rings, trees, b, least) && HEAP_MIN <= least' <= least
    ensures BinsOk(m, sm, tm, rings, trees, b, least')
  {
    hide SmallBinOk, TreeBinOk;
  }

  /** While nothing is binned only the tree roots matter. */
  lemma BinsEmpty(m: Mem, n: Mem, sm: bv32, tm: bv32, rings: seq<seq<int>>, trees: seq<Tree>, least: int, least': int)
    requires BinsOk(m, sm, tm, rings, trees, map[], least) && HEAP_MIN <= least'
    requires forall i: BinIndex :: Rd(n, TreeBinAt(i)) == Rd(m, TreeBinAt(i))
    ensures BinsOk(n, sm, tm, rings, trees, map[], least')
  {
    hide Marked, ComputeTreeIndex;
    forall i: BinIndex
      ensures SmallBinOk(n, sm, i, rings[i], map[]) && TreeBinOk(n, tm, i, trees[i], map[])
    {
      assert SmallBinOk(m, sm, i, rings[i], map[]);
      assert |rings[i]| > 0 ==> rings[i][0] in rings[i] && InSmallBin(map[], rings[i][0], i);
      TreeBinFrame(m, n, tm, tm, i, trees[i], map[], map[]);
    }
  }
}
