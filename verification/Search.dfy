/** Why the tree searches of `tmalloc_large` and `tmalloc_small` end at a chunk of least sufficient size. */
module Search {
  import opened Common
  import opened Memory
  import opened Tries
  import opened TrieStore
  import opened TreeIndex
  import opened BinMaps
  import opened Bins

  /** `v` is the best chunk met so far for a request of `nb` bytes, and `rsize` what it would leave over;
      before any was met, `rsize` is the unsigned negation of `nb`. */
  ghost predicate Candidate(b: map<int, int>, nb: int, v: int, rsize: int) {
    && (v == 0 ==> rsize == WORD_MAX - nb)
    && (v != 0 ==> v in b && MIN_LARGE_SIZE <= b[v] < WORD_MAX && b[v] >= nb && rsize == b[v] - nb)
  }

  /** Unsigned 64-bit subtraction. */
  function Sub64(a: int, b: int): int {
    (a - b) % WORD_MAX
  }

  /** Comparing unsigned differences rejects chunks that are too small, because their differences wrap above
      every remainder. */
  lemma Consider(b: map<int, int>, nb: int, v: int, rsize: int, t: int)
    requires Candidate(b, nb, v, rsize) && 0 < nb < WORD_MAX
    requires t in b && t != 0 && MIN_LARGE_SIZE <= b[t] < WORD_MAX
    ensures var trem := Sub64(b[t], nb);
            var (v', r') := if trem < rsize then (t, trem) else (v, rsize);
            && Candidate(b, nb, v', r') && r' <= rsize
            && (b[t] >= nb ==> r' + nb <= b[t])
            && (trem == 0 ==> b[t] == nb)
  {
    assert Sub64(b[t], nb) == if b[t] >= nb then b[t] - nb else b[t] - nb + WORD_MAX;
  }

  /** Every sufficient size of the bin is matched by the candidate, lies in the subtree `cur` still to be
      searched, or is matched in the subtree `rst`. */
  ghost predicate Scanned(tree: Tree, nb: int, rsize: int, cur: Tree, rst: Tree) {
    forall s :: s in Sizes(tree) && s >= nb ==>
      rsize + nb <= s || s in Sizes(cur) || (rst.Node? && LeastSize(rst) <= s)
  }

  /** The deepest untaken right subtree holds only sizes at or beyond `hi`. */
  ghost predicate Beyond(rst: Tree, hi: int) {
    forall s :: s in Sizes(rst) ==> s >= hi
  }

  /** One step of the first loop of `tmalloc_large`. */
  lemma ScanStep(tree: Tree, nb: int, rsize: int, rsize': int, cur: Tree, rst: Tree, lo: int, w: nat, turn: bool)
    requires Scanned(tree, nb, rsize, cur, rst) && cur.Node? && IsTrie(cur, lo, w)
    requires rsize' <= rsize && (cur.size >= nb ==> rsize' + nb <= cur.size)
    requires lo <= nb < lo + w && (turn <==> nb >= lo + w / 2)
    requires Beyond(rst, lo + w) && (rst.Node? ==> LeastSize(rst) in Sizes(rst))
    ensures var rst' := if !turn && cur.right.Node? then cur.right else rst;
            var next := if turn then cur.right else cur.left;
            && Scanned(tree, nb, rsize', next, rst')
            && Beyond(rst', if turn then lo + w else lo + w / 2)
            && (rst'.Node? ==> LeastSize(rst') in Sizes(rst'))
  {
    SizesInRange(cur.left, lo, w / 2);
    SizesInRange(cur.right, lo + w / 2, w / 2);
    if cur.right.Node? {
      LeastSizeIsLeast(cur.right, lo + w / 2, w / 2);
    }
    hide IsTrie, LeastSize;
  }

  /** Every size in `from` is matched by the candidate or by the least of `cur`. */
  ghost predicate Narrowed(tree: Tree, nb: int, rsize: int, cur: Tree) {
    && (forall s :: s in Sizes(tree) && s >= nb ==> rsize + nb <= s || (cur.Node? && LeastSize(cur) <= s))
    && (rsize == 0 || forall s :: s in Sizes(cur) ==> s >= nb)
  }

  /** One step of the leftmost walk. */
  lemma NarrowStep(tree: Tree, nb: int, rsize: int, rsize': int, cur: Tree)
    requires Narrowed(tree, nb, rsize, cur) && cur.Node? && 0 <= rsize'
    requires rsize' <= rsize && (cur.size >= nb ==> rsize' + nb <= cur.size)
    ensures Narrowed(tree, nb, rsize', if cur.left.Node? then cur.left else cur.right)
  {
    assert Sizes(cur) == {cur.size} + Sizes(cur.left) + Sizes(cur.right);
  }

  lemma NarrowStart(tree: Tree, nb: int, rsize: int, lo: int, w: nat)
    requires IsTrie(tree, lo, w) && (forall s :: s in Sizes(tree) ==> s >= nb)
    ensures Narrowed(tree, nb, rsize, tree)
  {
    if tree.Node? {
      LeastSizeIsLeast(tree, lo, w);
    }
  }

  /** A chunk of a tree bin sits at a node of its size. */
  lemma {:induction false} SizeInTree(t: Tree, b: map<int, int>, p: int)
    requires Sized(t, b) && p in Addrs(t)
    ensures p in b && b[p] in Sizes(t)
  {
    if p in t.chain {
    } else if p in Addrs(t.left) {
      SizeInTree(t.left, b, p);
    } else {
      assert p in Addrs(t.right);
      SizeInTree(t.right, b, p);
    }
  }

  /** `v` has the least size that suffices for `nb` among all large binned chunks. */
  ghost predicate BestFit(b: map<int, int>, nb: int, v: int) {
    v in b && b[v] >= nb && b[v] >= MIN_LARGE_SIZE && forall p :: p in b && b[p] >= nb && b[p] >= MIN_LARGE_SIZE ==>
          b[v] <= b[p]
  }

  ghost predicate NoFit(b: map<int, int>, nb: int) {
    forall p :: p in b && b[p] >= MIN_LARGE_SIZE ==> b[p] < nb
  }

  /** No tree chunk of at least `nb` bytes is smaller than `size`. */
  ghost predicate NoneTighter(b: map<int, int>, nb: int, size: int) {
    forall p :: p in b && b[p] >= nb && b[p] >= MIN_LARGE_SIZE ==> size <= b[p]
  }

  lemma BestIs(b: map<int, int>, nb: int, v: int)
    requires BestFit(b, nb, v)
    ensures v in b && b[v] >= nb && b[v] >= MIN_LARGE_SIZE
  {
  }

  /** The comparison that lets the designated victim win, wraparound included. */
  lemma BestBelow(b: map<int, int>, nb: int, v: int, dvsize: int, least: int)
    requires Spaced(b, least) && BestFit(b, nb, v) && 0 < nb < WORD_MAX && 0 <= dvsize < WORD_MAX
    ensures b[v] < WORD_MAX
    ensures if b[v] - nb < Sub64(dvsize, nb) then nb <= dvsize ==> b[v] < dvsize
            else nb <= dvsize && NoneTighter(b, nb, dvsize)
  {
    if nb <= dvsize {
      Sub64Is(dvsize, nb, 0);
    } else {
      Sub64Is(dvsize, nb, 1);
    }
    hide Sub64;
  }

  lemma Sub64Is(a: int, b: int, k: int)
    requires k in {0, 1} && 0 <= a - b + k * WORD_MAX < WORD_MAX
    ensures Sub64(a, b) == a - b + k * WORD_MAX
  {
  }

  /** A best fit within the lowest bin that can hold one is a best fit overall. */
  lemma BestInBin(m: Mem, tm: bv32, tree: Tree, i: BinIndex, b: map<int, int>, least: int, nb: int, v: int, rsize: int)
    requires Spaced(b, least) && TreeBinOk(m, tm, i, tree, b)
    requires Candidate(b, nb, v, rsize) && 0 < nb < WORD_MAX && v != 0 && InTreeBin(b, v, i)
    requires Narrowed(tree, nb, rsize, Leaf)
    requires forall p :: p in b && b[p] >= nb && b[p] >= MIN_LARGE_SIZE ==> ComputeTreeIndex(b[p]) >= i
    ensures BestFit(b, nb, v)
  {
    hide ComputeTreeIndex, Marked, Stored, IsTrie, NoRepeat, Sized;
    forall p | p in b && b[p] >= nb && b[p] >= MIN_LARGE_SIZE
      ensures b[v] <= b[p]
    {
      assert b[p] < WORD_MAX;
      if ComputeTreeIndex(b[p]) == i {
        assert p in Addrs(tree);
        SizeInTree(tree, b, p);
      } else {
        if b[p] < b[v] {
          TreeIndexMonotone(b[p], b[v]);
          assert false;
        }
      }
    }
  }

  /** `cur` is a subtree of the trie `tree` of bin `i`, stored at `t` (null for none). */
  ghost predicate Subtree(m: Mem, tree: Tree, b: map<int, int>, i: int, cur: Tree, t: int) {
    && (exists par :: Stored(m, cur, t, par, i))
    && Sized(cur, b) && NoRepeat(cur) && Addrs(cur) <= Addrs(tree)
    && (t == 0 <==> cur == Leaf)
  }

  lemma SubtreeNode(m: Mem, tree: Tree, b: map<int, int>, i: BinIndex, cur: Tree, t: int)
    requires Subtree(m, tree, b, i, cur, t) && t != 0
    requires forall p :: p in Addrs(tree) ==> InTreeBin(b, p, i)
    ensures cur.Node? && t in Addrs(tree) && InTreeBin(b, t, i) && b[t] == cur.size && cur.size in Sizes(cur)
    ensures Parent(m, t) != 0
    ensures Subtree(m, tree, b, i, cur.left, Child(m, t, false))
    ensures Subtree(m, tree, b, i, cur.right, Child(m, t, true))
    ensures cur.left.Node? && cur.right.Node? ==> Child(m, t, false) != Child(m, t, true)
  {
    hide ChainStored, Distinct, InTreeBin;
    var par :| Stored(m, cur, t, par, i);
    assert t in cur.chain && t in Elems(cur.chain);
    RootOf(m, cur.left, Child(m, t, false), t, i);
    RootOf(m, cur.right, Child(m, t, true), t, i);
    assert Stored(m, cur.left, Child(m, t, false), t, i) && Stored(m, cur.right, Child(m, t, true), t, i);
    hide Stored;
    BinHolds(b, t, i);
  }

  lemma BinHolds(b: map<int, int>, t: int, i: int)
    requires InTreeBin(b, t, i)
    ensures t in b
  {
  }

  /** The state of the first loop of `tmalloc_large`: the subtree at `t` covers [lo, lo + w) and is next, the
      one at `rst` is the deepest right subtree passed by. */
  ghost predicate Scanning(m: Mem, tree: Tree, b: map<int, int>, i: int, nb: int, v: int, rsize: int,
                           cur: Tree, t: int, rtree: Tree, rst: int, lo: int, w: nat, k: int) {
    && Candidate(b, nb, v, rsize) && (v != 0 ==> v in Addrs(tree))
    && Subtree(m, tree, b, i, cur, t) && IsTrie(cur, lo, w) && Steers(k, nb, lo, w)
    && Subtree(m, tree, b, i, rtree, rst) && Beyond(rtree, lo + w)
    && (rtree.Node? ==> LeastSize(rtree) in Sizes(rtree))
    && Scanned(tree, nb, rsize, cur, rtree)
  }

  lemma ScanCandidate(m: Mem, tree: Tree, b: map<int, int>, i: BinIndex, nb: int, v: int, rsize: int,
                      cur: Tree, t: int, rtree: Tree, rst: int, lo: int, w: nat, k: int)
    requires Scanning(m, tree, b, i, nb, v, rsize, cur, t, rtree, rst, lo, w, k) && t != 0
    requires MIN_LARGE_SIZE <= nb < WORD_MAX
    requires forall p :: p in Addrs(tree) ==> InTreeBin(b, p, i)
    ensures cur.Node? && t in b && b[t] == cur.size && t in Addrs(tree) && Parent(m, t) != 0
    ensures var trem := Sub64(b[t], nb);
            var (v', rsize') := if trem < rsize then (t, trem) else (v, rsize);
            && Candidate(b, nb, v', rsize') && (v' != 0 ==> v' in Addrs(tree))
            && 0 <= rsize' <= rsize && (cur.size >= nb ==> rsize' + nb <= cur.size)
            && (rsize' == 0 ==> Narrowed(tree, nb, rsize', cur))
  {
    hide Subtree, IsTrie, Scanned, Beyond, Sized, Stored, NoRepeat, ComputeTreeIndex, Steers;
    SubtreeNode(m, tree, b, i, cur, t);
    Consider(b, nb, v, rsize, t);
  }

  /** One turn of the first loop of `tmalloc_large`, after the chunk at `t` was considered. */
  lemma ScanTurn(m: Mem, tree: Tree, b: map<int, int>, i: BinIndex, nb: int, v: int, rsize: int, v': int, rsize': int,
                 cur: Tree, t: int, rtree: Tree, rst: int, lo: int, w: nat, k: int)
    requires Scanning(m, tree, b, i, nb, v, rsize, cur, t, rtree, rst, lo, w, k) && t != 0
    requires MIN_LARGE_SIZE <= nb < WORD_MAX
    requires forall p :: p in Addrs(tree) ==> InTreeBin(b, p, i)
    requires Candidate(b, nb, v', rsize') && (v' != 0 ==> v' in Addrs(tree)) && cur.Node?
    requires 0 <= rsize' <= rsize && (cur.size >= nb ==> rsize' + nb <= cur.size)
    ensures var turn := k >= SIGN_BIT;
            var next, t' := if turn then cur.right else cur.left, Child(m, t, turn);
            var rt := Child(m, t, true);
            var taken := rt != 0 && rt != t';
            && Subtree(m, tree, b, i, next, t')
            && Subtree(m, tree, b, i, if taken then cur.right else rtree, if taken then rt else rst)
            && (t' == 0 ==> Narrowed(tree, nb, rsize', if taken then cur.right else rtree))
            && (t' != 0 ==> Scanning(m, tree, b, i, nb, v', rsize', next, t', if taken then cur.right else rtree,
                                     if taken then rt else rst, if turn then lo + w / 2 else lo, w / 2,
                                         k * 2 % WORD_MAX))
  {
    SubtreeNode(m, tree, b, i, cur, t);
    hide Subtree, Candidate, Sized, Stored, NoRepeat, ComputeTreeIndex, Sizes, LeastSize;
    var turn := k >= SIGN_BIT;
    SubtreeNull(m, tree, b, i, cur.left, Child(m, t, false));
    SubtreeNull(m, tree, b, i, cur.right, Child(m, t, true));
    if w == 1 {
      assert IsTrie(cur.left, lo, 0) && IsTrie(cur.right, lo + 0, 0);
      assert cur.left == Leaf && cur.right == Leaf;
      ScanLast(tree, nb, rsize, rsize', cur, rtree, lo);
    } else {
      SteeringStep(k, nb, lo, w);
      ScanStep(tree, nb, rsize, rsize', cur, rtree, lo, w, turn);
      ScanEnd(tree, nb, rsize', if turn then cur.right else cur.left,
              if !turn && cur.right.Node? then cur.right else rtree, if turn then lo + w else lo + w / 2);
    }
  }

  lemma SubtreeNull(m: Mem, tree: Tree, b: map<int, int>, i: int, cur: Tree, t: int)
    requires Subtree(m, tree, b, i, cur, t)
    ensures t == 0 <==> cur == Leaf
  {
  }

  lemma ScanEnd(tree: Tree, nb: int, rsize: int, next: Tree, rst: Tree, hi: int)
    requires Scanned(tree, nb, rsize, next, rst) && Beyond(rst, hi) && nb < hi
    ensures next == Leaf ==> Narrowed(tree, nb, rsize, rst)
  {
  }

  lemma ScanLast(tree: Tree, nb: int, rsize: int, rsize': int, cur: Tree, rst: Tree, lo: int)
    requires Scanned(tree, nb, rsize, cur, rst) && cur.Node? && cur.left == Leaf && cur.right == Leaf
    requires Beyond(rst, lo + 1) && nb == lo
    requires 0 <= rsize' <= rsize && (cur.size >= nb ==> rsize' + nb <= cur.size)
    ensures Narrowed(tree, nb, rsize', rst)
  {
    assert Sizes(cur) == {cur.size};
  }

  lemma CandidateBounds(b: map<int, int>, nb: int, v: int, rsize: int)
    requires Candidate(b, nb, v, rsize) && nb < WORD_MAX
    ensures 0 <= rsize
  {
  }

  lemma ScanStart(m: Mem, tree: Tree, b: map<int, int>, i: BinIndex, nb: int, t: int)
    requires Subtree(m, tree, b, i, tree, t) && MIN_LARGE_SIZE <= nb < WORD_MAX
    requires i == ComputeTreeIndex(nb) && IsTrie(tree, BinLo(i), BinWidth(i))
    ensures Candidate(b, nb, 0, Sub64(0, nb))
    ensures t == 0 ==> Narrowed(tree, nb, Sub64(0, nb), tree)
    ensures Scanning(m, tree, b, i, nb, 0, Sub64(0, nb), tree, t, Leaf, 0, BinLo(i), BinWidth(i), SteeringWord(nb, i))
  {
    hide ComputeTreeIndex, BinLo, BinWidth, SteeringWord;
    InBinRange(nb);
    SteeringStart(nb, i);
    assert Stored(m, Leaf, 0, 0, i);
  }

  lemma ScanState(m: Mem, tree: Tree, b: map<int, int>, i: int, nb: int, v: int, rsize: int,
                  cur: Tree, t: int, rtree: Tree, rst: int, lo: int, w: nat, k: int)
    requires Scanning(m, tree, b, i, nb, v, rsize, cur, t, rtree, rst, lo, w, k)
    ensures Subtree(m, tree, b, i, cur, t)
  {
  }

  /** Large binned chunks of at least `nb` bytes sit in bin `i` or above. */
  ghost predicate NoneBelow(b: map<int, int>, nb: int, i: int) {
    forall p :: p in b && b[p] >= nb && MIN_LARGE_SIZE <= b[p] < WORD_MAX ==> ComputeTreeIndex(b[p]) >= i
  }

  lemma OwnBinFirst(b: map<int, int>, nb: int)
    requires MIN_LARGE_SIZE <= nb < WORD_MAX
    ensures NoneBelow(b, nb, ComputeTreeIndex(nb))
  {
    hide ComputeTreeIndex;
    forall p | p in b && b[p] >= nb && MIN_LARGE_SIZE <= b[p] < WORD_MAX
      ensures ComputeTreeIndex(b[p]) >= ComputeTreeIndex(nb)
    {
      TreeIndexMonotone(nb, b[p]);
    }
  }

  /** When the scan of a bin ends with nothing, the bin has nothing. */
  lemma ScannedEmpty(m: Mem, tm: bv32, tree: Tree, i: BinIndex, b: map<int, int>, nb: int, rsize: int, cur: Tree)
    requires TreeBinOk(m, tm, i, tree, b) && Narrowed(tree, nb, rsize, cur) && cur == Leaf
    requires Candidate(b, nb, 0, rsize)
    ensures forall p :: InTreeBin(b, p, i) ==> p in b && b[p] < nb
  {
    hide ComputeTreeIndex, Marked, Stored, IsTrie, NoRepeat, Sized;
    forall p | InTreeBin(b, p, i)
      ensures p in b && b[p] < nb
    {
      assert p in Addrs(tree);
      SizeInTree(tree, b, p);
    }
  }

  /** The next bin to try is the lowest marked one above; below it there is nothing. */
  lemma NextBin(m: Mem, sm: bv32, tm: bv32, rings: seq<seq<int>>, trees: seq<Tree>, b: map<int, int>, least: int,
                i: BinIndex, nb: int, j: int)
    requires BinsOk(m, sm, tm, rings, trees, b, least) && NoneBelow(b, nb, i)
    requires forall p :: InTreeBin(b, p, i) ==> p in b && b[p] < nb
    requires i < j <= NTREEBINS && (forall k: BinIndex :: i < k < j ==> !Marked(tm, k))
    ensures NoneBelow(b, nb, j)
  {
    hide ComputeTreeIndex, Marked, Stored, IsTrie, NoRepeat, Sized, SmallBinOk;
    forall p | p in b && b[p] >= nb && MIN_LARGE_SIZE <= b[p] < WORD_MAX
      ensures ComputeTreeIndex(b[p]) >= j
    {
      InBinRange(b[p]);
      var k: BinIndex := ComputeTreeIndex(b[p]);
      assert InTreeBin(b, p, k);
      assert TreeBinOk(m, tm, k, trees[k], b);
    }
  }

  /** The walk may start at the root of a bin all of whose chunks suffice. */
  lemma WalkFromRoot(m: Mem, sm: bv32, tm: bv32, rings: seq<seq<int>>, trees: seq<Tree>, b: map<int, int>, least: int,
                     j: BinIndex, nb: int, rsize: int)
    requires BinsOk(m, sm, tm, rings, trees, b, least)
    requires forall p :: InTreeBin(b, p, j) ==> p in b && b[p] >= nb
    ensures Subtree(m, trees[j], b, j, trees[j], Rd(m, TreeBinAt(j)))
    ensures Narrowed(trees[j], nb, rsize, trees[j])
  {
    hide ComputeTreeIndex, Marked, SmallBinOk;
    assert TreeBinOk(m, tm, j, trees[j], b);
    hide Stored, IsTrie, NoRepeat, Sized;
    forall s | s in Sizes(trees[j])
      ensures s >= nb
    {
      var p := ChunkOfSize(trees[j], b, s);
    }
    NarrowStart(trees[j], nb, rsize, BinLo(j), BinWidth(j));
  }

  lemma {:induction false} ChunkOfSize(t: Tree, b: map<int, int>, s: int) returns (p: int)
    requires Sized(t, b) && NoRepeat(t) && s in Sizes(t)
    ensures p in Addrs(t) && p in b && b[p] == s
  {
    if s == t.size {
      p := t.chain[0];
      assert p in t.chain;
    } else if s in Sizes(t.left) {
      p := ChunkOfSize(t.left, b, s);
    } else {
      p := ChunkOfSize(t.right, b, s);
    }
  }

  /** Sizes in a bin above that of `nb` exceed it. */
  lemma HigherBinSuffices(b: map<int, int>, nb: int, i: int, j: int)
    requires MIN_LARGE_SIZE <= nb < WORD_MAX && i == ComputeTreeIndex(nb) && i < j
    ensures forall p :: InTreeBin(b, p, j) ==> p in b && b[p] >= nb
  {
    hide ComputeTreeIndex;
    forall p | InTreeBin(b, p, j)
      ensures p in b && b[p] >= nb
    {
      if b[p] < nb {
        TreeIndexMonotone(b[p], nb);
        assert false;
      }
    }
  }

  /** The end of a search that came to bin `j`. */
  lemma SearchEnds(m: Mem, sm: bv32, tm: bv32, rings: seq<seq<int>>, trees: seq<Tree>, b: map<int, int>, least: int,
                   j: BinIndex, nb: int, v: int, rsize: int)
    requires BinsOk(m, sm, tm, rings, trees, b, least) && NoneBelow(b, nb, j) && 0 < nb < WORD_MAX
    requires Candidate(b, nb, v, rsize) && (v != 0 ==> v in Addrs(trees[j])) && Narrowed(trees[j], nb, rsize, Leaf)
    ensures v != 0 ==> BestFit(b, nb, v) && rsize == b[v] - nb
    ensures v == 0 ==> rsize == WORD_MAX - nb && forall p :: InTreeBin(b, p, j) ==> p in b && b[p] < nb
  {
    hide ComputeTreeIndex, Marked, SmallBinOk, Stored, IsTrie, NoRepeat, Sized;
    assert TreeBinOk(m, tm, j, trees[j], b);
    if v != 0 {
      BestInBin(m, tm, trees[j], j, b, least, nb, v, rsize);
    } else {
      ScannedEmpty(m, tm, trees[j], j, b, nb, rsize, Leaf);
    }
  }

  /** The first chunk of a walk becomes the candidate unless there already is one. */
  lemma NarrowFinds(tree: Tree, b: map<int, int>, nb: int, v: int, rsize: int, rsize': int, cur: Tree)
    requires Narrowed(tree, nb, rsize, cur) && cur.Node?
    requires Candidate(b, nb, v, rsize') && 0 < nb < WORD_MAX
    requires rsize' <= rsize && (cur.size >= nb ==> rsize' + nb <= cur.size) && cur.size < WORD_MAX
    ensures v != 0
  {
    assert cur.size in Sizes(cur);
  }

  lemma FoundNone(m: Mem, sm: bv32, tm: bv32, rings: seq<seq<int>>, trees: seq<Tree>, b: map<int, int>, least: int,
                  i: BinIndex, nb: int, rsize: int, cur: Tree)
    requires BinsOk(m, sm, tm, rings, trees, b, least)
    requires Candidate(b, nb, 0, rsize) && Narrowed(trees[i], nb, rsize, cur) && Subtree(m, trees[i], b, i, cur, 0)
    ensures forall p :: InTreeBin(b, p, i) ==> p in b && b[p] < nb
  {
    hide ComputeTreeIndex, Marked, SmallBinOk, Stored, IsTrie, NoRepeat, Sized, Candidate, Narrowed;
    assert TreeBinOk(m, tm, i, trees[i], b);
    ScannedEmpty(m, tm, trees[i], i, b, nb, rsize, cur);
  }

  lemma NoneAbove(b: map<int, int>, nb: int, least: int)
    requires NoneBelow(b, nb, NTREEBINS) && Spaced(b, least)
    ensures NoFit(b, nb)
  {
    hide ComputeTreeIndex;
    forall p | p in b && b[p] >= MIN_LARGE_SIZE
      ensures b[p] < nb
    {
      InBinRange(b[p]);
    }
  }

  lemma InBin(b: map<int, int>, t: int, i: int, least: int)
    requires InTreeBin(b, t, i) && Spaced(b, least)
    ensures t in b && MIN_LARGE_SIZE <= b[t] < WORD_MAX && t != 0
  {
  }

  /** The lowest marked bin holds something, and nothing large lies below it. */
  lemma LowestBin(m: Mem, sm: bv32, tm: bv32, rings: seq<seq<int>>, trees: seq<Tree>, b: map<int, int>, least: int,
                  i: BinIndex, nb: int)
    requires BinsOk(m, sm, tm, rings, trees, b, least) && nb < MIN_LARGE_SIZE
    requires Marked(tm, i) && (forall k: BinIndex :: k < i ==> !Marked(tm, k))
    ensures NoneBelow(b, nb, i) && Rd(m, TreeBinAt(i)) != 0
    ensures forall p :: InTreeBin(b, p, i) ==> p in b && b[p] >= nb
  {
    hide ComputeTreeIndex, Marked, IsTrie, NoRepeat, Sized, SmallBinOk;
    assert TreeBinOk(m, tm, i, trees[i], b);
    forall p | p in b && b[p] >= nb && MIN_LARGE_SIZE <= b[p] < WORD_MAX
      ensures ComputeTreeIndex(b[p]) >= i
    {
      InBinRange(b[p]);
      var k: BinIndex := ComputeTreeIndex(b[p]);
      assert InTreeBin(b, p, k);
      assert TreeBinOk(m, tm, k, trees[k], b);
    }
  }

  /** The root of a marked bin is not null. */
  lemma MarkedRoot(m: Mem, sm: bv32, tm: bv32, rings: seq<seq<int>>, trees: seq<Tree>, b: map<int, int>, least: int,
                   k: BinIndex)
    requires BinsOk(m, sm, tm, rings, trees, b, least) && Marked(tm, k)
    ensures Rd(m, TreeBinAt(k)) != 0
  {
    hide Marked, ComputeTreeIndex, SmallBinOk;
    assert TreeBinOk(m, tm, k, trees[k], b);
  }

  /** A best fit among the large chunks is the least fit where no small one fits. */
  lemma BestIsLeast(b: map<int, int>, nb: int, p: int)
    requires BestFit(b, nb, p) && forall q :: q in b && nb <= b[q] ==> MIN_LARGE_SIZE <= b[q]
    ensures LeastFit(b, nb, p)
  {
  }
}
