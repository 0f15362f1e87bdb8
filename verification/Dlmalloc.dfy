/** The state record of dlmalloc 2.8.6 and the operations on it. */
module Dlmalloc {
  import opened Common
  import opened Memory
  import opened Rings
  import opened Tries
  import opened TrieStore
  import opened TreeIndex
  import opened BinMaps
  import opened Bins
  import opened TreeInsertion
  import opened TreeRemoval
  import opened SmallBins
  import opened Search
  import opened Heap
  import opened Segments
  import opened HeapOps
  import opened Growth
  import opened System
  import opened Requests
  import opened Service
  import opened Tilings
  import H = HeapSteps

  const FENCEPOST_HEAD := 11

  /** The words that the first `n` bytes from `dst` reach into hold what those from `src` held. */
  ghost predicate Copied(m: Mem, n: Mem, src: int, dst: int, len: int) {
    forall a :: dst <= a < dst + len && (a - dst) % 8 == 0 ==> Rd(n, a) == Rd(m, src + (a - dst))
  }

  /** The block `p` has become `q`, a chunk for `bytes` bytes, at the same place or a new one; it starts with the words
      of the old one as far as both reach, and the other blocks are as they were. */
  ghost predicate Relocated(m: Mem, n: Mem, u: map<int, int>, v: map<int, int>, p: int, q: int, bytes: int) {
    && p in u && q in v && NeedOf(bytes) <= v[q] < NeedOf(bytes) + MIN_CHUNK_SIZE
    && v == (u - {p})[q := v[q]] && (q == p || q !in u) && DataKept(m, n, u - {p})
    && Copied(m, n, p + MEM_OFFSET, q + MEM_OFFSET, Min(u[p] - CHUNK_OVERHEAD, bytes))
  }

  /** The chunk `p` of `u` now holds `nb` bytes where it is. */
  ghost predicate Fitted(s: Space, u: map<int, int>, p: int, nb: int, t: Space) {
    p in u && InPlace(s, p, u[p], nb, t)
  }

  /** What was copied from a kept block is the block's old contents. */
  lemma CopiedFrom(m: Mem, n: Mem, o: Mem, u: map<int, int>, p: int, src: int, dst: int, len: int)
    requires DataKept(m, n, u) && p in u && src == p + MEM_OFFSET && len + CHUNK_OVERHEAD <= u[p]
    requires Copied(n, o, src, dst, len)
    ensures Copied(m, o, src, dst, len)
  {
  }

  /** What was copied into a block that is kept stays there. */
  lemma CopiedKept(m: Mem, n: Mem, o: Mem, u: map<int, int>, q: int, src: int, dst: int, len: int)
    requires DataKept(n, o, u) && q in u && dst == q + MEM_OFFSET && len + CHUNK_OVERHEAD <= u[q]
    requires Copied(m, n, src, dst, len)
    ensures Copied(m, o, src, dst, len)
  {
  }

  /** The most recent segment still ends on a 16-byte boundary. */
  lemma AttachedAligned(segs: seq<Segment>, g: Segment)
    requires EndsAligned(segs) && Granted(segs, g.base, g.size)
    ensures EndsAligned(Attached(segs, g))
  {
    StartingAtBound(segs, End(g));
  }

  class MallocState {
    var mem: Mem
    var smallmap: bv32
    var treemap: bv32
    var leastAddr: int

    var dv: int
    var dvsize: int
    var top: int
    var topsize: int
    var footprint: int
    var maxFootprint: int
    var footprintLimit: int
    var trimCheck: int
    var contiguous: bool
    var segs: seq<Segment>

    /** The chunks of the heap, and those with nothing above them. */
    ghost var heap: Chunks
    ghost var ends: set<int>

    ghost var rings: seq<seq<int>>
    ghost var trees: seq<Tree>
    /** The chunks that are in some bin, with their sizes. */
    ghost var binned: map<int, int>

    /** The lowest address a chunk may have. */
    ghost function Floor(): int
      reads `leastAddr
    {
      if leastAddr == 0 then HEAP_MIN else leastAddr
    }

    ghost predicate BinsValid()
      reads `mem, `smallmap, `treemap, `rings, `trees, `binned, `leastAddr
    {
      BinsOk(mem, smallmap, treemap, rings, trees, binned, Floor())
    }

    // -------------------------------------------------------------- tree bins

    /** The search loop of `insert_large_chunk`: down the steering bits of `s` to the node of that size, or to
        the node whose next child pointer is empty. */
    method DescendToSize(s: int, i: BinIndex) returns (t: int, k: int, ghost path: seq<bool>)
      requires BinsValid() && HeadsRead(mem, binned)
      requires MIN_LARGE_SIZE <= s < WORD_MAX && i == ComputeTreeIndex(s) && Marked(treemap, i)
      ensures Follows(trees[i], path, s, BinLo(i), BinWidth(i)) && OnPath(trees[i], path)
      ensures t == PtrAt(mem, trees[i], Rd(mem, TreeBinAt(i)), TreeBinAt(i), path).0
      ensures Steers(k, s, LoAt(path, BinLo(i), BinWidth(i)), WidthAt(path, BinWidth(i)))
      ensures At(trees[i], path).Node?
      ensures ChunkSize(mem, t) != s ==> Child(mem, t, k >= SIGN_BIT) == 0
      ensures |path| <= BinBits(i)
    {
      t := Rd(mem, TreeBinAt(i));
      k := SteeringWord(s, i);
      path := [];
      ghost var tree, root, bin := trees[i], Rd(mem, TreeBinAt(i)), TreeBinAt(i);
      InBinRange(s);
      SteeringStart(s, i);
      assert TreeBinOk(mem, treemap, i, tree, binned);
      while ChunkSize(mem, t) != s && Child(mem, t, k >= SIGN_BIT) != 0
        invariant Follows(tree, path, s, BinLo(i), BinWidth(i)) && OnPath(tree, path)
        invariant t == PtrAt(mem, tree, root, bin, path).0
        invariant Steers(k, s, LoAt(path, BinLo(i), BinWidth(i)), WidthAt(path, BinWidth(i)))
        invariant At(tree, path).Node?
        decreases At(tree, path)
      {
        hide Spaced, SmallBinOk, ChainStored, NoRepeat, ComputeTreeIndex, SteeringWord;
        DescentStep(mem, tree, root, bin, i, path, s, k, binned, treemap);
        path := path + [k >= SIGN_BIT];
        t := Child(mem, t, k >= SIGN_BIT);
        k := k * 2 % WORD_MAX;
      }
      BinHeight(tree, i);
      PathWithin(tree, path);
    }

    /** `insert_large_chunk`. */
    method InsertLargeChunk(x: int, s: int)
      requires BinsValid() && HeadsRead(mem, binned)
      requires MIN_LARGE_SIZE <= s < WORD_MAX && x !in binned && Spaced(binned[x := s], Floor())
      modifies `mem, `treemap, `trees, `binned
      ensures BinsValid() && binned == old(binned)[x := s]
      ensures var i := ComputeTreeIndex(s);
              trees == old(trees)[i := Insert(old(trees[i]), x, s, BinLo(i), BinWidth(i))]
      ensures OnlyInside(old(mem), mem, binned)
    {
      assert |trees| == NTREEBINS;
      hide ComputeTreeIndex, Marked, BinsOk, Spaced, HeadsRead, Stored, Insert, BinLo, BinWidth, OnlyInside, Prepared,
        Rooted, LinkBetween, SlotOf;
      InBinRange(s);
      var i: BinIndex := ComputeTreeIndex(s);
      var h := TreeBinAt(i);
      mem := Prepared(mem, x, i);
      if !Marked(treemap, i) {
        treemap := MarkBit(treemap, i);
        mem := mem[h := x];
        mem := Rooted(mem, x, h);
        FirstInBin(old(mem), mem, smallmap, old(treemap), treemap, rings, trees, binned, Floor(), i, x, s);
      } else {
        PrepareChunk(old(mem), mem, smallmap, treemap, rings, trees, binned, Floor(), i, x, s);
        var t, k; ghost var path;
        t, k, path := DescendToSize(s, i);
        if ChunkSize(mem, t) != s {
          var c := SlotOf(t, k >= SIGN_BIT);
          LeafInserted(old(mem), mem, smallmap, treemap, rings, trees, binned, Floor(), i, x, s, t, k, path);
          if leastAddr <= c {
            mem := mem[c := x];
            mem := Rooted(mem, x, t);
          } else {
            assert false;
          }
        } else {
          var f := Fd(mem, t);
          ChainInserted(old(mem), mem, smallmap, treemap, rings, trees, binned, Floor(), i, x, s, t, path);
          if leastAddr <= t && leastAddr <= f {
            mem := LinkBetween(mem, t, f, x);
            mem := mem[x + PARENT := 0];
          } else {
            assert false;
          }
        }
      }
      trees := trees[i := Insert(trees[i], x, s, BinLo(i), BinWidth(i))];
      binned := binned[x := s];
    }

    /** The walk of `unlink_large_chunk` to the rightmost leaf below `x`, and the pointer that leads to it. */
    method RightmostLeaf(x: int, ghost i: BinIndex)
      returns (r: int, rp: int, ghost q: int, ghost turn: bool, ghost leaf: Tree, ghost steps: nat)
      requires BinsValid() && InTreeBin(binned, x, i) && x in Addrs(trees[i]) && |NodeOf(trees[i], x).chain| == 1
      requires Child(mem, x, true) != 0 || Child(mem, x, false) != 0
      ensures rp == SlotOf(q, turn)
      ensures Child(mem, r, true) == 0 && Child(mem, r, false) == 0
      ensures Walking(mem, NodeOf(trees[i], x), x, i, leaf, r, q, turn)
      ensures steps <= BinBits(i)
    {
      assert |trees| == NTREEBINS;
      hide BinsOk, InTreeBin, InTree, Remove, Walking, Stored, NodeOf, Height, BinBits;
      BinTree(mem, smallmap, treemap, rings, trees, binned, Floor(), i);
      NodeHeight(mem, smallmap, treemap, rings, trees, binned, Floor(), i, x);
      Located(mem, trees[i], i, x);
      ghost var u := NodeOf(trees[i], x);
      WalkStart(mem, u, x, ParentOf(mem, trees[i], i, x), i);
      q, turn := x, Child(mem, x, true) != 0;
      leaf, steps := if turn then u.right else u.left, 1;
      TurnLowers(u, turn);
      rp := x + CHILD1;
      r := Rd(mem, rp);
      if r == 0 {
        rp := x + CHILD0;
        r := Rd(mem, rp);
      }
      while Child(mem, r, true) != 0 || Child(mem, r, false) != 0
        invariant leaf.Node? && Walking(mem, u, x, i, leaf, r, q, turn)
        invariant rp == SlotOf(q, turn)
        invariant steps + Height(leaf) <= Height(u)
        decreases leaf
      {
        WalkStep(mem, u, x, i, leaf, r, q, turn);
        TurnLowers(leaf, Child(mem, r, true) != 0);
        steps := steps + 1;
        q, turn := r, Child(mem, r, true) != 0;
        leaf := if turn then leaf.right else leaf.left;
        rp := if Child(mem, r, true) != 0 then r + CHILD1 else r + CHILD0;
        r := Rd(mem, rp);
      }
      HeightNode(leaf);
    }

    /** The ring branch of `unlink_large_chunk`: the neighbours of `x` close ranks, and the one before it is the
        candidate for its place. */
    method TakeFromRing(x: int, ghost i: BinIndex) returns (r: int)
      requires BinsValid() && x in Addrs(trees[i]) && Bk(mem, x) != x
      modifies `mem
      ensures x == NodeOf(trees[i], x).chain[0] ==> Vacated(old(mem), mem, trees[i], i, x, r)
      ensures x != NodeOf(trees[i], x).chain[0] ==>
                Stored(mem, Remove(trees[i], x), Rd(mem, TreeBinAt(i)), TreeBinAt(i), i)
      ensures Touches(old(mem), mem, Addrs(trees[i]), TreeBinAt(i))
      ensures Rd(mem, TreeBinAt(i)) == Rd(old(mem), TreeBinAt(i))
      ensures Index(mem, x) == i
    {
      assert |trees| == NTREEBINS;
      hide BinsOk, InTreeBin, InTree, Remove, Stored, NodeOf, Vacated, Touches, NoRepeat, Addrs, Elems;
      BinTree(mem, smallmap, treemap, rings, trees, binned, Floor(), i);
      ghost var tree := trees[i];
      Located(mem, tree, i, x);
      InNode(NodeOf(tree, x), Fd(mem, x), tree);
      RemoveOneStores(mem, tree, i, x);
      var f := Fd(mem, x);
      r := Bk(mem, x);
      if leastAddr <= f && Bk(mem, f) == x && Fd(mem, r) == x {
        mem := UnlinkBetween(mem, r, f);
      } else {
        assert false;
      }
    }

    /** Takes the rightmost leaf below `x` out of its place. */
    method TakeLeaf(x: int, ghost i: BinIndex) returns (r: int)
      requires BinsValid() && InTreeBin(binned, x, i) && x in Addrs(trees[i]) && NodeOf(trees[i], x).chain == [x]
      requires Child(mem, x, true) != 0 || Child(mem, x, false) != 0
      modifies `mem
      ensures Vacated(old(mem), mem, trees[i], i, x, r)
      ensures Touches(old(mem), mem, Addrs(trees[i]), TreeBinAt(i))
      ensures Rd(mem, TreeBinAt(i)) == Rd(old(mem), TreeBinAt(i)) && Index(mem, x) == i
    {
      assert |trees| == NTREEBINS;
      hide BinsOk, InTreeBin, InTree, Remove, Walking, Stored, NodeOf, Vacated, Touches, NoRepeat, Addrs;
      BinTree(mem, smallmap, treemap, rings, trees, binned, Floor(), i);
      var rp; ghost var q, turn, leaf, steps;
      r, rp, q, turn, leaf, steps := RightmostLeaf(x, i);
      WalkEnd(mem, NodeOf(trees[i], x), x, i, leaf, r, q, turn);
      RightmostVacates(mem, trees[i], i, x, leaf, r, q, turn);
      if leastAddr <= rp {
        mem := mem[rp := 0];
      } else {
        assert false;
      }
    }

    /** The other branch: the rightmost leaf below `x`, if any, leaves the tree for its place. */
    method TakeRightmost(x: int, ghost i: BinIndex) returns (r: int)
      requires BinsValid() && InTreeBin(binned, x, i) && x in Addrs(trees[i]) && Bk(mem, x) == x
      modifies `mem
      ensures x == NodeOf(trees[i], x).chain[0] ==> Vacated(old(mem), mem, trees[i], i, x, r)
      ensures x != NodeOf(trees[i], x).chain[0] ==>
                Stored(mem, Remove(trees[i], x), Rd(mem, TreeBinAt(i)), TreeBinAt(i), i)
      ensures Touches(old(mem), mem, Addrs(trees[i]), TreeBinAt(i))
      ensures Rd(mem, TreeBinAt(i)) == Rd(old(mem), TreeBinAt(i))
      ensures Index(mem, x) == i
    {
      assert |trees| == NTREEBINS;
      hide BinsOk, InTreeBin, InTree, Remove, Walking, Stored, NodeOf, Vacated, Touches, NoRepeat, Addrs;
      BinTree(mem, smallmap, treemap, rings, trees, binned, Floor(), i);
      ghost var tree := trees[i];
      Located(mem, tree, i, x);
      assert NodeOf(tree, x).chain == [x];
      if Child(mem, x, true) != 0 || Child(mem, x, false) != 0 {
        r := TakeLeaf(x, i);
      } else {
        r := 0;
        LeafVacates(mem, tree, i, x);
        TouchesNothing(mem, Addrs(tree), TreeBinAt(i));
      }
    }

    /** The first part of `unlink_large_chunk`: what is to take the place of `x`, or null. */
    method TakeReplacement(x: int, ghost i: BinIndex) returns (r: int)
      requires BinsValid() && InTreeBin(binned, x, i) && x in Addrs(trees[i])
      modifies `mem
      ensures x == NodeOf(trees[i], x).chain[0] ==> Vacated(old(mem), mem, trees[i], i, x, r)
      ensures x != NodeOf(trees[i], x).chain[0] ==>
                Stored(mem, Remove(trees[i], x), Rd(mem, TreeBinAt(i)), TreeBinAt(i), i)
      ensures Touches(old(mem), mem, Addrs(trees[i]), TreeBinAt(i))
      ensures Rd(mem, TreeBinAt(i)) == Rd(old(mem), TreeBinAt(i))
      ensures Index(mem, x) == i
    {
      hide BinsOk, InTreeBin, Remove, Stored, NodeOf, Vacated, Touches;
      if Bk(mem, x) != x {
        r := TakeFromRing(x, i);
      } else {
        r := TakeRightmost(x, i);
      }
    }

    /** The stores of the last part of `unlink_large_chunk`: the pointer to `x` and the parent pointers of its
        children now lead to `r`. */
    method RelinkStores(x: int, xp: int, r: int, ghost i: BinIndex)
      requires Index(mem, x) == i && xp != 0 && (x != Rd(mem, TreeBinAt(i)) ==> leastAddr <= xp)
      requires r != 0 ==>
                 && leastAddr <= r
                 && (Child(mem, x, false) != 0 ==> leastAddr <= Child(mem, x, false))
                 && (Child(mem, x, true) != 0 ==> leastAddr <= Child(mem, x, true))
      modifies `mem, `treemap
      ensures mem == Redirected(old(mem), ParentSlot(old(mem), i, x, xp), x, xp, r)
      ensures treemap == if x == Rd(old(mem), TreeBinAt(i)) && r == 0 then ClearBit(old(treemap), i) else old(treemap)
    {
      hide SlotOf, Adopted, ClearBit;
      var c0, c1 := Child(mem, x, false), Child(mem, x, true);
      var idx: BinIndex := Index(mem, x);
      var h := TreeBinAt(idx);
      if x == Rd(mem, h) {
        mem := mem[h := r];
        if r == 0 {
          treemap := ClearBit(treemap, idx);
        }
      } else if leastAddr <= xp {
        mem := mem[SlotOf(xp, Child(mem, xp, false) != x) := r];
      } else {
        assert false;
      }
      if r != 0 {
        if leastAddr <= r && (c0 == 0 || leastAddr <= c0) && (c1 == 0 || leastAddr <= c1) {
          mem := Adopted(mem, x, xp, r);
        } else {
          assert false;
        }
      }
    }

    /** The last part of `unlink_large_chunk`: `r` takes the place of the tree leader `x`. */
    method RelinkParent(x: int, xp: int, r: int, ghost m: Mem, ghost i: BinIndex)
      requires BinsOk(m, smallmap, treemap, rings, trees, binned, Floor())
      requires InTreeBin(binned, x, i) && x in Addrs(trees[i]) && xp != 0
      requires x == NodeOf(trees[i], x).chain[0] && xp == ParentOf(m, trees[i], i, x)
      requires Vacated(m, mem, trees[i], i, x, r) && Touches(m, mem, Addrs(trees[i]), TreeBinAt(i))
      requires Index(mem, x) == i
      modifies `mem, `treemap
      ensures BinsOk(mem, smallmap, treemap, rings, trees[i := Remove(trees[i], x)], binned - {x}, Floor())
      ensures OnlyInside(m, mem, binned)
    {
      LeaderUnlinked(m, mem, smallmap, treemap, rings, trees, binned, Floor(), i, x, r, xp);
      hide BinsOk, InTreeBin, Remove, NodeOf, ParentOf, Vacated, Touches, Addrs, OnlyInside, Redirected, ParentSlot,
        ClearBit;
      RelinkStores(x, xp, r, i);
    }

    /** `unlink_large_chunk`. */
    method UnlinkLargeChunk(x: int)
      requires BinsValid() && x in binned && binned[x] >= MIN_LARGE_SIZE
      modifies `mem, `treemap, `trees, `binned
      ensures BinsValid() && binned == old(binned) - {x}
      ensures var i := ComputeTreeIndex(old(binned)[x]); trees == old(trees)[i := Remove(old(trees[i]), x)]
      ensures OnlyInside(old(mem), mem, old(binned))
    {
      assert |trees| == NTREEBINS && binned[x] < WORD_MAX;
      hide BinsOk, InTree, Remove, Stored, NodeOf, ParentOf, Vacated, Touches, Addrs, ComputeTreeIndex, OnlyInside;
      InBinRange(binned[x]);
      ghost var i: BinIndex := ComputeTreeIndex(binned[x]);
      ghost var m := mem;
      LeaderKnown(mem, smallmap, treemap, rings, trees, binned, Floor(), i, x);
      hide InTreeBin;
      var xp := Parent(mem, x);
      var r := TakeReplacement(x, i);
      if xp != 0 {
        RelinkParent(x, xp, r, m, i);
      } else {
        MemberUnlinked(m, mem, smallmap, treemap, rings, trees, binned, Floor(), i, x);
      }
      trees := trees[i := Remove(trees[i], x)];
      binned := binned - {x};
    }

    // -------------------------------------------------------------- small bins

    /** `insert_small_chunk`. */
    method InsertSmallChunk(p: int, s: int)
      requires BinsValid() && p !in binned && s < MIN_LARGE_SIZE && Spaced(binned[p := s], Floor())
      modifies `mem, `smallmap, `rings, `binned
      ensures BinsValid() && binned == old(binned)[p := s]
      ensures 0 <= s && rings == old(rings)[s / 8 := [p] + old(rings)[s / 8]]
      ensures OnlyInside(old(mem), mem, binned)
    {
      assert |rings| == NSMALLBINS && MIN_CHUNK_SIZE <= s by {
        assert p in binned[p := s] && binned[p := s][p] == s;
      }
      var i: BinIndex := s / 8;
      SmallInserted(mem, smallmap, treemap, rings, trees, binned, Floor(), i, p, s);
      hide BinsOk, OnlyInside, LinkBetween, Marked, MarkBit, Spaced;
      var b := SmallBinAt(i);
      var f := b;
      if !Marked(smallmap, i) {
        smallmap := MarkBit(smallmap, i);
      } else if leastAddr <= Fd(mem, b) {
        f := Fd(mem, b);
      } else {
        assert false;
      }
      mem := LinkBetween(mem, b, f, p);
      rings := rings[i := [p] + rings[i]];
      binned := binned[p := s];
    }

    /** `unlink_small_chunk`. */
    method UnlinkSmallChunk(p: int, s: int)
      requires BinsValid() && p in binned && binned[p] == s && s < MIN_LARGE_SIZE
      modifies `mem, `smallmap, `rings, `binned
      ensures BinsValid() && binned == old(binned) - {p}
      ensures 0 <= s && p in old(rings)[s / 8]
      ensures rings == old(rings)[s / 8 := Without(old(rings)[s / 8], IndexOf(old(rings)[s / 8], p))]
      ensures OnlyInside(old(mem), mem, old(binned))
    {
      assert |rings| == NSMALLBINS && MIN_CHUNK_SIZE <= s;
      var i: BinIndex := s / 8;
      var f, b := Fd(mem, p), Bk(mem, p);
      SmallRemoved(mem, smallmap, treemap, rings, trees, binned, Floor(), i, p);
      SmallChecks(mem, smallmap, treemap, rings, trees, binned, Floor(), i, p);
      hide BinsOk, OnlyInside, UnlinkBetween, ClearBit, Without;
      if f == SmallBinAt(i) || (leastAddr <= f && Bk(mem, f) == p) {
        if b == f {
          smallmap := ClearBit(smallmap, i);
        } else if b == SmallBinAt(i) || (leastAddr <= b && Fd(mem, b) == p) {
          mem := UnlinkBetween(mem, b, f);
        } else {
          assert false;
        }
      } else {
        assert false;
      }
      rings := rings[i := Without(rings[i], IndexOf(rings[i], p))];
      binned := binned - {p};
    }

    /** `unlink_first_small_chunk`, on the first chunk `p` of the marked bin `i`. */
    method UnlinkFirstSmallChunk(i: BinIndex) returns (p: int)
      requires BinsValid() && Marked(smallmap, i)
      modifies `mem, `smallmap, `rings, `binned
      ensures p in old(binned) && old(binned)[p] == 8 * i
      ensures old(rings)[i] != [] && p == old(rings)[i][0] && rings == old(rings)[i := old(rings)[i][1..]]
      ensures old(FirstOfSize(p))
      ensures BinsValid() && binned == old(binned) - {p}
      ensures OnlyInside(old(mem), mem, old(binned))
    {
      var b := SmallBinAt(i);
      p := Fd(mem, b);
      SmallFirst(mem, smallmap, treemap, rings, trees, binned, Floor(), i);
      WithoutFirst(rings[i]);
      SmallRemoved(mem, smallmap, treemap, rings, trees, binned, Floor(), i, p);
      SmallChecks(mem, smallmap, treemap, rings, trees, binned, Floor(), i, p);
      assert |rings| == NSMALLBINS;
      hide BinsOk, OnlyInside, UnlinkBetween, ClearBit, Without, Marked;
      var f := Fd(mem, p);
      if b == f {
        smallmap := ClearBit(smallmap, i);
      } else if leastAddr <= f && Bk(mem, f) == p {
        mem := UnlinkBetween(mem, b, f);
      } else {
        assert false;
      }
      rings := rings[i := Without(rings[i], IndexOf(rings[i], p))];
      binned := binned - {p};
    }

    /** `insert_chunk`. */
    method InsertChunk(p: int, s: int)
      requires BinsValid() && HeadsRead(mem, binned)
      requires p !in binned && s < WORD_MAX && Spaced(binned[p := s], Floor())
      modifies `mem, `smallmap, `treemap, `rings, `trees, `binned
      ensures BinsValid() && binned == old(binned)[p := s]
      ensures OnlyInside(old(mem), mem, binned)
    {
      hide BinsOk, Spaced, HeadsRead, OnlyInside;
      if s < MIN_LARGE_SIZE {
        InsertSmallChunk(p, s);
      } else {
        InsertLargeChunk(p, s);
      }
    }

    /** `unlink_chunk`. */
    method UnlinkChunk(p: int, s: int)
      requires BinsValid() && p in binned && binned[p] == s
      modifies `mem, `smallmap, `treemap, `rings, `trees, `binned
      ensures BinsValid() && binned == old(binned) - {p}
      ensures OnlyInside(old(mem), mem, old(binned))
    {
      hide BinsOk, OnlyInside;
      if s < MIN_LARGE_SIZE {
        UnlinkSmallChunk(p, s);
      } else {
        UnlinkLargeChunk(p);
      }
    }

    // -------------------------------------------------------------- tree searches

    /** The first loop of `tmalloc_large`: look in bin `i` for a chunk of exactly `nb` bytes, keeping the best
        fit met and the deepest right subtree passed by.  Ends at the subtree `t` where any better fit must be. */
    method ScanBin(nb: int, i: BinIndex) returns (t: int, v: int, rsize: int, ghost cur: Tree, ghost steps: nat)
      requires BinsValid() && HeadsRead(mem, binned)
      requires MIN_LARGE_SIZE <= nb < WORD_MAX && i == ComputeTreeIndex(nb)
      ensures Candidate(binned, nb, v, rsize) && (v != 0 ==> v in Addrs(trees[i]) && Parent(mem, v) != 0)
      ensures Subtree(mem, trees[i], binned, i, cur, t) && Narrowed(trees[i], nb, rsize, cur)
      ensures steps <= BinBits(i) + 1
    {
      assert |trees| == NTREEBINS;
      ghost var tree := trees[i];
      assert Subtree(mem, tree, binned, i, tree, Rd(mem, TreeBinAt(i))) && IsTrie(tree, BinLo(i), BinWidth(i)) by {
        assert TreeBinOk(mem, treemap, i, tree, binned);
      }
      BinHeight(tree, i);
      steps := 0;
      BinTree(mem, smallmap, treemap, rings, trees, binned, Floor(), i);
      hide BinsOk, Subtree, Scanning, Candidate, Narrowed, ComputeTreeIndex, InTree, InTreeBin, Height, BinBits;
      v := 0;
      rsize := Sub64(0, nb);
      t := Rd(mem, TreeBinAt(i));
      cur := tree;
      SubtreeNull(mem, tree, binned, i, cur, t);
      ScanStart(mem, tree, binned, i, nb, t);
      if t != 0 {
        var sizebits := SteeringWord(nb, i);
        var rst := 0;
        ghost var rtree, lo, w := Leaf, BinLo(i), BinWidth(i);
        InBinRange(nb);
        SteeringStart(nb, i);
        while true
          invariant t != 0 && 0 <= w && steps + Height(cur) <= Height(tree)
          invariant Scanning(mem, tree, binned, i, nb, v, rsize, cur, t, rtree, rst, lo, w, sizebits)
          invariant v != 0 ==> Parent(mem, v) != 0
          decreases cur
        {
          hide Stored, NoRepeat, IsTrie, Sized, Steers, Scanned, Beyond, SteeringWord;
          ghost var v0, rsize0 := v, rsize;
          ScanCandidate(mem, tree, binned, i, nb, v, rsize, cur, t, rtree, rst, lo, w, sizebits);
          var trem := Sub64(ChunkSize(mem, t), nb);
          if trem < rsize {
            v := t;
            rsize := trem;
            if rsize == 0 {
              ScanState(mem, tree, binned, i, nb, v0, rsize0, cur, t, rtree, rst, lo, w, sizebits);
              break;
            }
          }
          ScanTurn(mem, tree, binned, i, nb, v0, rsize0, v, rsize, cur, t, rtree, rst, lo, w, sizebits);
          var rt := Child(mem, t, true);
          var turn := sizebits >= SIGN_BIT;
          ghost var passed := cur;
          TurnLowers(cur, turn);
          steps := steps + 1;
          cur := if turn then cur.right else cur.left;
          t := Child(mem, t, turn);
          if rt != 0 && rt != t {
            rst := rt;
            rtree := passed.right;
          }
          if t == 0 {
            t := rst;
            cur := rtree;
            break;
          }
          sizebits := sizebits * 2 % WORD_MAX;
          lo, w := if turn then lo + w / 2 else lo, w / 2;
        }
      }
    }

    /** The second loop of `tmalloc_large`, and the loop of `tmalloc_small`: the leftmost walk below `t0`. */
    method WalkLeftmost(t0: int, v0: int, rsize0: int, nb: int, ghost i: BinIndex, ghost cur0: Tree)
      returns (v: int, rsize: int, ghost steps: nat)
      requires BinsValid() && HeadsRead(mem, binned) && 0 < nb < WORD_MAX
      requires Candidate(binned, nb, v0, rsize0) && (v0 != 0 ==> v0 in Addrs(trees[i]) && Parent(mem, v0) != 0)
      requires Subtree(mem, trees[i], binned, i, cur0, t0) && Narrowed(trees[i], nb, rsize0, cur0)
      ensures Candidate(binned, nb, v, rsize) && (v != 0 ==> v in Addrs(trees[i]) && Parent(mem, v) != 0)
      ensures Narrowed(trees[i], nb, rsize, Leaf)
      ensures t0 != 0 || v0 != 0 ==> v != 0
      ensures steps <= Height(cur0)
    {
      assert |trees| == NTREEBINS;
      BinTree(mem, smallmap, treemap, rings, trees, binned, Floor(), i);
      hide BinsOk, Subtree, Candidate, Narrowed, ComputeTreeIndex, InTree, Stored, NoRepeat, Sized, Height;
      var t := t0;
      v, rsize, steps := v0, rsize0, 0;
      ghost var cur := cur0;
      while t != 0
        invariant Candidate(binned, nb, v, rsize) && (v != 0 ==> v in Addrs(trees[i]) && Parent(mem, v) != 0)
        invariant Subtree(mem, trees[i], binned, i, cur, t) && Narrowed(trees[i], nb, rsize, cur)
        invariant (t != 0 && t == t0) || (t0 == 0 && v0 == 0) || v != 0
        invariant steps + Height(cur) <= Height(cur0)
        decreases cur
      {
        SubtreeNode(mem, trees[i], binned, i, cur, t);
        Consider(binned, nb, v, rsize, t);
        ghost var r0 := rsize;
        var trem := Sub64(ChunkSize(mem, t), nb);
        if trem < rsize {
          rsize := trem;
          v := t;
        }
        CandidateBounds(binned, nb, v, rsize);
        NarrowFinds(trees[i], binned, nb, v, r0, rsize, cur);
        NarrowStep(trees[i], nb, r0, rsize, cur);
        SubtreeNull(mem, trees[i], binned, i, cur.left, Child(mem, t, false));
        TurnLowers(cur, !cur.left.Node?);
        steps := steps + 1;
        cur := if cur.left.Node? then cur.left else cur.right;
        t := if Child(mem, t, false) != 0 then Child(mem, t, false) else Child(mem, t, true);
      }
      SubtreeNull(mem, trees[i], binned, i, cur, t);
    }

    /** The step of `tmalloc_large` to the root of the lowest non-empty bin above `i`, when bin `i` has no fit. */
    method RootAbove(nb: int, i: BinIndex, ghost rsize: int, ghost cur0: Tree)
      returns (t: int, ghost j: BinIndex, ghost cur: Tree)
      requires BinsValid() && MIN_LARGE_SIZE <= nb < WORD_MAX && i == ComputeTreeIndex(nb) && NoneBelow(binned, nb, i)
      requires Candidate(binned, nb, 0, rsize)
      requires Subtree(mem, trees[i], binned, i, cur0, 0) && Narrowed(trees[i], nb, rsize, cur0)
      ensures Subtree(mem, trees[j], binned, j, cur, t) && Narrowed(trees[j], nb, rsize, cur)
              && NoneBelow(binned, nb, j)
      ensures t == 0 ==> NoFit(binned, nb)
    {
      assert |trees| == NTREEBINS && Spaced(binned, Floor());
      hide BinsOk, ComputeTreeIndex, Candidate, Narrowed, Subtree, Spaced, Marked, HigherBits, NoFit, NoneBelow,
        InTreeBin, Rd;
      t, j, cur := 0, i, cur0;
      FoundNone(mem, smallmap, treemap, rings, trees, binned, Floor(), i, nb, rsize, cur);
      HigherBitsKeep(treemap, i);
      var leftbits := HigherBits(treemap, i);
      if leftbits != 0 {
        var k: BinIndex := LeastIndex(leftbits);
        assert Marked(treemap, k) && i < k;
        MarkedRoot(mem, smallmap, treemap, rings, trees, binned, Floor(), k);
        NextBin(mem, smallmap, treemap, rings, trees, binned, Floor(), i, nb, k);
        HigherBinSuffices(binned, nb, i, k);
        WalkFromRoot(mem, smallmap, treemap, rings, trees, binned, Floor(), k, nb, rsize);
        t := Rd(mem, TreeBinAt(k));
        j, cur := k, trees[k];
      } else {
        NextBin(mem, smallmap, treemap, rings, trees, binned, Floor(), i, nb, NTREEBINS);
        NoneAbove(binned, nb, Floor());
      }
    }

    /** Of the chunks of its size, `p` is the one that its bin holds first: the first of a ring, or the one that is a
        node of the tree. */
    ghost predicate FirstOfSize(p: int)
      reads `rings, `trees, `binned
    {
      && p in binned && binned[p] < WORD_MAX
      && if binned[p] < MIN_LARGE_SIZE then
           var i := binned[p] / 8; 0 <= i < |rings| && rings[i] != [] && p == rings[i][0]
         else
           var i := ComputeTreeIndex(binned[p]);
           0 <= i < |trees| && p in Addrs(trees[i]) && p == NodeOf(trees[i], p).chain[0]
    }

    lemma NodeIsFirst(i: BinIndex, p: int)
      requires BinsValid() && p in binned && MIN_LARGE_SIZE <= binned[p] && p in Addrs(trees[i]) && Parent(mem, p) != 0
      ensures FirstOfSize(p)
    {
      BinTree(mem, smallmap, treemap, rings, trees, binned, Floor(), i);
      LeaderKnown(mem, smallmap, treemap, rings, trees, binned, Floor(), i, p);
    }

    /** The search of `tmalloc_large`: the bin of `nb`, then the lowest non-empty bin above it. */
    method FindLargeFit(nb: int) returns (v: int, rsize: int)
      requires BinsValid() && HeadsRead(mem, binned) && MIN_LARGE_SIZE <= nb < WORD_MAX
      ensures v == 0 ==> NoFit(binned, nb) && rsize == WORD_MAX - nb
      ensures v != 0 ==> BestFit(binned, nb, v) && rsize == binned[v] - nb && FirstOfSize(v)
    {
      assert |trees| == NTREEBINS;
      hide BinsOk, ComputeTreeIndex, Candidate, Narrowed, Subtree, NoFit, BestFit, HeadsRead, NoneBelow, InTreeBin,
        FirstOfSize;
      InBinRange(nb);
      var i: BinIndex := ComputeTreeIndex(nb);
      var t; ghost var cur;
      ghost var steps;
      t, v, rsize, cur, steps := ScanBin(nb, i);
      ghost var j: BinIndex := i;
      OwnBinFirst(binned, nb);
      if t == 0 && v == 0 {
        t, j, cur := RootAbove(nb, i, rsize, cur);
      }
      v, rsize, steps := WalkLeftmost(t, v, rsize, nb, j, cur);
      SearchEnds(mem, smallmap, treemap, rings, trees, binned, Floor(), j, nb, v, rsize);
      if v != 0 {
        BestIs(binned, nb, v);
        NodeIsFirst(j, v);
      }
    }

    /** The search of `tmalloc_small`: the leftmost walk of the lowest non-empty bin. */
    method FindSmallestLarge(nb: int) returns (v: int, rsize: int)
      requires BinsValid() && HeadsRead(mem, binned) && 0 < nb < MIN_LARGE_SIZE && treemap != 0
      ensures BestFit(binned, nb, v) && rsize == binned[v] - nb && FirstOfSize(v)
    {
      assert |trees| == NTREEBINS && Spaced(binned, Floor());
      hide BinsOk, ComputeTreeIndex, Narrowed, Subtree, Spaced, Marked, BestFit, NoneBelow, InTreeBin, Stored, IsTrie,
        NoRepeat, Sized, FirstOfSize;
      var i: BinIndex := LeastIndex(treemap);
      var t := Rd(mem, TreeBinAt(i));
      ghost var cur, none := trees[i], WORD_MAX - nb;
      LowestBin(mem, smallmap, treemap, rings, trees, binned, Floor(), i, nb);
      WalkFromRoot(mem, smallmap, treemap, rings, trees, binned, Floor(), i, nb, none);
      BinTree(mem, smallmap, treemap, rings, trees, binned, Floor(), i);
      hide InTree;
      SubtreeNode(mem, trees[i], binned, i, cur, t);
      InBin(binned, t, i, Floor());
      Consider(binned, nb, 0, none, t);
      v := t;
      rsize := Sub64(ChunkSize(mem, t), nb);
      NarrowStep(trees[i], nb, none, rsize, cur);
      SubtreeNull(mem, trees[i], binned, i, cur.left, Child(mem, t, false));
      SubtreeNull(mem, trees[i], binned, i, cur.right, Child(mem, t, true));
      cur := if cur.left.Node? then cur.left else cur.right;
      t := if Child(mem, t, false) != 0 then Child(mem, t, false) else Child(mem, t, true);
      ghost var steps;
      v, rsize, steps := WalkLeftmost(t, v, rsize, nb, i, cur);
      SearchEnds(mem, smallmap, treemap, rings, trees, binned, Floor(), i, nb, v, rsize);
      BestIs(binned, nb, v);
      NodeIsFirst(i, v);
    }

    // -------------------------------------------------------------- the whole heap

    /** The invariant with `v` of `vs` bytes in the role of the designated victim and the free chunks of `out` in
        no bin. */
    ghost predicate Loose(v: int, vs: int, out: set<int>)
      reads this
    {
      BinsValid() && Settled(mem, heap, top, topsize, v, vs, ends, segs, binned, Floor(), out)
    }

    /** What every operation keeps. */
    ghost predicate Valid()
      reads this
    {
      Loose(dv, dvsize, {}) && Accounted()
    }

    /** The state before the first request: all words zero. */
    constructor (limit: int)
      requires 0 <= limit < WORD_MAX
      ensures Valid() && Live() == map[] && footprint == 0 && footprintLimit == limit
      ensures State() == Space(map[], 0, 0, 0, 0, [], 0, 0, 0, limit, true, 0)
    {
      mem, smallmap, treemap, leastAddr := map[], 0, 0, 0;
      dv, dvsize, top, topsize := 0, 0, 0, 0;
      footprint, maxFootprint, footprintLimit, trimCheck, contiguous := 0, 0, limit, 0, true;
      segs := [];
      heap, ends, binned := map[], {}, map[];
      rings := seq(NSMALLBINS, i => []);
      trees := seq(NTREEBINS, i => Leaf);
      new;
      NothingStored(rings, trees);
    }

    ghost predicate Accounted()
      reads this
    {
      footprint == Total(segs) <= maxFootprint && 0 <= footprintLimit < WORD_MAX && EndsAligned(segs)
    }

    ghost function State(): Space
      reads this
    {
      Space(binned, dv, dvsize, top, topsize, segs, footprint, maxFootprint, leastAddr, footprintLimit, contiguous,
            trimCheck)
    }

    /** The chunks handed out and not yet freed. */
    ghost function Live(): map<int, int>
      reads this
    {
      Used(heap) - ends
    }

    /** `unlink_chunk` on a chunk of the heap. */
    method Unbin(p: int, s: int, ghost v: int, ghost vs: int, ghost out: set<int>)
      requires Loose(v, vs, out) && p in binned && binned[p] == s
      modifies `mem, `smallmap, `treemap, `rings, `trees, `binned
      ensures Loose(v, vs, out + {p}) && binned == old(binned) - {p}
      ensures p in heap && heap[p].size == s
      ensures DataKept(old(mem), mem, Used(heap)) && OnlyInside(old(mem), mem, old(binned))
    {
      hide BinsOk, Settled, OnlyInside, DataKept, Used;
      UnlinkChunk(p, s);
      OutOfBin(old(mem), mem, heap, top, topsize, v, vs, ends, segs, old(binned), Floor(), out, p);
    }

    /** `insert_chunk` on a chunk of the heap. */
    method Rebin(p: int, s: int, ghost v: int, ghost vs: int, ghost out: set<int>)
      requires Loose(v, vs, out) && p in out && p in heap && heap[p].size == s
      modifies `mem, `smallmap, `treemap, `rings, `trees, `binned
      ensures Loose(v, vs, out - {p}) && binned == old(binned)[p := s]
      ensures DataKept(old(mem), mem, Used(heap))
    {
      hide BinsOk, Settled, OnlyInside, DataKept, Used, Spaced, HeadsRead;
      Binnable(mem, heap, top, topsize, v, vs, ends, segs, binned, Floor(), out, p);
      InsertChunk(p, s);
      IntoBin(old(mem), mem, heap, top, topsize, v, vs, ends, segs, old(binned), Floor(), out, p, s);
    }

    /** `set_inuse_and_pinuse` on a free chunk that is in no bin. */
    method UseWhole(p: int, s: int, ghost v: int, ghost vs: int)
      requires Loose(v, vs, {p}) && p in heap && heap[p].size == s
      modifies `mem, `heap
      ensures Loose(v, vs, {})
      ensures p !in old(Used(heap)) && p !in ends && Used(heap) == old(Used(heap))[p := s]
      ensures DataKept(old(mem), mem, old(Used(heap)))
    {
      hide BinsOk, Settled, DataKept, Used, InsidesKept, SetInuseAndPinuse, Recut1;
      H.TakeWhole(mem, heap, top, topsize, v, vs, ends, segs, binned, Floor(), p);
      mem := SetInuseAndPinuse(mem, p, s);
      heap := Recut1(heap, p, p + s, true);
      BinsFrame(old(mem), mem, smallmap, treemap, rings, trees, binned, Floor());
    }

    /** The stores that split a free chunk that is in no bin. */
    method UsePart(p: int, nb: int, s: int, ghost v: int, ghost vs: int) returns (r: int)
      requires Loose(v, vs, {p}) && p in heap && heap[p].size == s
      requires nb % 16 == 0 && MIN_CHUNK_SIZE <= nb && nb + MIN_CHUNK_SIZE <= s
      modifies `mem, `heap
      ensures r == p + nb && Loose(v, vs, {r}) && r in heap && heap[r].size == s - nb
      ensures p !in old(Used(heap)) && p !in ends && Used(heap) == old(Used(heap))[p := nb]
      ensures DataKept(old(mem), mem, old(Used(heap)))
    {
      hide BinsOk, Settled, DataKept, Used, InsidesKept, CarveStores, Recut2;
      H.CarveLoose(mem, heap, top, topsize, v, vs, ends, segs, binned, Floor(), p, nb);
      r := p + nb;
      mem := CarveStores(mem, p, nb, s);
      heap := Recut2(heap, p, p + s, nb, true, false);
      BinsFrame(old(mem), mem, smallmap, treemap, rings, trees, binned, Floor());
    }

    /** `replace_dv`. */
    method ReplaceDv(p: int, s: int)
      requires Loose(dv, dvsize, {p}) && p in heap && heap[p].size == s && dvsize < MIN_LARGE_SIZE
      modifies `mem, `smallmap, `rings, `binned, `dv, `dvsize
      ensures Loose(dv, dvsize, {}) && dv == p && dvsize == s
      ensures DataKept(old(mem), mem, Used(heap))
    {
      hide BinsOk, Settled, DataKept, Used, OnlyInside, Spaced, HeadsRead;
      var dvs := dvsize;
      Binnable(mem, heap, top, topsize, dv, dvsize, ends, segs, binned, Floor(), {p}, p);
      DvNull(mem, heap, top, topsize, dv, dvsize, ends, segs, binned, Floor(), {p});
      if dvs != 0 {
        var d := dv;
        DvAside(mem, heap, top, topsize, dv, dvsize, ends, segs, binned, Floor(), {p});
        Binnable(mem, heap, top, topsize, 0, 0, ends, segs, binned, Floor(), {p} + {d}, d);
        InsertSmallChunk(d, dvs);
        IntoBin(old(mem), mem, heap, top, topsize, 0, 0, ends, segs, old(binned), Floor(), {p} + {d}, d, dvs);
        assert d != p;
        assert {p} + {d} - {d} == {p};
      } else {
        DataSame(mem, Used(heap));
      }
      dvsize := s;
      dv := p;
      BecomesDv(mem, heap, top, topsize, ends, segs, binned, Floor(), p);
    }

    // -------------------------------------------------------------- malloc

    /** The rest of a request that takes the free chunk `p`, just out of its bin: what is left over goes into a bin. */
    method UseAndRebin(p: int, s: int, nb: int, ghost m0: Mem, ghost u: map<int, int>)
      requires Loose(dv, dvsize, {p}) && Accounted() && p in heap && heap[p].size == s && p % 16 == 0 && 0 < p
      requires nb % 16 == 0 && s % 16 == 0 && MIN_CHUNK_SIZE <= nb <= s && u == Used(heap) && DataKept(m0, mem, u)
      modifies `mem, `smallmap, `treemap, `rings, `trees, `binned, `heap
      ensures Valid() && Served(u - ends, Live(), p, nb) && DataKept(m0, mem, u - ends)
    {
      hide BinsOk, Settled, DataKept, Used, Served;
      ghost var m := mem;
      if s - nb < MIN_CHUNK_SIZE {
        UseWhole(p, s, dv, dvsize);
        DataKeptTrans(m0, m, mem, u, u);
        ServedLive(m0, mem, u, ends, p, s, nb);
      } else {
        var r := UsePart(p, nb, s, dv, dvsize);
        DataKeptTrans(m0, m, mem, u, u);
        m := mem;
        Rebin(r, s - nb, dv, dvsize, {r});
        assert {r} - {r} == {};
        DataKeptTrans(m0, m, mem, u, u[p := nb]);
        ServedLive(m0, mem, u, ends, p, nb, nb);
      }
    }

    /** Likewise, but what is left over becomes the designated victim. */
    method UseAndReplaceDv(p: int, s: int, nb: int, ghost m0: Mem, ghost u: map<int, int>)
      requires Loose(dv, dvsize, {p}) && Accounted() && p in heap && heap[p].size == s && p % 16 == 0 && 0 < p
      requires nb % 16 == 0 && s % 16 == 0 && MIN_CHUNK_SIZE <= nb <= s && u == Used(heap) && DataKept(m0, mem, u)
      requires nb + MIN_CHUNK_SIZE <= s ==> dvsize < MIN_LARGE_SIZE
      modifies `mem, `smallmap, `rings, `binned, `heap, `dv, `dvsize
      ensures Valid() && Served(u - ends, Live(), p, nb) && DataKept(m0, mem, u - ends)
      ensures if s - nb < MIN_CHUNK_SIZE then dv == old(dv) && dvsize == old(dvsize)
              else dv == p + nb && dvsize == s - nb
    {
      hide BinsOk, Settled, DataKept, Used, Served;
      ghost var m := mem;
      if s - nb < MIN_CHUNK_SIZE {
        UseWhole(p, s, dv, dvsize);
        DataKeptTrans(m0, m, mem, u, u);
        ServedLive(m0, mem, u, ends, p, s, nb);
      } else {
        var r := UsePart(p, nb, s, dv, dvsize);
        DataKeptTrans(m0, m, mem, u, u);
        m := mem;
        ReplaceDv(r, s - nb);
        DataKeptTrans(m0, m, mem, u, u[p := nb]);
        ServedLive(m0, mem, u, ends, p, nb, nb);
      }
    }

    /** `tmalloc_large`: the best fitting tree chunk, unless the designated victim fits as well. */
    method TmallocLarge(nb: int) returns (p: int)
      requires Valid() && MIN_LARGE_SIZE <= nb < WORD_MAX && nb % 16 == 0
      modifies `mem, `smallmap, `treemap, `rings, `trees, `binned, `heap
      ensures Valid()
      ensures p == 0 ==> unchanged(this)
      ensures p == 0 ==> NoFit(old(binned), nb) || (nb <= dvsize && NoneTighter(old(binned), nb, dvsize))
      ensures p != 0 ==> BestFit(old(binned), nb, p) && (nb <= dvsize ==> old(binned)[p] < dvsize)
      ensures p != 0 ==> old(FirstOfSize(p))
      ensures p != 0 ==> Served(old(Live()), Live(), p, nb) && DataKept(old(mem), mem, old(Live()))
    {
      hide BinsOk, Settled, DataKept, Used, OnlyInside, Spaced, HeadsRead, Served, NoFit, BestFit, NoneTighter, Sub64,
        FirstOfSize;
      p := 0;
      SettledBinned(mem, heap, top, topsize, dv, dvsize, ends, segs, binned, Floor(), {});
      DvNull(mem, heap, top, topsize, dv, dvsize, ends, segs, binned, Floor(), {});
      var v, rsize := FindLargeFit(nb);
      if v != 0 {
        BestIs(binned, nb, v);
        BestBelow(binned, nb, v, dvsize, Floor());
      }
      if v != 0 && rsize < Sub64(dvsize, nb) {
        ghost var u := Used(heap);
        BinnedAligned(mem, heap, top, topsize, dv, dvsize, ends, segs, binned, Floor(), {}, v);
        if leastAddr <= v && v < v + nb {
          assert {} + {v} == {v};
          Unbin(v, rsize + nb, dv, dvsize, {});
          UseAndRebin(v, rsize + nb, nb, old(mem), u);
          p := v;
        } else {
          assert false;
        }
      }
    }

    /** `tmalloc_small`: the smallest tree chunk; its rest becomes the designated victim. */
    method TmallocSmall(nb: int) returns (p: int)
      requires Valid() && MIN_CHUNK_SIZE <= nb < MIN_LARGE_SIZE && nb % 16 == 0 && treemap != 0 && dvsize < nb
      modifies `mem, `smallmap, `treemap, `rings, `trees, `binned, `heap, `dv, `dvsize
      ensures Valid()
      ensures BestFit(old(binned), nb, p) && old(FirstOfSize(p))
      ensures var rest := old(binned)[p] - nb;
              if rest < MIN_CHUNK_SIZE then dv == old(dv) && dvsize == old(dvsize) else dv == p + nb && dvsize == rest
      ensures Served(old(Live()), Live(), p, nb) && DataKept(old(mem), mem, old(Live()))
    {
      hide BinsOk, Settled, DataKept, Used, OnlyInside, Spaced, HeadsRead, Served, FirstOfSize;
      SettledBinned(mem, heap, top, topsize, dv, dvsize, ends, segs, binned, Floor(), {});
      var v, rsize := FindSmallestLarge(nb);
      ghost var u := Used(heap);
      BestIs(binned, nb, v);
      hide BestFit;
      BinnedAligned(mem, heap, top, topsize, dv, dvsize, ends, segs, binned, Floor(), {}, v);
      if leastAddr <= v && v < v + nb {
        assert {} + {v} == {v};
        Unbin(v, rsize + nb, dv, dvsize, {});
        UseAndReplaceDv(v, rsize + nb, nb, old(mem), u);
        p := v;
      } else {
        p := 0;
        assert false;
      }
    }

    /** The paths of `malloc` that serve a small request from a marked small bin `i`. */
    method UseSmallBin(i: BinIndex, nb: int) returns (p: int)
      requires Valid() && Marked(smallmap, i) && MIN_CHUNK_SIZE <= nb <= 8 * i && nb % 16 == 0
      requires nb < 8 * i - 8 ==> dvsize < nb
      modifies `mem, `smallmap, `rings, `binned, `heap, `dv, `dvsize
      ensures Valid()
      ensures p in old(binned) && old(binned)[p] == 8 * i && 8 * i % 16 == 0 && old(FirstOfSize(p))
      ensures if 8 * i - nb < MIN_CHUNK_SIZE then dv == old(dv) && dvsize == old(dvsize)
              else dv == p + nb && dvsize == 8 * i - nb
      ensures Served(old(Live()), Live(), p, nb) && DataKept(old(mem), mem, old(Live()))
    {
      hide BinsOk, Settled, DataKept, Used, OnlyInside, Spaced, HeadsRead, Served, Marked, FirstOfSize;
      p := UnlinkFirstSmallChunk(i);
      ghost var u := Used(heap);
      BinnedAligned(old(mem), heap, top, topsize, dv, dvsize, ends, segs, old(binned), Floor(), {}, p);
      OutOfBin(old(mem), mem, heap, top, topsize, dv, dvsize, ends, segs, old(binned), Floor(), {}, p);
      assert {} + {p} == {p};
      UseAndReplaceDv(p, 8 * i, nb, old(mem), u);
    }

    /** The path of `malloc` that serves a request from the designated victim. */
    method UseDv(nb: int) returns (p: int)
      requires Valid() && MIN_CHUNK_SIZE <= nb <= dvsize && nb % 16 == 0
      modifies `mem, `heap, `dv, `dvsize
      ensures Valid() && p == old(dv) && (dv, dvsize) == Rest(p, old(dvsize), nb)
      ensures Served(old(Live()), Live(), p, nb) && DataKept(old(mem), mem, old(Live()))
    {
      hide BinsOk, Settled, DataKept, Used, Served;
      p := dv;
      var s := dvsize;
      ghost var u := Used(heap);
      DvNull(mem, heap, top, topsize, dv, dvsize, ends, segs, binned, Floor(), {});
      H.DvFacts(mem, heap, top, topsize, dv, dvsize, ends, segs, binned, Floor(), {});
      DvAside(mem, heap, top, topsize, dv, dvsize, ends, segs, binned, Floor(), {});
      assert {} + {p} == {p};
      if s - nb >= MIN_CHUNK_SIZE {
        var r := UsePart(p, nb, s, 0, 0);
        BecomesDv(mem, heap, top, topsize, ends, segs, binned, Floor(), r);
        dv := r;
        dvsize := s - nb;
        ServedLive(old(mem), mem, u, ends, p, nb, nb);
      } else {
        UseWhole(p, s, 0, 0);
        dvsize := 0;
        dv := 0;
        ServedLive(old(mem), mem, u, ends, p, s, nb);
      }
    }

    /** Splitting the top. */
    method SplitTop(nb: int) returns (p: int)
      requires Valid() && MIN_CHUNK_SIZE <= nb < topsize && nb % 16 == 0
      modifies `mem, `heap, `top, `topsize, `ends
      ensures Valid() && p == old(top) && top == p + nb && topsize == old(topsize) - nb
      ensures Served(old(Live()), Live(), p, nb) && DataKept(old(mem), mem, old(Live()))
    {
      hide BinsOk, Settled, DataKept, Used, Served, SetTopHead, SetInuseChunk, InsidesKept, EndsAfter, Recut2;
      H.TopIs(mem, heap, top, topsize, dv, dvsize, ends, segs, binned, Floor(), {});
      H.ChunkFacts(mem, heap, top, topsize, dv, dvsize, ends, segs, binned, Floor(), {}, top);
      H.CarveTop(mem, heap, top, topsize, dv, dvsize, ends, segs, binned, Floor(), nb);
      ghost var u, end := Used(heap), top + topsize;
      topsize := topsize - nb;
      p := top;
      top := p + nb;
      mem := SetTopHead(mem, top, topsize);
      mem := SetInuseChunk(mem, p, nb);
      heap := Recut2(heap, p, end, nb, true, false);
      ends := EndsAfter(old(heap), ends, p, end, top);
      BinsFrame(old(mem), mem, smallmap, treemap, rings, trees, binned, Floor());
      ServedLive(old(mem), mem, u, ends, p, nb, nb);
    }

    // -------------------------------------------------------------- free

    /** On the way to freeing `p0`: the chunks from `base` up to `end` are `p0` itself and free chunks laid aside,
        and nothing free lies below them. */
    ghost predicate Freeing(p0: int, base: int, end: int, v: int, vs: int, out: set<int>)
      reads this
    {
      && Loose(v, vs, out)
      && Piece(heap, top, ends, segs, out, base, end, {p0}) && Pinuse(mem, base)
      && MIN_CHUNK_SIZE <= end - base && end in heap
      && (if base == dv then v == 0 && vs == 0 && out == {dv} else v == dv && vs == dvsize && dv !in out)
      && (out == {} || out == {base})
    }

    /** Consolidating backward, first half of `dispose_chunk`. */
    method TakePrevious(p0: int, s0: int) returns (p: int, psize: int, ghost v: int, ghost vs: int, ghost out: set<int>)
      requires Valid() && p0 in heap && heap[p0].used && heap[p0].size == s0 && p0 !in ends
      modifies `mem, `smallmap, `treemap, `rings, `trees, `binned
      ensures Freeing(p0, p, p0 + s0, v, vs, out) && 0 < psize == p0 + s0 - p && Pinuse(mem, p0 + s0)
      ensures p == dv ==> p + dvsize <= p0 + s0
      ensures DataKept(old(mem), mem, Used(heap))
    {
      hide BinsOk, Settled, DataKept, Used, Piece, Pinuse, Segmented, Laid, HeadsOk;
      p, psize := p0, s0;
      v, vs, out := dv, dvsize, {};
      DvNull(mem, heap, top, topsize, dv, dvsize, ends, segs, binned, Floor(), {});
      H.ChunkFacts(mem, heap, top, topsize, dv, dvsize, ends, segs, binned, Floor(), {}, p0);
      ChunkPiece(heap, top, Floor(), ends, segs, p0);
      if !Pinuse(mem, p0) {
        var prevsize := Foot(mem, p0);
        var prev := p0 - prevsize;
        H.ChunkFacts(mem, heap, top, topsize, dv, dvsize, ends, segs, binned, Floor(), {}, prev);
        ChunkPiece(heap, top, Floor(), ends, segs, prev);
        JoinPieces(heap, top, ends, segs, {prev}, prev, p0, {}, {}, p0 + s0, {p0});
        assert {prev} + {} == {prev} && {} + {p0} == {p0};
        psize := psize + prevsize;
        p := prev;
        if leastAddr <= prev {
          if p != dv {
            Unbin(p, prevsize, dv, dvsize, {});
            assert {} + {p} == {p};
            H.ChunkFacts(mem, heap, top, topsize, dv, dvsize, ends, segs, binned, Floor(), {p}, p);
          } else {
            H.DvFacts(mem, heap, top, topsize, dv, dvsize, ends, segs, binned, Floor(), {});
            DvAside(mem, heap, top, topsize, dv, dvsize, ends, segs, binned, Floor(), {});
            assert {} + {p} == {p};
            v, vs := 0, 0;
            DataSame(mem, Used(heap));
          }
          out := {p};
        } else {
          assert false;
        }
      } else {
        DataSame(mem, Used(heap));
      }
      H.ChunkFacts(mem, heap, top, topsize, v, vs, ends, segs, binned, Floor(), out, p0);
    }

    /** Consolidating forward into the top. */
    method MergeIntoTop(p: int, psize: int, ghost p0: int, ghost v: int, ghost vs: int, ghost out: set<int>)
      requires Freeing(p0, p, top, v, vs, out) && psize == top - p
      modifies `mem, `heap, `top, `topsize, `ends, `dv, `dvsize
      ensures top == p && topsize == old(topsize) + psize
      ensures (dv, dvsize) == if p == old(dv) then (0, 0) else (old(dv), old(dvsize))
      ensures Loose(dv, dvsize, {}) && Live() == old(Live()) - {p0}
      ensures Used(heap) == old(Used(heap)) - {p0}
      ensures DataKept(old(mem), mem, Live())
    {
      hide BinsOk, Settled, DataKept, Used, Piece, Pinuse, Segmented, Laid, HeadsOk, InsidesKept, SetTopHead, Recut1,
        EndsAfter;
      ghost var end := top + topsize;
      H.FreedIntoTop(mem, heap, top, topsize, v, vs, ends, segs, binned, Floor(), out, p, p0);
      topsize := topsize + psize;
      top := p;
      mem := SetTopHead(mem, p, topsize);
      heap := Recut1(heap, p, end, false);
      ends := EndsAfter(old(heap), ends, p, end, p);
      BinsFrame(old(mem), mem, smallmap, treemap, rings, trees, binned, Floor());
      DataFewer(old(mem), mem, Used(heap), ends);
      if p == dv {
        dv := 0;
        dvsize := 0;
      }
    }

    /** Consolidating forward into the designated victim. */
    method MergeIntoDv(p: int, psize: int, ghost p0: int, ghost v: int, ghost vs: int, ghost out: set<int>)
      requires Freeing(p0, p, dv, v, vs, out) && psize == dv - p && dv != 0
      modifies `mem, `heap, `dv, `dvsize
      ensures dv == p && dvsize == old(dvsize) + psize
      ensures Loose(dv, dvsize, {}) && Live() == old(Live()) - {p0}
      ensures Used(heap) == old(Used(heap)) - {p0}
      ensures DataKept(old(mem), mem, Live())
    {
      hide BinsOk, Settled, DataKept, Used, Piece, Pinuse, Segmented, Laid, HeadsOk, InsidesKept, SetFreeChunk, Recut1;
      ghost var end := dv + dvsize;
      H.FreedIntoDv(mem, heap, top, topsize, dv, dvsize, ends, segs, binned, Floor(), out, p, p0);
      dvsize := dvsize + psize;
      dv := p;
      mem := SetFreeChunk(mem, p, dvsize);
      heap := Recut1(heap, p, end, false);
      BinsFrame(old(mem), mem, smallmap, treemap, rings, trees, binned, Floor());
      DataFewer(old(mem), mem, Used(heap), ends);
    }

    /** Consolidating forward into an ordinary free chunk. */
    method MergeNext(p: int, psize: int, next: int, ghost p0: int, ghost v: int, ghost vs: int, ghost out: set<int>)
      returns (size: int)
      requires Freeing(p0, p, next, v, vs, out) && psize == next - p
      requires !heap[next].used && next != top && next != dv
      modifies `mem, `smallmap, `treemap, `rings, `trees, `binned, `heap
      ensures Loose(v, vs, {p}) && p in heap && heap[p].size == size && psize < size
      ensures Live() == old(Live()) - {p0} && Used(heap) == old(Used(heap)) - {p0}
      ensures DataKept(old(mem), mem, Used(heap))
    {
      hide BinsOk, Settled, DataKept, Used, Piece, Pinuse, InsidesKept, SetFreeChunk, Recut1;
      H.NextBinned(mem, heap, top, topsize, v, vs, ends, segs, binned, Floor(), out, p, next, p0);
      var nsize := ChunkSize(mem, next);
      ghost var end := next + nsize;
      size := psize + nsize;
      Unbin(next, nsize, v, vs, out);
      ghost var m := mem;
      H.PinuseKept(old(mem), mem, heap, top, topsize, v, vs, ends, segs, old(binned), Floor(), out, p);
      H.FreedIntoNext(mem, heap, top, topsize, v, vs, ends, segs, binned, Floor(), out, p, next, p0);
      mem := SetFreeChunk(mem, p, size);
      heap := Recut1(heap, p, end, false);
      BinsFrame(m, mem, smallmap, treemap, rings, trees, binned, Floor());
      DataFewer(old(mem), m, old(Used(heap)), {p0});
      DataKeptTrans(old(mem), m, mem, Used(heap), Used(heap));
    }

    /** Nothing free above. */
    method MarkFree(p: int, psize: int, next: int, ghost p0: int, ghost v: int, ghost vs: int, ghost out: set<int>)
      requires Freeing(p0, p, next, v, vs, out) && psize == next - p && heap[next].used
      modifies `mem, `heap
      ensures Loose(v, vs, {p}) && p in heap && heap[p].size == psize
      ensures Live() == old(Live()) - {p0} && Used(heap) == old(Used(heap)) - {p0}
      ensures DataKept(old(mem), mem, Used(heap))
    {
      hide BinsOk, Settled, DataKept, Used, Piece, Pinuse, InsidesKept, SetFreeWithPinuse, Recut1;
      H.FreedBelow(mem, heap, top, topsize, v, vs, ends, segs, binned, Floor(), out, p, next, p0);
      mem := SetFreeWithPinuse(mem, p, psize, next);
      heap := Recut1(heap, p, next, false);
      BinsFrame(old(mem), mem, smallmap, treemap, rings, trees, binned, Floor());
    }

    /** The last step of `dispose_chunk`. */
    method BinFreed(p: int, s: int)
      requires Loose(dv, dvsize, {p}) && p in heap && heap[p].size == s
      modifies `mem, `smallmap, `treemap, `rings, `trees, `binned
      ensures Loose(dv, dvsize, {})
      ensures DataKept(old(mem), mem, Live())
    {
      hide BinsOk, Settled, DataKept, Used;
      Rebin(p, s, dv, dvsize, {p});
      assert {p} - {p} == {};
      DataFewer(old(mem), mem, Used(heap), ends);
    }

    /** What is known of the chunk above on the way to freeing `p0`. */
    lemma FreeingFacts(p0: int, p: int, next: int, v: int, vs: int, out: set<int>)
      requires Freeing(p0, p, next, v, vs, out)
      ensures if p == dv then v == 0 && vs == 0 else v == dv && vs == dvsize
      ensures 0 < p && MIN_CHUNK_SIZE <= next - p && next in heap && (Cinuse(mem, next) <==> heap[next].used)
      ensures p != dv && next == dv ==> dv != 0
      ensures leastAddr <= next
    {
      WindowStarts(heap, p, next);
      hide BinsOk, Settled, Piece, Pinuse, ChunkSize;
      H.ChunkFacts(mem, heap, top, topsize, v, vs, ends, segs, binned, Floor(), out, p);
      H.ChunkFacts(mem, heap, top, topsize, v, vs, ends, segs, binned, Floor(), out, next);
    }

    /** What was freed and merged is the designated victim, if that was its lowest part, or goes into a bin. */
    method PlaceFreed(p: int, s: int, ghost v: int, ghost vs: int)
      requires Loose(v, vs, {p}) && p in heap && heap[p].size == s
      requires if p == dv then v == 0 && vs == 0 else v == dv && vs == dvsize
      modifies `mem, `smallmap, `treemap, `rings, `trees, `binned, `dvsize
      ensures Loose(dv, dvsize, {}) && dvsize == if p == dv then s else old(dvsize)
      ensures Live() == old(Live()) && DataKept(old(mem), mem, Live())
    {
      hide BinsOk, Settled, DataKept, Used;
      if p == dv {
        BecomesDv(mem, heap, top, topsize, ends, segs, binned, Floor(), p);
        dvsize := s;
        DataSame(mem, Live());
      } else {
        BinFreed(p, s);
      }
    }

    /** The chunk above is in use. */
    method FreeAlone(p: int, psize: int, next: int, ghost p0: int, ghost v: int, ghost vs: int, ghost out: set<int>)
      requires Freeing(p0, p, next, v, vs, out) && psize == next - p && (p == dv ==> p + dvsize <= next)
      requires heap[next].used
      modifies `mem, `smallmap, `treemap, `rings, `trees, `binned, `heap, `dvsize
      ensures Merges(old(State()), State())
      ensures Loose(dv, dvsize, {}) && Live() == old(Live()) - {p0}
      ensures Used(heap) == old(Used(heap)) - {p0}
      ensures DataKept(old(mem), mem, Live())
    {
      hide BinsOk, Settled, DataKept, Used, Freeing, Loose, Merges;
      FreeingFacts(p0, p, next, v, vs, out);
      MarkFree(p, psize, next, p0, v, vs, out);
      DataFewer(old(mem), mem, Used(heap), ends);
      ghost var m := mem;
      PlaceFreed(p, psize, v, vs);
      MergesVictim(old(State()), State());
      DataKeptTrans(old(mem), m, mem, Live(), Live());
    }

    /** The chunk above is free and in a bin. */
    method FreeWithNext(p: int, psize: int, next: int, ghost p0: int, ghost v: int, ghost vs: int,
                        ghost out: set<int>)
      requires Freeing(p0, p, next, v, vs, out) && psize == next - p && (p == dv ==> p + dvsize <= next)
      requires !heap[next].used && next != top && next != dv
      modifies `mem, `smallmap, `treemap, `rings, `trees, `binned, `heap, `dvsize
      ensures Merges(old(State()), State())
      ensures Loose(dv, dvsize, {}) && Live() == old(Live()) - {p0}
      ensures Used(heap) == old(Used(heap)) - {p0}
      ensures DataKept(old(mem), mem, Live())
    {
      hide BinsOk, Settled, DataKept, Used, Freeing, Loose, Merges;
      FreeingFacts(p0, p, next, v, vs, out);
      var size := MergeNext(p, psize, next, p0, v, vs, out);
      DataFewer(old(mem), mem, Used(heap), ends);
      ghost var m := mem;
      PlaceFreed(p, size, v, vs);
      MergesVictim(old(State()), State());
      DataKeptTrans(old(mem), m, mem, Live(), Live());
    }

    /** The rest of `dispose_chunk`; says whether the chunk went into the top. */
    method DisposeForward(p: int, s: int, next: int, ghost p0: int, ghost v: int, ghost vs: int, ghost out: set<int>)
      returns (intoTop: bool)
      requires Freeing(p0, p, next, v, vs, out) && s == next - p && (p == dv ==> p + dvsize <= next)
      modifies `mem, `smallmap, `treemap, `rings, `trees, `binned, `heap, `top, `topsize, `ends, `dv, `dvsize
      ensures Merges(old(State()), State()) && (intoTop <==> top != old(top))
      ensures Loose(dv, dvsize, {}) && Live() == old(Live()) - {p0}
      ensures Used(heap) == old(Used(heap)) - {p0}
      ensures DataKept(old(mem), mem, Live())
    {
      hide BinsOk, Settled, DataKept, Used, Freeing, Loose, Cinuse, Merges;
      intoTop := false;
      var psize := s;
      FreeingFacts(p0, p, next, v, vs, out);
      if p == dv && Cinuse(mem, next) {
        FreeAlone(p, psize, next, p0, v, vs, out);
      } else if leastAddr <= next {
        if !Cinuse(mem, next) {
          if next == top {
            MergeIntoTop(p, psize, p0, v, vs, out);
            MergesTop(old(State()), State(), p);
            intoTop := true;
          } else if next == dv {
            MergeIntoDv(p, psize, p0, v, vs, out);
            MergesVictim(old(State()), State());
          } else {
            FreeWithNext(p, psize, next, p0, v, vs, out);
          }
        } else {
          FreeAlone(p, psize, next, p0, v, vs, out);
        }
      } else {
        assert false;
      }
    }

    /** `dispose_chunk`; `dlfree` repeats it, with one more check, before it considers a trim. */
    method DisposeChunk(p0: int, s0: int) returns (intoTop: bool)
      requires Valid() && p0 in heap && heap[p0].used && heap[p0].size == s0 && p0 !in ends
      modifies `mem, `smallmap, `treemap, `rings, `trees, `binned, `heap, `top, `topsize, `ends, `dv, `dvsize
      ensures Valid() && Live() == old(Live()) - {p0}
      ensures Merges(old(State()), State()) && (intoTop <==> top != old(top))
      ensures Used(heap) == old(Used(heap)) - {p0}
      ensures DataKept(old(mem), mem, Live())
    {
      hide BinsOk, Settled, DataKept, Used, Freeing;
      var p, psize; ghost var v, vs, out;
      p, psize, v, vs, out := TakePrevious(p0, s0);
      ghost var m := mem;
      var next := p0 + s0;
      if p < next && Pinuse(mem, next) {
        intoTop := DisposeForward(p, psize, next, p0, v, vs, out);
      } else {
        intoTop := false;
        assert false;
      }
      DataFewer(old(mem), m, old(Used(heap)), old(ends));
      DataFewer(old(mem), m, old(Live()), {p0});
      DataKeptTrans(old(mem), m, mem, Live(), Live());
    }

    // -------------------------------------------------------------- realloc and memalign

    /** Splits the chunk `p`, with the free space above it that was laid aside, into two chunks in use. */
    method SplitInUse(p: int, nb: int, size: int, above: bool, ghost out: set<int>)
      requires Loose(dv, dvsize, out) && Piece(heap, top, ends, segs, out, p, p + size, {p}) && p + size in heap
      requires nb % 16 == 0 && MIN_CHUNK_SIZE <= nb && nb + MIN_CHUNK_SIZE <= size
      modifies `mem, `heap
      ensures Loose(dv, dvsize, {})
      ensures IsChunk(heap, p, nb, true) && IsChunk(heap, p + nb, size - nb, true) && p !in ends && p + nb !in ends
      ensures p in old(Live()) && p + nb !in old(Live()) && Live() == old(Live())[p := nb][p + nb := size - nb]
      ensures DataKept(old(mem), mem, old(Live())[p := Min(old(Live())[p], nb)])
      ensures forall a :: a != p + HEAD && a != p + nb + HEAD && a != p + size + HEAD ==> Rd(mem, a) == Rd(old(mem), a)
    {
      hide BinsOk, Settled, DataKept, Used, Piece, InsidesKept, IsChunk, SplitStores, SplitStoresAbove, Recut2, Min;
      SplitElsewhere(mem, p, nb, size);
      ghost var end := p + size;
      ghost var n := if above then SplitStoresAbove(mem, p, nb, end - p) else SplitStores(mem, p, nb, end - p);
      H.SplitChunk(mem, n, heap, top, topsize, dv, dvsize, ends, segs, binned, Floor(), out, p, end, nb);
      assert end - p == size;
      if above {
        mem := SplitStoresAbove(mem, p, nb, size);
      } else {
        mem := SplitStores(mem, p, nb, size);
      }
      heap := Recut2(heap, p, end, nb, true, true);
      BinsFrame(old(mem), mem, smallmap, treemap, rings, trees, binned, Floor());
    }

    /** Keeps the first `nb` bytes of the chunk `p` and what was laid aside above it, and disposes of the rest. */
    method ShedRemainder(p: int, nb: int, size: int, ghost out: set<int>)
      requires Loose(dv, dvsize, out) && Accounted()
      requires Piece(heap, top, ends, segs, out, p, p + size, {p}) && p + size in heap
      requires nb % 16 == 0 && MIN_CHUNK_SIZE <= nb && nb + MIN_CHUNK_SIZE <= size
      modifies `mem, `smallmap, `treemap, `rings, `trees, `binned, `heap, `top, `topsize, `ends, `dv, `dvsize
      ensures Valid() && p in old(Live()) && Live() == old(Live())[p := nb]
      ensures Merges(old(State()), State())
      ensures DataKept(old(mem), mem, old(Live())[p := Min(old(Live())[p], nb)])
    {
      hide BinsOk, Settled, DataKept, Used, Piece, Min;
      SplitInUse(p, nb, size, false, out);
      hide Loose;
      ghost var m, u := mem, old(Live())[p := Min(old(Live())[p], nb)];
      H.MinIs(old(Live())[p], nb);
      var intoTop := DisposeChunk(p + nb, size - nb);
      DataShorter(m, mem, Live(), u);
      DataKeptTrans(old(mem), m, mem, u, u);
    }

    /** `p` swallows the free chunk `next` above it, which was laid aside. */
    method GrowInto(p: int, newsize: int, ghost next: int)
      requires Loose(dv, dvsize, {next}) && Accounted() && p in Live() && p + newsize in heap
               && MIN_CHUNK_SIZE <= newsize
      requires Piece(heap, top, ends, segs, {next}, p, p + newsize, {p}) && p in heap && heap[p].size <= newsize
      modifies `mem, `heap
      ensures Valid() && Live() == old(Live())[p := newsize] && DataKept(old(mem), mem, old(Live()))
    {
      hide BinsOk, Settled, DataKept, Used, InsidesKept, SetInuse, Recut1, Piece;
      H.GrowChunk(mem, heap, top, topsize, dv, dvsize, ends, segs, binned, Floor(), {next}, p, p + newsize);
      mem := SetInuse(mem, p, newsize);
      heap := Recut1(heap, p, p + newsize, true);
      BinsFrame(old(mem), mem, smallmap, treemap, rings, trees, binned, Floor());
    }

    /** Extending `p` into the top. */
    method ExtendIntoTop(p: int, oldsize: int, nb: int)
      requires Valid() && p in Live() && oldsize == Live()[p] && p + oldsize == top
      requires oldsize < nb < oldsize + topsize && nb % 16 == 0
      modifies `mem, `heap, `top, `topsize, `ends
      ensures Valid() && p in old(Live()) && Live() == old(Live())[p := nb]
      ensures top == p + nb && top + topsize == old(top) + old(topsize)
      ensures DataKept(old(mem), mem, old(Live()))
    {
      hide BinsOk, Settled, DataKept, Used, InsidesKept, SetTopHead, SetInuse, EndsAfter, Recut2;
      UsedLive(heap, ends, p);
      H.UsedIs(mem, heap, top, topsize, dv, dvsize, ends, segs, binned, Floor(), {}, p);
      H.ShiftIntoTop(mem, heap, top, topsize, dv, dvsize, ends, segs, binned, Floor(), p, nb);
      ghost var end := top + topsize;
      var newsize := oldsize + topsize;
      var newtopsize := newsize - nb;
      var newtop := p + nb;
      mem := SetInuse(mem, p, nb);
      mem := SetTopHead(mem, newtop, newtopsize);
      top := newtop;
      topsize := newtopsize;
      heap := Recut2(heap, p, end, nb, true, false);
      ends := EndsAfter(old(heap), ends, p, end, newtop);
      BinsFrame(old(mem), mem, smallmap, treemap, rings, trees, binned, Floor());
    }

    /** Extending `p` into the designated victim. */
    method ExtendIntoDv(p: int, oldsize: int, nb: int)
      requires Valid() && p in Live() && oldsize == Live()[p] && p + oldsize == dv
      requires oldsize < nb <= oldsize + dvsize && nb % 16 == 0
      modifies `mem, `heap, `dv, `dvsize
      ensures Valid() && p in old(Live()) && p in Live() && Live() == old(Live())[p := Live()[p]]
      ensures nb <= Live()[p] < nb + MIN_CHUNK_SIZE
      ensures (dv, dvsize) == Rest(p, oldsize + old(dvsize), nb)
      ensures DataKept(old(mem), mem, old(Live()))
    {
      hide BinsOk, Settled, DataKept, Used, InsidesKept, SetInuse, ShiftStores, Recut1, Recut2, Piece, Segmented,
        Laid, HeadsOk, IsChunk;
      DvNull(mem, heap, top, topsize, dv, dvsize, ends, segs, binned, Floor(), {});
      H.DvFacts(mem, heap, top, topsize, dv, dvsize, ends, segs, binned, Floor(), {});
      H.PieceAbove(mem, heap, top, topsize, dv, dvsize, ends, segs, binned, Floor(), p, dv);
      ghost var end := dv + dvsize;
      DvAside(mem, heap, top, topsize, dv, dvsize, ends, segs, binned, Floor(), {});
      assert {} + {dv} == {dv};
      var dvs := dvsize;
      var dsize := oldsize + dvs - nb;
      if dsize >= MIN_CHUNK_SIZE {
        H.ShiftChunk(mem, heap, top, topsize, 0, 0, ends, segs, binned, Floor(), {dv}, p, end, nb);
        var r := p + nb;
        mem := ShiftStores(mem, p, nb, oldsize + dvs);
        heap := Recut2(heap, p, end, nb, true, false);
        dvsize := dsize;
        dv := r;
        IsChunkSize(heap, r, dsize, false);
        BinsFrame(old(mem), mem, smallmap, treemap, rings, trees, binned, Floor());
        BecomesDv(mem, heap, top, topsize, ends, segs, binned, Floor(), r);
      } else {
        var newsize := oldsize + dvs;
        H.GrowChunk(mem, heap, top, topsize, 0, 0, ends, segs, binned, Floor(), {dv}, p, end);
        mem := SetInuse(mem, p, newsize);
        heap := Recut1(heap, p, end, true);
        dvsize := 0;
        dv := 0;
        BinsFrame(old(mem), mem, smallmap, treemap, rings, trees, binned, Floor());
      }
    }

    /** Extending `p` into the binned free chunk above. */
    method ExtendIntoNext(p: int, oldsize: int, next: int, nb: int) returns (ok: bool)
      requires Valid() && p in Live() && oldsize == Live()[p] && p + oldsize == next
      requires next in heap && !heap[next].used && next != top && next != dv && oldsize < nb && nb % 16 == 0
      modifies `mem, `smallmap, `treemap, `rings, `trees, `binned, `heap, `top, `topsize, `ends, `dv, `dvsize
      ensures Valid() && ok == (nb <= oldsize + old(heap[next].size))
      ensures !ok ==> unchanged(this)
      ensures ok ==> p in old(Live()) && p in Live() && Live() == old(Live())[p := Live()[p]]
      ensures ok ==> nb <= Live()[p] < nb + MIN_CHUNK_SIZE && DataKept(old(mem), mem, old(Live()))
      ensures Merges(old(State()), State())
    {
      hide BinsOk, Settled, DataKept, Used, InsidesKept, SetInuse, Recut1, Piece, Segmented, Laid, HeadsOk, ChunkSize,
        Merges;
      H.PieceAbove(mem, heap, top, topsize, dv, dvsize, ends, segs, binned, Floor(), p, next);
      MergesVictim(old(State()), State());
      var nextsize := ChunkSize(mem, next);
      ghost var end := next + nextsize;
      ok := oldsize + nextsize >= nb;
      if ok {
        var rsize := oldsize + nextsize - nb;
        Unbin(next, nextsize, dv, dvsize, {});
        assert {} + {next} == {next};
        ghost var m, u, s := mem, Live(), State();
        MergesVictim(old(State()), s);
        DataFewer(old(mem), m, Used(heap), ends);
        if rsize < MIN_CHUNK_SIZE {
          var newsize := oldsize + nextsize;
          GrowInto(p, newsize, next);
          MergesVictim(old(State()), State());
          DataKeptTrans(old(mem), m, mem, u, u);
        } else {
          assert end == p + (oldsize + nextsize);
          ShedRemainder(p, nb, oldsize + nextsize, {next});
          MergesOn(old(State()), s, State());
          H.MinIs(u[p], nb);
          assert u[p := u[p]] == u;
          DataKeptTrans(old(mem), m, mem, u, u);
        }
      }
    }

    /** The chunk `p` holds `nb` bytes, or can with the free chunk above it; of the top, a part must be left. */
    ghost predicate FitsInPlace(p: int, nb: int)
      reads this
    {
      && p in Live()
      && var size, next := Live()[p], p + Live()[p];
         || nb <= size
         || (next in heap && !heap[next].used
             && if next == top then nb < size + topsize else nb <= size + heap[next].size)
    }

    /** `try_realloc_chunk`. */
    method TryReallocChunk(p: int, nb: int) returns (newp: int)
      requires Valid() && p in Live() && nb % 16 == 0 && MIN_CHUNK_SIZE <= nb
      modifies `mem, `smallmap, `treemap, `rings, `trees, `binned, `heap, `top, `topsize, `ends, `dv, `dvsize
      ensures Valid() && p in old(Live()) && newp in {0, p}
      ensures newp != 0 <==> old(FitsInPlace(p, nb))
      ensures newp == 0 ==> unchanged(this)
      ensures newp != 0 ==> p in Live() && Live() == old(Live())[p := Live()[p]]
      ensures newp != 0 ==> nb <= Live()[p] < nb + MIN_CHUNK_SIZE
      ensures newp != 0 ==> InPlace(old(State()), p, old(Live())[p], nb, State())
      ensures newp != 0 ==> DataKept(old(mem), mem, old(Live())[p := Min(old(Live())[p], Live()[p])])
    {
      hide BinsOk, Settled, DataKept, Used, Piece, Segmented, Laid, HeadsOk, ChunkSize, Min;
      newp := 0;
      ghost var u := Live();
      UsedLive(heap, ends, p);
      H.ChunkFacts(mem, heap, top, topsize, dv, dvsize, ends, segs, binned, Floor(), {}, p);
      var oldsize := ChunkSize(mem, p);
      var next := p + oldsize;
      H.ChunkFacts(mem, heap, top, topsize, dv, dvsize, ends, segs, binned, Floor(), {}, next);
      assert u[p := u[p]] == u;
      H.MinIs(oldsize, nb);
      UsedSize(heap, ends, p);
      if leastAddr <= p && Cinuse(mem, p) && p < next && Pinuse(mem, next) {
        if oldsize >= nb {
          var rsize := oldsize - nb;
          if rsize >= MIN_CHUNK_SIZE {
            ChunkPiece(heap, top, Floor(), ends, segs, p);
            ShedRemainder(p, nb, oldsize, {});
          } else {
            DataSame(mem, u);
            H.MinIs(oldsize, oldsize);
          }
          newp := p;
        } else if next == top {
          if oldsize + topsize > nb {
            ExtendIntoTop(p, oldsize, nb);
            newp := p;
          }
        } else if next == dv {
          if oldsize + dvsize >= nb {
            ExtendIntoDv(p, oldsize, nb);
            H.MinIs(oldsize, Live()[p]);
            newp := p;
          }
        } else if !Cinuse(mem, next) {
          var ok := ExtendIntoNext(p, oldsize, next, nb);
          if ok {
            H.MinIs(oldsize, Live()[p]);
            newp := p;
          }
        }
      } else {
        assert false;
      }
    }

    // -------------------------------------------------------------- memory from the system

    /** `init_top`. */
    method InitTop(p: int, psize: int)
      modifies `mem, `top, `topsize, `trimCheck
      ensures top == AlignAsChunk(p) && topsize == psize - (AlignAsChunk(p) - p)
      ensures mem == InitTopStores(old(mem), top, topsize) && trimCheck == TRIM_THRESHOLD
    {
      var offset := AlignAsChunk(p) - p;
      top := p + offset;
      topsize := psize - offset;
      mem := SetTopHead(mem, top, topsize);
      mem := mem[top + topsize + HEAD := TOP_FOOT_SIZE];
      trimCheck := TRIM_THRESHOLD;
    }

    /** `init_bins`. */
    method InitBins()
      modifies `mem
      ensures forall i: BinIndex :: Fd(mem, SmallBinAt(i)) == Bk(mem, SmallBinAt(i)) == SmallBinAt(i)
      ensures forall a :: a < SmallBinAt(0) || SmallBinAt(NSMALLBINS) + BK <= a ==> Rd(mem, a) == Rd(old(mem), a)
      ensures forall i: BinIndex :: Rd(mem, TreeBinAt(i)) == Rd(old(mem), TreeBinAt(i))
    {
      var i := 0;
      while i < NSMALLBINS
        invariant 0 <= i <= NSMALLBINS
        invariant forall j: BinIndex :: j < i ==> Fd(mem, SmallBinAt(j)) == Bk(mem, SmallBinAt(j)) == SmallBinAt(j)
        invariant forall a :: a < SmallBinAt(0) || SmallBinAt(NSMALLBINS) + BK <= a ==> Rd(mem, a) == Rd(old(mem), a)
      {
        var b := SmallBinAt(i);
        mem := mem[b + FD := b][b + BK := b];
        i := i + 1;
      }
    }

    /** First-time initialisation in `sys_alloc`. */
    method Initialise(tbase: int, tsize: int)
      requires Loose(dv, dvsize, {}) && top == 0 && Granted([], tbase, tsize)
      modifies `mem, `top, `topsize, `trimCheck, `segs, `leastAddr, `heap, `ends
      ensures Loose(dv, dvsize, {}) && top != 0 && segs == [Segment(tbase, tsize)]
      ensures top == AlignAsChunk(tbase) && trimCheck == TRIM_THRESHOLD
      ensures leastAddr == if old(leastAddr) == 0 || tbase < old(leastAddr) then tbase else old(leastAddr)
      ensures topsize > tsize - TOP_FOOT_SIZE - 16
      ensures Live() == old(Live()) == map[]
    {
      hide BinsOk, Settled, Used, InitTopStores, Granted, Rd, Fd, Bk, TreeBinAt, SmallBinAt, HeapOk, Roles, Segmented,
        Laid, Joined, AlignAsChunk, First, End;
      GrantedAt([], tbase, tsize);
      SettledHeap(mem, heap, top, topsize, dv, dvsize, ends, segs, binned, Floor(), {});
      if leastAddr == 0 || tbase < leastAddr {
        leastAddr := tbase;
      }
      segs := [Segment(tbase, tsize)];
      InitBins();
      ghost var m := mem;
      InitTop(tbase, tsize - TOP_FOOT_SIZE);
      AlignedNear(tbase);
      FirstSegment(old(mem), m, heap, old(topsize), dv, dvsize, ends, old(segs), smallmap, treemap, rings, trees,
          binned,
                   old(Floor()), tbase, tsize, Floor());
      heap := map[top := Extent(topsize, false)];
      ends := {top};
    }

    /** The contiguous call of `MORECORE` in `sys_alloc`, and how it copes with a partial failure. */
    method AcquireContiguous(nb: int, env: Morecore) returns (tbase: int, tsize: int)
      requires Valid() && MIN_CHUNK_SIZE <= nb && nb + SYS_ALLOC_PADDING + PAGE_SIZE - 1 < WORD_MAX && topsize <= nb
      requires Honest(env, segs, top, topsize, nb) && contiguous
      requires footprintLimit == 0 || footprint + Asize(nb) <= footprintLimit < WORD_MAX
      modifies `contiguous
      ensures tbase != CMFAIL <==> GrantsContiguous(old(State()), nb, env)
      ensures tbase != CMFAIL ==> Segment(tbase, tsize) == Obtained(old(State()), nb, env)
      ensures contiguous == (tbase != CMFAIL)
      ensures tbase != CMFAIL ==> Granted(segs, tbase, tsize)
      ensures tbase != CMFAIL ==> footprintLimit == 0 || footprint + tsize <= footprintLimit
      ensures tbase != CMFAIL ==>
                || nb + SYS_ALLOC_PADDING <= tsize
                || (top != 0 && tbase == End(segs[0]) && nb + SYS_ALLOC_PADDING <= tsize + topsize)
    {
      hide BinsOk, Settled, FirstAsk, MoreAsk, Asize, Honest, Region;
      TopBounds(mem, heap, top, topsize, dv, dvsize, ends, segs, binned, Floor(), {});
      TotalPositive(segs);
      HonestBreak(env, segs, top, topsize, nb);
      AskFacts(nb, top, topsize, env.current);
      tbase, tsize := CMFAIL, 0;
      var br := CMFAIL;
      var ssize := FirstAsk(nb, top, topsize, env.current);
      if top == 0 {
        var base := env.current;
        if base != CMFAIL {
          var fp := (footprint + ssize) % WORD_MAX;
          if ssize > nb && ssize < HALF_MAX && (footprintLimit == 0 || (fp > footprint && fp <= footprintLimit)) {
            br := env.first;
            if br == base {
              tbase, tsize := base, ssize;
            }
          }
        }
      } else if ssize < HALF_MAX {
        br := env.first;
        if br == End(segs[0]) {
          tbase, tsize := br, ssize;
        }
      }
      if tbase == CMFAIL {
        if br != CMFAIL && ssize < HALF_MAX && ssize < nb + SYS_ALLOC_PADDING {
          var esize := MoreAsk(nb, ssize);
          if esize < HALF_MAX {
            var end := env.more;
            if end != CMFAIL {
              ssize := ssize + esize;
            } else {
              br := CMFAIL;
            }
          }
        }
        if br != CMFAIL {
          tbase, tsize := br, ssize;
        } else {
          contiguous := false;
        }
      }
      if tbase != CMFAIL {
        GrantFirst(env, segs, top, topsize, nb, tbase, tsize);
      }
    }

    /** The part of `sys_alloc` that gets memory from `MORECORE`, contiguous with the top if it can be. */
    method AcquireSpace(nb: int, asize: int, env: Morecore) returns (tbase: int, tsize: int)
      requires Valid() && MIN_CHUNK_SIZE <= nb && nb + SYS_ALLOC_PADDING + PAGE_SIZE - 1 < WORD_MAX && topsize <= nb
      requires asize == Asize(nb) && Honest(env, segs, top, topsize, nb)
      requires footprintLimit == 0 || footprint + asize <= footprintLimit < WORD_MAX
      modifies `contiguous
      ensures tbase != CMFAIL ==> Granted(segs, tbase, tsize)
      ensures tbase != CMFAIL ==> footprintLimit == 0 || footprint + tsize <= footprintLimit
      ensures tbase != CMFAIL ==>
                || nb + SYS_ALLOC_PADDING <= tsize
                || (top != 0 && tbase == End(segs[0]) && nb + SYS_ALLOC_PADDING <= tsize + topsize)
      ensures tbase != CMFAIL <==> Obtains(old(State()), nb, env)
      ensures tbase != CMFAIL ==> Segment(tbase, tsize) == Obtained(old(State()), nb, env)
      ensures contiguous == GrantsContiguous(old(State()), nb, env) && (tbase == CMFAIL ==> !contiguous)
    {
      hide BinsOk, Settled, FirstAsk, MoreAsk, Asize, Honest, Region;
      TopBounds(mem, heap, top, topsize, dv, dvsize, ends, segs, binned, Floor(), {});
      TotalPositive(segs);
      HonestBreak(env, segs, top, topsize, nb);
      AskFacts(nb, top, topsize, env.current);
      tbase, tsize := CMFAIL, 0;
      if contiguous {
        tbase, tsize := AcquireContiguous(nb, env);
      }
      if tbase == CMFAIL && asize < HALF_MAX {
        var br := env.again;
        var end := br + asize;
        if br != CMFAIL && br < end {
          var ssize := end - br;
          if ssize > nb + TOP_FOOT_SIZE {
            tbase, tsize := br, ssize;
            GrantAgain(env, segs, top, topsize, nb);
          }
        }
      }
    }

    /** Appending `tsize` bytes to the segment of the top. */
    method AppendToTop(tsize: int)
      requires Loose(dv, dvsize, {}) && top != 0 && |segs| > 0 && Granted(segs, End(segs[0]), tsize)
      modifies `mem, `top, `topsize, `trimCheck, `segs, `heap
      ensures Loose(dv, dvsize, {}) && top == old(top) && topsize == old(topsize) + tsize
      ensures segs == old(segs)[0 := Segment(old(segs)[0].base, old(segs)[0].size + tsize)]
      ensures trimCheck == TRIM_THRESHOLD
      ensures Live() == old(Live()) && DataKept(old(mem), mem, Live())
    {
      hide BinsOk, Settled, Used, InitTopStores, DataKept, InsidesKept, Granted;
      TopBounds(mem, heap, top, topsize, dv, dvsize, ends, segs, binned, Floor(), {});
      AppendFacts(mem, heap, top, topsize, dv, dvsize, ends, segs, binned, Floor(), tsize);
      TopResized(mem, heap, top, topsize, dv, dvsize, ends, segs, binned, Floor(), topsize + tsize,
          segs[0].size + tsize);
      segs := segs[0 := Segment(segs[0].base, segs[0].size + tsize)];
      InitTop(top, topsize + tsize);
      heap := heap[top := Extent(topsize, false)];
      BinsFrame(old(mem), mem, smallmap, treemap, rings, trees, binned, Floor());
      DataFewer(old(mem), mem, Used(heap), ends);
    }

    /** `least_addr` goes down to a lower segment. */
    method LowerFloor(tbase: int)
      requires Loose(dv, dvsize, {}) && HEAP_MIN <= tbase
      modifies `leastAddr
      ensures Loose(dv, dvsize, {}) && HEAP_MIN <= Floor() <= tbase
      ensures leastAddr == if tbase < old(leastAddr) then tbase else old(leastAddr)
    {
      hide BinsOk, Settled;
      SettledHeap(mem, heap, top, topsize, dv, dvsize, ends, segs, binned, Floor(), {});
      if tbase < leastAddr {
        leastAddr := tbase;
      }
      SettledLower(mem, heap, top, topsize, dv, dvsize, ends, segs, binned, old(Floor()), {}, Floor());
      BinsLower(mem, smallmap, treemap, rings, trees, binned, old(Floor()), Floor());
    }

    /** The old segment that `tbase` is to be found at the end of, as the loops of `sys_alloc` look for it. */
    method SegmentEndingAt(a: int) returns (i: nat)
      ensures i <= |segs| && (i < |segs| ==> End(segs[i]) == a)
      ensures forall j :: 0 <= j < i ==> End(segs[j]) != a
    {
      i := 0;
      while i < |segs| && End(segs[i]) != a
        invariant i <= |segs| && forall j :: 0 <= j < i ==> End(segs[j]) != a
      {
        i := i + 1;
      }
    }

    method SegmentStartingAt(a: int) returns (i: nat)
      ensures i <= |segs| && (i < |segs| ==> segs[i].base == a)
      ensures i == StartingAt(segs, a)
    {
      i := 0;
      while i < |segs| && segs[i].base != a
        invariant i <= |segs| && forall j :: 0 <= j < i ==> segs[j].base != a
      {
        i := i + 1;
      }
      StartingAtIs(segs, a, i);
    }

    /** `prepend_alloc` on the memory below segment `k`, where that starts with the top. */
    method PrependToTop(tbase: int, tsize: int, k: nat, p: int, psize: int, nb: int)
      requires Loose(dv, dvsize, {}) && top != 0 && HEAP_MIN <= Floor() <= tbase
      requires Granted(segs, tbase, tsize) && k < |segs| && segs[k].base == tbase + tsize && First(segs[k]) == top
      requires nb % 16 == 0 && MIN_CHUNK_SIZE <= nb && nb + MIN_CHUNK_SIZE <= psize
      requires p == TopOf(tbase) && psize == PrependedSize(segs, k, tbase)
      modifies `mem, `heap, `top, `topsize, `ends, `segs
      ensures Loose(dv, dvsize, {}) && segs == old(segs)[k := Segment(tbase, old(segs)[k].size + tsize)]
      ensures Served(old(Live()), Live(), p, nb) && DataKept(old(mem), mem, old(Live()))
    {
      hide BinsOk, Settled, Used, DataKept, InsidesKept, Granted, Served, SetTopHead, SetInuseChunk, PrependedHeap,
        EndsAfter, Segmented, TopOf, PrependedSize;
      PrependIntoTop(mem, heap, top, topsize, dv, dvsize, ends, segs, binned, Floor(), tbase, tsize, k, nb);
      H.SettledSegments(mem, heap, top, topsize, dv, dvsize, ends, segs, binned, Floor(), {});
      PrependBounds(heap, ends, segs, tbase, tsize, k);
      ghost var u, end := Used(heap), p + (psize + topsize);
      segs := segs[k := Segment(tbase, segs[k].size + tsize)];
      var q := p + nb;
      mem := SetInuseChunk(mem, p, nb);
      topsize := topsize + (psize - nb);
      top := q;
      mem := SetTopHead(mem, q, topsize);
      heap := PrependedHeap(heap, p, psize, end, nb);
      ends := EndsAfter(old(heap)[p := Extent(psize, true)], ends, p, end, q);
      BinsFrame(old(mem), mem, smallmap, treemap, rings, trees, binned, Floor());
      ServedBelow(old(mem), mem, u, old(ends), ends, p, nb);
    }

    /** Where it starts with the designated victim. */
    method PrependToDv(tbase: int, tsize: int, k: nat, p: int, psize: int, nb: int)
      requires Loose(dv, dvsize, {}) && top != 0 && HEAP_MIN <= Floor() <= tbase
      requires Granted(segs, tbase, tsize) && k < |segs| && segs[k].base == tbase + tsize && First(segs[k]) == dv
      requires nb % 16 == 0 && MIN_CHUNK_SIZE <= nb && nb + MIN_CHUNK_SIZE <= psize
      requires p == TopOf(tbase) && psize == PrependedSize(segs, k, tbase)
      modifies `mem, `heap, `dv, `dvsize, `segs
      ensures 0 < dv == p + nb < old(dv) && dv + dvsize == old(dv) + old(dvsize)
      ensures Loose(dv, dvsize, {}) && segs == old(segs)[k := Segment(tbase, old(segs)[k].size + tsize)]
      ensures Served(old(Live()), Live(), p, nb) && DataKept(old(mem), mem, old(Live()))
    {
      hide BinsOk, Settled, Used, DataKept, InsidesKept, Granted, Served, CarveStores, PrependedHeap, Segmented,
        TopOf, PrependedSize;
      PrependIntoDv(mem, heap, top, topsize, dv, dvsize, ends, segs, binned, Floor(), tbase, tsize, k, nb);
      H.SettledSegments(mem, heap, top, topsize, dv, dvsize, ends, segs, binned, Floor(), {});
      PrependBounds(heap, ends, segs, tbase, tsize, k);
      ghost var u, end := Used(heap), p + (psize + dvsize);
      segs := segs[k := Segment(tbase, segs[k].size + tsize)];
      mem := CarveStores(mem, p, nb, psize + dvsize);
      dvsize := dvsize + (psize - nb);
      dv := p + nb;
      heap := PrependedHeap(heap, p, psize, end, nb);
      BinsFrame(old(mem), mem, smallmap, treemap, rings, trees, binned, Floor());
      ServedBelow(old(mem), mem, u, ends, ends, p, nb);
    }

    /** Where it starts with a chunk in use or a binned one. */
    method PrependToNew(tbase: int, tsize: int, k: nat, p: int, psize: int, nb: int)
      requires Loose(dv, dvsize, {}) && top != 0 && HEAP_MIN <= Floor() <= tbase
      requires Granted(segs, tbase, tsize) && k < |segs| && segs[k].base == tbase + tsize
      requires First(segs[k]) != dv && First(segs[k]) != top
      requires nb % 16 == 0 && MIN_CHUNK_SIZE <= nb && nb + MIN_CHUNK_SIZE <= psize
      requires p == TopOf(tbase) && psize == PrependedSize(segs, k, tbase)
      modifies `mem, `smallmap, `treemap, `rings, `trees, `binned, `heap, `segs
      ensures Loose(dv, dvsize, {}) && segs == old(segs)[k := Segment(tbase, old(segs)[k].size + tsize)]
      ensures Served(old(Live()), Live(), p, nb) && DataKept(old(mem), mem, old(Live()))
    {
      hide BinsOk, Settled, Used, DataKept, InsidesKept, Granted, Served, PrependFreeStores, PrependedHeap, Segmented,
        TopOf, PrependedSize, First, HeadsOk, Laid, ChunkSize, Pinuse, IsChunk, Foot;
      H.SettledSegments(mem, heap, top, topsize, dv, dvsize, ends, segs, binned, Floor(), {});
      PrependBounds(heap, ends, segs, tbase, tsize, k);
      FirstPinuse(mem, heap, top, topsize, dv, dvsize, ends, segs, binned, Floor(), {}, k);
      ghost var u := Used(heap);
      var oldfirst, qsize := First(segs[k]), psize - nb;
      H.ChunkFacts(mem, heap, top, topsize, dv, dvsize, ends, segs, binned, Floor(), {}, oldfirst);
      ghost var out: set<int> := {};
      if !Cinuse(mem, oldfirst) {
        var nsize := ChunkSize(mem, oldfirst);
        Unbin(oldfirst, nsize, dv, dvsize, {});
        assert {} + {oldfirst} == {oldfirst};
        out := {oldfirst};
        oldfirst := oldfirst + nsize;
        qsize := qsize + nsize;
      } else {
        DataSame(mem, u);
      }
      ghost var m := mem;
      PrependIntoNew(mem, heap, top, topsize, dv, dvsize, ends, segs, binned, Floor(), out, tbase, tsize, k,
          oldfirst, nb);
      segs := segs[k := Segment(tbase, segs[k].size + tsize)];
      var q := p + nb;
      assert nb + qsize == oldfirst - p;
      mem := PrependFreeStores(mem, p, nb, nb + qsize);
      heap := PrependedHeap(heap, p, psize, oldfirst, nb);
      BinsFrame(m, mem, smallmap, treemap, rings, trees, binned, Floor());
      DataKeptTrans(old(mem), m, mem, u, u);
      ServedBelow(old(mem), mem, u, ends, ends, p, nb);
      IsChunkSize(heap, q, qsize, false);
      m := mem;
      BinFreed(q, qsize);
      ServedGrows(old(Live()), Live(), p, nb);
      DataKeptTrans(old(mem), m, mem, old(Live()), Live());
    }

    /** `prepend_alloc`. */
    method PrependAlloc(tbase: int, tsize: int, k: nat, nb: int) returns (p: int)
      requires Loose(dv, dvsize, {}) && top != 0 && HEAP_MIN <= Floor() <= tbase
      requires Granted(segs, tbase, tsize) && k < |segs| && segs[k].base == tbase + tsize
      requires nb % 16 == 0 && MIN_CHUNK_SIZE <= nb && nb + SYS_ALLOC_PADDING <= tsize
      modifies `mem, `smallmap, `treemap, `rings, `trees, `binned, `heap, `top, `topsize, `ends, `dv, `dvsize, `segs
      ensures p == AlignAsChunk(tbase) && VictimLowered(old(State()), State())
      ensures Loose(dv, dvsize, {}) && segs == old(segs)[k := Segment(tbase, old(segs)[k].size + tsize)]
      ensures Served(old(Live()), Live(), p, nb) && DataKept(old(mem), mem, old(Live()))
    {
      hide BinsOk, Settled, Used, DataKept, Granted, Served, Segmented;
      H.SettledSegments(mem, heap, top, topsize, dv, dvsize, ends, segs, binned, Floor(), {});
      PrependBounds(heap, ends, segs, tbase, tsize, k);
      p := AlignAsChunk(tbase);
      var oldfirst := AlignAsChunk(segs[k].base);
      var psize := oldfirst - p;
      if oldfirst == top {
        PrependToTop(tbase, tsize, k, p, psize, nb);
      } else if oldfirst == dv {
        PrependToDv(tbase, tsize, k, p, psize, nb);
      } else {
        PrependToNew(tbase, tsize, k, p, psize, nb);
      }
    }

    /** The fenceposts of `add_segment`: the word above `p`, and every word from there to `end`, is a post. */
    method InsertFenceposts(p0: int, end: int) returns (nfences: int)
      requires (end - p0) % 8 == 0 && p0 + 32 <= end
      modifies `mem
      ensures forall a :: a < p0 + HEAD || end <= a ==> Rd(mem, a) == Rd(old(mem), a)
      ensures forall a :: p0 + HEAD <= a < end && (end - a) % 8 == 0 ==> Rd(mem, a) == FENCEPOST_HEAD
      ensures 8 * (nfences + 1) == end - p0
    {
      var p := p0;
      ghost var k := (end - p0) / 8;
      nfences := 0;
      while true
        invariant p0 <= p && p + HEAD < end && end - p == 8 * k && 8 * nfences == p - p0
        invariant forall a :: a < p0 + HEAD || end <= a ==> Rd(mem, a) == Rd(old(mem), a)
        invariant forall a :: p0 + HEAD <= a < p + HEAD && (end - a) % 8 == 0 ==> Rd(mem, a) == FENCEPOST_HEAD
        decreases end - p
      {
        var nextp := p + 8;
        ghost var m := mem;
        k := k - 1;
        mem := mem[p + HEAD := FENCEPOST_HEAD];
        nfences := nfences + 1;
        forall a | p0 + HEAD <= a < nextp + HEAD && (end - a) % 8 == 0
          ensures Rd(mem, a) == FENCEPOST_HEAD
        {
          if a < p + HEAD {
            assert Rd(m, a) == FENCEPOST_HEAD;
          } else {
            NextWord(p, a, end);
          }
        }
        if nextp + HEAD < end {
          p := nextp;
        } else {
          break;
        }
      }
    }

    /** The stores of `add_segment`: the new top, the record of the old segment and the fenceposts behind it.  What
        is left of the old top ends at `csp`. */
    method CloseStores(tbase: int, tsize: int) returns (csp: int)
      requires Loose(dv, dvsize, {}) && top != 0 && Granted(segs, tbase, tsize)
      modifies `mem, `top, `topsize, `segs, `trimCheck
      ensures segs == [Segment(tbase, tsize)] + old(segs)
      ensures top == TopOf(tbase) && topsize == TopSizeOf(tbase, tsize) && trimCheck == TRIM_THRESHOLD
      ensures AddingStores(old(mem), mem, old(top), old(topsize), tbase, tsize)
      ensures topsize > tsize - TOP_FOOT_SIZE - 16
      ensures csp == RecordAt(old(top), old(topsize)) && (csp != old(top) ==> csp == old(top) + old(topsize))
    {
      hide BinsOk, Settled, Used, Granted, InitTopStores, AddingStores, SetInuseChunk, SetFreeWithPinuse, Rd, First;
      ghost var m := mem;
      AddSegmentFacts(mem, heap, top, topsize, dv, dvsize, ends, segs, binned, Floor(), tbase, tsize);
      var oldTop := top;
      ghost var oldTopsize := topsize;
      var oldEnd := End(segs[0]);
      var rawsp := oldEnd - (SEGMENT_CHUNK + 32 + 15);
      var asp := AlignAsChunk(rawsp);
      AlignedNear(tbase);
      hide AlignAsChunk;
      csp := if asp < oldTop + MIN_CHUNK_SIZE then oldTop else asp;
      var tnext := csp + SEGMENT_CHUNK;
      FenceRoom(oldTop, oldTopsize, csp, oldEnd);
      InitTop(tbase, tsize - TOP_FOOT_SIZE);
      mem := SetInuseChunk(mem, csp, SEGMENT_CHUNK);
      segs := [Segment(tbase, tsize)] + segs;
      var nfences := InsertFenceposts(tnext, oldEnd);
      ghost var f := mem;
      if csp != oldTop {
        mem := SetFreeWithPinuse(mem, oldTop, csp - oldTop, csp);
      }
      AddingStoresHold(m, f, mem, oldTop, oldTopsize, tbase, tsize);
    }

    /** `add_segment`, but for binning what is left of the old top. */
    method CloseSegment(tbase: int, tsize: int) returns (csp: int)
      requires Loose(dv, dvsize, {}) && top != 0 && HEAP_MIN <= Floor() <= tbase && Granted(segs, tbase, tsize)
      modifies `mem, `heap, `top, `topsize, `ends, `segs, `trimCheck
      ensures segs == [Segment(tbase, tsize)] + old(segs) && top == TopOf(tbase) && trimCheck == TRIM_THRESHOLD
      ensures if csp == old(top) then Loose(dv, dvsize, {})
              else Loose(dv, dvsize, {old(top)}) && IsChunk(heap, old(top), csp - old(top), false)
      ensures topsize > tsize - TOP_FOOT_SIZE - 16
      ensures Live() == old(Live()) && DataKept(old(mem), mem, Live())
    {
      hide BinsOk, Settled, Used, DataKept, Granted, InsidesKept, AfterAdding, EndsAfterAdding, AddingStores, IsChunk,
        TopOf, TopSizeOf;
      ghost var m, h0, e0, segs0, top0, size0 := mem, heap, ends, segs, top, topsize;
      csp := CloseStores(tbase, tsize);
      SegmentAdded(m, mem, h0, top0, size0, dv, dvsize, e0, segs0, binned, Floor(), tbase, tsize, Floor());
      heap := AfterAdding(heap, top0, size0, tbase, tsize);
      ends := EndsAfterAdding(ends, top0, size0, tbase);
      BinsFrame(m, mem, smallmap, treemap, rings, trees, binned, Floor());
      DataFewer(m, mem, Used(h0), e0);
    }

    /** `add_segment`. */
    method AddSegment(tbase: int, tsize: int)
      requires Loose(dv, dvsize, {}) && top != 0 && HEAP_MIN <= Floor() <= tbase && Granted(segs, tbase, tsize)
      modifies `mem, `smallmap, `treemap, `rings, `trees, `binned, `heap, `top, `topsize, `ends, `segs, `trimCheck
      ensures Loose(dv, dvsize, {}) && segs == [Segment(tbase, tsize)] + old(segs)
      ensures top == AlignAsChunk(tbase) && trimCheck == TRIM_THRESHOLD
      ensures topsize > tsize - TOP_FOOT_SIZE - 16
      ensures Live() == old(Live()) && DataKept(old(mem), mem, Live())
    {
      hide BinsOk, Settled, Used, DataKept, Granted, IsChunk;
      var oldTop := top;
      var csp := CloseSegment(tbase, tsize);
      if csp != oldTop {
        IsChunkSize(heap, oldTop, csp - oldTop, false);
        ghost var n := mem;
        BinFreed(oldTop, csp - oldTop);
        DataKeptTrans(old(mem), n, mem, Live(), Live());
      }
    }

    /** `segment_holds`. */
    predicate SegmentHolds(s: Segment, a: int) {
      s.base <= a < s.base + s.size
    }

    /** The part of `sys_alloc` that puts memory to use that does not extend the top: below a segment, or in a new
        one. */
    method ExtendElsewhere(nb: int, tbase: int, tsize: int) returns (p: int)
      requires Loose(dv, dvsize, {}) && top != 0 && segs != [] && Granted(segs, tbase, tsize)
      requires !OnTop(segs, Segment(tbase, tsize))
      requires nb % 16 == 0 && MIN_CHUNK_SIZE <= nb && nb + SYS_ALLOC_PADDING <= tsize
      modifies `mem, `smallmap, `treemap, `rings, `trees, `binned, `heap, `top, `topsize, `ends, `dv, `dvsize, `segs,
               `trimCheck, `leastAddr
      ensures Loose(dv, dvsize, {}) && VictimLowered(old(State()), State())
      ensures segs == Attached(old(segs), Segment(tbase, tsize))
      ensures leastAddr == LeastAfter(old(segs), old(leastAddr), Segment(tbase, tsize))
      ensures trimCheck == if Beneath(old(segs), Segment(tbase, tsize)) then old(trimCheck) else TRIM_THRESHOLD
      ensures (if p == 0 then top else p) == AlignAsChunk(tbase)
      ensures p == 0 ==> nb < topsize
      ensures p == 0 ==> Live() == old(Live()) && DataKept(old(mem), mem, Live())
      ensures p != 0 ==> Served(old(Live()), Live(), p, nb) && DataKept(old(mem), mem, old(Live()))
    {
      hide BinsOk, Settled, Used, DataKept, Granted, Served, First, EndsAligned, StartingAt, OnTop, AlignAsChunk;
      p := 0;
      GrantedAt(segs, tbase, tsize);
      LowerFloor(tbase);
      var k := SegmentStartingAt(tbase + tsize);
      if k < |segs| {
        p := PrependAlloc(tbase, tsize, k, nb);
        ServedGrows(old(Live()), Live(), p, nb);
      } else {
        AddSegment(tbase, tsize);
      }
    }

    /** The part of `sys_alloc` that puts new memory to use; `p` is the chunk for the request where it was carved from
        memory below a segment, and null where the top is to be tried. */
    method Extend(nb: int, tbase: int, tsize: int) returns (p: int)
      requires Loose(dv, dvsize, {}) && Granted(segs, tbase, tsize)
      requires nb % 16 == 0 && MIN_CHUNK_SIZE <= nb
      requires || nb + SYS_ALLOC_PADDING <= tsize
               || (segs != [] && tbase == End(segs[0]) && nb + SYS_ALLOC_PADDING <= tsize + topsize)
      modifies `mem, `smallmap, `treemap, `rings, `trees, `binned, `heap, `top, `topsize, `ends, `dv, `dvsize, `segs,
               `trimCheck, `leastAddr
      ensures Loose(dv, dvsize, {}) && VictimLowered(old(State()), State())
      ensures segs == Attached(old(segs), Segment(tbase, tsize))
      ensures leastAddr == LeastAfter(old(segs), old(leastAddr), Segment(tbase, tsize))
      ensures trimCheck == if Beneath(old(segs), Segment(tbase, tsize)) then old(trimCheck) else TRIM_THRESHOLD
      ensures (if p == 0 then top else p) == NewPlace(old(segs), old(top), Segment(tbase, tsize))
      ensures p == 0 ==> nb < topsize
      ensures p == 0 ==> Live() == old(Live()) && DataKept(old(mem), mem, Live())
      ensures p != 0 ==> Served(old(Live()), Live(), p, nb) && DataKept(old(mem), mem, old(Live()))
    {
      hide BinsOk, Settled, Used, DataKept, Granted, Served, First, AlignAsChunk;
      TopBounds(mem, heap, top, topsize, dv, dvsize, ends, segs, binned, Floor(), {});
      p := 0;
      if top == 0 {
        Initialise(tbase, tsize);
        DataNone(old(mem), mem, Live());
      } else {
        var i := SegmentEndingAt(tbase);
        H.TopSegment(mem, heap, top, topsize, dv, dvsize, ends, segs, binned, Floor(), {}, i);
        if i < |segs| && SegmentHolds(segs[i], top) {
          AppendToTop(tsize);
        } else {
          p := ExtendElsewhere(nb, tbase, tsize);
        }
      }
    }

    /** The footprint grows by what the system has granted. */
    method CountFootprint(tsize: int)
      requires Loose(dv, dvsize, {})
      modifies `footprint, `maxFootprint
      ensures Loose(dv, dvsize, {}) && Live() == old(Live()) && footprint == old(footprint) + tsize
      ensures maxFootprint == if footprint > old(maxFootprint) then footprint else old(maxFootprint)
    {
      hide BinsOk, Settled, Used;
      footprint := footprint + tsize;
      if footprint > maxFootprint {
        maxFootprint := footprint;
      }
    }

    /** The rest of `sys_alloc` once the system has granted memory. */
    method ServeFromNew(nb: int, tbase: int, tsize: int) returns (p: int)
      requires Valid() && Granted(segs, tbase, tsize) && nb % 16 == 0 && MIN_CHUNK_SIZE <= nb
      requires || nb + SYS_ALLOC_PADDING <= tsize
               || (segs != [] && tbase == End(segs[0]) && nb + SYS_ALLOC_PADDING <= tsize + topsize)
      modifies `mem, `smallmap, `treemap, `rings, `trees, `binned, `heap, `top, `topsize, `ends, `dv, `dvsize, `segs,
               `trimCheck, `leastAddr, `footprint, `maxFootprint
      ensures Valid() && footprint == old(footprint) + tsize
      ensures p == NewPlace(old(segs), old(top), Segment(tbase, tsize)) && VictimLowered(old(State()), State())
      ensures Extended(old(State()), Segment(tbase, tsize), State())
      ensures p != 0 && Served(old(Live()), Live(), p, nb) && DataKept(old(mem), mem, old(Live()))
    {
      hide BinsOk, Settled, Used, DataKept, Granted, Served, End, Attached, Beneath, NewPlace, EndsAligned, Total,
        Loose, Live;
      AttachedTotal(segs, Segment(tbase, tsize));
      AttachedAligned(segs, Segment(tbase, tsize));
      CountFootprint(tsize);
      p := Extend(nb, tbase, tsize);
      if p == 0 && nb < topsize {
        ghost var m := mem;
        p := SplitTop(nb);
        ServedGrows(old(Live()), Live(), p, nb);
        DataKeptTrans(old(mem), m, mem, old(Live()), old(Live()));
      }
    }

    /** `sys_alloc`, with the answers of `MORECORE` in `env`. */
    method SysAlloc(nb: int, env: Morecore) returns (p: int)
      requires Valid() && topsize <= nb < WORD_MAX && (nb == CMFAIL || (nb % 16 == 0 && MIN_CHUNK_SIZE <= nb))
      requires (nb != CMFAIL ==> Honest(env, segs, top, topsize, nb))
      modifies this
      ensures Valid() && footprintLimit == old(footprintLimit)
      ensures footprintLimit == 0 || footprint <= footprintLimit || footprint == old(footprint)
      ensures p == 0 ==> Live() == old(Live()) && DataKept(old(mem), mem, Live())
      ensures p != 0 ==> Served(old(Live()), Live(), p, nb) && DataKept(old(mem), mem, old(Live()))
      ensures p != 0 <==> SystemServes(old(State()), nb, env)
      ensures p == 0 ==> Refused(old(State()), nb, State())
      ensures p != 0 ==>
                var g := Obtained(old(State()), nb, env);
                && p == NewPlace(old(segs), old(top), g) && VictimLowered(old(State()), State())
                && Extended(old(State()), g, State()) && contiguous == GrantsContiguous(old(State()), nb, env)
      ensures nb == CMFAIL ==> p == 0
    {
      hide BinsOk, Settled, Used, DataKept, Granted, Served, Honest, End, Asize, GranularityAlign, Obtains,
        Obtained, NewPlace, GrantsContiguous, Attached, Beneath;
      p := 0;
      DataSame(mem, Live());
      TopBounds(mem, heap, top, topsize, dv, dvsize, ends, segs, binned, Floor(), {});
      TotalPositive(segs);
      WrapTest(nb);
      var asize := Asize(nb);
      if asize <= nb {
        return;
      }
      if footprintLimit != 0 {
        var fp := (footprint + asize) % WORD_MAX;
        FootprintSum(footprint, asize, footprintLimit);
        if fp <= footprint || fp > footprintLimit {
          return;
        }
      }
      var tbase, tsize := AcquireSpace(nb, asize, env);
      if tbase != CMFAIL {
        p := ServeFromNew(nb, tbase, tsize);
      }
    }

    /** The paths of `malloc` that serve a small request from a chunk larger than a remainderless fit: from the lowest
        marked small bin above, else from a tree bin; `smallbits` is the small map from the bin of `nb` on. */
    method MallocAbove(nb: int, idx: BinIndex, smallbits: bv32) returns (p: int)
      requires Valid() && MIN_CHUNK_SIZE <= nb <= 240 && nb % 16 == 0 && dvsize < nb
      requires idx == nb / 8 && smallbits == SmallBits(smallmap, idx) && !NearBits(smallbits)
      modifies `mem, `smallmap, `treemap, `rings, `trees, `binned, `heap, `dv, `dvsize
      ensures Valid()
      ensures if p == 0 then unchanged(this) && NoneHolds(binned, nb)
              else LeastFit(old(binned), nb, p) && old(FirstOfSize(p))
      ensures p != 0 ==> VictimOf(old(State()), p, nb, State())
      ensures p != 0 ==> Served(old(Live()), Live(), p, nb) && DataKept(old(mem), mem, old(Live()))
    {
      hide BinsOk, Settled, Used, DataKept, Served, SmallBits, NearBits, EmptyBit, BitsAbove, Marked, BestFit, LeastFit,
        NoneHolds, FirstOfSize;
      NearBin(smallmap, idx);
      p := 0;
      if smallbits != 0 {
        SomeAbove(smallmap, idx);
        AboveBin(smallmap, idx);
        var leftbits := BitsAbove(smallmap, idx);
        var i: BinIndex := LeastIndex(leftbits);
        p := UseSmallBin(i, nb);
        ServedGrows(old(Live()), Live(), p, nb);
        LowestIsLeast(old(mem), old(smallmap), old(treemap), old(rings), old(trees), old(binned), old(Floor()), nb, i,
                      p);
      } else {
        NoneFrom(smallmap, idx);
        if treemap != 0 {
          NoneSmall(mem, smallmap, treemap, rings, trees, binned, Floor(), nb, idx);
          p := TmallocSmall(nb);
          ServedGrows(old(Live()), Live(), p, nb);
          BestIsLeast(old(binned), nb, p);
        } else {
          NothingFits(mem, smallmap, treemap, rings, trees, binned, Floor(), nb, idx);
        }
      }
    }

    /** The paths of `malloc` that serve a small request from the bins; null if it is left to the others. */
    method MallocSmall(nb: int) returns (p: int)
      requires Valid() && MIN_CHUNK_SIZE <= nb <= 240 && nb % 16 == 0
      modifies `mem, `smallmap, `treemap, `rings, `trees, `binned, `heap, `dv, `dvsize
      ensures Valid()
      ensures p == 0 ==> unchanged(this)
      ensures p == 0 ==> nb <= dvsize || NoneHolds(binned, nb)
      ensures p != 0 ==> LeastFit(old(binned), nb, p) && (nb <= old(dvsize) ==> old(binned)[p] == nb)
      ensures p != 0 ==> old(FirstOfSize(p)) && VictimOf(old(State()), p, nb, State())
      ensures p != 0 ==> Served(old(Live()), Live(), p, nb) && DataKept(old(mem), mem, old(Live()))
      ensures (exists q :: q in old(binned) && old(binned)[q] == nb) ==>
                p != 0 && p in old(binned) && old(binned)[p] == nb
    {
      hide BinsOk, Settled, Used, DataKept, Served, SmallBits, NearBits, EmptyBit, BitsAbove, Marked, BestFit,
        NoneHolds, FirstOfSize;
      p := 0;
      var idx: BinIndex := nb / 8;
      var smallbits := SmallBits(smallmap, idx);
      NearBin(smallmap, idx);
      forall q | q in binned && binned[q] == nb
        ensures Marked(smallmap, idx)
      {
        HoldsMarked(mem, smallmap, treemap, rings, trees, binned, Floor(), q);
      }
      if NearBits(smallbits) {
        idx := idx + EmptyBit(smallbits) as int;
        p := UseSmallBin(idx, nb);
        ServedGrows(old(Live()), Live(), p, nb);
        LowestIsLeast(old(mem), old(smallmap), old(treemap), old(rings), old(trees), old(binned), old(Floor()), nb, idx,
                      p);
      } else if nb > dvsize {
        p := MallocAbove(nb, idx, smallbits);
      }
    }

    /** The paths of `malloc` that serve a request from the bins; null if it is left to the others. */
    method FromBins(bytes: int, nb: int) returns (p: int)
      requires Valid() && 0 <= bytes < WORD_MAX && nb == NeedOf(bytes)
      modifies `mem, `smallmap, `treemap, `rings, `trees, `binned, `heap, `dv, `dvsize
      ensures Valid()
      ensures p == 0 ==> unchanged(this)
      ensures p != 0 <==> BinsServe(old(State()), nb)
      ensures p != 0 ==> LeastFit(old(binned), nb, p) && old(FirstOfSize(p)) && bytes < MAX_REQUEST
      ensures p != 0 ==> VictimAfter(old(State()), nb, p, State())
      ensures p != 0 ==> Served(old(Live()), Live(), p, nb) && DataKept(old(mem), mem, old(Live()))
    {
      hide BinsOk, Settled, Used, DataKept, Served, PadRequest, Request2Size, BestFit, NoFit, NoneTighter, LeastFit,
        NoneHolds, FirstOfSize, BinsServe;
      p := 0;
      ghost var s := State();
      if bytes < MAX_REQUEST {
        RequestFits(bytes);
        if bytes <= MAX_SMALL_REQUEST {
          p := MallocSmall(nb);
          SmallChoice(s, nb, p);
        } else if treemap != 0 {
          p := TmallocLarge(nb);
          LargeChoice(s, nb, p);
        } else {
          NothingLarge(mem, smallmap, treemap, rings, trees, binned, Floor(), nb);
          NothingServes(s, nb);
        }
      } else {
        NothingHuge(mem, heap, top, topsize, dv, dvsize, ends, segs, binned, Floor());
        NothingServes(s, nb);
      }
    }

    /** `dlmalloc`. */
    method Malloc(bytes: int, env: Morecore) returns (r: int)
      requires Valid() && 0 <= bytes < WORD_MAX
      requires bytes < MAX_REQUEST ==> Honest(env, segs, top, topsize, NeedOf(bytes))
      modifies this
      ensures Valid() && footprintLimit == old(footprintLimit)
      ensures footprintLimit == 0 || footprint <= footprintLimit || footprint == old(footprint)
      ensures r == 0 ==> Live() == old(Live()) && DataKept(old(mem), mem, Live())
      ensures r != 0 ==> bytes < MAX_REQUEST && r % 16 == 0
      ensures r != 0 ==> Served(old(Live()), Live(), r - MEM_OFFSET, NeedOf(bytes))
                         && DataKept(old(mem), mem, old(Live()))
      ensures r != 0 <==> CanServe(old(State()), NeedOf(bytes), env)
      ensures r != 0 ==> Placed(old(State()), NeedOf(bytes), env, r - MEM_OFFSET, State())
      ensures r != 0 && BinsServe(old(State()), NeedOf(bytes)) ==> old(FirstOfSize(r - MEM_OFFSET))
      ensures r == 0 ==> Refused(old(State()), NeedOf(bytes), State())
    {
      hide BinsOk, Settled, Used, DataKept, Served, Honest, PadRequest, Request2Size, NoneHolds, SystemServes,
        BinsServe, Refused, Extended, Obtained, FirstOfSize, GrantsContiguous, VictimLowered, NewPlace, LeastFit, Rest;
      var nb := NeedOf(bytes);
      DvNull(mem, heap, top, topsize, dv, dvsize, ends, segs, binned, Floor(), {});
      TopBounds(mem, heap, top, topsize, dv, dvsize, ends, segs, binned, Floor(), {});
      NeedIs(bytes);
      var p := FromBins(bytes, nb);
      ServesSome(old(State()), nb);
      if p == 0 {
        if nb <= dvsize {
          p := UseDv(nb);
        } else if nb < topsize {
          p := SplitTop(nb);
        } else {
          p := SysAlloc(nb, env);
        }
      }
      if p != 0 {
        ServedMem(old(Live()), Live(), p, nb);
        ServedGrows(old(Live()), Live(), p, nb);
      }
      r := if p == 0 then 0 else p + MEM_OFFSET;
    }

    // -------------------------------------------------------------- trim and free

    /** Gives the last `released` bytes of the top's segment back. */
    method ShrinkTop(released: int)
      requires Valid() && top != 0 && 0 < released < topsize && released % 16 == 0
      modifies `mem, `top, `topsize, `trimCheck, `segs, `heap, `footprint
      ensures Valid() && top == old(top) && topsize == old(topsize) - released && footprint == old(footprint) - released
      ensures segs == old(segs)[0 := Segment(old(segs)[0].base, old(segs)[0].size - released)]
      ensures trimCheck == TRIM_THRESHOLD
      ensures Live() == old(Live()) && DataKept(old(mem), mem, Live())
    {
      hide BinsOk, Settled, Used, InitTopStores, DataKept, InsidesKept, AlignAsChunk, Total, EndsAligned;
      TopShrunk(mem, heap, top, topsize, dv, dvsize, ends, segs, binned, Floor(), released);
      segs := segs[0 := Segment(segs[0].base, segs[0].size - released)];
      footprint := footprint - released;
      InitTop(top, topsize - released);
      heap := heap[top := Extent(topsize, false)];
      BinsFrame(old(mem), mem, smallmap, treemap, rings, trees, binned, Floor());
      DataFewer(old(mem), mem, Used(heap), ends);
    }

    /** `sys_trim`. */
    method SysTrim(pad0: int, env: Release) returns (trimmed: bool)
      requires Valid() && 0 <= pad0
      modifies `mem, `top, `topsize, `trimCheck, `segs, `heap, `footprint
      ensures Valid() && Live() == old(Live()) && DataKept(old(mem), mem, Live())
      ensures top == old(top) && old(topsize) - topsize == old(footprint) - footprint
      ensures if trimmed then pad0 + TOP_FOOT_SIZE < topsize < old(topsize) else topsize == old(topsize)
      ensures trimmed ==> topsize <= pad0 + TOP_FOOT_SIZE + PAGE_SIZE && (old(topsize) - topsize) % PAGE_SIZE == 0
      ensures GivesBack(old(State()), State(), old(topsize), pad0, env)
      ensures trimmed <==> old(topsize > pad0 + TOP_FOOT_SIZE + PAGE_SIZE) && pad0 < MAX_REQUEST && env.granted
                           && old(segs != [] && env.brk == End(segs[0])) && top != 0
    {
      hide BinsOk, Settled, Used, DataKept;
      TopBounds(mem, heap, top, topsize, dv, dvsize, ends, segs, binned, Floor(), {});
      DataSame(mem, Live());
      var released := 0;
      if pad0 < MAX_REQUEST && top != 0 {
        var pad := pad0 + TOP_FOOT_SIZE;
        if topsize > pad {
          ExtraFacts(topsize, pad);
          var extra := Extra(topsize, pad);
          hide Extra;
          if extra >= HALF_MAX {
            assert false;
          }
          var oldBr := env.brk;
          if oldBr == End(segs[0]) {
            var newBr := if env.granted then oldBr - extra else oldBr;
            if env.granted && newBr < oldBr {
              released := oldBr - newBr;
            }
          }
          if released != 0 {
            ShrinkTop(released);
          }
        }
        if released == 0 && topsize > trimCheck {
          trimCheck := CMFAIL;
        }
      }
      trimmed := released != 0;
    }

    /** The trim after a free: of a top that has grown past the threshold, where it is looked at. */
    method TrimIf(looked: bool, env: Release)
      requires Valid()
      modifies `mem, `top, `topsize, `trimCheck, `segs, `heap, `footprint
      ensures Valid() && Live() == old(Live()) && DataKept(old(mem), mem, Live()) && footprint <= old(footprint)
      ensures if looked && old(topsize > trimCheck)
              then GivesBack(old(State()), State(), old(topsize), 0, env) && SameChunks(old(State()), State())
              else unchanged(this)
    {
      hide BinsOk, Settled, Used, DataKept, GivesBack;
      DataSame(mem, Live());
      if looked && topsize > trimCheck {
        var trimmed := SysTrim(0, env);
      }
    }

    /** `dlfree`. */
    method Free(r: int, env: Release)
      requires Valid() && (r != 0 ==> r - MEM_OFFSET in Live())
      modifies `mem, `smallmap, `treemap, `rings, `trees, `binned, `heap, `top, `topsize, `ends, `dv, `dvsize,
               `trimCheck, `segs, `footprint
      ensures Valid() && Live() == old(Live()) - {r - MEM_OFFSET} && footprint <= old(footprint)
      ensures if r == 0 then unchanged(this) else Freed(old(State()), State(), env, false)
      ensures DataKept(old(mem), mem, Live())
    {
      hide BinsOk, Settled, Used, DataKept, ChunkSize, Cinuse, GivesBack, Freed, Merges;
      if r != 0 {
        var p := r - MEM_OFFSET;
        UsedLive(heap, ends, p);
        H.ChunkFacts(mem, heap, top, topsize, dv, dvsize, ends, segs, binned, Floor(), {}, p);
        if leastAddr <= p && Cinuse(mem, p) {
          var intoTop := DisposeChunk(p, ChunkSize(mem, p));
          ghost var m, s := mem, State();
          TrimIf(intoTop, env);
          DataKeptTrans(old(mem), m, mem, Live(), Live());
          FreedThen(old(State()), s, State(), env, false);
        } else {
          assert false;
        }
      } else {
        NullNotLive(mem, heap, top, topsize, dv, dvsize, ends, segs, binned, Floor(), {});
        DataSame(mem, Live());
      }
    }

    /** A client stores a word in a chunk it holds. */
    method Store(a: int, v: int, ghost p: int)
      requires Valid() && p in Live() && p + MEM_OFFSET <= a < p + Live()[p] + CHUNK_OVERHEAD
      modifies `mem
      ensures Valid() && mem == old(mem)[a := v]
      ensures DataKept(old(mem), mem, Live() - {p})
    {
      hide BinsOk, Settled, Used, DataKept, InsidesKept;
      UsedLive(heap, ends, p);
      mem := mem[a := v];
      H.ClientStores(old(mem), mem, heap, top, topsize, dv, dvsize, ends, segs, binned, Floor(), {}, p);
      BinsFrame(old(mem), mem, smallmap, treemap, rings, trees, binned, Floor());
      DataFewer(old(mem), mem, Used(heap) - {p}, ends);
      FewerLive(Used(heap), p, ends);
    }

    /** `memcpy` of the words that `n` bytes reach into. */
    method CopyWords(dst: int, src: int, n: int)
      requires 0 <= n && (dst + WordUp(n) <= src || src + WordUp(n) <= dst)
      modifies `mem
      ensures Copied(old(mem), mem, src, dst, n)
      ensures forall a :: a < dst || dst + WordUp(n) <= a ==> Rd(mem, a) == Rd(old(mem), a)
    {
      var k := 0;
      while k < n
        invariant 0 <= k < n + 8 && k % 8 == 0
        invariant Copied(old(mem), mem, src, dst, k)
        invariant forall a :: a < dst || dst + k <= a ==> Rd(mem, a) == Rd(old(mem), a)
      {
        ghost var m := mem;
        WordUpIs(n, WordUp(n));
        BelowWordUp(n, k);
        mem := mem[dst + k := Rd(mem, src + k)];
        forall a | dst <= a < dst + k + 8 && (a - dst) % 8 == 0
          ensures Rd(mem, a) == Rd(old(mem), src + (a - dst))
        {
          if a < dst + k {
            assert Rd(m, a) == Rd(old(mem), src + (a - dst));
          } else {
            SameWord(k, a - dst);
          }
        }
        k := k + 8;
      }
      WordUpIs(n, k);
    }

    /** Copies the first `n` bytes of a block into another one. */
    method CopyBlock(dst: int, src: int, n: int)
      requires Valid() && 0 <= n && dst != src && src - MEM_OFFSET in Live() && dst - MEM_OFFSET in Live()
      requires n + CHUNK_OVERHEAD <= Live()[src - MEM_OFFSET] && n + CHUNK_OVERHEAD <= Live()[dst - MEM_OFFSET]
      modifies `mem
      ensures Valid() && Copied(old(mem), mem, src, dst, n) && DataKept(old(mem), mem, Live() - {dst - MEM_OFFSET})
    {
      hide BinsOk, Settled, Used, DataKept, InsidesKept, Copied;
      ghost var p, q := src - MEM_OFFSET, dst - MEM_OFFSET;
      UsedLive(heap, ends, p);
      UsedLive(heap, ends, q);
      LiveApart(mem, heap, top, topsize, dv, dvsize, ends, segs, binned, Floor(), {}, p, q);
      WordUpFits(n, Live()[p]);
      WordUpFits(n, Live()[q]);
      CopyWords(dst, src, n);
      H.ClientStores(old(mem), mem, heap, top, topsize, dv, dvsize, ends, segs, binned, Floor(), {}, q);
      BinsFrame(old(mem), mem, smallmap, treemap, rings, trees, binned, Floor());
      DataFewer(old(mem), mem, Used(heap) - {q}, ends);
      FewerLive(Used(heap), q, ends);
    }

    /** The last resort of `dlrealloc`: a new block, the contents copied, the old block freed. */
    method MoveBlock(oldmem: int, bytes: int, oldsize: int, env: Morecore, rel: Release) returns (r: int)
      requires Valid() && 0 <= bytes < MAX_REQUEST
      requires oldmem - MEM_OFFSET in Live() && Live()[oldmem - MEM_OFFSET] == oldsize
      requires Honest(env, segs, top, topsize, NeedOf(bytes))
      modifies this
      ensures Valid()
      ensures footprintLimit == old(footprintLimit)
      ensures footprintLimit == 0 || footprint <= footprintLimit || footprint <= old(footprint)
      ensures r != 0 <==> CanServe(old(State()), NeedOf(bytes), env)
      ensures if r == 0 then Refused(old(State()), NeedOf(bytes), State())
              else MovedTo(old(State()), NeedOf(bytes), env, r - MEM_OFFSET, rel, State())
      ensures r == 0 ==> Live() == old(Live()) && DataKept(old(mem), mem, Live())
      ensures r != 0 ==>
                r != oldmem
                && Relocated(old(mem), mem, old(Live()), Live(), oldmem - MEM_OFFSET, r - MEM_OFFSET, bytes)
    {
      hide BinsOk, Settled, Used, DataKept, Honest, Min, Request2Size, PadRequest, InsidesKept, Copied, CanServe,
        Placed, Freed, MovedTo, Refused, BinsServe, FirstOfSize;
      ghost var p, u := oldmem - MEM_OFFSET, Live();
      LiveAligned(mem, heap, top, topsize, dv, dvsize, ends, segs, binned, Floor(), {}, p);
      r := Malloc(bytes, env);
      if r != 0 {
        ghost var q, m, v, s := r - MEM_OFFSET, mem, Live(), State();
        var oc := oldsize - CHUNK_OVERHEAD;
        var n := if oc < bytes then oc else bytes;
        RequestFits(bytes);
        H.MinIs(oc, bytes);
        CopyBlock(r, oldmem, n);
        assert v - {q} == u;
        DataKeptTrans(old(mem), m, mem, u, u);
        ghost var m1 := mem;
        CopiedFrom(old(mem), m, m1, u, p, oldmem, r, n);
        Free(oldmem, rel);
        MovedBy(old(State()), NeedOf(bytes), env, q, rel, s, State());
        DataFewer(old(mem), m1, u, {p});
        DataKeptTrans(old(mem), m1, mem, u - {p}, v - {p});
        CopiedKept(old(mem), m1, mem, v - {p}, q, oldmem, r, n);
      }
    }

    /** The part of `dlrealloc` that tries to keep the block where it is. */
    method ResizeInPlace(oldmem: int, bytes: int) returns (newp: int, oldsize: int)
      requires Valid() && 0 <= bytes < MAX_REQUEST && oldmem - MEM_OFFSET in Live()
      modifies `mem, `smallmap, `treemap, `rings, `trees, `binned, `heap, `top, `topsize, `ends, `dv, `dvsize
      ensures Valid() && oldsize == old(Live())[oldmem - MEM_OFFSET] && 0 < oldmem - MEM_OFFSET
      ensures newp == if old(FitsInPlace(oldmem - MEM_OFFSET, NeedOf(bytes))) then oldmem - MEM_OFFSET else 0
      ensures newp == 0 ==> unchanged(this)
      ensures newp != 0 ==> Fitted(old(State()), old(Live()), newp, NeedOf(bytes), State())
      ensures newp != 0 ==> Relocated(old(mem), mem, old(Live()), Live(), newp, newp, bytes)
    {
      hide BinsOk, Settled, Used, DataKept, Served, Honest, ChunkSize, Min, Request2Size, PadRequest, FitsInPlace;
      var nb := Request2Size(bytes);
      RequestFits(bytes);
      var p := oldmem - MEM_OFFSET;
      ghost var u := Live();
      UsedLive(heap, ends, p);
      H.ChunkFacts(mem, heap, top, topsize, dv, dvsize, ends, segs, binned, Floor(), {}, p);
      oldsize := ChunkSize(mem, p);
      UsedSize(heap, ends, p);
      H.MinIs(oldsize - CHUNK_OVERHEAD, bytes);
      newp := TryReallocChunk(p, nb);
      if newp != 0 {
        H.MinIs(oldsize, Live()[p]);
        PrefixWords(old(mem), mem, u, p, Min(oldsize, Live()[p]), Min(oldsize - CHUNK_OVERHEAD, bytes));
        assert u[p := Live()[p]] == (u - {p})[p := Live()[p]];
      }
    }

    /** The part of `dlrealloc` that changes the size of a block: in place if it can be, else the block moves. */
    method ResizeBlock(oldmem: int, bytes: int, env: Morecore, rel: Release) returns (r: int)
      requires Valid() && 0 <= bytes < MAX_REQUEST && oldmem != 0 && oldmem - MEM_OFFSET in Live()
      requires Honest(env, segs, top, topsize, NeedOf(bytes))
      modifies this
      ensures Valid() && footprintLimit == old(footprintLimit)
      ensures footprintLimit == 0 || footprint <= footprintLimit || footprint <= old(footprint)
      ensures oldmem - MEM_OFFSET in old(Live())
      ensures old(FitsInPlace(oldmem - MEM_OFFSET, NeedOf(bytes))) ==> r == oldmem
      ensures !old(FitsInPlace(oldmem - MEM_OFFSET, NeedOf(bytes))) ==>
                r != oldmem && (r != 0 <==> CanServe(old(State()), NeedOf(bytes), env))
      ensures r == 0 ==> Refused(old(State()), NeedOf(bytes), State())
      ensures r == oldmem ==> Fitted(old(State()), old(Live()), oldmem - MEM_OFFSET, NeedOf(bytes), State())
      ensures r != 0 && r != oldmem ==> MovedTo(old(State()), NeedOf(bytes), env, r - MEM_OFFSET, rel, State())
      ensures r == 0 ==> Live() == old(Live()) && DataKept(old(mem), mem, Live())
      ensures r != 0 ==> Relocated(old(mem), mem, old(Live()), Live(), oldmem - MEM_OFFSET, r - MEM_OFFSET, bytes)
    {
      hide BinsOk, Settled, Used, DataKept, Honest, Min, Request2Size, PadRequest, CanServe, FitsInPlace, Copied,
        Valid, Live, State, MovedTo, Fitted, Refused, Relocated;
      var newp, oldsize := ResizeInPlace(oldmem, bytes);
      if newp != 0 {
        r := newp + MEM_OFFSET;
      } else {
        assert mem == old(mem) && Live() == old(Live()) && State() == old(State());
        r := MoveBlock(oldmem, bytes, oldsize, env, rel);
      }
    }

    /** `dlrealloc`.  The first words of the block are those of the old one, as far as both reach. */
    method Realloc(oldmem: int, bytes: int, env: Morecore, rel: Release) returns (r: int)
      requires Valid() && 0 <= bytes < WORD_MAX
      requires oldmem != 0 ==> oldmem - MEM_OFFSET in Live()
      requires bytes < MAX_REQUEST ==> Honest(env, segs, top, topsize, NeedOf(bytes))
      modifies this
      ensures Valid()
      ensures footprintLimit == old(footprintLimit)
      ensures footprintLimit == 0 || footprint <= footprintLimit || footprint <= old(footprint)
      ensures r != 0 <==>
                && bytes < MAX_REQUEST
                && (|| (oldmem != 0 && old(FitsInPlace(oldmem - MEM_OFFSET, NeedOf(bytes))))
                    || CanServe(old(State()), NeedOf(bytes), env))
      ensures bytes < MAX_REQUEST && oldmem != 0 && old(FitsInPlace(oldmem - MEM_OFFSET, NeedOf(bytes))) ==> r == oldmem
      ensures var s, nb := old(State()), NeedOf(bytes);
              if r == 0 then Refused(s, nb, State())
              else if oldmem == 0 then Placed(s, nb, env, r - MEM_OFFSET, State())
              else if r == oldmem then Fitted(s, old(Live()), r - MEM_OFFSET, nb, State())
              else MovedTo(s, nb, env, r - MEM_OFFSET, rel, State())
      ensures r == 0 ==> Live() == old(Live()) && DataKept(old(mem), mem, Live())
      ensures r != 0 && oldmem == 0 ==>
                bytes < MAX_REQUEST && Served(old(Live()), Live(), r - MEM_OFFSET, NeedOf(bytes))
                    && DataKept(old(mem), mem, old(Live()))
      ensures r != 0 && oldmem != 0 ==>
                bytes < MAX_REQUEST
                && Relocated(old(mem), mem, old(Live()), Live(), oldmem - MEM_OFFSET, r - MEM_OFFSET, bytes)
    {
      hide BinsOk, Settled, Used, DataKept, Served, Honest, Min, Request2Size, PadRequest, CanServe, FitsInPlace,
        Copied, Valid, Live, State, Placed, MovedTo, Fitted, BinsServe, FirstOfSize, Refused, Relocated;
      r := 0;
      if oldmem == 0 {
        r := Malloc(bytes, env);
      } else if bytes >= MAX_REQUEST {
        HugeRefused(State(), bytes);
        DataSame(mem, Live());
      } else {
        r := ResizeBlock(oldmem, bytes, env, rel);
      }
    }

    /** The first aligned spot above the chunk `p` that leaves room for a chunk below. */
    method AlignedSpot(p: int, a: int) returns (newp: int)
      requires p % 16 == 0 && 0 <= p && a % 16 == 0 && MIN_CHUNK_SIZE <= a && (p + MEM_OFFSET) % a != 0
      ensures (newp + MEM_OFFSET) % a == 0 && newp % 16 == 0 && (newp - p) % 16 == 0
      ensures MIN_CHUNK_SIZE <= newp - p <= a + 16
    {
      RoundUpFacts(p + MEM_OFFSET, a);
      var br := RoundUpTo(p + MEM_OFFSET, a) - MEM_OFFSET;
      hide RoundUpTo;
      newp := if br - p >= MIN_CHUNK_SIZE then br else br + a;
      LeaderAligned(p, br, a, newp);
    }

    /** The part of `internal_memalign` that gives back the space before an aligned spot of the chunk `p`. */
    method GiveBackLeader(p: int, a: int) returns (newp: int)
      requires Valid() && p in Live() && a % 16 == 0 && MIN_CHUNK_SIZE <= a && Live()[p] >= a + 2 * MIN_CHUNK_SIZE
      requires (p + MEM_OFFSET) % a != 0
      modifies `mem, `smallmap, `treemap, `rings, `trees, `binned, `heap, `top, `topsize, `ends, `dv, `dvsize
      ensures Valid() && (newp + MEM_OFFSET) % a == 0 && newp % 16 == 0
      ensures p in old(Live()) && MIN_CHUNK_SIZE <= newp - p <= a + 16
      ensures Live() == (old(Live()) - {p})[newp := old(Live())[p] - (newp - p)] && Merges(old(State()), State())
      ensures newp !in old(Live()) && DataKept(old(mem), mem, old(Live()) - {p})
    {
      hide BinsOk, Settled, Used, DataKept, ChunkSize, Piece, Laid, HeadsOk, Min, RoundUpTo, Segmented;
      ghost var u := Live();
      UsedLive(heap, ends, p);
      H.ChunkFacts(mem, heap, top, topsize, dv, dvsize, ends, segs, binned, Floor(), {}, p);
      newp := AlignedSpot(p, a);
      var leadsize := newp - p;
      var size := ChunkSize(mem, p);
      ChunkPiece(heap, top, Floor(), ends, segs, p);
      SplitInUse(p, leadsize, size, true, {});
      ghost var m := mem;
      H.MinIs(u[p], leadsize);
      var intoTop := DisposeChunk(p, leadsize);
      SplitThenFreed(u, p, leadsize, newp, size - leadsize);
      DataShorter(old(mem), m, u[p := Min(u[p], leadsize)], u - {p});
      DataShorter(m, mem, Live(), u - {p});
      DataKeptTrans(old(mem), m, mem, u - {p}, u - {p});
    }

    /** The part of `internal_memalign` that gives back what is left over after the first `nb` bytes. */
    method GiveBackTrailer(p: int, nb: int)
      requires Valid() && p in Live() && nb % 16 == 0 && MIN_CHUNK_SIZE <= nb <= Live()[p]
      modifies `mem, `smallmap, `treemap, `rings, `trees, `binned, `heap, `top, `topsize, `ends, `dv, `dvsize
      ensures Valid() && p in old(Live()) && p in Live() && Live() == old(Live())[p := Live()[p]]
      ensures Live()[p] == if old(Live())[p] > nb + MIN_CHUNK_SIZE then nb else old(Live())[p]
      ensures Merges(old(State()), State())
      ensures DataKept(old(mem), mem, old(Live()) - {p})
    {
      hide BinsOk, Settled, Used, DataKept, ChunkSize, Piece, Laid, HeadsOk, Min, Segmented;
      ghost var u := Live();
      UsedLive(heap, ends, p);
      H.ChunkFacts(mem, heap, top, topsize, dv, dvsize, ends, segs, binned, Floor(), {}, p);
      var size := ChunkSize(mem, p);
      if size > nb + MIN_CHUNK_SIZE {
        ChunkPiece(heap, top, Floor(), ends, segs, p);
        ShedRemainder(p, nb, size, {});
        H.MinIs(u[p], nb);
        DataShorter(old(mem), mem, u[p := Min(u[p], nb)], u - {p});
      } else {
        DataSame(mem, u - {p});
        assert u[p := u[p]] == u;
      }
    }

    /** The part of `internal_memalign` that finds an aligned spot in the chunk `p` and gives back the rest. */
    method AlignWithin(p: int, a: int, nb: int, ghost u: map<int, int>, ghost m: Mem) returns (r: int)
      requires Valid() && Served(u, Live(), p, nb + a + MIN_CHUNK_SIZE) && DataKept(m, mem, u)
      requires a % 16 == 0 && MIN_CHUNK_SIZE <= a && nb % 16 == 0 && MIN_CHUNK_SIZE <= nb
      modifies `mem, `smallmap, `treemap, `rings, `trees, `binned, `heap, `top, `topsize, `ends, `dv, `dvsize
      ensures Valid() && r % a == 0 && r - MEM_OFFSET !in u && r - MEM_OFFSET in Live()
      ensures var q := r - MEM_OFFSET; Live() == u[q := Live()[q]] && nb <= Live()[q] <= nb + MIN_CHUNK_SIZE
      ensures AlignedFrom(p + MEM_OFFSET, a, r) && Merges(old(State()), State())
      ensures DataKept(m, mem, u)
    {
      hide BinsOk, Settled, Used, DataKept;
      var q := p;
      ghost var v := Live();
      if (p + MEM_OFFSET) % a != 0 {
        q := GiveBackLeader(p, a);
        DataShorter(old(mem), mem, v - {p}, u);
        DataKeptTrans(m, old(mem), mem, u, u);
      }
      ghost var m1, w := mem, Live();
      assert w == u[q := w[q]];
      GiveBackTrailer(q, nb);
      DataShorter(m1, mem, w - {q}, u);
      DataKeptTrans(m, m1, mem, u, u);
      r := q + MEM_OFFSET;
    }

    /** The rest of `internal_memalign`, for an alignment `a` that leaves room for the request. */
    method AlignedRequest(bytes: int, a: int, nb: int, env: Morecore) returns (r: int)
      requires Valid() && MIN_CHUNK_SIZE <= a && a % 16 == 0
      requires 0 <= bytes < MAX_REQUEST - a && nb == Request2Size(bytes)
      requires var req := nb + a + MIN_CHUNK_SIZE - CHUNK_OVERHEAD;
               req < MAX_REQUEST ==> Honest(env, segs, top, topsize, NeedOf(req))
      modifies this
      ensures Valid() && footprintLimit == old(footprintLimit)
      ensures footprintLimit == 0 || footprint <= footprintLimit || footprint <= old(footprint)
      ensures var req := nb + a + MIN_CHUNK_SIZE - CHUNK_OVERHEAD;
              && (r != 0 <==> req < MAX_REQUEST && CanServe(old(State()), NeedOf(req), env))
              && if r != 0 then CutFrom(old(State()), NeedOf(req), env, a, r, State())
                 else Refused(old(State()), NeedOf(req), State())
      ensures r == 0 ==> Live() == old(Live()) && DataKept(old(mem), mem, Live())
      ensures r != 0 ==>
                var p := r - MEM_OFFSET;
                && r % a == 0 && p !in old(Live()) && p in Live() && DataKept(old(mem), mem, old(Live()))
                && Live() == old(Live())[p := Live()[p]] && nb <= Live()[p] <= nb + MIN_CHUNK_SIZE
    {
      hide BinsOk, Settled, Used, DataKept, Honest, ChunkSize, Request2Size, PadRequest, Piece, Laid, HeadsOk, Min,
        CanServe, Placed, CutFrom, Refused, BinsServe, FirstOfSize, AlignedFrom, Merges;
      r := 0;
      RequestFits(bytes);
      var req := nb + a + MIN_CHUNK_SIZE - CHUNK_OVERHEAD;
      ghost var u := Live();
      var block := Malloc(req, env);
      if block != 0 {
        PaddedTo16(nb + a, req);
        ghost var s := State();
        r := AlignWithin(block - MEM_OFFSET, a, nb, u, old(mem));
        CutBy(old(State()), NeedOf(req), env, a, r, block - MEM_OFFSET, s, State());
        NullNotLive(mem, heap, top, topsize, dv, dvsize, ends, segs, binned, Floor(), {});
      }
    }

    /** `internal_memalign`. */
    method InternalMemalign(alignment: int, bytes: int, env: Morecore) returns (r: int)
      requires Valid() && 0 <= alignment <= SIGN_BIT && 0 <= bytes < WORD_MAX
      requires var a := EffectiveAlignment(alignment);
               var req := Request2Size(bytes) + a + MIN_CHUNK_SIZE - CHUNK_OVERHEAD;
               bytes < MAX_REQUEST - a && req < MAX_REQUEST ==> Honest(env, segs, top, topsize, NeedOf(req))
      modifies this
      ensures Valid()
      ensures footprintLimit == old(footprintLimit)
      ensures footprintLimit == 0 || footprint <= footprintLimit || footprint <= old(footprint)
      ensures var a := EffectiveAlignment(alignment);
              var req := Request2Size(bytes) + a + MIN_CHUNK_SIZE - CHUNK_OVERHEAD;
              r != 0 <==> bytes < MAX_REQUEST - a && req < MAX_REQUEST && CanServe(old(State()), NeedOf(req), env)
      ensures var a := EffectiveAlignment(alignment);
              var req := Request2Size(bytes) + a + MIN_CHUNK_SIZE - CHUNK_OVERHEAD;
              if r != 0 then CutFrom(old(State()), NeedOf(req), env, a, r, State())
              else if bytes < MAX_REQUEST - a then Refused(old(State()), NeedOf(req), State())
              else unchanged(this)
      ensures r == 0 ==> Live() == old(Live()) && DataKept(old(mem), mem, Live())
      ensures r != 0 ==>
                var p, nb := r - MEM_OFFSET, Request2Size(bytes);
                && bytes < MAX_REQUEST && r % EffectiveAlignment(alignment) == 0 && p !in old(Live()) && p in Live()
                && Live() == old(Live())[p := Live()[p]] && nb <= Live()[p] <= nb + MIN_CHUNK_SIZE
                && DataKept(old(mem), mem, old(Live()))
      ensures forall k: nat :: alignment == Doubled(MIN_CHUNK_SIZE, k) ==> EffectiveAlignment(alignment) == alignment
    {
      hide BinsOk, Settled, Used, DataKept, Honest, ChunkSize, Request2Size, PadRequest, Piece, Laid, HeadsOk, Min,
        CanServe, Placed, CutFrom, Refused, BinsServe, FirstOfSize, AlignedFrom, Merges;
      var a := MIN_CHUNK_SIZE;
      while a < alignment
        invariant 0 < a && RoundAlignment(alignment, a) == EffectiveAlignment(alignment)
        decreases alignment - a
      {
        a := 2 * a;
      }
      RoundedMultiple(alignment, MIN_CHUNK_SIZE);
      forall k: nat | alignment == Doubled(MIN_CHUNK_SIZE, k)
        ensures EffectiveAlignment(alignment) == alignment
      {
        DoubledStays(MIN_CHUNK_SIZE, k);
      }
      r := 0;
      if bytes >= MAX_REQUEST - a {
        DataSame(mem, Live());
      } else {
        RequestFits(bytes);
        var nb := Request2Size(bytes);
        r := AlignedRequest(bytes, a, nb, env);
      }
    }

    // -------------------------------------------------------------- bulk free

    /** Two neighbours in use become one chunk in use. */
    method FuseInUse(p: int, next: int, newsize: int)
      requires Valid() && p in Live() && next in Live() && next == p + Live()[p] && newsize == Live()[p] + Live()[next]
      modifies `mem, `heap
      ensures Valid() && Live() == (old(Live()) - {next})[p := newsize]
      ensures Used(heap) == (old(Used(heap)) - {next})[p := newsize]
      ensures DataKept(old(mem), mem, old(Live()) - {p} - {next})
    {
      hide BinsOk, Settled, Used, DataKept, InsidesKept, SetInuse, Recut1;
      H.JoinChunks(mem, heap, top, topsize, dv, dvsize, ends, segs, binned, Floor(), p, next);
      mem := SetInuse(mem, p, newsize);
      heap := Recut1(heap, p, p + newsize, true);
      BinsFrame(old(mem), mem, smallmap, treemap, rings, trees, binned, Floor());
    }

    /** One turn of `internal_bulk_free`: the chunk that entry `i` names is disposed of, or fused with its neighbour
        where the next entry names that. */
    method FreeEntry(a: array<int>, i: nat)
      requires Valid() && i < a.Length && NamedOnce(a[i..])
      requires forall p :: p in Pending(a[i..]) ==> p in Live()
      modifies `mem, `smallmap, `treemap, `rings, `trees, `binned, `heap, `top, `topsize, `ends, `dv, `dvsize, a
      ensures Valid() && a[i] == 0 && (forall j :: 0 <= j < i ==> a[j] == old(a[j]))
      ensures NamedOnce(a[i + 1..]) && forall p :: p in Pending(a[i + 1..]) ==> p in Live()
      ensures Live() - Pending(a[i + 1..]) == old(Live()) - old(Pending(a[i..]))
      ensures Used(heap) - Pending(a[i + 1..]) == old(Used(heap)) - old(Pending(a[i..]))
      ensures Merges(old(State()), State())
      ensures DataKept(old(mem), mem, Live() - Pending(a[i + 1..]))
    {
      hide BinsOk, Settled, Used, DataKept, ChunkSize, Cinuse, InsidesKept, SetInuse, Recut1, HeadsOk, Laid,
        Segmented, Pinuse, Pending, NamedOnce;
      ghost var s, u, w, todo := a[..], Live(), Used(heap), Pending(a[i..]);
      assert s[i..] == a[i..] && s[i + 1..] == a[i + 1..];
      PendingStep(s, i);
      DataSame(mem, u - todo);
      if a[i] != 0 {
        var p := a[i] - MEM_OFFSET;
        assert p in todo;
        UsedLive(heap, ends, p);
        H.ChunkFacts(mem, heap, top, topsize, dv, dvsize, ends, segs, binned, Floor(), {}, p);
        var psize := ChunkSize(mem, p);
        a[i] := 0;
        if leastAddr <= p && Cinuse(mem, p) {
          var next := p + psize;
          if i + 1 < a.Length && a[i + 1] == next + MEM_OFFSET {
            NextNotNull(mem, heap, top, topsize, dv, dvsize, ends, segs, binned, Floor(), {}, p);
            PendingStep(s, i + 1);
            assert next in todo;
            UsedLive(heap, ends, next);
            H.ChunkFacts(mem, heap, top, topsize, dv, dvsize, ends, segs, binned, Floor(), {}, next);
            var newsize := ChunkSize(mem, next) + psize;
            FuseInUse(p, next, newsize);
            a[i + 1] := p + MEM_OFFSET;
            assert a[..][i + 2..] == s[i + 2..] && a[..][i + 1..] == a[i + 1..];
            PendingFused(s, i, a[..]);
            FusedRest(u, p, next, newsize, todo, Pending(a[i + 1..]));
            FusedRest(w, p, next, newsize, todo, Pending(a[i + 1..]));
            DataShorter(old(mem), mem, u - {p} - {next}, u - todo);
          } else {
            assert a[i + 1..] == s[i + 1..];
            var intoTop := DisposeChunk(p, psize);
            assert u - {p} - Pending(a[i + 1..]) == u - todo;
            assert w - {p} - Pending(a[i + 1..]) == w - todo;
            DataShorter(old(mem), mem, Live(), u - todo);
          }
        } else {
          assert false;
        }
      }
    }

    /** The loop of `internal_bulk_free`: neighbours that follow each other in the array are fused before they are
        disposed of. */
    method FreeAll(a: array<int>)
      requires Valid() && NamedOnce(a[..]) && forall p :: p in Pending(a[..]) ==> p in Live()
      modifies `mem, `smallmap, `treemap, `rings, `trees, `binned, `heap, `top, `topsize, `ends, `dv, `dvsize, a
      ensures Valid() && Live() == old(Live()) - old(Pending(a[..]))
      ensures Used(heap) == old(Used(heap)) - old(Pending(a[..])) && Merges(old(State()), State())
      ensures forall i :: 0 <= i < a.Length ==> a[i] == 0
      ensures DataKept(old(mem), mem, Live())
    {
      hide BinsOk, Settled, Used, DataKept, Pending, NamedOnce;
      ghost var rest, used := Live() - Pending(a[..]), Used(heap) - Pending(a[..]);
      DataSame(mem, rest);
      var i := 0;
      assert a[0..] == a[..];
      while i < a.Length
        invariant 0 <= i <= a.Length && Valid()
        invariant NamedOnce(a[i..]) && forall p :: p in Pending(a[i..]) ==> p in Live()
        invariant Live() - Pending(a[i..]) == rest && Used(heap) - Pending(a[i..]) == used
        invariant forall j :: 0 <= j < i ==> a[j] == 0
        invariant DataKept(old(mem), mem, rest) && Merges(old(State()), State())
      {
        ghost var m, s := mem, State();
        FreeEntry(a, i);
        MergesOn(old(State()), s, State());
        DataKeptTrans(old(mem), m, mem, rest, rest);
        i := i + 1;
      }
      PendingNone(a[i..]);
      assert Live() - {} == Live() && Used(heap) - {} == Used(heap);
    }

    /** `internal_bulk_free`. */
    method BulkFree(a: array<int>, env: Release) returns (unfreed: int)
      requires Valid() && NamedOnce(a[..]) && forall p :: p in Pending(a[..]) ==> p in Live()
      modifies `mem, `smallmap, `treemap, `rings, `trees, `binned, `heap, `top, `topsize, `ends, `dv, `dvsize,
               `trimCheck, `segs, `footprint, a
      ensures Valid() && unfreed == 0 && Live() == old(Live()) - old(Pending(a[..])) && footprint <= old(footprint)
      ensures Freed(old(State()), State(), env, true)
      ensures forall i :: 0 <= i < a.Length ==> a[i] == 0
      ensures DataKept(old(mem), mem, Live())
    {
      hide BinsOk, Settled, Used, DataKept, Pending, NamedOnce, GivesBack, Freed, Merges;
      unfreed := 0;
      FreeAll(a);
      ghost var m, s := mem, State();
      TrimIf(true, env);
      DataKeptTrans(old(mem), m, mem, Live(), Live());
      FreedThen(old(State()), s, State(), env, true);
    }

    /** Freeing the blocks that an array names one at a time, by the part of `dlfree` before its trim. */
    method FreeEach(s: seq<int>)
      requires Valid() && NamedOnce(s) && forall p :: p in Pending(s) ==> p in Live()
      modifies `mem, `smallmap, `treemap, `rings, `trees, `binned, `heap, `top, `topsize, `ends, `dv, `dvsize
      ensures Valid() && Used(heap) == old(Used(heap)) - Pending(s)
    {
      hide BinsOk, Settled, Used, DataKept, Pending, NamedOnce, ChunkSize;
      ghost var used := Used(heap) - Pending(s);
      var i := 0;
      assert s[0..] == s;
      while i < |s|
        invariant 0 <= i <= |s| && Valid() && NamedOnce(s[i..])
        invariant forall p :: p in Pending(s[i..]) ==> p in Live()
        invariant Used(heap) - Pending(s[i..]) == used
      {
        PendingStep(s, i);
        if s[i] != 0 {
          ghost var w := Used(heap);
          var p := s[i] - MEM_OFFSET;
          assert p in Pending(s[i..]);
          UsedLive(heap, ends, p);
          H.ChunkFacts(mem, heap, top, topsize, dv, dvsize, ends, segs, binned, Floor(), {}, p);
          var intoTop := DisposeChunk(p, ChunkSize(mem, p));
          assert w - {p} - Pending(s[i + 1..]) == w - Pending(s[i..]);
        }
        i := i + 1;
      }
      PendingNone(s[i..]);
      assert Used(heap) - {} == Used(heap);
    }
  }

  /** Two heaps over the same segments and with the same chunks in use are tiled alike. */
  lemma SameTiling(s: MallocState, t: MallocState)
    requires s.Valid() && t.Valid() && s.segs == t.segs && s.Floor() == t.Floor() && Used(s.heap) == Used(t.heap)
    ensures s.heap == t.heap
  {
    hide Settled, Used, BinsOk;
    SettledIsUnique(s.mem, s.heap, s.top, s.topsize, s.dv, s.dvsize, s.ends, s.binned, s.Floor(),
                    t.mem, t.heap, t.top, t.topsize, t.dv, t.dvsize, t.ends, t.binned, t.Floor(), s.segs);
  }

  /** Freeing an array of blocks in bulk leaves the same heap as freeing them one at a time: the same chunks in use, and
      the same free chunks between them. */
  method BulkAsEach(s: MallocState, t: MallocState, a: array<int>)
    requires s != t && s.Valid() && t.Valid() && s.segs == t.segs && s.leastAddr == t.leastAddr && s.heap == t.heap
    requires NamedOnce(a[..]) && forall p :: p in Pending(a[..]) ==> p in s.Live() && p in t.Live()
    modifies s, t, a
    ensures s.Valid() && t.Valid() && s.heap == t.heap
    ensures Used(s.heap) == old(Used(s.heap)) - old(Pending(a[..]))
  {
    hide Settled, Used, BinsOk, Pending, NamedOnce, DataKept;
    t.FreeEach(a[..]);
    s.FreeAll(a);
    SameTiling(s, t);
  }
}
