/** Why the small-bin operations keep the bins well formed. */
module SmallBins {
  import opened Common
  import opened Memory
  import opened Rings
  import opened Tries
  import opened TreeIndex
  import opened BinMaps
  import opened Bins

  /** Stores to the `fd` and `bk` words of the chunks (or headers) in `w` are all that separate `m` from `n`. */
  ghost predicate TouchesRing(m: Mem, n: Mem, w: set<int>) {
    forall a :: (forall p :: p in w ==> a < p + FD || p + CHILD0 <= a) ==> Rd(n, a) == Rd(m, a)
  }

  /** Every bin but small bin `i` is as it was, when only that bin's header and chunks were touched. */
  lemma OtherBinsSmall(m: Mem, n: Mem, sm: bv32, sm': bv32, tm: bv32, rings: seq<seq<int>>, trees: seq<Tree>,
                       b: map<int, int>, b': map<int, int>, least: int, i: BinIndex, ring': seq<int>, w: set<int>)
    requires BinsOk(m, sm, tm, rings, trees, b, least) && Spaced(b', least)
    requires SmallBinOk(n, sm', i, ring', b')
    requires forall j: BinIndex :: j != i ==> Marked(sm', j) == Marked(sm, j)
    requires TouchesRing(m, n, w)
    requires forall p :: p in w ==> p == SmallBinAt(i) || InSmallBin(b, p, i) || InSmallBin(b', p, i)
    requires forall p :: p in b && !InSmallBin(b, p, i) ==> p in b' && b'[p] == b[p]
    requires forall p :: p in b' && !InSmallBin(b', p, i) ==> p in b && b'[p] == b[p]
    requires forall p :: InSmallBin(b, p, i) && p in b' ==> InSmallBin(b', p, i)
    requires forall p :: InSmallBin(b', p, i) && p in b ==> InSmallBin(b, p, i)
    ensures BinsOk(n, sm', tm, rings[i := ring'], trees, b', least)
  {
    assert |rings| == NSMALLBINS;
    hide Marked, ComputeTreeIndex, SmallBinOk, TreeBinOk;
    forall p | p in b && !InSmallBin(b, p, i)
      ensures LinksKept(m, n, p, b[p])
    {
      UntouchedBySmall(m, n, w, p, b, b', least, i);
    }
    var rings' := rings[i := ring'];
    forall j: BinIndex
      ensures SmallBinOk(n, sm', j, rings'[j], b')
    {
      if j != i {
        HeaderUntouched(m, n, w, b, b', least, i, j);
        SmallBinFrame(m, n, sm, sm', j, rings[j], b, b');
      }
    }
    forall j: BinIndex
      ensures TreeBinOk(n, tm, j, trees[j], b')
    {
      HeaderUntouched(m, n, w, b, b', least, i, j);
      TreeBinFrame(m, n, tm, tm, j, trees[j], b, b');
    }
  }

  lemma HeaderUntouched(m: Mem, n: Mem, w: set<int>, b: map<int, int>, b': map<int, int>, least: int, i: BinIndex,
                        j: BinIndex)
    requires TouchesRing(m, n, w)
    requires forall p :: p in w ==> p == SmallBinAt(i) || InSmallBin(b, p, i) || InSmallBin(b', p, i)
    requires Spaced(b, least) && Spaced(b', least)
    ensures j != i ==> Fd(m, SmallBinAt(j)) == Fd(n, SmallBinAt(j)) && Bk(m, SmallBinAt(j)) == Bk(n, SmallBinAt(j))
    ensures Rd(m, TreeBinAt(j)) == Rd(n, TreeBinAt(j))
  {
  }

  lemma UntouchedBySmall(m: Mem, n: Mem, w: set<int>, p: int, b: map<int, int>, b': map<int, int>, least: int,
                         i: BinIndex)
    requires Spaced(b, least) && Spaced(b', least)
    requires TouchesRing(m, n, w)
    requires forall q :: q in w ==> q == SmallBinAt(i) || InSmallBin(b, q, i) || InSmallBin(b', q, i)
    requires p in b && !InSmallBin(b, p, i) && p in b' && b'[p] == b[p]
    ensures LinksKept(m, n, p, b[p])
  {
    forall q | q in w
      ensures p + b[p] <= q || q + 32 <= p
    {
      assert q != p;
    }
  }

  lemma RingTouchesInside(m: Mem, n: Mem, w: set<int>, b: map<int, int>, i: BinIndex)
    requires TouchesRing(m, n, w)
    requires forall p :: p in w ==> p == SmallBinAt(i) || (p in b && b[p] >= MIN_CHUNK_SIZE)
    ensures OnlyInside(m, n, b)
  {
    forall a | HEAP_MIN <= a && (forall p :: p in b ==> a < p + FD || p + b[p] <= a)
      ensures Rd(n, a) == Rd(m, a)
    {
      forall p | p in w
        ensures a < p + FD || p + CHILD0 <= a
      {
      }
    }
  }

  lemma LinkTouches(m: Mem, b: int, f: int, x: int)
    ensures TouchesRing(m, LinkBetween(m, b, f, x), {b, f, x})
  {
    assert b in {b, f, x} && f in {b, f, x} && x in {b, f, x};
  }

  lemma UnlinkTouchesRing(m: Mem, b: int, f: int)
    ensures TouchesRing(m, UnlinkBetween(m, b, f), {b, f})
  {
    assert b in {b, f} && f in {b, f};
  }

  /** `p` alone after its bin's header. */
  lemma FirstRing(m: Mem, h: int, p: int)
    requires h % 16 == 0 && p % 16 == 0 && h != p
    ensures Ring(LinkBetween(m, h, h, p), [h, p])
  {
    var n, c := LinkBetween(m, h, h, p), [h, p];
    assert LinkedAt(n, c, 0) && LinkedAt(n, c, 1);
  }

  /** `insert_small_chunk`: the chunk goes right after the header, whatever stale links an unmarked bin holds. */
  lemma SmallInserted(m: Mem, sm: bv32, tm: bv32, rings: seq<seq<int>>, trees: seq<Tree>, b: map<int, int>, least: int,
                      i: BinIndex, p: int, s: int)
    requires BinsOk(m, sm, tm, rings, trees, b, least) && p !in b && Spaced(b[p := s], least)
    requires s < MIN_LARGE_SIZE && i == s / 8
    ensures Marked(sm, i) ==> least <= Fd(m, SmallBinAt(i))
    ensures var f := if Marked(sm, i) then Fd(m, SmallBinAt(i)) else SmallBinAt(i);
            var n := LinkBetween(m, SmallBinAt(i), f, p);
            var sm' := if Marked(sm, i) then sm else MarkBit(sm, i);
            && BinsOk(n, sm', tm, rings[i := [p] + rings[i]], trees, b[p := s], least)
            && OnlyInside(m, n, b[p := s])
  {
    hide Marked, MarkBit, ComputeTreeIndex, TreeBinOk;
    var h, ring, b' := SmallBinAt(i), rings[i], b[p := s];
    assert SmallBinOk(m, sm, i, ring, b);
    var marked := Marked(sm, i);
    var f := if marked then Fd(m, h) else h;
    var n := LinkBetween(m, h, f, p);
    var sm' := if marked then sm else MarkBit(sm, i);
    var ring' := [p] + ring;
    assert p in b' && b'[p] == s;
    MarkClear(sm, i);
    SmallInsertedRing(m, h, ring, p);
    LinkTouches(m, h, f, p);
    assert f == h || f in ring;
    hide LinkBetween, Ring, TouchesRing;
    assert SmallBinOk(n, sm', i, ring', b') by {
      forall q
        ensures q in ring' <==> InSmallBin(b', q, i)
      {
        assert q in ring' <==> q == p || q in ring;
        assert q != p ==> (InSmallBin(b', q, i) <==> InSmallBin(b, q, i));
      }
    }
    OtherBinsSmall(m, n, sm, sm', tm, rings, trees, b, b', least, i, ring', {h, f, p});
    RingTouchesInside(m, n, {h, f, p}, b', i);
  }

  lemma SmallInsertedRing(m: Mem, h: int, ring: seq<int>, p: int)
    requires |ring| > 0 ==> Ring(m, [h] + ring)
    requires h % 16 == 0 && p % 16 == 0 && h != p && p !in ring
    ensures var f := if |ring| > 0 then Fd(m, h) else h;
            Ring(LinkBetween(m, h, f, p), [h] + ([p] + ring))
    ensures |ring| > 0 ==> Fd(m, h) == ring[0]
  {
    if |ring| > 0 {
      var c := [h] + ring;
      assert LinkedAt(m, c, 0);
      RingInsert(m, c, p);
      assert WithSecond(c, p) == [h] + ([p] + ring);
    } else {
      FirstRing(m, h, p);
      assert [h] + ([p] + ring) == [h, p];
    }
  }

  /** What the links of a chunk in a marked small bin say. */
  lemma SmallNeighbours(m: Mem, h: int, ring: seq<int>, p: int)
    requires Ring(m, [h] + ring) && p in ring
    ensures var k := IndexOf(ring, p);
            && Fd(m, p) == (if k + 1 < |ring| then ring[k + 1] else h)
            && Bk(m, p) == (if k > 0 then ring[k - 1] else h)
            && Bk(m, Fd(m, p)) == p && Fd(m, Bk(m, p)) == p
            && p != Fd(m, p) && p != Bk(m, p)
            && (Fd(m, p) == Bk(m, p) <==> |ring| == 1)
    ensures Fd(m, h) == ring[0]
  {
    var c := [h] + ring;
    var k := IndexOf(ring, p);
    assert c[k + 1] == p;
    assert LinkedAt(m, c, k + 1) && LinkedAt(m, c, k) && LinkedAt(m, c, 0);
    assert LinkedAt(m, c, After(|c|, k + 1));
  }

  /** `unlink_small_chunk` and `unlink_first_small_chunk`. */
  lemma SmallRemoved(m: Mem, sm: bv32, tm: bv32, rings: seq<seq<int>>, trees: seq<Tree>, b: map<int, int>, least: int,
                     i: BinIndex, p: int)
    requires BinsOk(m, sm, tm, rings, trees, b, least) && InSmallBin(b, p, i)
    ensures p in rings[i]
    ensures var ring' := Without(rings[i], IndexOf(rings[i], p));
            var f, h := Fd(m, p), Bk(m, p);
            var n := if f == h then m else UnlinkBetween(m, h, f);
            var sm' := if f == h then ClearBit(sm, i) else sm;
            && BinsOk(n, sm', tm, rings[i := ring'], trees, b - {p}, least)
            && OnlyInside(m, n, b)
  {
    hide Marked, ClearBit, ComputeTreeIndex, TreeBinOk, UnlinkBetween, Ring, Without, TouchesRing, SmallBinOk,
      OnlyInside, Spaced, Fd, Bk;
    InOwnRing(m, sm, tm, rings, trees, b, least, i, p);
    var ring' := Without(rings[i], IndexOf(rings[i], p));
    var f, g := Fd(m, p), Bk(m, p);
    var n := if f == g then m else UnlinkBetween(m, g, f);
    var sm' := if f == g then ClearBit(sm, i) else sm;
    RingWithout(m, sm, i, rings[i], b, p);
    MarkClear(sm, i);
    var w := if f == g then {} else {g, f};
    OtherBinsSmall(m, n, sm, sm', tm, rings, trees, b, b - {p}, least, i, ring', w);
    RingTouchesInside(m, n, w, b, i);
  }

  lemma InOwnRing(m: Mem, sm: bv32, tm: bv32, rings: seq<seq<int>>, trees: seq<Tree>, b: map<int, int>, least: int,
                  i: BinIndex, p: int)
    requires BinsOk(m, sm, tm, rings, trees, b, least) && InSmallBin(b, p, i)
    ensures SmallBinOk(m, sm, i, rings[i], b) && p in rings[i] && Spaced(b - {p}, least)
    ensures forall q :: q in b ==> b[q] >= MIN_CHUNK_SIZE
  {
    hide Marked, ComputeTreeIndex, TreeBinOk;
  }

  /** The bin of the chunk that is unlinked. */
  lemma RingWithout(m: Mem, sm: bv32, i: BinIndex, ring: seq<int>, b: map<int, int>, p: int)
    requires SmallBinOk(m, sm, i, ring, b) && p in ring
    ensures var ring', f, g := Without(ring, IndexOf(ring, p)), Fd(m, p), Bk(m, p);
            var n := if f == g then m else UnlinkBetween(m, g, f);
            var sm' := if f == g then ClearBit(sm, i) else sm;
            && SmallBinOk(n, sm', i, ring', b - {p})
            && TouchesRing(m, n, if f == g then {} else {g, f})
            && (f == SmallBinAt(i) || InSmallBin(b, f, i)) && (g == SmallBinAt(i) || InSmallBin(b, g, i))
  {
    hide Marked, ClearBit, ComputeTreeIndex;
    var h, b' := SmallBinAt(i), b - {p};
    var k := IndexOf(ring, p);
    var ring' := Without(ring, k);
    var f, g := Fd(m, p), Bk(m, p);
    SmallNeighbours(m, h, ring, p);
    MarkClear(sm, i);
    RingElements(m, h, ring, k);
    NoTouch(m);
    if f != g {
      SmallRemovedRing(m, h, ring, k);
      UnlinkTouchesRing(m, g, f);
    }
    hide UnlinkBetween, Ring, Without, TouchesRing;
    forall q
      ensures q in ring' <==> InSmallBin(b', q, i)
    {
      assert q in ring' <==> q in ring && q != p;
    }
  }

  lemma NoTouch(m: Mem)
    ensures TouchesRing(m, m, {})
  {
  }

  lemma RingElements(m: Mem, h: int, ring: seq<int>, k: nat)
    requires Ring(m, [h] + ring) && k < |ring|
    ensures |Without(ring, k)| == |ring| - 1
    ensures forall q :: q in Without(ring, k) <==> q in ring && q != ring[k]
  {
    var c := [h] + ring;
    assert Distinct(ring) by {
      forall x, y | 0 <= x < y < |ring|
        ensures ring[x] != ring[y]
      {
        assert c[x + 1] == ring[x] && c[y + 1] == ring[y];
      }
    }
    WithoutContents(ring, k);
    forall q
      ensures q in Without(ring, k) <==> q in ring && q != ring[k]
    {
      assert q in Elems(Without(ring, k)) <==> q in Elems(ring) - {ring[k]};
    }
  }

  lemma SmallRemovedRing(m: Mem, h: int, ring: seq<int>, k: nat)
    requires Ring(m, [h] + ring) && k < |ring| && |ring| > 1
    ensures Ring(UnlinkBetween(m, Bk(m, ring[k]), Fd(m, ring[k])), [h] + Without(ring, k))
  {
    var c := [h] + ring;
    assert c[k + 1] == ring[k];
    RingRemove(m, c, k + 1);
    assert Without(c, k + 1) == [h] + Without(ring, k);
  }

  lemma WithoutFirst(ring: seq<int>)
    ensures ring != [] ==> Without(ring, IndexOf(ring, ring[0])) == ring[1..]
  {
  }

  /** The integrity checks of an unlink hold. */
  lemma SmallChecks(m: Mem, sm: bv32, tm: bv32, rings: seq<seq<int>>, trees: seq<Tree>, b: map<int, int>, least: int,
                    i: BinIndex, p: int)
    requires BinsOk(m, sm, tm, rings, trees, b, least) && InSmallBin(b, p, i)
    ensures Fd(m, p) == SmallBinAt(i) || (least <= Fd(m, p) && Bk(m, Fd(m, p)) == p)
    ensures Bk(m, p) == SmallBinAt(i) || (least <= Bk(m, p) && Fd(m, Bk(m, p)) == p)
    ensures Bk(m, p) == Fd(m, p) ==> Fd(m, p) == SmallBinAt(i)
  {
    hide Marked, ComputeTreeIndex, TreeBinOk;
    assert SmallBinOk(m, sm, i, rings[i], b);
    assert p in rings[i];
    SmallNeighbours(m, SmallBinAt(i), rings[i], p);
    var f, k := Fd(m, p), Bk(m, p);
    assert f != SmallBinAt(i) ==> InSmallBin(b, f, i);
    assert k != SmallBinAt(i) ==> InSmallBin(b, k, i);
    assert forall q :: InSmallBin(b, q, i) ==> least <= q;
  }

  /** The chunk after the header of a marked bin is a chunk of the bin. */
  lemma SmallFirst(m: Mem, sm: bv32, tm: bv32, rings: seq<seq<int>>, trees: seq<Tree>, b: map<int, int>, least: int,
                   i: BinIndex)
    requires BinsOk(m, sm, tm, rings, trees, b, least) && Marked(sm, i)
    ensures rings[i] != [] && rings[i][0] == Fd(m, SmallBinAt(i))
    ensures InSmallBin(b, Fd(m, SmallBinAt(i)), i) && b[Fd(m, SmallBinAt(i))] == 8 * i
    ensures Bk(m, Fd(m, SmallBinAt(i))) == SmallBinAt(i)
  {
    hide Marked, ComputeTreeIndex, TreeBinOk;
    var ring := rings[i];
    assert SmallBinOk(m, sm, i, ring, b);
    assert ring[0] in ring;
    SmallNeighbours(m, SmallBinAt(i), ring, ring[0]);
    assert Fd(m, SmallBinAt(i)) == ring[0];
    assert InSmallBin(b, ring[0], i);
    var c := [SmallBinAt(i)] + ring;
    assert LinkedAt(m, c, 1);
    assert c[1] == ring[0];
  }

  /** A small bin that holds a chunk is marked. */
  lemma HoldsMarked(m: Mem, sm: bv32, tm: bv32, rings: seq<seq<int>>, trees: seq<Tree>, b: map<int, int>,
                    least: int, q: int)
    requires BinsOk(m, sm, tm, rings, trees, b, least) && q in b && b[q] < MIN_LARGE_SIZE
    ensures 0 <= b[q] / 8 < 32 && Marked(sm, b[q] / 8)
  {
    hide TreeBinOk, Marked;
    var i: BinIndex := b[q] / 8;
    assert SmallBinOk(m, sm, i, rings[i], b);
    assert InSmallBin(b, q, i);
    assert q in rings[i];
  }

  lemma LargeMarked(m: Mem, sm: bv32, tm: bv32, rings: seq<seq<int>>, trees: seq<Tree>, b: map<int, int>,
                    least: int, q: int)
    requires BinsOk(m, sm, tm, rings, trees, b, least) && q in b && b[q] >= MIN_LARGE_SIZE
    ensures exists j: BinIndex :: Marked(tm, j)
  {
    hide SmallBinOk, Marked, ComputeTreeIndex;
    InBinRange(b[q]);
    var j: BinIndex := ComputeTreeIndex(b[q]);
    assert TreeBinOk(m, tm, j, trees[j], b);
    assert InTreeBin(b, q, j);
    assert q in Addrs(trees[j]);
    assert Marked(tm, j);
  }

  /** Where no small bin from that of `nb` on is marked and the tree map is empty, no chunk fits. */
  lemma NothingFits(m: Mem, sm: bv32, tm: bv32, rings: seq<seq<int>>, trees: seq<Tree>, b: map<int, int>, least: int,
                    nb: int, i: BinIndex)
    requires BinsOk(m, sm, tm, rings, trees, b, least) && i == nb / 8
    requires forall j: BinIndex :: i <= j ==> !Marked(sm, j)
    requires tm == 0
    ensures NoneHolds(b, nb)
  {
    ZeroMeansNone(tm);
    hide BinsOk, Marked;
    forall q | q in b
      ensures b[q] < nb
    {
      if b[q] < MIN_LARGE_SIZE {
        HoldsMarked(m, sm, tm, rings, trees, b, least, q);
      } else {
        LargeMarked(m, sm, tm, rings, trees, b, least, q);
        assert false;
      }
    }
  }

  /** Where the tree map is empty, no chunk fits a large request. */
  lemma NothingLarge(m: Mem, sm: bv32, tm: bv32, rings: seq<seq<int>>, trees: seq<Tree>, b: map<int, int>, least: int,
                     nb: int)
    requires BinsOk(m, sm, tm, rings, trees, b, least) && MIN_LARGE_SIZE <= nb && tm == 0
    ensures NoneHolds(b, nb)
  {
    ZeroMeansNone(tm);
    hide BinsOk, Marked;
    forall q | q in b
      ensures b[q] < nb
    {
      if b[q] >= MIN_LARGE_SIZE {
        LargeMarked(m, sm, tm, rings, trees, b, least, q);
        assert false;
      }
    }
  }

  /** A chunk of the lowest marked small bin from that of `nb` on is the least that fits. */
  lemma LowestIsLeast(m: Mem, sm: bv32, tm: bv32, rings: seq<seq<int>>, trees: seq<Tree>, b: map<int, int>, least: int,
                      nb: int, i: BinIndex, p: int)
    requires BinsOk(m, sm, tm, rings, trees, b, least) && p in b && b[p] == 8 * i && nb <= 8 * i
    requires forall j: BinIndex :: nb / 8 <= j < i ==> !Marked(sm, j)
    ensures LeastFit(b, nb, p)
  {
    hide BinsOk, Marked;
    forall q | q in b && nb <= b[q]
      ensures 8 * i <= b[q]
    {
      if b[q] < 8 * i {
        HoldsMarked(m, sm, tm, rings, trees, b, least, q);
      }
    }
  }

  /** Where no small chunk fits, the least fit is a large one. */
  lemma NoneSmall(m: Mem, sm: bv32, tm: bv32, rings: seq<seq<int>>, trees: seq<Tree>, b: map<int, int>, least: int,
                  nb: int, i: BinIndex)
    requires BinsOk(m, sm, tm, rings, trees, b, least) && i == nb / 8
    requires forall j: BinIndex :: i <= j ==> !Marked(sm, j)
    ensures forall q :: q in b && nb <= b[q] ==> MIN_LARGE_SIZE <= b[q]
  {
    hide BinsOk, Marked;
    forall q | q in b && nb <= b[q]
      ensures MIN_LARGE_SIZE <= b[q]
    {
      if b[q] < MIN_LARGE_SIZE {
        HoldsMarked(m, sm, tm, rings, trees, b, least, q);
      }
    }
  }
}
