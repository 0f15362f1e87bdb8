/** Growing and shrinking the heap: memory that comes from the system or goes back to it. */
module Growth {
  import opened Memory
  import opened Tries
  import opened TreeIndex
  import opened BinMaps
  import opened Bins
  import opened Heap
  import opened Segments
  import opened HeapOps
  import opened HeapSteps
  import opened System

  // ---------------------------------------------------------------- a new chunk

  /** `p` of `s` bytes overlaps no chunk, and the chunk that ends at it is `below`, if that is a chunk. */
  ghost predicate Vacant(h: Chunks, p: int, s: int, below: int) {
    && p !in h
    && (forall q {:trigger h[q]} :: q in h ==> q + h[q].size <= p || p + s <= q)
    && (forall q {:trigger Next(h, q)} :: q in h && Next(h, q) == p ==> q == below)
    && (below in h ==> Next(h, below) == p)
  }

  lemma AddedLaid(h: Chunks, top: int, least: int, p: int, s: int, used: bool, top': int, least': int, below: int)
    requires Laid(h, top, least) && Vacant(h, p, s, below)
    requires HEAP_MIN <= least' <= least && least' <= p && p + s < WORD_MAX
    requires p % 16 == 0 && s % 16 == 0 && 0 < s && (p != top' ==> MIN_CHUNK_SIZE <= s)
    requires top' == top || (top' == p && (top in h ==> MIN_CHUNK_SIZE <= h[top].size))
    ensures Laid(h[p := Extent(s, used)], top', least')
  {
  }

  lemma AddedJoined(h: Chunks, ends: set<int>, p: int, s: int, used: bool, below: int)
    requires Joined(h, ends) && Vacant(h, p, s, below) && 0 < s
    ensures Joined(h[p := Extent(s, used)], (ends - {below}) + if p + s in h then {} else {p})
  {
    var h', ends' := h[p := Extent(s, used)], (ends - {below}) + if p + s in h then {} else {p};
    assert Next(h', p) == p + s;
    forall q | q in h && q !in ends'
      ensures Next(h', q) in h'
    {
      assert Next(h', q) == Next(h, q);
    }
    forall q | q in ends'
      ensures q in h' && Next(h', q) !in h'
    {
      if q == p {
        assert p !in ends;
      } else {
        assert q in ends && q != below;
        assert Next(h', q) == Next(h, q);
      }
    }
  }

  lemma AddedCoalesced(h: Chunks, p: int, s: int, used: bool, below: int)
    requires Coalesced(h) && Vacant(h, p, s, below) && 0 < s
    requires below in h && !h[below].used ==> used
    requires !used && p + s in h ==> h[p + s].used
    ensures Coalesced(h[p := Extent(s, used)])
  {
    var h' := h[p := Extent(s, used)];
    assert Next(h', p) == p + s;
    forall q | q in h' && !h'[q].used && Next(h', q) in h'
      ensures h'[Next(h', q)].used
    {
      if q != p {
        var x := Next(h, q);
        assert Next(h', q) == x;
      }
    }
  }

  /** The tags of a new chunk, where those of the old ones are as they were. */
  ghost predicate AddedTags(m: Mem, n: Mem, h: Chunks, p: int, s: int, used: bool, below: int) {
    && (forall q {:trigger Head(n, q)} {:trigger Foot(n, q)} :: q in h ==>
          Head(n, q) == Head(m, q) && Foot(n, q) == Foot(m, q))
    && Head(n, p) == HeadWord(s, used, !(below in h && !h[below].used))
    && (below in h && !h[below].used ==> Foot(n, p) == h[below].size)
    && (p + s in h ==> used && Pinuse(m, p + s))
  }

  lemma AddedTagged(m: Mem, n: Mem, h: Chunks, p: int, s: int, used: bool, below: int)
    requires Tagged(m, h) && Vacant(h, p, s, below) && AddedTags(m, n, h, p, s, used, below) && s % 16 == 0 && 0 < s
    ensures Tagged(n, h[p := Extent(s, used)])
  {
    HeadWordFacts(s, used, !(below in h && !h[below].used));
    hide HeadWord, PinuseBit, CinuseBit;
    var h' := h[p := Extent(s, used)];
    forall q | q in h'
      ensures Head(n, q) == HeadWord(h'[q].size, h'[q].used, Pinuse(n, q))
    {
      if q != p {
        assert Head(n, q) == Head(m, q);
      }
    }
    assert Next(h', p) == p + s;
    forall q | q in h' && Next(h', q) in h'
      ensures Pinuse(n, Next(h', q)) <==> h'[q].used
    {
      if q != p {
        var x := Next(h, q);
        if x == p {
          assert q == below;
        } else {
          assert Head(n, x) == Head(m, x);
        }
      } else {
        assert Head(n, p + s) == Head(m, p + s);
      }
    }
    forall q | q in h' && !Pinuse(n, q)
      ensures FreeBelow(n, h', q)
    {
      if q == p {
        assert q - Foot(n, q) == below;
      } else {
        assert Head(n, q) == Head(m, q);
        assert FreeBelow(m, h, q);
        assert Foot(n, q) == Foot(m, q);
      }
    }
  }

  /** A new chunk keeps the heap well formed. */
  lemma Added(m: Mem, n: Mem, h: Chunks, top: int, ends: set<int>, least: int, p: int, s: int, used: bool, below: int,
              top': int, least': int)
    requires HeapOk(m, h, top, ends, least) && Vacant(h, p, s, below) && AddedTags(m, n, h, p, s, used, below)
    requires HEAP_MIN <= least' <= least && least' <= p && p + s < WORD_MAX
    requires p % 16 == 0 && s % 16 == 0 && 0 < s && (p != top' ==> MIN_CHUNK_SIZE <= s)
    requires top' == top || (top' == p && (top in h ==> MIN_CHUNK_SIZE <= h[top].size))
    requires below in h && !h[below].used ==> used
    ensures HeapOk(n, h[p := Extent(s, used)], top', (ends - {below}) + if p + s in h then {} else {p}, least')
  {
    hide Laid, Joined, Coalesced, Tagged, Vacant;
    AddedLaid(h, top, least, p, s, used, top', least', below);
    AddedJoined(h, ends, p, s, used, below);
    AddedCoalesced(h, p, s, used, below);
    AddedTagged(m, n, h, p, s, used, below);
  }

  // ---------------------------------------------------------------- a chunk with nothing above it changes its size

  lemma Resized(m: Mem, n: Mem, h: Chunks, top: int, ends: set<int>, least: int, p: int, s: int, used: bool)
    requires HeapOk(m, h, top, ends, least) && p in ends && !h[p].used
    requires s % 16 == 0 && 0 < s && p + s < WORD_MAX && (p != top ==> MIN_CHUNK_SIZE <= s)
    requires forall q :: q in h && p < q ==> p + s < q
    requires forall q {:trigger Head(n, q)} {:trigger Foot(n, q)} :: q in h ==>
               (q != p ==> Head(n, q) == Head(m, q)) && Foot(n, q) == Foot(m, q)
    requires Head(n, p) == HeadWord(s, used, true)
    ensures HeapOk(n, h[p := Extent(s, used)], top, ends, least)
  {
    hide HeadWord, PinuseBit, CinuseBit, Laid, Joined, Coalesced, Tagged, Pinuse, Cinuse;
    HeadWordFacts(s, used, true);
    EndIs(h, ends, p);
    TagFacts(m, h, top, ends, least, p);
    ResizedLaid(h, top, ends, least, p, s, used);
    ResizedTagged(m, n, h, p, s, used);
  }

  lemma EndIs(h: Chunks, ends: set<int>, p: int)
    requires Joined(h, ends) && p in ends
    ensures p in h && p + h[p].size !in h
  {
    assert Next(h, p) == p + h[p].size;
  }

  lemma ResizedLaid(h: Chunks, top: int, ends: set<int>, least: int, p: int, s: int, used: bool)
    requires Laid(h, top, least) && Joined(h, ends) && Coalesced(h) && p in ends && p in h && p + h[p].size !in h
    requires s % 16 == 0 && 0 < s && p + s < WORD_MAX && (p != top ==> MIN_CHUNK_SIZE <= s) && !h[p].used
    requires forall q :: q in h && p < q ==> p + s < q
    ensures var h' := h[p := Extent(s, used)]; Laid(h', top, least) && Joined(h', ends) && Coalesced(h')
  {
    var h' := h[p := Extent(s, used)];
    assert Laid(h', top, least);
    assert Next(h', p) == p + s && p + s !in h';
    forall q | q in h && q != p
      ensures Next(h', q) == Next(h, q)
    {
    }
    hide Laid;
  }

  lemma ResizedTagged(m: Mem, n: Mem, h: Chunks, p: int, s: int, used: bool)
    requires Tagged(m, h) && p in h && !h[p].used && Pinuse(m, p) && s % 16 == 0
    requires p + s !in h && p + h[p].size !in h && 0 < s
    requires forall q {:trigger Head(n, q)} {:trigger Foot(n, q)} :: q in h ==>
               (q != p ==> Head(n, q) == Head(m, q)) && Foot(n, q) == Foot(m, q)
    requires Head(n, p) == HeadWord(s, used, true)
    ensures Tagged(n, h[p := Extent(s, used)])
  {
    HeadWordFacts(s, used, true);
    hide HeadWord, PinuseBit, CinuseBit;
    var h' := h[p := Extent(s, used)];
    assert HeadsOk(n, h');
    assert Next(h', p) == p + s && Next(h, p) == p + h[p].size;
    forall q | q in h' && Next(h', q) in h'
      ensures Pinuse(n, Next(h', q)) <==> h'[q].used
    {
      assert q != p;
      var x := Next(h, q);
      assert Next(h', q) == x;
      if x != p {
        assert Head(n, x) == Head(m, x);
      }
    }
    forall q | q in h' && !Pinuse(n, q)
      ensures FreeBelow(n, h', q)
    {
      assert Head(n, q) == Head(m, q);
      assert FreeBelow(m, h, q);
      assert Foot(n, q) == Foot(m, q);
    }
  }

  // ---------------------------------------------------------------- stores outside the chunks

  /** `a` is in no chunk but `x`, nor in the word above one in use. */
  ghost predicate Away(h: Chunks, x: int, a: int) {
    HEAP_MIN <= a && a != x && forall q {:trigger h[q]} :: q in h && q != x ==>
          a < q || q + h[q].size + (if h[q].used then CHUNK_OVERHEAD else 0) <= a
  }

  /** From `m` to `n` only words away from the chunks other than `x`, and the head of `x`, changed. */
  ghost predicate StoresAway(m: Mem, n: Mem, h: Chunks, x: int) {
    forall a :: Rd(n, a) == Rd(m, a) || a == x + HEAD || Away(h, x, a)
  }

  lemma AwayKeeps(m: Mem, n: Mem, h: Chunks, top: int, least: int, b: map<int, int>, x: int)
    requires Laid(h, top, least) && StoresAway(m, n, h, x)
    requires HEAP_MIN <= x && x % 16 == 0 && (x in h ==> !h[x].used) && x !in b
    requires forall q :: q in h && q != x ==> x < q || q + h[q].size <= x
    requires forall q :: q in b ==> q in h && !h[q].used && b[q] == h[q].size
    ensures forall q {:trigger Head(n, q)} {:trigger Foot(n, q)} :: q in h ==>
              (q != x ==> Head(n, q) == Head(m, q)) && Foot(n, q) == Foot(m, q)
    ensures DataKept(m, n, Used(h)) && InsidesKept(m, n, b)
  {
    forall q | q in h
      ensures q != x ==> Head(n, q) == Head(m, q)
      ensures Foot(n, q) == Foot(m, q)
    {
      assert h[q].size >= 16;
    }
    forall q, a | q in Used(h) && q + FD <= a < q + Used(h)[q] + CHUNK_OVERHEAD
      ensures Rd(n, a) == Rd(m, a)
    {
      assert h[q].used && Used(h)[q] == h[q].size && q != x;
      assert !Away(h, x, a);
    }
    forall q, a | q in b && q + FD <= a < q + b[q]
      ensures Rd(n, a) == Rd(m, a)
    {
      assert !h[q].used && a != x + HEAD;
    }
  }

  // ---------------------------------------------------------------- the last chunk of a segment

  lemma EndAbove(h: Chunks, top: int, least: int, ends: set<int>, segs: seq<Segment>, k: int, q: int)
    requires Laid(h, top, least) && Joined(h, ends) && Segmented(h, ends, segs)
    requires 0 <= k < |segs| && q in h && InSeg(segs[k], q, Next(h, q))
    ensures exists e :: e in ends && q <= e && InSeg(segs[k], e, e)
    decreases WORD_MAX - q
  {
    assert h[q].size > 0;
    if q in ends {
      assert InSeg(segs[k], q, q);
    } else {
      var x := Next(h, q);
      assert h[x].size > 0;
      var j := HouseOf(segs, x, Next(h, x));
      assert InSeg(segs[k], x, x) && InSeg(segs[j], x, x);
      SameSegment(segs, j, k, x);
      EndAbove(h, top, least, ends, segs, k, x);
    }
  }

  /** Above the top there is nothing in its segment. */
  lemma AboveTop(h: Chunks, top: int, topsize: int, least: int, ends: set<int>, segs: seq<Segment>, q: int)
    requires Laid(h, top, least) && Joined(h, ends) && Segmented(h, ends, segs) && TopPlaced(top, topsize, segs)
    requires top in ends && h[top].size == topsize && q in h && q != top
    ensures if top < q then exists j :: 0 < j < |segs| && InSeg(segs[j], q, Next(h, q)) && End(segs[0]) <= q
            else q + h[q].size <= top
  {
    assert h[top].size > 0 && h[q].size > 0;
    if top < q {
      var j := HouseOf(segs, q, Next(h, q));
      assert InSeg(segs[0], top, top);
      if j == 0 {
        EndAbove(h, top, least, ends, segs, 0, q);
        assert false;
      } else {
        assert Disjoint(segs[0], segs[j]);
      }
    }
  }

  // ---------------------------------------------------------------- init_top

  /** The stores of `init_top`: the head of the top and that of the fake chunk above it. */
  function InitTopStores(m: Mem, p: int, s: int): Mem {
    SetTopHead(m, p, s)[p + s + HEAD := TOP_FOOT_SIZE]
  }

  /** The top of a settled heap, and what surrounds it. */
  lemma TopSurroundings(m: Mem, h: Chunks, top: int, topsize: int, dv: int, dvsize: int, ends: set<int>,
                        segs: seq<Segment>, b: map<int, int>, least: int, out: set<int>, q: int)
    requires Settled(m, h, top, topsize, dv, dvsize, ends, segs, b, least, out) && top != 0
    ensures top in h && top in ends && !h[top].used && h[top].size == topsize && top % 16 == 0 && topsize % 16 == 0
    ensures HEAP_MIN <= least <= top && 0 < topsize && top !in b && top != dv && |segs| > 0
    ensures First(segs[0]) <= top && top + topsize + TOP_FOOT_SIZE == End(segs[0])
    ensures q in h && q < top ==> q + h[q].size <= top
    ensures q in h && top < q ==>
              End(segs[0]) <= q && exists j :: 0 < j < |segs| && InSeg(segs[j], q, Next(h, q)) && segs[j].base <= q
    ensures top + topsize !in h && End(segs[0]) < USER_MAX
  {
    assert h[top].size > 0 && Next(h, top) == top + topsize;
    hide Tagged, Coalesced;
    if q in h && q != top {
      AboveTop(h, top, topsize, least, ends, segs, q);
    }
  }

  /** What `init_top` makes of the heap when the top grows or shrinks in place. */
  lemma TopResized(m: Mem, h: Chunks, top: int, topsize: int, dv: int, dvsize: int, ends: set<int>,
                   segs: seq<Segment>, b: map<int, int>, least: int, s: int, size: int)
    requires Settled(m, h, top, topsize, dv, dvsize, ends, segs, b, least, {}) && top != 0
    requires s % 16 == 0 && 0 < s && top + s + TOP_FOOT_SIZE == segs[0].base + size < USER_MAX
    requires forall j :: 0 < j < |segs| ==> Disjoint(Segment(segs[0].base, size), segs[j])
    ensures top in h
    ensures var n, h', segs' := InitTopStores(m, top, s), h[top := Extent(s, false)],
        segs[0 := Segment(segs[0].base, size)];
            && Settled(n, h', top, s, dv, dvsize, ends, segs', b, least, {})
            && Used(h') == Used(h) && DataKept(m, n, Used(h)) && InsidesKept(m, n, b)
  {
    var n, h', segs' := InitTopStores(m, top, s), h[top := Extent(s, false)], segs[0 := Segment(segs[0].base, size)];
    hide HeadWord, HeapOk, Segmented, StoresAway, InitTopStores, Used, DataKept, InsidesKept, Roles;
    ResizedApart(m, h, top, topsize, dv, dvsize, ends, segs, b, least, s, size);
    HeapLaid(m, h, top, topsize, dv, dvsize, ends, b, least, {});
    InitTopAwayFrom(m, h, top, least, s);
    FreeOnes(h, top, topsize, dv, dvsize, ends, b, {});
    AwayKeeps(m, n, h, top, least, b, top);
    Resized(m, n, h, top, ends, least, top, s, false);
    ResizedSegments(m, h, top, topsize, dv, dvsize, ends, segs, b, least, s, size);
    ResizedRoles(h, top, topsize, dv, dvsize, ends, b, s);
  }

  /** No chunk lies where the top will. */
  lemma ResizedApart(m: Mem, h: Chunks, top: int, topsize: int, dv: int, dvsize: int, ends: set<int>,
                     segs: seq<Segment>, b: map<int, int>, least: int, s: int, size: int)
    requires Settled(m, h, top, topsize, dv, dvsize, ends, segs, b, least, {}) && top != 0 && segs != []
    requires s % 16 == 0 && 0 < s && top + s + TOP_FOOT_SIZE == segs[0].base + size < USER_MAX
    requires forall j :: 0 < j < |segs| ==> Disjoint(Segment(segs[0].base, size), segs[j])
    ensures top in h && !h[top].used
    ensures forall q :: q in h && q != top ==> if top < q then top + s + TOP_FOOT_SIZE <= q else q + h[q].size <= top
  {
    TopSurroundings(m, h, top, topsize, dv, dvsize, ends, segs, b, least, {}, top);
    hide HeapOk, Segmented, Roles, TopPlaced;
    forall q | q in h && q != top
      ensures if top < q then top + s + TOP_FOOT_SIZE <= q else q + h[q].size <= top
    {
      TopSurroundings(m, h, top, topsize, dv, dvsize, ends, segs, b, least, {}, q);
      if top < q {
        var j :| 0 < j < |segs| && InSeg(segs[j], q, Next(h, q)) && segs[j].base <= q;
        assert Disjoint(Segment(segs[0].base, size), segs[j]);
      }
    }
  }

  lemma InitTopAwayFrom(m: Mem, h: Chunks, top: int, least: int, s: int)
    requires Laid(h, top, least) && top in h && !h[top].used && 0 < s
    requires forall q :: q in h && q != top ==> if top < q then top + s + TOP_FOOT_SIZE <= q else q + h[q].size <= top
    ensures var n := InitTopStores(m, top, s);
            StoresAway(m, n, h, top) && Head(n, top) == HeadWord(s, false, true)
  {
  }

  lemma FreeOnes(h: Chunks, top: int, topsize: int, dv: int, dvsize: int, ends: set<int>, b: map<int, int>,
                 out: set<int>)
    requires Roles(h, top, topsize, dv, dvsize, ends, b, out)
    ensures forall q :: q in b ==> q in h && !h[q].used && b[q] == h[q].size && q != top
  {
  }

  lemma ResizedRoles(h: Chunks, top: int, topsize: int, dv: int, dvsize: int, ends: set<int>, b: map<int, int>, s: int)
    requires Roles(h, top, topsize, dv, dvsize, ends, b, {}) && top != 0 && 0 < s
    ensures Roles(h[top := Extent(s, false)], top, s, dv, dvsize, ends, b, {})
    ensures Used(h[top := Extent(s, false)]) == Used(h)
  {
  }

  lemma ResizedSegments(m: Mem, h: Chunks, top: int, topsize: int, dv: int, dvsize: int, ends: set<int>,
                        segs: seq<Segment>, b: map<int, int>, least: int, s: int, size: int)
    requires Settled(m, h, top, topsize, dv, dvsize, ends, segs, b, least, {}) && top != 0
    requires 0 < s && top + s + TOP_FOOT_SIZE == segs[0].base + size < USER_MAX
    requires forall j :: 0 < j < |segs| ==> Disjoint(Segment(segs[0].base, size), segs[j])
    ensures top in h
    ensures Segmented(h[top := Extent(s, false)], ends, segs[0 := Segment(segs[0].base, size)])
  {
    var h', segs' := h[top := Extent(s, false)], segs[0 := Segment(segs[0].base, size)];
    hide HeapOk, Roles, First, End, InSeg;
    TopSurroundings(m, h, top, topsize, dv, dvsize, ends, segs, b, least, {}, top);
    forall i | 0 <= i < |segs'|
      ensures First(segs'[i]) in h' && First(segs'[i]) + CHUNK_OVERHEAD <= End(segs'[i]) < USER_MAX
    {
      SameFirst(segs, size, top, s);
    }
    hide Disjoint;
    assert Apart(segs') by {
      DisjointSym(Segment(segs[0].base, size), segs);
    }
    forall q | q in h'
      ensures Housed(segs', q, Next(h', q))
    {
      ResizedHoused(m, h, top, topsize, dv, dvsize, ends, segs, b, least, s, size, q);
    }
    forall i, e, f | 0 <= i < |segs'| && e in ends && f in ends && InSeg(segs'[i], e, e) && InSeg(segs'[i], f, f)
      ensures e == f
    {
      ResizedIn(h, ends, segs, size, i, e);
      ResizedIn(h, ends, segs, size, i, f);
    }
  }

  lemma SameFirst(segs: seq<Segment>, size: int, top: int, s: int)
    requires |segs| > 0 && First(segs[0]) <= top && 0 < s && top + s + TOP_FOOT_SIZE == segs[0].base + size < USER_MAX
    ensures var t := Segment(segs[0].base, size);
            First(t) == First(segs[0]) && First(t) + CHUNK_OVERHEAD <= End(t) < USER_MAX
  {
  }

  lemma DisjointSym(t: Segment, segs: seq<Segment>)
    requires forall j :: 0 < j < |segs| ==> Disjoint(t, segs[j])
    ensures forall j :: 0 < j < |segs| ==> Disjoint(segs[j], t)
  {
  }

  /** A chunk above another lies in a segment with it only if it did before. */
  lemma ResizedIn(h: Chunks, ends: set<int>, segs: seq<Segment>, size: int, i: int, e: int)
    requires Joined(h, ends) && Segmented(h, ends, segs) && 0 <= i < |segs| && e in ends && e in h && h[e].size > 0
    requires Apart(segs[0 := Segment(segs[0].base, size)])
    requires InSeg(segs[0 := Segment(segs[0].base, size)][i], e, e)
    ensures InSeg(segs[i], e, e)
  {
    var segs' := segs[0 := Segment(segs[0].base, size)];
    var j := HouseOf(segs, e, Next(h, e));
    assert InSeg(segs[j], e, e);
    if j != 0 {
      assert segs'[j] == segs[j];
      SameSegment(segs', i, j, e);
    }
  }

  lemma ResizedHoused(m: Mem, h: Chunks, top: int, topsize: int, dv: int, dvsize: int, ends: set<int>,
                      segs: seq<Segment>, b: map<int, int>, least: int, s: int, size: int, q: int)
    requires Settled(m, h, top, topsize, dv, dvsize, ends, segs, b, least, {}) && top != 0
    requires 0 < s && top + s + TOP_FOOT_SIZE == segs[0].base + size && (q in h || q == top)
    ensures var h', segs' := h[top := Extent(s, false)], segs[0 := Segment(segs[0].base, size)];
            Housed(segs', q, Next(h', q))
  {
    var h', segs' := h[top := Extent(s, false)], segs[0 := Segment(segs[0].base, size)];
    hide HeapOk, Roles;
    TopSurroundings(m, h, top, topsize, dv, dvsize, ends, segs, b, least, {}, q);
    if q == top {
      assert InSeg(segs'[0], q, Next(h', q));
    } else if q < top {
      var j := HouseOf(segs, q, Next(h, q));
      assert InSeg(segs'[j], q, Next(h', q));
    } else {
      var j :| 0 < j < |segs| && InSeg(segs[j], q, Next(h, q)) && segs[j].base <= q;
      assert InSeg(segs'[j], q, Next(h', q));
    }
  }

  // ---------------------------------------------------------------- the first segment

  /** A region from the system that nobody else has, with room for a top. */
  ghost predicate Granted(segs: seq<Segment>, tbase: int, tsize: int) {
    && HEAP_MIN <= tbase && tbase + tsize < USER_MAX && (tbase + tsize) % 16 == 0
    && MIN_CHUNK_SIZE + TOP_FOOT_SIZE < tsize
    && forall i {:trigger segs[i]} :: 0 <= i < |segs| ==> Disjoint(segs[i], Segment(tbase, tsize))
  }

  /** Where `init_top` puts a top in a new segment, and its size. */
  function TopOf(tbase: int): int { AlignAsChunk(tbase) }

  function TopSizeOf(tbase: int, tsize: int): int { tsize - TOP_FOOT_SIZE - (AlignAsChunk(tbase) - tbase) }

  lemma TopOfFacts(segs: seq<Segment>, tbase: int, tsize: int)
    requires Granted(segs, tbase, tsize)
    ensures var p, s := TopOf(tbase), TopSizeOf(tbase, tsize);
            && p % 16 == 0 && s % 16 == 0 && 0 < s && tbase <= p < tbase + 16
            && p == First(Segment(tbase, tsize)) && p + s + TOP_FOOT_SIZE == tbase + tsize
  {
  }

  lemma Initialised(m: Mem, b: map<int, int>, least: int, h: Chunks, dv: int, dvsize: int, ends: set<int>,
                    segs: seq<Segment>, topsize: int, tbase: int, tsize: int)
    requires Settled(m, h, 0, topsize, dv, dvsize, ends, segs, b, least, {}) && Granted([], tbase, tsize)
    ensures h == map[] && dv == 0 && dvsize == 0 && ends == {} && segs == [] && b == map[] && topsize == 0
    ensures var p, s := TopOf(tbase), TopSizeOf(tbase, tsize);
            Settled(InitTopStores(m, p, s), map[p := Extent(s, false)], p, s, 0, 0, {p}, [Segment(tbase, tsize)], map[],
                    tbase, {})
    ensures Used(map[TopOf(tbase) := Extent(TopSizeOf(tbase, tsize), false)]) == Used(h) == map[]
  {
    TopOfFacts([], tbase, tsize);
    var p, s := TopOf(tbase), TopSizeOf(tbase, tsize);
    var n, h', segs' := InitTopStores(m, p, s), map[p := Extent(s, false)], [Segment(tbase, tsize)];
    Nothing(m, h, topsize, dv, dvsize, ends, segs, b, least);
    HeadWordFacts(s, false, true);
    assert Head(n, p) == HeadWord(s, false, true);
    hide HeadWord, PinuseBit, CinuseBit;
    assert Next(h', p) == p + s;
    assert Pinuse(n, p);
    assert HeapOk(n, h', p, {p}, tbase);
    assert InSeg(segs'[0], p, Next(h', p));
    assert Housed(segs', p, Next(h', p));
  }

  lemma Nothing(m: Mem, h: Chunks, topsize: int, dv: int, dvsize: int, ends: set<int>, segs: seq<Segment>,
                b: map<int, int>, least: int)
    requires Settled(m, h, 0, topsize, dv, dvsize, ends, segs, b, least, {})
    ensures h == map[] && dv == 0 && dvsize == 0 && ends == {} && segs == [] && b == map[] && topsize == 0
  {
    hide Tagged, Coalesced, Segmented;
    assert forall p :: p in ends ==> p in h;
    assert forall p :: p in b ==> p in h;
    assert ends == {} && b == map[];
  }

  // ---------------------------------------------------------------- a new segment

  const SEGMENT_CHUNK := 48

  /** Where `add_segment` puts the record of the old segment. */
  function RecordAt(top: int, topsize: int): int { if topsize < MIN_CHUNK_SIZE then top else top + topsize }

  ghost function AfterAdding(h: Chunks, top: int, topsize: int, tbase: int, tsize: int): Chunks {
    h[RecordAt(top, topsize) := Extent(SEGMENT_CHUNK, true)][TopOf(tbase) := Extent(TopSizeOf(tbase, tsize), false)]
  }

  ghost function EndsAfterAdding(ends: set<int>, top: int, topsize: int, tbase: int): set<int> {
    (ends - {top}) + {RecordAt(top, topsize)} + {TopOf(tbase)}
  }

  /** What `add_segment` stores. */
  ghost predicate AddingStores(m: Mem, n: Mem, top: int, topsize: int, tbase: int, tsize: int) {
    var p, s, r := TopOf(tbase), TopSizeOf(tbase, tsize), RecordAt(top, topsize);
    && (forall a :: Rd(n, a) == Rd(m, a) || a == p + HEAD || a == p + s + HEAD || a == top + HEAD
         || top + topsize <= a < top + topsize + TOP_FOOT_SIZE)
    && Head(n, p) == HeadWord(s, false, true)
    && (r == top ==> Head(n, r) == HeadWord(SEGMENT_CHUNK, true, true))
    && (r != top ==> Head(n, r) == HeadWord(SEGMENT_CHUNK, true, false) && Foot(n, r) == topsize
                     && Head(n, top) == HeadWord(topsize, false, true))
  }

  lemma AddingAway(m: Mem, n: Mem, h: Chunks, top: int, topsize: int, dv: int, dvsize: int, ends: set<int>,
                   segs: seq<Segment>, b: map<int, int>, least: int, tbase: int, tsize: int)
    requires Settled(m, h, top, topsize, dv, dvsize, ends, segs, b, least, {}) && top != 0
    requires Granted(segs, tbase, tsize) && AddingStores(m, n, top, topsize, tbase, tsize)
    ensures StoresAway(m, n, h, top)
    ensures Vacant(h, TopOf(tbase), TopSizeOf(tbase, tsize), -1)
  {
    hide HeadWord, Settled, Segmented, HeapOk, Roles, Laid, Joined, Granted, TopOf, TopSizeOf, First, End;
    SettledHeap(m, h, top, topsize, dv, dvsize, ends, segs, b, least, {});
    GrantedAt(segs, tbase, tsize);
    TopOfFacts(segs, tbase, tsize);
    TopSurroundings(m, h, top, topsize, dv, dvsize, ends, segs, b, least, {}, top);
    forall q | q in h
      ensures q + h[q].size + CHUNK_OVERHEAD <= tbase || tbase + tsize <= q
      ensures q != top ==> q + h[q].size <= top || top + topsize + TOP_FOOT_SIZE <= q
      ensures 0 < q && 0 < h[q].size
    {
      TopSurroundings(m, h, top, topsize, dv, dvsize, ends, segs, b, least, {}, q);
      RegionApart(h, segs, tbase, tsize, ends, q);
      BaseAbove(h, top, least, q);
      SizeAbove(h, top, least, q);
    }
  }

  lemma GrantedAt(segs: seq<Segment>, tbase: int, tsize: int)
    requires Granted(segs, tbase, tsize)
    ensures HEAP_MIN <= tbase
  {
  }

  lemma SizeAbove(h: Chunks, top: int, least: int, p: int)
    requires Laid(h, top, least) && p in h
    ensures 0 < h[p].size
  {
  }

  lemma RegionApart(h: Chunks, segs: seq<Segment>, tbase: int, tsize: int, ends: set<int>, q: int)
    requires Granted(segs, tbase, tsize) && Segmented(h, ends, segs) && q in h
    ensures q + h[q].size + CHUNK_OVERHEAD <= tbase || tbase + tsize <= q
  {
    var j := HouseOf(segs, q, Next(h, q));
    assert Disjoint(segs[j], Segment(tbase, tsize));
  }

  /** Everything else in the heap keeps clear of the top and its foot. */
  ghost predicate ClearOfTop(h: Chunks, top: int, topsize: int) {
    forall q :: q in h && q != top ==> if top < q then top + topsize + TOP_FOOT_SIZE <= q else q + h[q].size <= top
  }

  lemma TopIsClear(m: Mem, h: Chunks, top: int, topsize: int, dv: int, dvsize: int, ends: set<int>,
                   segs: seq<Segment>, b: map<int, int>, least: int)
    requires Settled(m, h, top, topsize, dv, dvsize, ends, segs, b, least, {}) && top != 0
    ensures ClearOfTop(h, top, topsize)
  {
    hide Settled;
    forall q | q in h && q != top
      ensures if top < q then top + topsize + TOP_FOOT_SIZE <= q else q + h[q].size <= top
    {
      TopSurroundings(m, h, top, topsize, dv, dvsize, ends, segs, b, least, {}, q);
    }
  }

  /** The old top is closed off by the chunk that holds the record of its segment. */
  lemma TopClosed(m: Mem, n: Mem, h: Chunks, top: int, topsize: int, dv: int, dvsize: int, ends: set<int>,
                  segs: seq<Segment>, b: map<int, int>, least: int, tbase: int, tsize: int)
    requires Settled(m, h, top, topsize, dv, dvsize, ends, segs, b, least, {}) && top != 0
    requires AddingStores(m, n, top, topsize, tbase, tsize)
    requires forall q {:trigger Head(n, q)} {:trigger Foot(n, q)} :: q in h ==>
               (q != top ==> Head(n, q) == Head(m, q)) && Foot(n, q) == Foot(m, q)
    ensures var r := RecordAt(top, topsize);
            HeapOk(n, h[r := Extent(SEGMENT_CHUNK, true)], top, (ends - {top}) + {r}, least)
  {
    hide HeapOk, HeadWord, Settled, AddingStores, Vacant, AddedTags, Foot, ClearOfTop, Segmented, Laid, Joined, Roles;
    var r := RecordAt(top, topsize);
    TopSurroundings(m, h, top, topsize, dv, dvsize, ends, segs, b, least, {}, top);
    TopIsClear(m, h, top, topsize, dv, dvsize, ends, segs, b, least);
    SettledHeap(m, h, top, topsize, dv, dvsize, ends, segs, b, least, {});
    if r == top {
      RecordHead(m, n, top, topsize, tbase, tsize);
      ClearAbove(h, top, topsize);
      Resized(m, n, h, top, ends, least, top, SEGMENT_CHUNK, true);
      assert (ends - {top}) + {r} == ends;
    } else {
      NoneAtRecord(h, top, topsize);
      ClosingTags(m, n, h, top, topsize, dv, dvsize, ends, segs, b, least, tbase, tsize);
      VacantAbove(m, h, top, topsize, ends, least);
      Added(m, n, h, top, ends, least, r, SEGMENT_CHUNK, true, top, top, least);
    }
  }

  lemma RecordHead(m: Mem, n: Mem, top: int, topsize: int, tbase: int, tsize: int)
    requires AddingStores(m, n, top, topsize, tbase, tsize) && RecordAt(top, topsize) == top
    ensures Head(n, top) == HeadWord(SEGMENT_CHUNK, true, true)
  {
    hide TopOf, TopSizeOf, HeadWord;
  }

  lemma ClearAbove(h: Chunks, top: int, topsize: int)
    requires ClearOfTop(h, top, topsize) && 0 < topsize
    ensures forall q :: q in h && top < q ==> top + SEGMENT_CHUNK < q
  {
  }

  lemma NoneAtRecord(h: Chunks, top: int, topsize: int)
    requires ClearOfTop(h, top, topsize) && 0 < topsize
    ensures top + topsize + SEGMENT_CHUNK !in h
  {
  }

  lemma SettledHeap(m: Mem, h: Chunks, top: int, topsize: int, dv: int, dvsize: int, ends: set<int>,
                    segs: seq<Segment>, b: map<int, int>, least: int, out: set<int>)
    requires Settled(m, h, top, topsize, dv, dvsize, ends, segs, b, least, out)
    ensures HeapOk(m, h, top, ends, least) && Roles(h, top, topsize, dv, dvsize, ends, b, out)
            && Segmented(h, ends, segs)
    ensures HEAP_MIN <= least && Laid(h, top, least) && Joined(h, ends)
  {
  }

  lemma ClosingTags(m: Mem, n: Mem, h: Chunks, top: int, topsize: int, dv: int, dvsize: int, ends: set<int>,
                    segs: seq<Segment>, b: map<int, int>, least: int, tbase: int, tsize: int)
    requires Settled(m, h, top, topsize, dv, dvsize, ends, segs, b, least, {}) && top in h
    requires AddingStores(m, n, top, topsize, tbase, tsize) && top != RecordAt(top, topsize)
    requires top + topsize + SEGMENT_CHUNK !in h
    requires forall q {:trigger Head(n, q)} {:trigger Foot(n, q)} :: q in h ==>
               (q != top ==> Head(n, q) == Head(m, q)) && Foot(n, q) == Foot(m, q)
    ensures AddedTags(m, n, h, top + topsize, SEGMENT_CHUNK, true, top)
  {
    hide Settled, Laid, Segmented, Apart, HeadWord, TopOf, TopSizeOf, PinuseBit;
    ChunkFacts(m, h, top, topsize, dv, dvsize, ends, segs, b, least, {}, top);
    assert Head(m, top) == HeadWord(topsize, false, true);
  }

  lemma VacantAbove(m: Mem, h: Chunks, top: int, topsize: int, ends: set<int>, least: int)
    requires HeapOk(m, h, top, ends, least) && top in h && h[top].size == topsize && top + topsize !in h
    requires ClearOfTop(h, top, topsize)
    ensures Vacant(h, top + topsize, SEGMENT_CHUNK, top)
  {
    hide Tagged, Joined, Coalesced;
    assert h[top].size > 0;
    forall q | q in h && Next(h, q) == top + topsize
      ensures q == top
    {
      assert h[q].size > 0;
    }
  }

  /** A segment with a new top beside a closed one. */
  lemma NewTop(n: Mem, h1: Chunks, top: int, ends1: set<int>, least: int, tbase: int, tsize: int, least': int)
    requires HeapOk(n, h1, top, ends1, least)
    requires top in h1 && MIN_CHUNK_SIZE <= h1[top].size
    requires HEAP_MIN <= least' <= least && least' <= tbase && Granted([], tbase, tsize)
    requires Head(n, TopOf(tbase)) == HeadWord(TopSizeOf(tbase, tsize), false, true)
    requires forall q :: q in h1 ==> q + h1[q].size + CHUNK_OVERHEAD <= tbase || tbase + tsize <= q
    ensures var p, s := TopOf(tbase), TopSizeOf(tbase, tsize);
            HeapOk(n, h1[p := Extent(s, false)], p, ends1 + {p}, least')
  {
    TopOfFacts([], tbase, tsize);
    hide HeadWord, TopOf, TopSizeOf, Granted;
    var p, s := TopOf(tbase), TopSizeOf(tbase, tsize);
    assert -1 !in h1 && p !in h1 && p + s !in h1 && Vacant(h1, p, s, -1) && -1 !in ends1 by {
      hide Tagged, Coalesced;
      forall q | q in h1
        ensures q > 0 && q != p && q != p + s && (q + h1[q].size < p || p + s <= q)
      {
        assert h1[q].size > 0;
      }
    }
    assert AddedTags(n, n, h1, p, s, false, -1);
    hide HeapOk, Vacant, AddedTags;
    Added(n, n, h1, top, ends1, least, p, s, false, -1, p, least');
    assert (ends1 - {-1}) + {p} == ends1 + {p};
  }

  lemma AddingHeap(m: Mem, n: Mem, h: Chunks, top: int, topsize: int, dv: int, dvsize: int, ends: set<int>,
                   segs: seq<Segment>, b: map<int, int>, least: int, tbase: int, tsize: int, least': int)
    requires Settled(m, h, top, topsize, dv, dvsize, ends, segs, b, least, {}) && top != 0
    requires Granted(segs, tbase, tsize) && AddingStores(m, n, top, topsize, tbase, tsize)
    requires HEAP_MIN <= least' <= least && least' <= tbase
    ensures HeapOk(n, AfterAdding(h, top, topsize, tbase, tsize), TopOf(tbase),
                   EndsAfterAdding(ends, top, topsize, tbase), least')
    ensures DataKept(m, n, Used(h)) && InsidesKept(m, n, b)
  {
    hide Settled, StoresAway, HeapOk, HeadWord, TopOf, TopSizeOf, Vacant, Segmented, Used, DataKept, InsidesKept,
      Laid, Joined, Roles;
    SettledHeap(m, h, top, topsize, dv, dvsize, ends, segs, b, least, {});
    TopSurroundings(m, h, top, topsize, dv, dvsize, ends, segs, b, least, {}, top);
    AddingAway(m, n, h, top, topsize, dv, dvsize, ends, segs, b, least, tbase, tsize);
    FreeOnes(h, top, topsize, dv, dvsize, ends, b, {});
    AwayKeeps(m, n, h, top, least, b, top);
    TopClosed(m, n, h, top, topsize, dv, dvsize, ends, segs, b, least, tbase, tsize);
    var r := RecordAt(top, topsize);
    var h1 := h[r := Extent(SEGMENT_CHUNK, true)];
    forall q | q in h1
      ensures q + h1[q].size + CHUNK_OVERHEAD <= tbase || tbase + tsize <= q
    {
      if q == r {
        assert Disjoint(segs[0], Segment(tbase, tsize));
      } else {
        RegionApart(h, segs, tbase, tsize, ends, q);
      }
    }
    NewTop(n, h1, top, (ends - {top}) + {r}, least, tbase, tsize, least');
  }

  lemma AddingRoles(h: Chunks, top: int, topsize: int, dv: int, dvsize: int, ends: set<int>, b: map<int, int>,
                    tbase: int, tsize: int)
    requires Roles(h, top, topsize, dv, dvsize, ends, b, {}) && top != 0
    requires TopOf(tbase) !in h && TopOf(tbase) != 0 && TopOf(tbase) != RecordAt(top, topsize)
    requires RecordAt(top, topsize) != top ==> RecordAt(top, topsize) !in h
    ensures Roles(AfterAdding(h, top, topsize, tbase, tsize), TopOf(tbase), TopSizeOf(tbase, tsize), dv, dvsize,
                  EndsAfterAdding(ends, top, topsize, tbase), b, if RecordAt(top, topsize) == top then {} else {top})
    ensures Used(AfterAdding(h, top, topsize, tbase, tsize)) - EndsAfterAdding(ends, top, topsize, tbase)
            == Used(h) - ends
  {
    hide TopOf, TopSizeOf;
    var h', e := AfterAdding(h, top, topsize, tbase, tsize), EndsAfterAdding(ends, top, topsize, tbase);
    var r, p := RecordAt(top, topsize), TopOf(tbase);
    assert forall q :: q in h' <==> q in h || q == r || q == p;
    assert forall q :: q in h && q != r && q != p ==> h'[q] == h[q];
    assert h'[r].used && !h'[p].used;
    assert Used(h') - e == Used(h) - ends by {
      UsedFacts(h);
      UsedFacts(h');
    }
    hide AfterAdding;
  }

  lemma AddingApart(segs: seq<Segment>, t: Segment)
    requires Apart(segs) && forall i {:trigger segs[i]} :: 0 <= i < |segs| ==> Disjoint(segs[i], t)
    ensures Apart([t] + segs)
  {
  }

  /** An old end is in the same segment as before, one place further down the list. */
  lemma AddingIn(h: Chunks, ends: set<int>, segs: seq<Segment>, t: Segment, i: int, e: int)
    requires Segmented(h, ends, segs) && Apart([t] + segs) && 0 <= i < |segs| + 1
    requires e in h && h[e].size > 0 && InSeg(([t] + segs)[i], e, e)
    ensures i > 0 && InSeg(segs[i - 1], e, e)
  {
    var j := HouseOf(segs, e, Next(h, e));
    assert InSeg(segs[j], e, e) && ([t] + segs)[j + 1] == segs[j];
    SameSegment([t] + segs, i, j + 1, e);
  }

  lemma AddingHoused(h: Chunks, ends: set<int>, segs: seq<Segment>, t: Segment, q: int, e: int)
    requires Housed(segs, q, e)
    ensures Housed([t] + segs, q, e)
  {
    var j := HouseOf(segs, q, e);
    assert InSeg(([t] + segs)[j + 1], q, e);
  }

  lemma AddingSegments(m: Mem, h: Chunks, top: int, topsize: int, dv: int, dvsize: int, ends: set<int>,
                       segs: seq<Segment>, b: map<int, int>, least: int, tbase: int, tsize: int)
    requires Settled(m, h, top, topsize, dv, dvsize, ends, segs, b, least, {}) && top != 0
    requires Granted(segs, tbase, tsize)
    ensures Segmented(AfterAdding(h, top, topsize, tbase, tsize), EndsAfterAdding(ends, top, topsize, tbase),
                      [Segment(tbase, tsize)] + segs)
  {
    hide Settled, HeapOk, TopOf, TopSizeOf, First, End, InSeg, Disjoint, Laid, Joined, Roles, EndsApart, Apart;
    var t, r, p := Segment(tbase, tsize), RecordAt(top, topsize), TopOf(tbase);
    var h', ends' := AfterAdding(h, top, topsize, tbase, tsize), EndsAfterAdding(ends, top, topsize, tbase);
    var segs' := [t] + segs;
    SettledHeap(m, h, top, topsize, dv, dvsize, ends, segs, b, least, {});
    TopSurroundings(m, h, top, topsize, dv, dvsize, ends, segs, b, least, {}, top);
    TopOfFacts(segs, tbase, tsize);
    GrantedApart(segs, tbase, tsize);
    AddingApart(segs, t);
    NewEnd(t, tbase, tsize);
    InNew(t, segs[0], r, top, topsize, p, TopSizeOf(tbase, tsize));
    SegmentedBounds(h, ends, segs);
    hide Granted, Segmented;
    forall q | q in h'
      ensures Housed(segs', q, Next(h', q))
    {
      if q == p {
        assert InSeg(segs'[0], q, Next(h', q));
      } else if q == r {
        assert InSeg(segs'[1], q, Next(h', q));
      } else {
        AddingHoused(h, ends, segs, t, q, Next(h, q));
      }
    }
    forall i | 0 <= i < |segs'|
      ensures First(segs'[i]) in h' && First(segs'[i]) + CHUNK_OVERHEAD <= End(segs'[i]) < USER_MAX
    {
      if i > 0 {
        assert segs'[i] == segs[i - 1];
      }
    }
    AddingEnds(h, top, least, ends, segs, t, r, p, topsize);
  }

  lemma NewEnd(t: Segment, tbase: int, tsize: int)
    requires t == Segment(tbase, tsize)
    ensures End(t) == tbase + tsize
  {
  }

  lemma SegmentedBounds(h: Chunks, ends: set<int>, segs: seq<Segment>)
    requires Segmented(h, ends, segs)
    ensures Apart(segs) && EndsApart(ends, segs)
    ensures forall i :: 0 <= i < |segs| ==> First(segs[i]) in h
                                            && First(segs[i]) + CHUNK_OVERHEAD <= End(segs[i]) < USER_MAX
    ensures forall q {:trigger Next(h, q)} :: q in h ==> Housed(segs, q, Next(h, q))
  {
  }

  lemma GrantedApart(segs: seq<Segment>, tbase: int, tsize: int)
    requires Granted(segs, tbase, tsize)
    ensures forall i {:trigger segs[i]} :: 0 <= i < |segs| ==> Disjoint(segs[i], Segment(tbase, tsize))
    ensures End(Segment(tbase, tsize)) < USER_MAX
  {
  }

  lemma InNew(t: Segment, s0: Segment, r: int, top: int, topsize: int, p: int, s: int)
    requires p == First(t) && 0 < s && p + s + TOP_FOOT_SIZE == End(t)
    requires First(s0) <= top && top + topsize + TOP_FOOT_SIZE == End(s0) && r == RecordAt(top, topsize) && 0 < topsize
    ensures InSeg(s0, r, r + SEGMENT_CHUNK) && InSeg(s0, r, r) && InSeg(s0, top, top)
    ensures InSeg(t, p, p + s) && InSeg(t, p, p) && First(t) + CHUNK_OVERHEAD <= End(t)
  {
  }

  lemma AddingEnds(h: Chunks, top: int, least: int, ends: set<int>, segs: seq<Segment>, t: Segment, r: int, p: int,
                   topsize: int)
    requires Laid(h, top, least) && Joined(h, ends) && Segmented(h, ends, segs) && Apart([t] + segs) && |segs| > 0
    requires top in ends && InSeg(segs[0], r, r) && InSeg(segs[0], top, top) && InSeg(t, p, p)
    ensures EndsApart((ends - {top}) + {r} + {p}, [t] + segs)
  {
    hide First, End, InSeg;
    var ends', segs' := (ends - {top}) + {r} + {p}, [t] + segs;
    forall e | e in ends
      ensures e in h && h[e].size > 0
    {
    }
    assert segs'[0] == t && segs'[1] == segs[0];
    forall i, e | 0 <= i < |segs'| && e in ends' && InSeg(segs'[i], e, e)
      ensures if e == p then i == 0 else if e == r then i == 1 else e in ends && i > 1
    {
      if e == p {
        SameSegment(segs', i, 0, e);
      } else if e == r {
        SameSegment(segs', i, 1, e);
      } else {
        AddingIn(h, ends, segs, t, i, e);
        assert i - 1 == 0 ==> e == top;
      }
    }
    hide Apart;
    forall i, e, f | 0 <= i < |segs'| && e in ends' && f in ends' && InSeg(segs'[i], e, e) && InSeg(segs'[i], f, f)
      ensures e == f
    {
      if i > 1 {
        AddingIn(h, ends, segs, t, i, e);
        AddingIn(h, ends, segs, t, i, f);
      }
    }
  }

  /** What `add_segment` makes of the heap, but for the bin of the old top. */
  lemma SegmentAdded(m: Mem, n: Mem, h: Chunks, top: int, topsize: int, dv: int, dvsize: int, ends: set<int>,
                     segs: seq<Segment>, b: map<int, int>, least: int, tbase: int, tsize: int, least': int)
    requires Settled(m, h, top, topsize, dv, dvsize, ends, segs, b, least, {}) && top != 0
    requires Granted(segs, tbase, tsize) && AddingStores(m, n, top, topsize, tbase, tsize)
    requires HEAP_MIN <= least' <= least && least' <= tbase
    ensures var h', ends' := AfterAdding(h, top, topsize, tbase, tsize), EndsAfterAdding(ends, top, topsize, tbase);
            && Settled(n, h', TopOf(tbase), TopSizeOf(tbase, tsize), dv, dvsize, ends',
                       [Segment(tbase, tsize)] + segs, b,
                       least', if topsize < MIN_CHUNK_SIZE then {} else {top})
            && Used(h') - ends' == Used(h) - ends && DataKept(m, n, Used(h)) && InsidesKept(m, n, b)
            && (topsize >= MIN_CHUNK_SIZE ==> IsChunk(h', top, topsize, false))
  {
    hide Settled, HeapOk, TopOf, TopSizeOf, Segmented, Used, DataKept, InsidesKept, Laid, Joined, Roles, Vacant,
      StoresAway, AddingStores, HeadWord;
    SettledHeap(m, h, top, topsize, dv, dvsize, ends, segs, b, least, {});
    TopSurroundings(m, h, top, topsize, dv, dvsize, ends, segs, b, least, {}, top);
    TopOfFacts(segs, tbase, tsize);
    AddingHeap(m, n, h, top, topsize, dv, dvsize, ends, segs, b, least, tbase, tsize, least');
    AddingSegments(m, h, top, topsize, dv, dvsize, ends, segs, b, least, tbase, tsize);
    var p, r := TopOf(tbase), RecordAt(top, topsize);
    NotInRegion(h, segs, tbase, tsize, ends, p);
    assert p != r && p != top by {
      assert Disjoint(segs[0], Segment(tbase, tsize));
    }
    AddingRoles(h, top, topsize, dv, dvsize, ends, b, tbase, tsize);
    assert topsize >= MIN_CHUNK_SIZE ==> IsChunk(AfterAdding(h, top, topsize, tbase, tsize), top, topsize, false);
    assert TopPlaced(p, TopSizeOf(tbase, tsize), [Segment(tbase, tsize)] + segs);
    hide AfterAdding, EndsAfterAdding, Granted, TopPlaced;
    assert Settled(n, AfterAdding(h, top, topsize, tbase, tsize), p, TopSizeOf(tbase, tsize), dv, dvsize,
                   EndsAfterAdding(ends, top, topsize, tbase), [Segment(tbase, tsize)] + segs, b, least',
                   if topsize < MIN_CHUNK_SIZE then {} else {top}) by {
      SettledBy(n, AfterAdding(h, top, topsize, tbase, tsize), p, TopSizeOf(tbase, tsize), dv, dvsize,
                EndsAfterAdding(ends, top, topsize, tbase), [Segment(tbase, tsize)] + segs, b, least',
                if topsize < MIN_CHUNK_SIZE then {} else {top});
    }
  }

  lemma SettledBy(m: Mem, h: Chunks, top: int, topsize: int, dv: int, dvsize: int, ends: set<int>,
                  segs: seq<Segment>, b: map<int, int>, least: int, out: set<int>)
    requires HeapOk(m, h, top, ends, least) && Roles(h, top, topsize, dv, dvsize, ends, b, out)
    requires Segmented(h, ends, segs) && TopPlaced(top, topsize, segs)
    ensures Settled(m, h, top, topsize, dv, dvsize, ends, segs, b, least, out)
  {
  }

  lemma NotInRegion(h: Chunks, segs: seq<Segment>, tbase: int, tsize: int, ends: set<int>, p: int)
    requires Granted(segs, tbase, tsize) && Segmented(h, ends, segs) && tbase <= p < tbase + tsize
    requires p in h ==> 0 < h[p].size
    ensures p !in h
  {
    if p in h {
      RegionApart(h, segs, tbase, tsize, ends, p);
      assert false;
    }
  }

  // ---------------------------------------------------------------- memory below a segment

  lemma NothingBelow(h: Chunks, ends: set<int>, segs: seq<Segment>, k: int, q: int)
    requires Segmented(h, ends, segs) && 0 <= k < |segs| && q in h && 0 < h[q].size
    ensures Next(h, q) != First(segs[k])
  {
    var j := HouseOf(segs, q, Next(h, q));
    assert j == k || Disjoint(segs[j], segs[k]);
  }

  /** No free chunk lies below the first chunk of a segment. */
  lemma FirstPinuse(m: Mem, h: Chunks, top: int, topsize: int, dv: int, dvsize: int, ends: set<int>,
                    segs: seq<Segment>, b: map<int, int>, least: int, out: set<int>, k: int)
    requires Settled(m, h, top, topsize, dv, dvsize, ends, segs, b, least, out) && 0 <= k < |segs|
    ensures First(segs[k]) in h && Pinuse(m, First(segs[k]))
  {
    hide Roles, Coalesced, First, Foot, PinuseBit, HeadsOk;
    var f := First(segs[k]);
    if !Pinuse(m, f) {
      TagFacts(m, h, top, ends, least, f);
      var q := f - Foot(m, f);
      assert h[q].size > 0;
      NothingBelow(h, ends, segs, k, q);
      assert false;
    }
  }

  /** The chunk and the segment that `prepend_alloc` starts from, before the new chunk is split. */
  function PrependedSize(segs: seq<Segment>, k: int, tbase: int): int
    requires 0 <= k < |segs|
  {
    First(segs[k]) - TopOf(tbase)
  }

  lemma PrependBounds(h: Chunks, ends: set<int>, segs: seq<Segment>, tbase: int, tsize: int, k: int)
    requires Segmented(h, ends, segs) && Granted(segs, tbase, tsize) && 0 <= k < |segs| && segs[k].base == tbase + tsize
    ensures var p, s := TopOf(tbase), PrependedSize(segs, k, tbase);
            && p % 16 == 0 && s % 16 == 0 && tsize - 16 < s <= tsize && MIN_CHUNK_SIZE <= s
            && tbase <= p && p + s == First(segs[k]) == tbase + tsize < End(segs[k]) < USER_MAX
            && p == First(Segment(tbase, segs[k].size + tsize))
            && End(Segment(tbase, segs[k].size + tsize)) == End(segs[k])
  {
    FirstKnown(h, ends, segs, k);
    hide Segmented;
    FirstOfSegment(tbase, tsize);
    FirstOfSegment(segs[k].base, segs[k].size);
    var p := TopOf(tbase);
    hide AlignAsChunk, Disjoint;
    Mod16(First(segs[k]), p);
  }

  lemma FirstKnown(h: Chunks, ends: set<int>, segs: seq<Segment>, k: int)
    requires Segmented(h, ends, segs) && 0 <= k < |segs|
    ensures First(segs[k]) + CHUNK_OVERHEAD <= End(segs[k]) < USER_MAX
  {
  }

  lemma FirstOfSegment(a: int, n: int)
    ensures First(Segment(a, n)) == TopOf(a) == AlignAsChunk(a) && AlignAsChunk(a) % 16 == 0
    ensures a <= AlignAsChunk(a) < a + 16 && (a % 16 == 0 ==> AlignAsChunk(a) == a)
  {
  }

  lemma Prepended(m: Mem, h: Chunks, top: int, topsize: int, dv: int, dvsize: int, ends: set<int>,
                  segs: seq<Segment>, b: map<int, int>, least: int, out: set<int>, tbase: int, tsize: int, k: int,
                      least': int)
    requires Settled(m, h, top, topsize, dv, dvsize, ends, segs, b, least, out) && top != 0
    requires Granted(segs, tbase, tsize) && 0 <= k < |segs| && segs[k].base == tbase + tsize
    requires HEAP_MIN <= least' <= least && least' <= tbase
    ensures var p, s := TopOf(tbase), PrependedSize(segs, k, tbase);
            var n, h', segs' := SetInuseChunk(m, p, s), h[p := Extent(s, true)],
                segs[k := Segment(tbase, segs[k].size + tsize)];
            && Settled(n, h', top, topsize, dv, dvsize, ends, segs', b, least', out)
            && p !in Used(h) && p !in ends && Used(h') == Used(h)[p := s]
            && DataKept(m, n, Used(h)) && InsidesKept(m, n, b)
  {
    hide Settled, HeapOk, TopOf, Segmented, Used, DataKept, InsidesKept, Laid, Joined, Roles, Vacant, StoresAway,
      HeadWord, First, End, TopPlaced, AddedTags, PrependedSize, Granted;
    var p, s := TopOf(tbase), PrependedSize(segs, k, tbase);
    var n, h' := SetInuseChunk(m, p, s), h[p := Extent(s, true)];
    SettledHeap(m, h, top, topsize, dv, dvsize, ends, segs, b, least, out);
    PrependBounds(h, ends, segs, tbase, tsize, k);
    FirstPinuse(m, h, top, topsize, dv, dvsize, ends, segs, b, least, out, k);
    PrependVacant(m, h, top, least, ends, segs, tbase, tsize, k);
    FreeOnes(h, top, topsize, dv, dvsize, ends, b, out);
    PrependStores(m, h, p, s);
    AwayKeeps(m, n, h, top, least, b, p);
    assert AddedTags(m, n, h, p, s, true, -1) by {
      PrependTags(m, n, h, p, s);
    }
    NoNull(h, top, least, ends);
    TopSurroundings(m, h, top, topsize, dv, dvsize, ends, segs, b, least, out, top);
    Added(m, n, h, top, ends, least, p, s, true, -1, top, least');
    assert (ends - {-1}) + {} == ends;
    PrependRoles(h, top, topsize, dv, dvsize, ends, b, out, p, s);
    PrependSegments(m, h, top, topsize, dv, dvsize, ends, segs, b, least, out, tbase, tsize, k);
    SettledBy(n, h', top, topsize, dv, dvsize, ends, segs[k := Segment(tbase, segs[k].size + tsize)], b, least', out);
  }

  lemma NoNull(h: Chunks, top: int, least: int, ends: set<int>)
    requires Laid(h, top, least) && Joined(h, ends)
    ensures -1 !in h && -1 !in ends
  {
    forall q | q in h
      ensures q > 0
    {
      assert h[q].size > 0;
    }
  }

  lemma PrependVacant(m: Mem, h: Chunks, top: int, least: int, ends: set<int>, segs: seq<Segment>, tbase: int,
                      tsize: int,
                      k: int)
    requires Laid(h, top, least) && Segmented(h, ends, segs)
    requires Granted(segs, tbase, tsize) && 0 <= k < |segs| && segs[k].base == tbase + tsize
    ensures Vacant(h, TopOf(tbase), PrependedSize(segs, k, tbase), -1)
    ensures forall q :: q in h ==> TopOf(tbase) < q || q + h[q].size <= TopOf(tbase)
  {
    PrependBounds(h, ends, segs, tbase, tsize, k);
    hide TopOf, First, End, PrependedSize, Segmented;
    forall q | q in h
      ensures q > 0 && (q + h[q].size < TopOf(tbase) || TopOf(tbase) + PrependedSize(segs, k, tbase) <= q)
    {
      assert h[q].size > 0;
      RegionApart(h, segs, tbase, tsize, ends, q);
    }
    assert -1 !in h;
  }

  lemma PrependStores(m: Mem, h: Chunks, p: int, s: int)
    ensures StoresAway(m, SetInuseChunk(m, p, s), h, p)
    ensures Head(SetInuseChunk(m, p, s), p) == HeadWord(s, true, true)
  {
  }

  lemma PrependTags(m: Mem, n: Mem, h: Chunks, p: int, s: int)
    requires forall q {:trigger Head(n, q)} {:trigger Foot(n, q)} :: q in h ==>
               (q != p ==> Head(n, q) == Head(m, q)) && Foot(n, q) == Foot(m, q)
    requires p !in h && -1 !in h && p + s in h && Pinuse(m, p + s) && Head(n, p) == HeadWord(s, true, true)
    ensures AddedTags(m, n, h, p, s, true, -1)
  {
  }

  lemma PrependRoles(h: Chunks, top: int, topsize: int, dv: int, dvsize: int, ends: set<int>, b: map<int, int>,
                     out: set<int>, p: int, s: int)
    requires Roles(h, top, topsize, dv, dvsize, ends, b, out) && p !in h && top != 0
    ensures Roles(h[p := Extent(s, true)], top, topsize, dv, dvsize, ends, b, out)
    ensures p !in Used(h) && p !in ends && Used(h[p := Extent(s, true)]) == Used(h)[p := s]
  {
  }

  lemma PrependSegments(m: Mem, h: Chunks, top: int, topsize: int, dv: int, dvsize: int, ends: set<int>,
                        segs: seq<Segment>, b: map<int, int>, least: int, out: set<int>, tbase: int, tsize: int, k: int)
    requires Settled(m, h, top, topsize, dv, dvsize, ends, segs, b, least, out) && top != 0
    requires Granted(segs, tbase, tsize) && 0 <= k < |segs| && segs[k].base == tbase + tsize
    ensures var p, s := TopOf(tbase), PrependedSize(segs, k, tbase);
            var h', segs' := h[p := Extent(s, true)], segs[k := Segment(tbase, segs[k].size + tsize)];
            Segmented(h', ends, segs') && TopPlaced(top, topsize, segs')
  {
    hide Settled, HeapOk, TopOf, Laid, Joined, Roles, PrependedSize, First, End;
    SettledHeap(m, h, top, topsize, dv, dvsize, ends, segs, b, least, out);
    TopSurroundings(m, h, top, topsize, dv, dvsize, ends, segs, b, least, out, top);
    PrependBounds(h, ends, segs, tbase, tsize, k);
    PrependVacant(m, h, top, least, ends, segs, tbase, tsize, k);
    var p, s := TopOf(tbase), PrependedSize(segs, k, tbase);
    var t := Segment(tbase, segs[k].size + tsize);
    var h', segs' := h[p := Extent(s, true)], segs[k := t];
    forall i | 0 <= i < |segs|
      ensures 0 < segs[i].size
    {
      SizePositive(segs[i]);
    }
    PrependApart(segs, tbase, tsize, k);
    hide Granted, Apart;
    forall q | q in h'
      ensures Housed(segs', q, Next(h', q))
    {
      if q == p {
        assert InSeg(segs'[k], q, Next(h', q));
      } else {
        var j := HouseOf(segs, q, Next(h, q));
        assert InSeg(segs'[j], q, Next(h', q));
      }
    }
    forall i, e, f | 0 <= i < |segs'| && e in ends && f in ends && InSeg(segs'[i], e, e) && InSeg(segs'[i], f, f)
      ensures e == f
    {
      PrependIn(h, top, least, ends, segs, t, k, i, e);
      PrependIn(h, top, least, ends, segs, t, k, i, f);
    }
  }

  lemma SizePositive(s: Segment)
    requires First(s) + CHUNK_OVERHEAD <= End(s)
    ensures 0 < s.size
  {
  }

  lemma PrependApart(segs: seq<Segment>, tbase: int, tsize: int, k: int)
    requires Apart(segs) && Granted(segs, tbase, tsize) && 0 <= k < |segs| && segs[k].base == tbase + tsize
    requires forall i :: 0 <= i < |segs| ==> 0 < segs[i].size
    ensures Apart(segs[k := Segment(tbase, segs[k].size + tsize)])
  {
    var segs' := segs[k := Segment(tbase, segs[k].size + tsize)];
    forall i, j | 0 <= i < |segs'| && 0 <= j < |segs'| && i != j
      ensures Disjoint(segs'[i], segs'[j])
    {
      assert Disjoint(segs[i], segs[j]);
      assert Disjoint(segs[i], Segment(tbase, tsize)) && Disjoint(segs[j], Segment(tbase, tsize));
    }
  }

  lemma PrependIn(h: Chunks, top: int, least: int, ends: set<int>, segs: seq<Segment>, t: Segment, k: int, i: int,
                  e: int)
    requires Laid(h, top, least) && Joined(h, ends) && Segmented(h, ends, segs)
    requires 0 <= k < |segs| && First(t) <= First(segs[k]) && End(t) == End(segs[k])
    requires Apart(segs[k := t]) && 0 <= i < |segs| && e in ends && InSeg(segs[k := t][i], e, e)
    ensures InSeg(segs[i], e, e)
  {
    assert e in h && h[e].size > 0;
    var j := HouseOf(segs, e, Next(h, e));
    assert InSeg(segs[j], e, e) && InSeg(segs[k := t][j], e, e);
    SameSegment(segs[k := t], i, j, e);
  }

  /** The new memory below segment `k`, with what is free at the bottom of the segment, up to `end`. */
  lemma PrependPiece(m: Mem, h: Chunks, top: int, topsize: int, dv: int, dvsize: int, ends: set<int>,
                     segs: seq<Segment>, b: map<int, int>, least: int, out: set<int>, tbase: int, tsize: int, k: int,
                     least': int, end: int)
    requires Settled(m, h, top, topsize, dv, dvsize, ends, segs, b, least, out) && top != 0
    requires Granted(segs, tbase, tsize) && 0 <= k < |segs| && segs[k].base == tbase + tsize
    requires HEAP_MIN <= least' <= least && least' <= tbase
    requires var f := First(segs[k]);
             && f in h
             && if h[f].used then end == f && out == {} else end == f + h[f].size && out == if f == top then {} else {f}
    ensures var p, s, f := TopOf(tbase), PrependedSize(segs, k, tbase), First(segs[k]);
            var m1, h1, segs' := SetInuseChunk(m, p, s), h[p := Extent(s, true)],
                segs[k := Segment(tbase, segs[k].size + tsize)];
            && Settled(m1, h1, top, topsize, dv, dvsize, ends, segs', b, least', out)
            && Piece(h1, top, ends, segs', out, p, end, {p})
            && (if f == top then p <= top < end && end !in h1 else end in h1 && h1[end].used)
            && DataKept(m, m1, Used(h)) && InsidesKept(m, m1, b) && Used(h1) == Used(h)[p := s]
            && p % 16 == 0 && p + s == f <= end && p !in Used(h) && p !in ends && 0 < s
  {
    hide Settled, Segmented, TopOf, PrependedSize, First, Used, DataKept, InsidesKept, Laid, Joined, HeapOk, Roles,
      Piece, SetInuseChunk, Granted, HeadsOk, Apart, Pinuse, Cinuse, ChunkSize, Foot;
    var p, s, f := TopOf(tbase), PrependedSize(segs, k, tbase), First(segs[k]);
    var m1, h1 := SetInuseChunk(m, p, s), h[p := Extent(s, true)];
    var segs' := segs[k := Segment(tbase, segs[k].size + tsize)];
    SettledHeap(m, h, top, topsize, dv, dvsize, ends, segs, b, least, out);
    PrependBounds(h, ends, segs, tbase, tsize, k);
    Prepended(m, h, top, topsize, dv, dvsize, ends, segs, b, least, out, tbase, tsize, k, least');
    ChunkFacts(m1, h1, top, topsize, dv, dvsize, ends, segs', b, least', out, p);
    ChunkFacts(m1, h1, top, topsize, dv, dvsize, ends, segs', b, least', out, f);
    ChunkPiece(h1, top, least', ends, segs', p);
    if !h[f].used {
      ChunkPiece(h1, top, least', ends, segs', f);
      var none: set<int> := {};
      JoinPieces(h1, top, ends, segs', none, p, f, {p}, out, end, none);
      assert none + out == out && {p} + none == {p};
    }
  }

  lemma InsidesTrans(m: Mem, n: Mem, o: Mem, b: map<int, int>)
    requires InsidesKept(m, n, b) && InsidesKept(n, o, b)
    ensures InsidesKept(m, o, b)
  {
  }

  /** The memory below segment `k` goes to a chunk of `nb` bytes, and the rest of it, with what is free up to `end`,
      to a free chunk. */
  lemma PrependSplit(m: Mem, n: Mem, h: Chunks, top: int, topsize: int, dv: int, dvsize: int, ends: set<int>,
                     segs: seq<Segment>, b: map<int, int>, least: int, out: set<int>, tbase: int, tsize: int, k: int,
                     least': int, end: int, nb: int, hs: set<int>, fs: set<int>)
    requires Settled(m, h, top, topsize, dv, dvsize, ends, segs, b, least, out) && top != 0
    requires Granted(segs, tbase, tsize) && 0 <= k < |segs| && segs[k].base == tbase + tsize
    requires HEAP_MIN <= least' <= least && least' <= tbase
    requires var f := First(segs[k]);
             && f in h
             && if h[f].used then end == f && out == {} else end == f + h[f].size && out == if f == top then {} else {f}
    requires var p, s := TopOf(tbase), PrependedSize(segs, k, tbase);
             var m1, h1 := SetInuseChunk(m, p, s), h[p := Extent(s, true)];
             && nb % 16 == 0 && MIN_CHUNK_SIZE <= nb && nb + MIN_CHUNK_SIZE <= s
             && TagStores(m1, n, hs, fs) && Tags2(m1, n, h1, p, end, nb, true, false)
             && hs <= {p, p + nb, end} && fs <= {end}
    ensures var p, s := TopOf(tbase), PrependedSize(segs, k, tbase);
            var h1, segs' := h[p := Extent(s, true)], segs[k := Segment(tbase, segs[k].size + tsize)];
            var h', r, ends' := Recut2(h1, p, end, nb, true, false), p + nb, EndsAfter(h1, ends, p, end, p + nb);
            && (if First(segs[k]) == top then Settled(n, h', r, end - r, dv, dvsize, ends', segs', b, least', {})
                else Settled(n, h', top, topsize, dv, dvsize, ends, segs', b, least', {r}) && ends' == ends)
            && IsChunk(h', r, end - r, false)
            && Used(h') == Used(h)[p := nb] && DataKept(m, n, Used(h)) && InsidesKept(m, n, b)
            && p !in ends' && p !in Used(h) && Used(h) - ends' == Used(h) - ends
  {
    hide Settled, Segmented, TopOf, PrependedSize, First, Used, DataKept, InsidesKept, Piece, TagStores, Tags2,
      SetInuseChunk, EndsAfter, Granted, HeadsOk, Recut2, IsChunk;
    var p, s := TopOf(tbase), PrependedSize(segs, k, tbase);
    var m1, h1 := SetInuseChunk(m, p, s), h[p := Extent(s, true)];
    var segs' := segs[k := Segment(tbase, segs[k].size + tsize)];
    PrependPiece(m, h, top, topsize, dv, dvsize, ends, segs, b, least, out, tbase, tsize, k, least', end);
    RestIsChunk(h1, p, end, nb);
    Mod16(p, nb);
    PieceFacts(m1, h1, top, topsize, dv, dvsize, ends, segs', b, least', out, p, end, {p});
    SettledTwo(m1, n, h1, top, topsize, dv, dvsize, ends, segs', b, least', out, p, end, nb, false, hs, fs, {p});
    PieceEnds(m1, h1, top, topsize, dv, dvsize, ends, segs', b, least', out, p, end, {p});
    InsidePiece(m1, h1, top, topsize, dv, dvsize, ends, segs', b, least', out, p, end, p + nb);
    PrependUsed(Used(h), p, s, nb);
    PrependEnds(h1, ends, Used(h), top, p, end, p + nb);
    SameEnds(h1, ends, p, end, p + nb);
    DataKeptTrans(m, m1, n, Used(h), Used(h));
    InsidesTrans(m, m1, n, b);
  }

  lemma RestIsChunk(h: Chunks, base: int, end: int, nb: int)
    requires 0 < nb < end - base
    ensures IsChunk(Recut2(h, base, end, nb, true, false), base + nb, end - (base + nb), false)
  {
  }

  lemma PrependUsed(u: map<int, int>, p: int, s: int, nb: int)
    requires p !in u
    ensures u[p := s] - {p} == u && (u[p := s] - {p})[p := nb] == u[p := nb]
  {
  }

  lemma PrependEnds(h: Chunks, ends: set<int>, u: map<int, int>, top: int, p: int, end: int, r: int)
    requires forall q :: q in ends && p <= q < end ==> q == top
    requires top !in u && r !in u && p !in ends && p != r
    ensures var e := EndsAfter(h, ends, p, end, r); u - e == u - ends && p !in e
  {
  }

  /** The stores of `prepend_alloc` when the rest joins the top. */
  function PrependTopStores(m: Mem, p: int, nb: int, size: int): Mem {
    SetTopHead(SetInuseChunk(m, p, nb), p + nb, size - nb)
  }

  lemma PrependTopTags(m: Mem, h1: Chunks, p: int, s: int, nb: int, end: int)
    requires end !in h1 && 0 < nb < end - p && s % 16 == 0
    ensures var m1, n := SetInuseChunk(m, p, s), PrependTopStores(m, p, nb, end - p);
            TagStores(m1, n, {p, p + nb}, {}) && Tags2(m1, n, h1, p, end, nb, true, false)
  {
    var r := p + nb;
    HeadBits(m, p, s);
    assert p in {p, r} && r in {p, r};
    hide HeadWord, PinuseBit;
  }

  lemma HeadBits(m: Mem, p: int, s: int)
    ensures Head(SetInuseChunk(m, p, s), p) == HeadWord(s, true, true)
    ensures s % 16 == 0 ==> Pinuse(SetInuseChunk(m, p, s), p)
    ensures forall a :: a != p + HEAD ==> Rd(SetInuseChunk(m, p, s), a) == Rd(m, a)
  {
    if s % 16 == 0 {
      HeadWordFacts(s, true, true);
    }
    hide HeadWord, PinuseBit;
  }

  /** When it joins the designated victim. */
  lemma PrependDvTags(m: Mem, h1: Chunks, p: int, s: int, nb: int, end: int)
    requires var m1 := SetInuseChunk(m, p, s);
             HeadsOk(m1, h1) && end in h1 && h1[end].size % 16 == 0 && !Pinuse(m1, end)
    requires p % 16 == 0 && end % 16 == 0 && nb % 16 == 0 && s % 16 == 0 && 0 < nb < s <= end - p
    ensures var m1, n := SetInuseChunk(m, p, s), CarveStores(m, p, nb, end - p);
            TagStores(m1, n, {p, p + nb}, {end}) && Tags2(m1, n, h1, p, end, nb, true, false)
  {
    var r := p + nb;
    HeadBits(m, p, s);
    AboveHead(SetInuseChunk(m, p, s), h1, end);
    assert p in {p, r} && r in {p, r} && end in {end};
    hide HeadWord, PinuseBit, HeadsOk, OrPinuse, ClearPinuse;
  }

  /** When it becomes a free chunk of its own, or swallows one that was unlinked. */
  function PrependFreeStores(m: Mem, p: int, nb: int, size: int): Mem {
    SetFreeWithPinuse(SetInuseChunk(m, p, nb), p + nb, size - nb, p + size)
  }

  lemma PrependFreeTags(m: Mem, h1: Chunks, p: int, s: int, nb: int, end: int)
    requires HeadsOk(SetInuseChunk(m, p, s), h1) && end in h1 && h1[end].size % 16 == 0
    requires p % 16 == 0 && end % 16 == 0 && nb % 16 == 0 && s % 16 == 0 && 0 < nb < s <= end - p
    ensures var m1, n := SetInuseChunk(m, p, s), PrependFreeStores(m, p, nb, end - p);
            TagStores(m1, n, {p, p + nb, end}, {end}) && Tags2(m1, n, h1, p, end, nb, true, false)
  {
    var r := p + nb;
    HeadBits(m, p, s);
    AboveHead(SetInuseChunk(m, p, s), h1, end);
    assert p in {p, r, end} && r in {p, r, end} && end in {p, r, end} && end in {end};
    hide HeadWord, PinuseBit, HeadsOk, OrPinuse, ClearPinuse;
  }

  /** Lowering the least address. */
  lemma SettledLower(m: Mem, h: Chunks, top: int, topsize: int, dv: int, dvsize: int, ends: set<int>,
                     segs: seq<Segment>, b: map<int, int>, least: int, out: set<int>, least': int)
    requires Settled(m, h, top, topsize, dv, dvsize, ends, segs, b, least, out) && HEAP_MIN <= least' <= least
    ensures Settled(m, h, top, topsize, dv, dvsize, ends, segs, b, least', out)
  {
    hide Tagged, Joined, Coalesced, Roles, Segmented, TopPlaced;
  }

  /** Before anything was allocated every store is settled. */
  lemma SettledEmpty(m: Mem, n: Mem, h: Chunks, topsize: int, dv: int, dvsize: int, ends: set<int>, segs: seq<Segment>,
                     b: map<int, int>, least: int, least': int)
    requires Settled(m, h, 0, topsize, dv, dvsize, ends, segs, b, least, {}) && HEAP_MIN <= least'
    ensures Settled(n, h, 0, topsize, dv, dvsize, ends, segs, b, least', {}) && b == map[]
  {
    Nothing(m, h, topsize, dv, dvsize, ends, segs, b, least);
  }

  /** The stores of `add_segment` in the order it makes them, with `f` after the fenceposts. */
  lemma AddingStoresHold(m: Mem, f: Mem, n: Mem, top: int, topsize: int, tbase: int, tsize: int)
    requires 0 < topsize && 0 < TopSizeOf(tbase, tsize) && topsize % 16 == 0
    requires topsize < MIN_CHUNK_SIZE ==> topsize == 16
    requires var p, s, r := TopOf(tbase), TopSizeOf(tbase, tsize), RecordAt(top, topsize);
             && (p + s + TOP_FOOT_SIZE <= top || top + topsize + TOP_FOOT_SIZE <= p)
             && var i := SetInuseChunk(InitTopStores(m, p, s), r, SEGMENT_CHUNK);
                (forall a :: a < r + SEGMENT_CHUNK + CHUNK_OVERHEAD || top + topsize + TOP_FOOT_SIZE <= a ==>
                      Rd(f, a) == Rd(i, a))
    requires n == if RecordAt(top, topsize) == top then f
                  else SetFreeWithPinuse(f, top, topsize, RecordAt(top, topsize))
    ensures AddingStores(m, n, top, topsize, tbase, tsize)
  {
    hide TopOf, TopSizeOf;
    OrClear(SEGMENT_CHUNK, true);
    hide HeadWord, ClearPinuse;
    var p, s, r := TopOf(tbase), TopSizeOf(tbase, tsize), RecordAt(top, topsize);
    var i := SetInuseChunk(InitTopStores(m, p, s), r, SEGMENT_CHUNK);
    assert Head(f, r) == HeadWord(SEGMENT_CHUNK, true, true);
    forall a
      ensures Rd(n, a) == Rd(m, a) || a == p + HEAD || a == p + s + HEAD || a == top + HEAD
           || top + topsize <= a < top + topsize + TOP_FOOT_SIZE
    {
      if !(top + topsize <= a < top + topsize + TOP_FOOT_SIZE) && a != top + HEAD {
        assert Rd(n, a) == Rd(f, a) == Rd(i, a);
      }
    }
    assert p + HEAD != r + HEAD && p + HEAD != p + s + HEAD && p + HEAD != top + HEAD && p + HEAD != top + topsize;
    assert Rd(i, p + HEAD) == HeadWord(s, false, true);
    assert Rd(f, p + HEAD) == Rd(i, p + HEAD);
    assert Head(n, p) == HeadWord(s, false, true);
    if r != top {
      assert Head(n, r) == ClearPinuse(Head(f, r));
    }
  }

  lemma InitTopRootsKept(m: Mem, p: int, s: int, i: BinIndex)
    requires HEAP_MIN <= p && 0 < s
    ensures Rd(InitTopStores(m, p, s), TreeBinAt(i)) == Rd(m, TreeBinAt(i))
  {
  }

  /** The first segment: what `init_bins` and `init_top` make of the untouched state. */
  lemma FirstSegment(m: Mem, n: Mem, h: Chunks, topsize: int, dv: int, dvsize: int, ends: set<int>, segs: seq<Segment>,
                     sm: bv32, tm: bv32, rings: seq<seq<int>>, trees: seq<Tree>, b: map<int, int>, least: int,
                     tbase: int, tsize: int, least': int)
    requires Settled(m, h, 0, topsize, dv, dvsize, ends, segs, b, least, {})
    requires BinsOk(m, sm, tm, rings, trees, b, least)
    requires Granted([], tbase, tsize) && HEAP_MIN <= least' <= tbase
    requires forall i: BinIndex :: Rd(n, TreeBinAt(i)) == Rd(m, TreeBinAt(i))
    ensures h == map[] && dv == 0 && dvsize == 0 && b == map[]
    ensures var p, s := TopOf(tbase), TopSizeOf(tbase, tsize);
            var o, h' := InitTopStores(n, p, s), map[p := Extent(s, false)];
            && Settled(o, h', p, s, 0, 0, {p}, [Segment(tbase, tsize)], map[], least', {})
            && BinsOk(o, sm, tm, rings, trees, map[], least') && p != 0 && Used(h') == Used(h) == map[]
  {
    hide BinsOk, Settled, Used, InitTopStores, Granted, Rd, TopOf, TopSizeOf, First;
    var p, s := TopOf(tbase), TopSizeOf(tbase, tsize);
    Initialised(m, b, least, h, dv, dvsize, ends, segs, topsize, tbase, tsize);
    TopOfFacts([], tbase, tsize);
    SettledEmpty(m, n, h, 0, 0, 0, {}, [], map[], least, tbase);
    Initialised(n, map[], tbase, h, 0, 0, {}, [], 0, tbase, tsize);
    var o := InitTopStores(n, p, s);
    SettledLower(o, map[p := Extent(s, false)], p, s, 0, 0, {p}, [Segment(tbase, tsize)], map[], tbase, {}, least');
    forall i: BinIndex
      ensures Rd(o, TreeBinAt(i)) == Rd(m, TreeBinAt(i))
    {
      InitTopRootsKept(n, p, s, i);
    }
    BinsEmpty(m, o, sm, tm, rings, trees, least, least');
  }

  // ---------------------------------------------------------------- what the system grants

  lemma TotalPositive(segs: seq<Segment>)
    requires forall i :: 0 <= i < |segs| ==> 0 < segs[i].size
    ensures 0 <= Total(segs)
  {
  }

  lemma TopBounds(m: Mem, h: Chunks, top: int, topsize: int, dv: int, dvsize: int, ends: set<int>,
                  segs: seq<Segment>, b: map<int, int>, least: int, out: set<int>)
    requires Settled(m, h, top, topsize, dv, dvsize, ends, segs, b, least, out)
    ensures 0 <= topsize < USER_MAX && (top == 0 <==> topsize == 0) && (top == 0 <==> segs == []) && HEAP_MIN <= least
    ensures forall i :: 0 <= i < |segs| ==> 0 < segs[i].size && End(segs[i]) < USER_MAX
  {
    hide Tagged, Joined, Coalesced;
    if top != 0 {
      assert h[top].size > 0;
    }
    forall i | 0 <= i < |segs|
      ensures 0 < segs[i].size
    {
      SizePositive(segs[i]);
    }
  }

  lemma GrantFirst(env: Morecore, segs: seq<Segment>, top: int, topsize: int, nb: int, tbase: int, tsize: int)
    requires MIN_CHUNK_SIZE <= nb && nb + SYS_ALLOC_PADDING + PAGE_SIZE - 1 < WORD_MAX && 0 <= topsize <= nb
    requires Honest(env, segs, top, topsize, nb) && tbase == env.first != CMFAIL && EndsAligned(segs)
    requires top == 0 ==> env.current != CMFAIL
    requires var t := FirstAsk(nb, top, topsize, env.current);
             || tsize == t
             || (t < nb + SYS_ALLOC_PADDING && tsize == t + MoreAsk(nb, t) && env.more != CMFAIL)
    ensures Granted(segs, tbase, tsize)
  {
    hide FirstAsk, MoreAsk, Asize, Region, Granted;
    var t := FirstAsk(nb, top, topsize, env.current);
    AskFacts(nb, top, topsize, env.current);
    RegionGranted(segs, tbase, tsize) by {
      if top == 0 && env.first == env.current {
        PageAligned(env.current + t);
      }
      if top != 0 && segs != [] && env.first == End(segs[0]) {
        EndAligned(End(segs[0]), t);
      }
      if tsize != t {
        EndAligned(env.first + t, MoreAsk(nb, t));
      }
    }
  }

  lemma RegionGranted(segs: seq<Segment>, a: int, n: int)
    requires Region(segs, a, n) && (a + n) % 16 == 0 && MIN_CHUNK_SIZE + TOP_FOOT_SIZE < n
    ensures Granted(segs, a, n)
  {
  }

  lemma GrantAgain(env: Morecore, segs: seq<Segment>, top: int, topsize: int, nb: int)
    requires MIN_CHUNK_SIZE <= nb && nb + SYS_ALLOC_PADDING + PAGE_SIZE - 1 < WORD_MAX && 0 <= topsize <= nb
    requires Honest(env, segs, top, topsize, nb) && env.again != CMFAIL
    ensures Granted(segs, env.again, Asize(nb))
  {
    hide FirstAsk, MoreAsk, Asize, Region, Granted;
    HonestBreak(env, segs, top, topsize, nb);
    AskFacts(nb, top, topsize, env.current);
    EndAligned(env.again, Asize(nb));
    RegionGranted(segs, env.again, Asize(nb));
  }

  /** Memory that starts where the segment of the top ends can be appended to it. */
  lemma AppendFacts(m: Mem, h: Chunks, top: int, topsize: int, dv: int, dvsize: int, ends: set<int>,
                    segs: seq<Segment>, b: map<int, int>, least: int, tsize: int)
    requires Settled(m, h, top, topsize, dv, dvsize, ends, segs, b, least, {}) && top != 0
    requires |segs| > 0 && Granted(segs, End(segs[0]), tsize)
    ensures (topsize + tsize) % 16 == 0 && 0 < topsize && 0 < tsize && top % 16 == 0
    ensures top + (topsize + tsize) + TOP_FOOT_SIZE == segs[0].base + (segs[0].size + tsize) < USER_MAX
    ensures forall j :: 0 < j < |segs| ==> Disjoint(Segment(segs[0].base, segs[0].size + tsize), segs[j])
  {
    TopBounds(m, h, top, topsize, dv, dvsize, ends, segs, b, least, {});
    TopSurroundings(m, h, top, topsize, dv, dvsize, ends, segs, b, least, {}, top);
    SettledHeap(m, h, top, topsize, dv, dvsize, ends, segs, b, least, {});
    hide Settled, HeapOk, Roles, Laid, Joined, EndsApart, Housed, First;
    forall j | 0 < j < |segs|
      ensures Disjoint(Segment(segs[0].base, segs[0].size + tsize), segs[j])
    {
      assert Disjoint(segs[0], segs[j]) && Disjoint(segs[j], Segment(End(segs[0]), tsize));
    }
  }

  /** What a new chunk below a segment leaves as it was. */
  ghost predicate NewBelow(m: Mem, n: Mem, h: Chunks, h': Chunks, ends: set<int>, ends': set<int>, b: map<int, int>,
                           p: int, nb: int) {
    && Used(h') == Used(h)[p := nb] && DataKept(m, n, Used(h)) && InsidesKept(m, n, b)
    && p !in ends' && p !in Used(h) && Used(h) - ends' == Used(h) - ends
  }

  ghost function PrependedHeap(h: Chunks, p: int, s: int, end: int, nb: int): Chunks {
    Recut2(h[p := Extent(s, true)], p, end, nb, true, false)
  }

  /** `prepend_alloc` where the segment starts with the top. */
  lemma PrependIntoTop(m: Mem, h: Chunks, top: int, topsize: int, dv: int, dvsize: int, ends: set<int>,
                       segs: seq<Segment>, b: map<int, int>, least: int, tbase: int, tsize: int, k: int, nb: int)
    requires Settled(m, h, top, topsize, dv, dvsize, ends, segs, b, least, {}) && top != 0 && HEAP_MIN <= least <= tbase
    requires Granted(segs, tbase, tsize) && 0 <= k < |segs| && segs[k].base == tbase + tsize && First(segs[k]) == top
    requires nb % 16 == 0 && MIN_CHUNK_SIZE <= nb && nb + MIN_CHUNK_SIZE <= PrependedSize(segs, k, tbase)
    ensures var p, s, segs' := TopOf(tbase), PrependedSize(segs, k, tbase),
                              segs[k := Segment(tbase, segs[k].size + tsize)];
            var size := s + topsize;
            var n, h' := PrependTopStores(m, p, nb, size), PrependedHeap(h, p, s, p + size, nb);
            var ends' := EndsAfter(h[p := Extent(s, true)], ends, p, p + size, p + nb);
            && Settled(n, h', p + nb, size - nb, dv, dvsize, ends', segs', b, least, {})
            && NewBelow(m, n, h, h', ends, ends', b, p, nb)
  {
    hide Settled, TopOf, PrependedSize, Used, DataKept, InsidesKept, PrependTopStores, Recut2, EndsAfter, Granted,
      Piece, SetInuseChunk, TagStores, Tags2, IsChunk, Segmented;
    var p, s := TopOf(tbase), PrependedSize(segs, k, tbase);
    var size := s + topsize;
    var end := p + size;
    TopSurroundings(m, h, top, topsize, dv, dvsize, ends, segs, b, least, {}, top);
    SettledSegments(m, h, top, topsize, dv, dvsize, ends, segs, b, least, {});
    PrependBounds(h, ends, segs, tbase, tsize, k);
    PrependPiece(m, h, top, topsize, dv, dvsize, ends, segs, b, least, {}, tbase, tsize, k, least, end);
    PrependTopTags(m, h[p := Extent(s, true)], p, s, nb, end);
    PrependSplit(m, PrependTopStores(m, p, nb, size), h, top, topsize, dv, dvsize, ends, segs, b, least, {}, tbase,
        tsize, k,
                 least, end, nb, {p, p + nb}, {});
    assert end - (p + nb) == size - nb;
  }

  /** Where it starts with the designated victim. */
  lemma PrependIntoDv(m: Mem, h: Chunks, top: int, topsize: int, dv: int, dvsize: int, ends: set<int>,
                      segs: seq<Segment>, b: map<int, int>, least: int, tbase: int, tsize: int, k: int, nb: int)
    requires Settled(m, h, top, topsize, dv, dvsize, ends, segs, b, least, {}) && top != 0 && HEAP_MIN <= least <= tbase
    requires Granted(segs, tbase, tsize) && 0 <= k < |segs| && segs[k].base == tbase + tsize && First(segs[k]) == dv
    requires nb % 16 == 0 && MIN_CHUNK_SIZE <= nb && nb + MIN_CHUNK_SIZE <= PrependedSize(segs, k, tbase)
    ensures var p, s, segs' := TopOf(tbase), PrependedSize(segs, k, tbase),
                              segs[k := Segment(tbase, segs[k].size + tsize)];
            var size := s + dvsize;
            var n, h' := CarveStores(m, p, nb, size), PrependedHeap(h, p, s, p + size, nb);
            && Settled(n, h', top, topsize, p + nb, size - nb, ends, segs', b, least, {})
            && NewBelow(m, n, h, h', ends, ends, b, p, nb)
  {
    hide Settled, TopOf, PrependedSize, Used, DataKept, InsidesKept, CarveStores, Recut2, EndsAfter, Granted, Piece,
      SetInuseChunk, TagStores, Tags2, HeadsOk, Pinuse, Foot, Cinuse, ChunkSize, Laid, Segmented, Apart;
    var p, s := TopOf(tbase), PrependedSize(segs, k, tbase);
    var size := s + dvsize;
    var end, m1, h1 := p + size, SetInuseChunk(m, p, s), h[p := Extent(s, true)];
    var segs' := segs[k := Segment(tbase, segs[k].size + tsize)];
    SettledSegments(m, h, top, topsize, dv, dvsize, ends, segs, b, least, {});
    PrependBounds(h, ends, segs, tbase, tsize, k);
    FirstPinuse(m, h, top, topsize, dv, dvsize, ends, segs, b, least, {}, k);
    ChunkFacts(m, h, top, topsize, dv, dvsize, ends, segs, b, least, {}, dv);
    DvAside(m, h, top, topsize, dv, dvsize, ends, segs, b, least, {});
    assert {} + {dv} == {dv};
    PrependPiece(m, h, top, topsize, 0, 0, ends, segs, b, least, {dv}, tbase, tsize, k, least, end);
    ChunkFacts(m1, h1, top, topsize, 0, 0, ends, segs', b, least, {dv}, dv);
    ChunkFacts(m1, h1, top, topsize, 0, 0, ends, segs', b, least, {dv}, end);
    PrependDvTags(m, h1, p, s, nb, end);
    var n, h' := CarveStores(m, p, nb, size), PrependedHeap(h, p, s, end, nb);
    PrependSplit(m, n, h, top, topsize, 0, 0, ends, segs, b, least, {dv}, tbase, tsize, k, least, end, nb,
                 {p, p + nb}, {end});
    assert end - (p + nb) == size - nb;
    BecomesDv(n, h', top, topsize, ends, segs', b, least, p + nb);
  }

  /** Where it starts with a chunk in use, or with a free chunk that was taken from its bin. */
  lemma PrependIntoNew(m: Mem, h: Chunks, top: int, topsize: int, dv: int, dvsize: int, ends: set<int>,
                       segs: seq<Segment>, b: map<int, int>, least: int, out: set<int>, tbase: int, tsize: int, k: int,
                       end: int, nb: int)
    requires Settled(m, h, top, topsize, dv, dvsize, ends, segs, b, least, out) && top != 0
             && HEAP_MIN <= least <= tbase
    requires Granted(segs, tbase, tsize) && 0 <= k < |segs| && segs[k].base == tbase + tsize
    requires var f := First(segs[k]);
             f in h && f != top && if h[f].used then end == f && out == {} else end == f + h[f].size && out == {f}
    requires nb % 16 == 0 && MIN_CHUNK_SIZE <= nb && nb + MIN_CHUNK_SIZE <= PrependedSize(segs, k, tbase)
    ensures var p, s, segs' := TopOf(tbase), PrependedSize(segs, k, tbase),
                              segs[k := Segment(tbase, segs[k].size + tsize)];
            var size := end - p;
            var n, h' := PrependFreeStores(m, p, nb, size), PrependedHeap(h, p, s, end, nb);
            && Settled(n, h', top, topsize, dv, dvsize, ends, segs', b, least, {p + nb})
            && IsChunk(h', p + nb, size - nb, false)
            && NewBelow(m, n, h, h', ends, ends, b, p, nb)
  {
    hide Settled, TopOf, PrependedSize, Used, DataKept, InsidesKept, PrependFreeStores, Recut2, EndsAfter, Granted,
      Piece, SetInuseChunk, TagStores, Tags2, HeadsOk, Pinuse, Foot, Cinuse, ChunkSize, Laid, Segmented, Apart,
      IsChunk, First;
    var p, s := TopOf(tbase), PrependedSize(segs, k, tbase);
    var m1, h1 := SetInuseChunk(m, p, s), h[p := Extent(s, true)];
    var segs' := segs[k := Segment(tbase, segs[k].size + tsize)];
    SettledSegments(m, h, top, topsize, dv, dvsize, ends, segs, b, least, out);
    PrependBounds(h, ends, segs, tbase, tsize, k);
    PrependPiece(m, h, top, topsize, dv, dvsize, ends, segs, b, least, out, tbase, tsize, k, least, end);
    ChunkFacts(m1, h1, top, topsize, dv, dvsize, ends, segs', b, least, out, end);
    PrependFreeTags(m, h1, p, s, nb, end);
    PrependSplit(m, PrependFreeStores(m, p, nb, end - p), h, top, topsize, dv, dvsize, ends, segs, b, least, out,
                 tbase, tsize, k, least, end, nb, {p, p + nb, end}, {end});
    assert end - (p + nb) == end - p - nb;
  }

  /** Where `add_segment` finds room for the record of the old segment. */
  lemma AddSegmentFacts(m: Mem, h: Chunks, top: int, topsize: int, dv: int, dvsize: int, ends: set<int>,
                        segs: seq<Segment>, b: map<int, int>, least: int, tbase: int, tsize: int)
    requires Settled(m, h, top, topsize, dv, dvsize, ends, segs, b, least, {}) && top != 0
             && Granted(segs, tbase, tsize)
    ensures |segs| > 0 && End(segs[0]) == top + topsize + TOP_FOOT_SIZE && topsize % 16 == 0 && top % 16 == 0
            && 0 < topsize
    ensures AlignAsChunk(End(segs[0]) - (SEGMENT_CHUNK + 32 + 15)) == top + topsize
    ensures topsize < MIN_CHUNK_SIZE ==> topsize == 16
    ensures var p, s := TopOf(tbase), TopSizeOf(tbase, tsize);
            0 < s && (p + s + TOP_FOOT_SIZE <= top || top + topsize + TOP_FOOT_SIZE <= p)
  {
    hide Settled;
    TopSurroundings(m, h, top, topsize, dv, dvsize, ends, segs, b, least, {}, top);
    TopOfFacts(segs, tbase, tsize);
    Mod16(top, topsize);
    assert Disjoint(segs[0], Segment(tbase, tsize));
    RecordAligned(top + topsize);
  }

  lemma RecordAligned(x: int)
    requires x % 16 == 0
    ensures AlignAsChunk(x + TOP_FOOT_SIZE - (SEGMENT_CHUNK + 32 + 15)) == x
  {
    assert (x - 15) % 16 == 1;
  }

  lemma FenceRoom(top: int, topsize: int, csp: int, end: int)
    requires end == top + topsize + TOP_FOOT_SIZE && topsize % 16 == 0 && 0 < topsize && csp == RecordAt(top, topsize)
    ensures (end - (csp + SEGMENT_CHUNK)) % 8 == 0 && csp + SEGMENT_CHUNK + 32 <= end
  {
  }

  lemma NextWord(p: int, a: int, end: int)
    requires (end - p) % 8 == 0 && (end - a) % 8 == 0 && p + 8 <= a < p + 16
    ensures a == p + 8
  {
  }

  /** A sum that did not wrap. */
  lemma FootprintSum(f: int, a: int, limit: int)
    requires 0 <= f && 0 <= a < WORD_MAX && limit < WORD_MAX
    ensures f < (f + a) % WORD_MAX <= limit <==> f + a <= limit && 0 < a
  {
  }

  lemma AlignedNear(a: int)
    ensures a <= AlignAsChunk(a) < a + 16
  {
  }

  /** The top can give back whole pages. */
  lemma TrimFacts(m: Mem, h: Chunks, top: int, topsize: int, dv: int, dvsize: int, ends: set<int>,
                  segs: seq<Segment>, b: map<int, int>, least: int, e: int)
    requires Settled(m, h, top, topsize, dv, dvsize, ends, segs, b, least, {}) && top != 0
    requires 0 <= e < topsize && e % 16 == 0
    ensures |segs| > 0 && (topsize - e) % 16 == 0
    ensures top + (topsize - e) + TOP_FOOT_SIZE == segs[0].base + (segs[0].size - e) < USER_MAX
    ensures forall j :: 0 < j < |segs| ==> Disjoint(Segment(segs[0].base, segs[0].size - e), segs[j])
  {
    TopSurroundings(m, h, top, topsize, dv, dvsize, ends, segs, b, least, {}, top);
    SettledHeap(m, h, top, topsize, dv, dvsize, ends, segs, b, least, {});
    Mod16(topsize, e);
    hide Settled, HeapOk, Roles, Laid, Joined, EndsApart, Housed, First;
    forall j | 0 < j < |segs|
      ensures Disjoint(Segment(segs[0].base, segs[0].size - e), segs[j])
    {
      assert Disjoint(segs[0], segs[j]);
    }
  }

  /** What giving back the last `e` bytes of the top makes of the heap. */
  lemma TopShrunk(m: Mem, h: Chunks, top: int, topsize: int, dv: int, dvsize: int, ends: set<int>,
                  segs: seq<Segment>, b: map<int, int>, least: int, e: int)
    requires Settled(m, h, top, topsize, dv, dvsize, ends, segs, b, least, {}) && top != 0
    requires 0 < e < topsize && e % 16 == 0
    ensures top in h && |segs| > 0 && AlignAsChunk(top) == top
    ensures var n, h', segs' := InitTopStores(m, top, topsize - e), h[top := Extent(topsize - e, false)],
        segs[0 := Segment(segs[0].base, segs[0].size - e)];
            && Settled(n, h', top, topsize - e, dv, dvsize, ends, segs', b, least, {})
            && Used(h') == Used(h) && DataKept(m, n, Used(h)) && InsidesKept(m, n, b)
            && Total(segs') == Total(segs) - e && (EndsAligned(segs) ==> EndsAligned(segs'))
  {
    hide Settled, Used, InitTopStores, DataKept, InsidesKept, Total, AlignAsChunk, EndsAligned, Disjoint, First;
    TopSurroundings(m, h, top, topsize, dv, dvsize, ends, segs, b, least, {}, top);
    TrimFacts(m, h, top, topsize, dv, dvsize, ends, segs, b, least, e);
    AlignedStays(top);
    TopResized(m, h, top, topsize, dv, dvsize, ends, segs, b, least, topsize - e, segs[0].size - e);
    TotalUpdate(segs, 0, Segment(segs[0].base, segs[0].size - e));
    EndLowered(segs, e);
  }

  lemma AlignedStays(p: int)
    requires p % 16 == 0
    ensures AlignAsChunk(p) == p
  {
  }

  lemma EndLowered(segs: seq<Segment>, e: int)
    requires segs != [] && e % 16 == 0
    ensures EndsAligned(segs) ==> EndsAligned(segs[0 := Segment(segs[0].base, segs[0].size - e)])
  {
    if EndsAligned(segs) {
      Mod16(End(segs[0]), e);
    }
  }

  lemma NullNotLive(m: Mem, h: Chunks, top: int, topsize: int, dv: int, dvsize: int, ends: set<int>,
                    segs: seq<Segment>, b: map<int, int>, least: int, out: set<int>)
    requires Settled(m, h, top, topsize, dv, dvsize, ends, segs, b, least, out)
    ensures forall p :: p in Used(h) - ends ==> 0 < p
    ensures Used(h) - ends - {-16} == Used(h) - ends
  {
    hide Tagged, Joined, Coalesced, Roles, Segmented, TopPlaced;
    forall p | p in Used(h) - ends
      ensures 0 < p
    {
      UsedLive(h, ends, p);
      assert h[p].size > 0;
    }
  }

  /** Two chunks handed out lie apart. */
  lemma LiveApart(m: Mem, h: Chunks, top: int, topsize: int, dv: int, dvsize: int, ends: set<int>,
                  segs: seq<Segment>, b: map<int, int>, least: int, out: set<int>, p: int, q: int)
    requires Settled(m, h, top, topsize, dv, dvsize, ends, segs, b, least, out)
    requires p in Used(h) - ends && q in Used(h) - ends && p != q
    ensures var u := Used(h) - ends;
            && (p + u[p] <= q || q + u[q] <= p)
            && p % 16 == 0 && q % 16 == 0 && u[p] % 16 == 0 && u[q] % 16 == 0 && MIN_CHUNK_SIZE <= u[p]
                && MIN_CHUNK_SIZE <= u[q]
  {
    hide Segmented, TopPlaced, Tagged, Joined, Coalesced;
    UsedLive(h, ends, p);
    UsedLive(h, ends, q);
    hide Used;
    assert h[p].size > 0 && h[q].size > 0;
  }

  lemma LiveAligned(m: Mem, h: Chunks, top: int, topsize: int, dv: int, dvsize: int, ends: set<int>,
                    segs: seq<Segment>, b: map<int, int>, least: int, out: set<int>, p: int)
    requires Settled(m, h, top, topsize, dv, dvsize, ends, segs, b, least, out) && p in Used(h) - ends
    ensures p % 16 == 0 && HEAP_MIN <= p
    ensures var s := (Used(h) - ends)[p]; s % 16 == 0 && MIN_CHUNK_SIZE <= s && p + s < WORD_MAX
  {
    hide Segmented, TopPlaced, Tagged, Joined, Coalesced;
    UsedLive(h, ends, p);
  }

  lemma NextNotNull(m: Mem, h: Chunks, top: int, topsize: int, dv: int, dvsize: int, ends: set<int>,
                    segs: seq<Segment>, b: map<int, int>, least: int, out: set<int>, p: int)
    requires Settled(m, h, top, topsize, dv, dvsize, ends, segs, b, least, out) && p in Used(h) - ends
    ensures 0 < p && 0 < p + (Used(h) - ends)[p]
  {
    UsedLive(h, ends, p);
    hide Used, Settled, Laid, HeadsOk, Segmented, Pinuse, Cinuse, Foot, ChunkSize;
    ChunkFacts(m, h, top, topsize, dv, dvsize, ends, segs, b, least, out, p);
  }

  /** The untouched state: empty bins and no chunks. */
  lemma NothingStored(rings: seq<seq<int>>, trees: seq<Tree>)
    requires |rings| == NSMALLBINS && forall i :: 0 <= i < NSMALLBINS ==> rings[i] == []
    requires |trees| == NTREEBINS && forall i :: 0 <= i < NTREEBINS ==> trees[i] == Leaf
    ensures BinsOk(map[], 0, 0, rings, trees, map[], HEAP_MIN)
    ensures Settled(map[], map[], 0, 0, 0, 0, {}, [], map[], HEAP_MIN, {})
  {
    ZeroMeansNone(0);
    hide Marked, ComputeTreeIndex;
    forall i: BinIndex
      ensures SmallBinOk(map[], 0, i, rings[i], map[]) && TreeBinOk(map[], 0, i, trees[i], map[])
    {
    }
  }
}
