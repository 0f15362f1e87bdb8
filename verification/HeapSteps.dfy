/** What each operation of the allocator makes of a settled heap. */
module HeapSteps {
  import opened Common
  import opened Memory
  import opened Bins
  import opened Heap
  import opened Segments
  import opened HeapOps

  /** What is known of the chunk `p` of a settled heap. */
  lemma ChunkFacts(m: Mem, h: Chunks, top: int, topsize: int, dv: int, dvsize: int, ends: set<int>,
                   segs: seq<Segment>, b: map<int, int>, least: int, out: set<int>, p: int)
    requires Settled(m, h, top, topsize, dv, dvsize, ends, segs, b, least, out) && p in h
    ensures HEAP_MIN <= least <= p && p % 16 == 0 && h[p].size % 16 == 0 && 0 < h[p].size && p + h[p].size < WORD_MAX
    ensures (p + h[p].size) % 16 == 0 && (p != top ==> MIN_CHUNK_SIZE <= h[p].size)
    ensures ChunkSize(m, p) == h[p].size && (Cinuse(m, p) <==> h[p].used)
    ensures !h[p].used ==> Pinuse(m, p) && (p == top || p == dv || p in b || p in out)
    ensures !h[p].used && p != top ==> p !in ends
    ensures !Pinuse(m, p) ==>
              var q := p - Foot(m, p);
              q in h && !h[q].used && q + h[q].size == p && Foot(m, p) == h[q].size && q !in ends && q != top
    ensures p !in ends ==> p + h[p].size in h && (Pinuse(m, p + h[p].size) <==> h[p].used)
    ensures p !in ends && !h[p].used ==> h[p + h[p].size].used
    ensures p == top ==> p + h[p].size !in h && p in ends && !h[p].used && h[p].size == topsize
    ensures p == dv && dv != 0 ==> !h[p].used && h[p].size == dvsize && p != top
    ensures (p == top ==> top != 0) && (p == dv ==> dv != 0)
    ensures p in b ==> b[p] == h[p].size && p != top && p != dv && p !in out && !h[p].used
    ensures HeadsOk(m, h) && Laid(h, top, least) && Apart(segs) && Segmented(h, ends, segs)
  {
    BaseAbove(h, top, least, p);
    TagFacts(m, h, top, ends, least, p);
    assert Next(h, p) == p + h[p].size;
    if !Pinuse(m, p) {
      var q := p - Foot(m, p);
      assert Next(h, q) == p;
    }
    hide HeadsOk, PinuseBit, CinuseBit, FeetOk, PinsOk, Segmented, HEAD, ChunkSize;
  }

  /** A free chunk that is in no bin goes into use whole. */
  lemma TakeWhole(m: Mem, h: Chunks, top: int, topsize: int, dv: int, dvsize: int, ends: set<int>,
                  segs: seq<Segment>, b: map<int, int>, least: int, p: int)
    requires Settled(m, h, top, topsize, dv, dvsize, ends, segs, b, least, {p})
    ensures p in h && p !in Used(h) && p !in ends
    ensures var s := h[p].size;
            var n, h' := SetInuseAndPinuse(m, p, s), Recut1(h, p, p + s, true);
            && Settled(n, h', top, topsize, dv, dvsize, ends, segs, b, least, {})
            && Used(h') == Used(h)[p := s] && DataKept(m, n, Used(h)) && InsidesKept(m, n, b)
  {
    hide Settled, Laid, Joined, Segmented, Piece, HeadsOk, Tags1, TagStores, SetInuse, SetInuseAndPinuse, Recut1,
      Used, DataKept, InsidesKept, Pinuse, ChunkSize, Cinuse, Apart, Foot;
    LooseIs(m, h, top, topsize, dv, dvsize, ends, segs, b, least, {p}, p);
    ChunkFacts(m, h, top, topsize, dv, dvsize, ends, segs, b, least, {p}, p);
    var s := h[p].size;
    var x := p + s;
    ChunkPiece(h, top, least, ends, segs, p);
    TopApart(h, top, least, p);
    Aligned(h, top, least, x);
    InuseTags(m, h, p, x);
    SetInuseSame(m, p, s);
    SettledOne(m, SetInuse(m, p, s), h, top, topsize, dv, dvsize, ends, segs, b, least, {p}, p, x, true, {p, x}, {},
        {});
    NotUsed(h, p);
  }

  lemma Aligned(h: Chunks, top: int, least: int, p: int)
    requires Laid(h, top, least) && p in h
    ensures p % 16 == 0 && h[p].size % 16 == 0
  {
    assert h[p].size > 0;
  }

  lemma NotUsed(h: Chunks, p: int)
    requires p in h && !h[p].used
    ensures p !in Used(h) && Used(h) - {} == Used(h) && Used(h) - {p} == Used(h)
  {
  }

  lemma LooseIs(m: Mem, h: Chunks, top: int, topsize: int, dv: int, dvsize: int, ends: set<int>,
                segs: seq<Segment>, b: map<int, int>, least: int, out: set<int>, p: int)
    requires Settled(m, h, top, topsize, dv, dvsize, ends, segs, b, least, out) && p in out
    ensures p in h && !h[p].used && p != top && p != dv && p !in b && top in h && top != 0
  {
  }

  lemma SettledSegments(m: Mem, h: Chunks, top: int, topsize: int, dv: int, dvsize: int, ends: set<int>,
                        segs: seq<Segment>, b: map<int, int>, least: int, out: set<int>)
    requires Settled(m, h, top, topsize, dv, dvsize, ends, segs, b, least, out)
    ensures Segmented(h, ends, segs)
    ensures top in h && h[top].size == topsize ==> forall p :: p in h && top <= p < top + topsize ==> p == top
  {
    hide Segmented, Joined, Tagged, Coalesced;
    forall p | top in h && h[top].size == topsize && p in h && top <= p < top + topsize
      ensures p == top
    {
      assert h[p].size > 0;
    }
  }

  lemma TopApart(h: Chunks, top: int, least: int, p: int)
    requires Laid(h, top, least) && p in h && p != top && top in h
    ensures !(p <= top < p + h[p].size)
  {
    assert h[top].size > 0;
  }

  /** The bounds of a piece. */
  lemma PieceFacts(m: Mem, h: Chunks, top: int, topsize: int, dv: int, dvsize: int, ends: set<int>,
                   segs: seq<Segment>, b: map<int, int>, least: int, out: set<int>, base: int, end: int, gone: set<int>)
    requires Settled(m, h, top, topsize, dv, dvsize, ends, segs, b, least, out)
    requires Piece(h, top, ends, segs, out, base, end, gone)
    ensures base in h && base % 16 == 0 && end % 16 == 0 && base < end < WORD_MAX && (end - base) % 16 == 0
    ensures end in h ==> h[end].size % 16 == 0 && !(base <= top < end)
    ensures HeadsOk(m, h)
    ensures forall q :: q in gone ==> q in Used(h) && q !in ends
  {
    WindowEnds(h, top, least, ends, base, end);
    BaseAbove(h, top, least, base);
    Mod16(end, base);
    if end in h {
      Aligned(h, top, least, end);
    }
    hide Laid, Joined, Coalesced, Tagged, Segmented, Housed;
  }

  /** A window of one chunk in use and free chunks laid aside, below a chunk in use, becomes one free chunk. */
  lemma FusedBelowUsed(m: Mem, h: Chunks, top: int, topsize: int, dv: int, dvsize: int, ends: set<int>,
                       segs: seq<Segment>, b: map<int, int>, least: int, out: set<int>, base: int, end: int, p: int)
    requires Settled(m, h, top, topsize, dv, dvsize, ends, segs, b, least, out)
    requires Piece(h, top, ends, segs, out, base, end, {p}) && Pinuse(m, base)
    requires end in h && h[end].used && MIN_CHUNK_SIZE <= end - base
    ensures var n, h' := SetFreeWithPinuse(m, base, end - base, end), Recut1(h, base, end, false);
            && Settled(n, h', top, topsize, dv, dvsize, ends, segs, b, least, {base})
            && Used(h') == Used(h) - {p} && DataKept(m, n, Used(h) - {p}) && InsidesKept(m, n, b)
  {
    hide Settled, Piece, HeadsOk, Tags1, TagStores, SetFreeWithPinuse, Recut1, Used, DataKept, InsidesKept, Pinuse;
    PieceFacts(m, h, top, topsize, dv, dvsize, ends, segs, b, least, out, base, end, {p});
    FreedTags(m, h, base, end);
    SettledOne(m, SetFreeWithPinuse(m, base, end - base, end), h, top, topsize, dv, dvsize, ends, segs, b, least, out,
               base, end, false, {base, end}, {end}, {p});
  }

  /** The same where the chunk above already knows that what is below it is free. */
  lemma FusedEnlarged(m: Mem, h: Chunks, top: int, topsize: int, dv: int, dvsize: int, ends: set<int>,
                      segs: seq<Segment>, b: map<int, int>, least: int, out: set<int>, base: int, end: int, p: int)
    requires Settled(m, h, top, topsize, dv, dvsize, ends, segs, b, least, out)
    requires Piece(h, top, ends, segs, out, base, end, {p}) && Pinuse(m, base)
    requires end in h && h[end].used && !Pinuse(m, end) && MIN_CHUNK_SIZE <= end - base
    ensures var n, h' := SetFreeChunk(m, base, end - base), Recut1(h, base, end, false);
            && Settled(n, h', top, topsize, dv, dvsize, ends, segs, b, least, {base})
            && Used(h') == Used(h) - {p} && DataKept(m, n, Used(h) - {p}) && InsidesKept(m, n, b)
  {
    hide Settled, Piece, HeadsOk, Tags1, TagStores, SetFreeChunk, Recut1, Used, DataKept, InsidesKept, Pinuse;
    PieceFacts(m, h, top, topsize, dv, dvsize, ends, segs, b, least, out, base, end, {p});
    EnlargedTags(m, h, base, end);
    SettledOne(m, SetFreeChunk(m, base, end - base), h, top, topsize, dv, dvsize, ends, segs, b, least, out,
               base, end, false, {base}, {end}, {p});
  }

  /** A window that ends with the top becomes the top. */
  lemma FusedIntoTop(m: Mem, h: Chunks, top: int, topsize: int, dv: int, dvsize: int, ends: set<int>,
                     segs: seq<Segment>, b: map<int, int>, least: int, out: set<int>, base: int, end: int, p: int)
    requires Settled(m, h, top, topsize, dv, dvsize, ends, segs, b, least, out)
    requires Piece(h, top, ends, segs, out, base, end, {p}) && Pinuse(m, base)
    requires base <= top < end && end !in h && MIN_CHUNK_SIZE <= end - base
    ensures var n, h' := SetTopHead(m, base, end - base), Recut1(h, base, end, false);
            && Settled(n, h', base, end - base, dv, dvsize, EndsAfter(h, ends, base, end, base), segs, b, least, {})
            && Used(h') == Used(h) - {p} && DataKept(m, n, Used(h) - {p}) && InsidesKept(m, n, b)
  {
    hide Settled, Piece, HeadsOk, Tags1, TagStores, SetTopHead, Recut1, Used, DataKept, InsidesKept, Pinuse, EndsAfter;
    PieceFacts(m, h, top, topsize, dv, dvsize, ends, segs, b, least, out, base, end, {p});
    TopTags(m, h, base, end);
    SettledOne(m, SetTopHead(m, base, end - base), h, top, topsize, dv, dvsize, ends, segs, b, least, out,
               base, end, false, {base}, {}, {p});
  }

  /** A window that starts with a chunk in use becomes one chunk in use. */
  lemma GrownWhole(m: Mem, h: Chunks, top: int, topsize: int, dv: int, dvsize: int, ends: set<int>,
                   segs: seq<Segment>, b: map<int, int>, least: int, out: set<int>, base: int, end: int, gone: set<int>)
    requires Settled(m, h, top, topsize, dv, dvsize, ends, segs, b, least, out)
    requires Piece(h, top, ends, segs, out, base, end, gone)
    requires end in h && MIN_CHUNK_SIZE <= end - base
    ensures var n, h' := SetInuse(m, base, end - base), Recut1(h, base, end, true);
            && Settled(n, h', top, topsize, dv, dvsize, ends, segs, b, least, {})
            && Used(h') == (Used(h) - gone)[base := end - base] && DataKept(m, n, Used(h) - gone)
            && InsidesKept(m, n, b) && TagStores(m, n, {base, end}, {})
  {
    hide Settled, Piece, HeadsOk, Tags1, TagStores, SetInuse, Recut1, Used, DataKept, InsidesKept;
    PieceFacts(m, h, top, topsize, dv, dvsize, ends, segs, b, least, out, base, end, gone);
    InuseTags(m, h, base, end);
    SettledOne(m, SetInuse(m, base, end - base), h, top, topsize, dv, dvsize, ends, segs, b, least, out,
               base, end, true, {base, end}, {}, gone);
  }

  /** A window of one chunk in use and free chunks laid aside is split into two chunks in use. */
  lemma SplitInTwo(m: Mem, n: Mem, h: Chunks, top: int, topsize: int, dv: int, dvsize: int, ends: set<int>,
                   segs: seq<Segment>, b: map<int, int>, least: int, out: set<int>, base: int, end: int, nb: int)
    requires Settled(m, h, top, topsize, dv, dvsize, ends, segs, b, least, out)
    requires Piece(h, top, ends, segs, out, base, end, {base})
    requires n == SplitStores(m, base, nb, end - base) || n == SplitStoresAbove(m, base, nb, end - base)
    requires end in h && nb % 16 == 0 && MIN_CHUNK_SIZE <= nb && nb + MIN_CHUNK_SIZE <= end - base
    ensures var h' := Recut2(h, base, end, nb, true, true);
            && Settled(n, h', top, topsize, dv, dvsize, ends, segs, b, least, {})
            && Used(h') == (Used(h) - {base})[base := nb][base + nb := end - base - nb]
            && DataKept(m, n, Used(h) - {base}) && InsidesKept(m, n, b)
            && TagStores(m, n, {base, base + nb, end}, {})
  {
    hide Settled, Piece, HeadsOk, Tags2, TagStores, SplitStores, SplitStoresAbove, Recut2, Used, DataKept, InsidesKept;
    PieceFacts(m, h, top, topsize, dv, dvsize, ends, segs, b, least, out, base, end, {base});
    Mod16(end - base, nb);
    Mod16(base, nb);
    SplitTags(m, h, base, end, nb);
    SplitAboveTags(m, h, base, end, nb);
    SettledTwo(m, n, h, top, topsize, dv, dvsize, ends, segs, b, least, out, base, end, nb, true,
               {base, base + nb, end}, {}, {base});
  }

  /** A chunk in use is extended into the free chunk above it, whose rest is laid aside. */
  lemma ShiftedUp(m: Mem, h: Chunks, top: int, topsize: int, dv: int, dvsize: int, ends: set<int>,
                  segs: seq<Segment>, b: map<int, int>, least: int, out: set<int>, base: int, end: int, nb: int)
    requires Settled(m, h, top, topsize, dv, dvsize, ends, segs, b, least, out)
    requires Piece(h, top, ends, segs, out, base, end, {base})
    requires end in h && h[end].used && nb % 16 == 0 && MIN_CHUNK_SIZE <= nb && nb + MIN_CHUNK_SIZE <= end - base
    ensures var n, h' := ShiftStores(m, base, nb, end - base), Recut2(h, base, end, nb, true, false);
            && Settled(n, h', top, topsize, dv, dvsize, ends, segs, b, least, {base + nb})
            && Used(h') == (Used(h) - {base})[base := nb]
            && DataKept(m, n, Used(h) - {base}) && InsidesKept(m, n, b)
            && TagStores(m, n, {base, base + nb, end}, {end})
  {
    hide Settled, Piece, HeadsOk, Tags2, TagStores, ShiftStores, Recut2, Used, DataKept, InsidesKept;
    PieceFacts(m, h, top, topsize, dv, dvsize, ends, segs, b, least, out, base, end, {base});
    Mod16(base, nb);
    ShiftTags(m, h, base, end, nb);
    SettledTwo(m, ShiftStores(m, base, nb, end - base), h, top, topsize, dv, dvsize, ends, segs, b, least, out,
        base, end,
               nb, false, {base, base + nb, end}, {end}, {base});
  }

  /** A chunk in use is extended into the top. */
  lemma ShiftedIntoTop(m: Mem, h: Chunks, top: int, topsize: int, dv: int, dvsize: int, ends: set<int>,
                       segs: seq<Segment>, b: map<int, int>, least: int, base: int, end: int, nb: int)
    requires Settled(m, h, top, topsize, dv, dvsize, ends, segs, b, least, {})
    requires Piece(h, top, ends, segs, {}, base, end, {base})
    requires base <= top < end && end !in h && nb % 16 == 0 && MIN_CHUNK_SIZE <= nb < end - base
    ensures var r := base + nb;
            var n, h' := SetTopHead(SetInuse(m, base, nb), r, end - r), Recut2(h, base, end, nb, true, false);
            && Settled(n, h', r, end - r, dv, dvsize, EndsAfter(h, ends, base, end, r), segs, b, least, {})
            && Used(h') == (Used(h) - {base})[base := nb]
            && DataKept(m, n, Used(h) - {base}) && InsidesKept(m, n, b)
            && TagStores(m, n, {base, r}, {})
  {
    hide Settled, Piece, HeadsOk, Tags2, TagStores, SetTopHead, SetInuse, Recut2, Used, DataKept, InsidesKept,
      EndsAfter;
    PieceFacts(m, h, top, topsize, dv, dvsize, ends, segs, b, least, {}, base, end, {base});
    Mod16(base, nb);
    ShiftTopTags(m, h, base, end, nb);
    var n := SetTopHead(SetInuse(m, base, nb), base + nb, end - (base + nb));
    assert end - (base + nb) == end - base - nb;
    SettledTwo(m, n, h, top, topsize, dv, dvsize, ends, segs, b, least, {}, base, end, nb, false, {base, base + nb}, {},
               {base});
  }

  /** A free chunk that is in no bin is split: the lower part goes into use, the upper part is laid aside. */
  lemma CarveLoose(m: Mem, h: Chunks, top: int, topsize: int, dv: int, dvsize: int, ends: set<int>,
                   segs: seq<Segment>, b: map<int, int>, least: int, p: int, nb: int)
    requires Settled(m, h, top, topsize, dv, dvsize, ends, segs, b, least, {p}) && p in h
    requires nb % 16 == 0 && MIN_CHUNK_SIZE <= nb && nb + MIN_CHUNK_SIZE <= h[p].size
    ensures p !in Used(h) && p !in ends
    ensures var s := h[p].size;
            var n, h' := CarveStores(m, p, nb, s), Recut2(h, p, p + s, nb, true, false);
            && Settled(n, h', top, topsize, dv, dvsize, ends, segs, b, least, {p + nb})
            && p + nb in h' && h'[p + nb].size == s - nb
            && Used(h') == Used(h)[p := nb] && DataKept(m, n, Used(h)) && InsidesKept(m, n, b)
  {
    hide Settled, Laid, Joined, Segmented, Piece, HeadsOk, Tags2, TagStores, CarveStores, Used, DataKept, InsidesKept,
      Pinuse, ChunkSize, Cinuse, Apart, Foot, Outside;
    LooseIs(m, h, top, topsize, dv, dvsize, ends, segs, b, least, {p}, p);
    ChunkFacts(m, h, top, topsize, dv, dvsize, ends, segs, b, least, {p}, p);
    var s := h[p].size;
    var x := p + s;
    ChunkPiece(h, top, least, ends, segs, p);
    TopApart(h, top, least, p);
    Aligned(h, top, least, x);
    Mod16(p, nb);
    CarveTags(m, h, p, x, nb);
    assert Recut2(h, p, x, nb, true, false)[p + nb].size == s - nb;
    hide Recut2;
    SettledTwo(m, CarveStores(m, p, nb, s), h, top, topsize, dv, dvsize, ends, segs, b, least, {p}, p, x, nb, false,
               {p, p + nb}, {x}, {});
    NotUsed(h, p);
  }

  /** The top is split: the lower part goes into use. */
  lemma CarveTop(m: Mem, h: Chunks, top: int, topsize: int, dv: int, dvsize: int, ends: set<int>,
                 segs: seq<Segment>, b: map<int, int>, least: int, nb: int)
    requires Settled(m, h, top, topsize, dv, dvsize, ends, segs, b, least, {})
    requires nb % 16 == 0 && MIN_CHUNK_SIZE <= nb < topsize
    ensures top !in Used(h) && top in h
    ensures var x, r := top + topsize, top + nb;
            var n, h' := SetInuseChunk(SetTopHead(m, r, topsize - nb), top, nb), Recut2(h, top, x, nb, true, false);
            && Settled(n, h', r, topsize - nb, dv, dvsize, EndsAfter(h, ends, top, x, r), segs, b, least, {})
            && Used(h') == Used(h)[top := nb] && DataKept(m, n, Used(h)) && InsidesKept(m, n, b)
            && top !in EndsAfter(h, ends, top, x, r)
            && Used(h) - EndsAfter(h, ends, top, x, r) == Used(h) - ends
  {
    hide Settled, Laid, Joined, Segmented, Piece, HeadsOk, Tags2, TagStores, SetInuseChunk, SetTopHead, Used,
      DataKept, InsidesKept, Pinuse, ChunkSize, Cinuse, Apart, Foot, Outside, Recut2, EndsAfter;
    TopIs(m, h, top, topsize, dv, dvsize, ends, segs, b, least, {});
    ChunkFacts(m, h, top, topsize, dv, dvsize, ends, segs, b, least, {}, top);
    SettledSegments(m, h, top, topsize, dv, dvsize, ends, segs, b, least, {});
    var x, r := top + topsize, top + nb;
    ChunkPiece(h, top, least, ends, segs, top);
    Mod16(top, nb);
    CarveTopTags(m, h, top, x, nb);
    assert x - top - nb == topsize - nb && x - r == topsize - nb;
    SettledTwo(m, SetInuseChunk(SetTopHead(m, r, topsize - nb), top, nb), h, top, topsize, dv, dvsize, ends, segs, b,
               least, {}, top, x, nb, false, {top, r}, {}, {});
    NotUsed(h, top);
    TopEnds(h, top, topsize, ends, r);
  }

  lemma TopIs(m: Mem, h: Chunks, top: int, topsize: int, dv: int, dvsize: int, ends: set<int>,
              segs: seq<Segment>, b: map<int, int>, least: int, out: set<int>)
    requires Settled(m, h, top, topsize, dv, dvsize, ends, segs, b, least, out) && (topsize != 0 || top != 0)
    ensures top in h && !h[top].used && h[top].size == topsize && top != 0 && segs != []
  {
  }

  lemma TopEnds(h: Chunks, top: int, topsize: int, ends: set<int>, r: int)
    requires top + topsize !in h && top < r < top + topsize && top !in Used(h) && top in h
    requires forall p :: p in h && top <= p < top + topsize ==> p == top
    ensures var e := EndsAfter(h, ends, top, top + topsize, r); top !in e && Used(h) - e == Used(h) - ends
  {
    UsedFacts(h);
    hide Used;
  }

  lemma DvFacts(m: Mem, h: Chunks, top: int, topsize: int, dv: int, dvsize: int, ends: set<int>,
                segs: seq<Segment>, b: map<int, int>, least: int, out: set<int>)
    requires Settled(m, h, top, topsize, dv, dvsize, ends, segs, b, least, out) && dv != 0
    ensures dv in h && HEAP_MIN <= dv && dv % 16 == 0 && dvsize % 16 == 0 && MIN_CHUNK_SIZE <= dvsize
    ensures h[dv].size == dvsize
    ensures dv + dvsize in h && h[dv + dvsize].used && !h[dv].used && dv != top
  {
    hide Segmented, TopPlaced, HeapOk;
    assert dv in h;
    ChunkFacts(m, h, top, topsize, dv, dvsize, ends, segs, b, least, out, dv);
  }

  /** The only end in a piece is the top. */
  lemma PieceEnds(m: Mem, h: Chunks, top: int, topsize: int, dv: int, dvsize: int, ends: set<int>,
                  segs: seq<Segment>, b: map<int, int>, least: int, out: set<int>, base: int, end: int, gone: set<int>)
    requires Settled(m, h, top, topsize, dv, dvsize, ends, segs, b, least, out)
    requires Piece(h, top, ends, segs, out, base, end, gone)
    ensures forall q :: q in ends && base <= q < end ==> q == top
    ensures base !in Used(h) - gone && top !in Used(h)
  {
    UsedFacts(h);
    hide Laid, Coalesced, Tagged, Segmented, Housed, Used;
  }

  /** A window that swallowed the top leaves the other chunks handed out alone. */
  lemma TopLive(h: Chunks, ends: set<int>, top: int, base: int, end: int, p0: int)
    requires forall q :: q in ends && base <= q < end ==> q == top
    requires base !in Used(h) - {p0} && top !in Used(h)
    ensures (Used(h) - {p0}) - EndsAfter(h, ends, base, end, base) == (Used(h) - ends) - {p0}
  {
    hide Used;
  }

  // ---------------------------------------------------------------- consolidating forward

  /** A chunk being freed, with what lies below it, merges with the top above. */
  lemma FreedIntoTop(m: Mem, h: Chunks, top: int, topsize: int, dv: int, dvsize: int, ends: set<int>,
                     segs: seq<Segment>, b: map<int, int>, least: int, out: set<int>, p: int, p0: int)
    requires Settled(m, h, top, topsize, dv, dvsize, ends, segs, b, least, out)
    requires Piece(h, top, ends, segs, out, p, top, {p0}) && Pinuse(m, p)
    requires MIN_CHUNK_SIZE <= top - p && top in h
    ensures var s, end := topsize + (top - p), top + topsize;
            var n, h', ends' := SetTopHead(m, p, s), Recut1(h, p, end, false), EndsAfter(h, ends, p, end, p);
            && Settled(n, h', p, s, dv, dvsize, ends', segs, b, least, {})
            && Used(h') == Used(h) - {p0} && Used(h') - ends' == (Used(h) - ends) - {p0}
            && DataKept(m, n, Used(h')) && InsidesKept(m, n, b)
  {
    hide Settled, DataKept, Used, Piece, Pinuse, Segmented, Laid, HeadsOk, InsidesKept, SetTopHead, Recut1, EndsAfter,
      Apart, Cinuse, ChunkSize, Foot;
    var end := top + topsize;
    ChunkFacts(m, h, top, topsize, dv, dvsize, ends, segs, b, least, out, top);
    ChunkPiece(h, top, least, ends, segs, top);
    JoinPieces(h, top, ends, segs, out, p, top, {p0}, {}, end, {});
    assert out + {} == out && {p0} + {} == {p0};
    FusedIntoTop(m, h, top, topsize, dv, dvsize, ends, segs, b, least, out, p, end, p0);
    PieceEnds(m, h, top, topsize, dv, dvsize, ends, segs, b, least, out, p, end, {p0});
    TopLive(h, ends, top, p, end, p0);
    assert end - p == topsize + (top - p);
  }

  /** It merges with the designated victim above. */
  lemma FreedIntoDv(m: Mem, h: Chunks, top: int, topsize: int, dv: int, dvsize: int, ends: set<int>,
                    segs: seq<Segment>, b: map<int, int>, least: int, out: set<int>, p: int, p0: int)
    requires Settled(m, h, top, topsize, dv, dvsize, ends, segs, b, least, out) && dv != 0
    requires Piece(h, top, ends, segs, out, p, dv, {p0}) && Pinuse(m, p)
    requires MIN_CHUNK_SIZE <= dv - p
    ensures var s, end := dvsize + (dv - p), dv + dvsize;
            var n, h' := SetFreeChunk(m, p, s), Recut1(h, p, end, false);
            && Settled(n, h', top, topsize, p, s, ends, segs, b, least, {})
            && Used(h') == Used(h) - {p0} && Used(h') - ends == (Used(h) - ends) - {p0}
            && DataKept(m, n, Used(h')) && InsidesKept(m, n, b)
  {
    hide Settled, DataKept, Used, Piece, Pinuse, Segmented, Laid, HeadsOk, InsidesKept, SetFreeChunk, Recut1, Apart,
      Cinuse, ChunkSize, Foot;
    var s, end := dvsize + (dv - p), dv + dvsize;
    DvFacts(m, h, top, topsize, dv, dvsize, ends, segs, b, least, out);
    ChunkFacts(m, h, top, topsize, dv, dvsize, ends, segs, b, least, out, dv);
    DvAside(m, h, top, topsize, dv, dvsize, ends, segs, b, least, out);
    ChunkPiece(h, top, least, ends, segs, dv);
    JoinPieces(h, top, ends, segs, out, p, dv, {p0}, {dv}, end, {});
    assert {p0} + {} == {p0};
    FusedEnlarged(m, h, top, topsize, 0, 0, ends, segs, b, least, out + {dv}, p, end, p0);
    RecutSize(h, p, end, false);
    assert end - p == s;
    BecomesDv(SetFreeChunk(m, p, s), Recut1(h, p, end, false), top, topsize, ends, segs, b, least, p);
    FewerLive(Used(h), p0, ends);
  }

  /** It merges with a free chunk above that is in no bin. */
  lemma FreedIntoNext(m: Mem, h: Chunks, top: int, topsize: int, dv: int, dvsize: int, ends: set<int>,
                      segs: seq<Segment>, b: map<int, int>, least: int, out: set<int>, p: int, next: int, p0: int)
    requires Settled(m, h, top, topsize, dv, dvsize, ends, segs, b, least, out + {next}) && next !in out
    requires Piece(h, top, ends, segs, out, p, next, {p0}) && Pinuse(m, p)
    requires MIN_CHUNK_SIZE <= next - p && next in h
    ensures var s, end := h[next].size + (next - p), next + h[next].size;
            var n, h' := SetFreeChunk(m, p, s), Recut1(h, p, end, false);
            && Settled(n, h', top, topsize, dv, dvsize, ends, segs, b, least, {p}) && p in h' && h'[p].size == s
            && Used(h') == Used(h) - {p0} && Used(h') - ends == (Used(h) - ends) - {p0}
            && DataKept(m, n, Used(h')) && InsidesKept(m, n, b)
  {
    hide Settled, DataKept, Used, Piece, Pinuse, Segmented, Laid, HeadsOk, InsidesKept, SetFreeChunk, Recut1, Apart,
      Cinuse, ChunkSize, Foot;
    var s, end := h[next].size + (next - p), next + h[next].size;
    LooseIs(m, h, top, topsize, dv, dvsize, ends, segs, b, least, out + {next}, next);
    ChunkFacts(m, h, top, topsize, dv, dvsize, ends, segs, b, least, out + {next}, next);
    ChunkPiece(h, top, least, ends, segs, next);
    JoinPieces(h, top, ends, segs, out, p, next, {p0}, {next}, end, {});
    assert {p0} + {} == {p0};
    FusedEnlarged(m, h, top, topsize, dv, dvsize, ends, segs, b, least, out + {next}, p, end, p0);
    RecutSize(h, p, end, false);
    assert end - p == s;
    FewerLive(Used(h), p0, ends);
  }

  /** What lies above it is in use. */
  lemma FreedBelow(m: Mem, h: Chunks, top: int, topsize: int, dv: int, dvsize: int, ends: set<int>,
                   segs: seq<Segment>, b: map<int, int>, least: int, out: set<int>, p: int, next: int, p0: int)
    requires Settled(m, h, top, topsize, dv, dvsize, ends, segs, b, least, out)
    requires Piece(h, top, ends, segs, out, p, next, {p0}) && Pinuse(m, p)
    requires MIN_CHUNK_SIZE <= next - p && next in h && h[next].used
    ensures var s := next - p;
            var n, h' := SetFreeWithPinuse(m, p, s, next), Recut1(h, p, next, false);
            && Settled(n, h', top, topsize, dv, dvsize, ends, segs, b, least, {p}) && p in h' && h'[p].size == s
            && Used(h') == Used(h) - {p0} && Used(h') - ends == (Used(h) - ends) - {p0}
            && DataKept(m, n, Used(h')) && InsidesKept(m, n, b)
  {
    hide Settled, DataKept, Used, Piece, Pinuse, InsidesKept, SetFreeWithPinuse, Recut1;
    FusedBelowUsed(m, h, top, topsize, dv, dvsize, ends, segs, b, least, out, p, next, p0);
    RecutSize(h, p, next, false);
    FewerLive(Used(h), p0, ends);
  }

  /** A free chunk that is neither the top nor the designated victim nor laid aside is in a bin. */
  lemma NextBinned(m: Mem, h: Chunks, top: int, topsize: int, dv: int, dvsize: int, ends: set<int>,
                   segs: seq<Segment>, b: map<int, int>, least: int, out: set<int>, p: int, next: int, p0: int)
    requires Settled(m, h, top, topsize, dv, dvsize, ends, segs, b, least, out)
    requires Piece(h, top, ends, segs, out, p, next, {p0})
    requires next in h && !h[next].used && next != top && (next == dv ==> dv == 0)
    ensures p in h && next in b && next !in out && 0 < b[next] == ChunkSize(m, next) == h[next].size
  {
    SettledBinned(m, h, top, topsize, dv, dvsize, ends, segs, b, least, out);
    hide Settled, Segmented, Laid, HeadsOk, Window, Housed, ChunkSize;
    assert next !in out;
    WindowStarts(h, p, next);
    ChunkFacts(m, h, top, topsize, dv, dvsize, ends, segs, b, least, out, next);
  }

  /** Unlinking a chunk from its bin changes no tag. */
  lemma PinuseKept(m: Mem, n: Mem, h: Chunks, top: int, topsize: int, dv: int, dvsize: int, ends: set<int>,
                   segs: seq<Segment>, b: map<int, int>, least: int, out: set<int>, p: int)
    requires Settled(m, h, top, topsize, dv, dvsize, ends, segs, b, least, out) && p in h
    requires OnlyInside(m, n, b)
    ensures Pinuse(n, p) <==> Pinuse(m, p)
  {
    hide Roles, Segmented, TopPlaced, OnlyInside, PinuseBit, HeapOk, DataKept;
    InsideKeepsTags(m, n, h, top, ends, least, b) by {
      assert Roles(h, top, topsize, dv, dvsize, ends, b, out);
      BinnedFacts(m, h, top, topsize, dv, dvsize, ends, b, least, out);
    }
  }

  // ---------------------------------------------------------------- resizing

  /** Tag stores in a window leave the data at its bottom alone. */
  lemma BottomKept(m: Mem, n: Mem, u: map<int, int>, p: int, s: int, nb: int, end: int, hs: set<int>, fs: set<int>)
    requires DataKept(m, n, u - {p}) && TagStores(m, n, hs, fs) && p in u && s <= u[p]
    requires hs <= {p, p + nb, end} && fs <= {end} && 0 < s <= nb <= end - p
    requires fs == {} || s + CHUNK_OVERHEAD <= end - p
    ensures DataKept(m, n, u[p := s])
  {
    forall q, a | q in u && p != q && q + FD <= a < q + u[q] + CHUNK_OVERHEAD
      ensures Rd(n, a) == Rd(m, a)
    {
      assert q in u - {p};
    }
  }

  /** Splitting `p` where it, or the space it may grow into, ends at `end`. */
  lemma SplitChunk(m: Mem, n: Mem, h: Chunks, top: int, topsize: int, dv: int, dvsize: int, ends: set<int>,
                   segs: seq<Segment>, b: map<int, int>, least: int, out: set<int>, p: int, end: int, nb: int)
    requires Settled(m, h, top, topsize, dv, dvsize, ends, segs, b, least, out)
    requires Piece(h, top, ends, segs, out, p, end, {p})
    requires n == SplitStores(m, p, nb, end - p) || n == SplitStoresAbove(m, p, nb, end - p)
    requires end in h && nb % 16 == 0 && MIN_CHUNK_SIZE <= nb && nb + MIN_CHUNK_SIZE <= end - p
    ensures var h', r, u := Recut2(h, p, end, nb, true, true), p + nb, Used(h) - ends;
            && Settled(n, h', top, topsize, dv, dvsize, ends, segs, b, least, {})
            && r !in ends && r !in u && p in u && p !in ends
            && IsChunk(h', r, end - r, true) && IsChunk(h', p, nb, true)
            && Used(h') - ends == u[p := nb][r := end - r]
            && DataKept(m, n, u[p := Min(u[p], nb)]) && InsidesKept(m, n, b)
  {
    hide Settled, Piece, TagStores, SplitStores, SplitStoresAbove, Used, DataKept, InsidesKept, Min;
    PieceFacts(m, h, top, topsize, dv, dvsize, ends, segs, b, least, out, p, end, {p});
    assert p in {p};
    var h', r := Recut2(h, p, end, nb, true, true), p + nb;
    assert IsChunk(h', r, end - r, true) && IsChunk(h', p, nb, true);
    SplitInTwo(m, n, h, top, topsize, dv, dvsize, ends, segs, b, least, out, p, end, nb);
    hide Recut2;
    InsidePiece(m, h, top, topsize, dv, dvsize, ends, segs, b, least, out, p, end, r);
    ResizedLive(Used(h), ends, p, nb, r, end - r);
    UsedIs(m, h, top, topsize, dv, dvsize, ends, segs, b, least, out, p);
    DataFewer(m, n, Used(h) - {p}, ends);
    FewerLive(Used(h), p, ends);
    var u := Used(h) - ends;
    MinIs(u[p], nb);
    BottomKept(m, n, u, p, Min(u[p], nb), nb, end, {p, r, end}, {});
  }

  lemma MinIs(a: int, b: int)
    ensures Min(a, b) <= a && Min(a, b) <= b && (0 < a && 0 < b ==> 0 < Min(a, b))
    ensures a <= b ==> Min(a, b) == a
    ensures b <= a ==> Min(a, b) == b
  {
  }

  lemma UsedIs(m: Mem, h: Chunks, top: int, topsize: int, dv: int, dvsize: int, ends: set<int>,
               segs: seq<Segment>, b: map<int, int>, least: int, out: set<int>, p: int)
    requires Settled(m, h, top, topsize, dv, dvsize, ends, segs, b, least, out) && p in Used(h)
    ensures p in h && h[p].used && Used(h)[p] == h[p].size && 0 < h[p].size && p % 16 == 0
    ensures MIN_CHUNK_SIZE <= h[p].size
  {
    hide Segmented, TopPlaced, HeapOk, Settled;
    UsedFacts(h);
    hide Used;
    ChunkFacts(m, h, top, topsize, dv, dvsize, ends, segs, b, least, out, p);
  }

  lemma ResizedLive(u: map<int, int>, ends: set<int>, p: int, nb: int, r: int, s: int)
    requires p !in ends && r !in ends
    ensures (u - {p})[p := nb][r := s] - ends == (u - ends)[p := nb][r := s]
  {
    assert (u - {p})[p := nb][r := s] - ends == (u - ends)[p := nb][r := s];
  }

  lemma OneLive(u: map<int, int>, ends: set<int>, p: int, nb: int)
    requires p !in ends
    ensures (u - {p})[p := nb] - ends == (u - ends)[p := nb]
  {
    assert (u - {p})[p := nb] - ends == (u - ends)[p := nb];
  }

  /** No chunk in use starts strictly inside a piece that holds only its bottom, and no end does. */
  lemma InsidePiece(m: Mem, h: Chunks, top: int, topsize: int, dv: int, dvsize: int, ends: set<int>,
                    segs: seq<Segment>, b: map<int, int>, least: int, out: set<int>, p: int, end: int, r: int)
    requires Settled(m, h, top, topsize, dv, dvsize, ends, segs, b, least, out)
    requires Piece(h, top, ends, segs, out, p, end, {p}) && p < r < end
    ensures r !in Used(h) && (end in h ==> r !in ends)
  {
    UsedFacts(h);
    assert r !in {p};
    hide Used, Laid, Coalesced, Tagged, Segmented, Housed, Roles;
    if end in h {
      WindowEnds(h, top, least, ends, p, end);
    }
  }

  /** Growing `p` over everything up to `end`. */
  lemma GrowChunk(m: Mem, h: Chunks, top: int, topsize: int, dv: int, dvsize: int, ends: set<int>,
                  segs: seq<Segment>, b: map<int, int>, least: int, out: set<int>, p: int, end: int)
    requires Settled(m, h, top, topsize, dv, dvsize, ends, segs, b, least, out)
    requires Piece(h, top, ends, segs, out, p, end, {p})
    requires end in h && p in h && h[p].size <= end - p
    ensures var n, h', u := SetInuse(m, p, end - p), Recut1(h, p, end, true), Used(h) - ends;
            && Settled(n, h', top, topsize, dv, dvsize, ends, segs, b, least, {})
            && p in u && p !in ends && Used(h') - ends == u[p := end - p]
            && DataKept(m, n, u) && InsidesKept(m, n, b)
  {
    hide Settled, Piece, TagStores, SetInuse, Used, DataKept, InsidesKept, Recut1;
    PieceFacts(m, h, top, topsize, dv, dvsize, ends, segs, b, least, out, p, end, {p});
    assert p in {p};
    UsedIs(m, h, top, topsize, dv, dvsize, ends, segs, b, least, out, p);
    GrownWhole(m, h, top, topsize, dv, dvsize, ends, segs, b, least, out, p, end, {p});
    OneLive(Used(h), ends, p, end - p);
    DataFewer(m, SetInuse(m, p, end - p), Used(h) - {p}, ends);
    FewerLive(Used(h), p, ends);
    var u := Used(h) - ends;
    BottomKept(m, SetInuse(m, p, end - p), u, p, u[p], end - p, end, {p, end}, {});
    assert u[p := u[p]] == u;
  }

  /** Growing `p` into part of the free chunk above. */
  lemma ShiftChunk(m: Mem, h: Chunks, top: int, topsize: int, dv: int, dvsize: int, ends: set<int>,
                   segs: seq<Segment>, b: map<int, int>, least: int, out: set<int>, p: int, end: int, nb: int)
    requires Settled(m, h, top, topsize, dv, dvsize, ends, segs, b, least, out)
    requires Piece(h, top, ends, segs, out, p, end, {p})
    requires end in h && h[end].used && p in h && h[p].size <= nb
    requires nb % 16 == 0 && nb + MIN_CHUNK_SIZE <= end - p
    ensures var n, h', u := ShiftStores(m, p, nb, end - p), Recut2(h, p, end, nb, true, false), Used(h) - ends;
            && Settled(n, h', top, topsize, dv, dvsize, ends, segs, b, least, {p + nb})
            && IsChunk(h', p + nb, end - p - nb, false)
            && p in u && p !in ends && Used(h') - ends == u[p := nb]
            && DataKept(m, n, u) && InsidesKept(m, n, b)
  {
    hide Settled, Piece, TagStores, ShiftStores, Used, DataKept, InsidesKept;
    PieceFacts(m, h, top, topsize, dv, dvsize, ends, segs, b, least, out, p, end, {p});
    assert p in {p};
    UsedIs(m, h, top, topsize, dv, dvsize, ends, segs, b, least, out, p);
    assert IsChunk(Recut2(h, p, end, nb, true, false), p + nb, end - p - nb, false);
    hide Recut2;
    ShiftedUp(m, h, top, topsize, dv, dvsize, ends, segs, b, least, out, p, end, nb);
    OneLive(Used(h), ends, p, nb);
    var n, u := ShiftStores(m, p, nb, end - p), Used(h) - ends;
    DataFewer(m, n, Used(h) - {p}, ends);
    FewerLive(Used(h), p, ends);
    BottomKept(m, n, u, p, u[p], nb, end, {p, p + nb, end}, {end});
    assert u[p := u[p]] == u;
  }

  /** Growing `p` into part of the top. */
  lemma ShiftIntoTop(m: Mem, h: Chunks, top: int, topsize: int, dv: int, dvsize: int, ends: set<int>,
                     segs: seq<Segment>, b: map<int, int>, least: int, p: int, nb: int)
    requires Settled(m, h, top, topsize, dv, dvsize, ends, segs, b, least, {}) && p in Used(h) && p !in ends
    requires p + h[p].size == top && h[p].size <= nb < h[p].size + topsize && nb % 16 == 0
    ensures var r, end, u := p + nb, top + topsize, Used(h) - ends;
            var n, h' := SetTopHead(SetInuse(m, p, nb), r, end - r), Recut2(h, p, end, nb, true, false);
            var ends' := EndsAfter(h, ends, p, end, r);
            && Settled(n, h', r, end - r, dv, dvsize, ends', segs, b, least, {})
            && p in u && Used(h') - ends' == u[p := nb]
            && DataKept(m, n, u) && InsidesKept(m, n, b)
  {
    hide Settled, Piece, TagStores, SetTopHead, SetInuse, Used, DataKept, InsidesKept, Recut2, EndsAfter, Laid,
      Segmented, HeadsOk, Apart, Pinuse, Cinuse, ChunkSize, Foot;
    var r, end := p + nb, top + topsize;
    UsedIs(m, h, top, topsize, dv, dvsize, ends, segs, b, least, {}, p);
    ChunkFacts(m, h, top, topsize, dv, dvsize, ends, segs, b, least, {}, p);
    ChunkFacts(m, h, top, topsize, dv, dvsize, ends, segs, b, least, {}, top);
    ChunkPiece(h, top, least, ends, segs, p);
    ChunkPiece(h, top, least, ends, segs, top);
    var none: set<int> := {};
    JoinPieces(h, top, ends, segs, none, p, top, {p}, none, end, none);
    assert {p} + none == {p} && none + none == none;
    ShiftedIntoTop(m, h, top, topsize, dv, dvsize, ends, segs, b, least, p, end, nb);
    PieceEnds(m, h, top, topsize, dv, dvsize, ends, segs, b, least, {}, p, end, {p});
    InsidePiece(m, h, top, topsize, dv, dvsize, ends, segs, b, least, {}, p, end, r);
    TopShifted(h, ends, top, p, end, r, nb);
    var n, u := SetTopHead(SetInuse(m, p, nb), r, end - r), Used(h) - ends;
    DataFewer(m, n, Used(h) - {p}, ends);
    FewerLive(Used(h), p, ends);
    BottomKept(m, n, u, p, u[p], nb, end, {p, r}, {});
    assert u[p := u[p]] == u;
  }

  lemma TopShifted(h: Chunks, ends: set<int>, top: int, p: int, end: int, r: int, nb: int)
    requires forall q :: q in ends && p <= q < end ==> q == top
    requires top !in Used(h) && r !in Used(h) && p != top && p != r && p in Used(h) && p !in ends
    ensures (Used(h) - {p})[p := nb] - EndsAfter(h, ends, p, end, r) == (Used(h) - ends)[p := nb]
  {
    hide Used;
    var v := EndsAfter(h, ends, p, end, r);
    assert forall q :: q in Used(h) ==> (q in v <==> q in ends);
  }

  /** A chunk handed out together with the free chunk above it. */
  lemma PieceAbove(m: Mem, h: Chunks, top: int, topsize: int, dv: int, dvsize: int, ends: set<int>,
                   segs: seq<Segment>, b: map<int, int>, least: int, p: int, next: int)
    requires Settled(m, h, top, topsize, dv, dvsize, ends, segs, b, least, {}) && p in Used(h) - ends
    requires next == p + (Used(h) - ends)[p] && next in h && !h[next].used && next != top
    ensures p in h && (Used(h) - ends)[p] == h[p].size && MIN_CHUNK_SIZE <= h[p].size
    ensures next + h[next].size in h && h[next + h[next].size].used && 0 < h[next].size
    ensures Piece(h, top, ends, segs, {next}, p, next + h[next].size, {p})
    ensures next == dv ==> dv != 0 && h[next].size == dvsize
    ensures next != dv ==> next in b && b[next] == ChunkSize(m, next) == h[next].size
  {
    hide Settled, Piece, Used, Laid, Segmented, HeadsOk, Apart, Pinuse, Cinuse, ChunkSize, Foot;
    UsedLive(h, ends, p);
    UsedIs(m, h, top, topsize, dv, dvsize, ends, segs, b, least, {}, p);
    ChunkFacts(m, h, top, topsize, dv, dvsize, ends, segs, b, least, {}, p);
    ChunkFacts(m, h, top, topsize, dv, dvsize, ends, segs, b, least, {}, next);
    ChunkPiece(h, top, least, ends, segs, p);
    ChunkPiece(h, top, least, ends, segs, next);
    var none: set<int> := {};
    JoinPieces(h, top, ends, segs, none, p, next, {p}, {next}, next + h[next].size, none);
    assert {p} + none == {p} && none + {next} == {next};
  }

  /** The segment of the top is the first, and no other holds it. */
  lemma TopSegment(m: Mem, h: Chunks, top: int, topsize: int, dv: int, dvsize: int, ends: set<int>,
                   segs: seq<Segment>, b: map<int, int>, least: int, out: set<int>, i: nat)
    requires Settled(m, h, top, topsize, dv, dvsize, ends, segs, b, least, out) && top != 0
    ensures |segs| > 0
    ensures i < |segs| ==> (segs[i].base <= top < segs[i].base + segs[i].size <==> i == 0)
  {
    assert h[top].size > 0;
    hide HeapOk, Roles;
    if 0 < i < |segs| {
      assert Disjoint(segs[0], segs[i]);
    }
  }

  // ---------------------------------------------------------------- stores of the client

  /** Only the data of the chunk `p` of `s` bytes differs. */
  ghost predicate OnlyData(m: Mem, n: Mem, p: int, s: int) {
    forall a :: a < p + FD || p + s + CHUNK_OVERHEAD <= a ==> Rd(n, a) == Rd(m, a)
  }

  lemma TagWords(m: Mem, n: Mem, h: Chunks, top: int, least: int, p: int, q: int)
    requires Laid(h, top, least) && p in h && q in h && OnlyData(m, n, p, h[p].size)
    ensures Head(n, q) == Head(m, q) && (q != p + h[p].size ==> Foot(n, q) == Foot(m, q))
  {
    assert h[q].size > 0 && h[p].size > 0;
  }

  lemma ClientTags(m: Mem, n: Mem, h: Chunks, top: int, ends: set<int>, least: int, p: int)
    requires HeapOk(m, h, top, ends, least) && p in h && h[p].used && OnlyData(m, n, p, h[p].size)
    ensures HeapOk(n, h, top, ends, least)
  {
    hide Laid, Joined, Coalesced, HeadWord, PinuseBit, Head, Foot, OnlyData;
    forall q | q in h
      ensures Head(n, q) == Head(m, q) && (q != p + h[p].size ==> Foot(n, q) == Foot(m, q))
    {
      TagWords(m, n, h, top, least, p, q);
    }
    assert Next(h, p) == p + h[p].size;
    assert p + h[p].size in h ==> Pinuse(m, p + h[p].size);
    forall q | q in h && !Pinuse(n, q)
      ensures FreeBelow(n, h, q)
    {
      assert FreeBelow(m, h, q);
    }
  }

  /** A client may store anything in the data of a chunk it was handed. */
  lemma ClientStores(m: Mem, n: Mem, h: Chunks, top: int, topsize: int, dv: int, dvsize: int, ends: set<int>,
                     segs: seq<Segment>, b: map<int, int>, least: int, out: set<int>, p: int)
    requires Settled(m, h, top, topsize, dv, dvsize, ends, segs, b, least, out) && p in Used(h)
    requires OnlyData(m, n, p, Used(h)[p])
    ensures Settled(n, h, top, topsize, dv, dvsize, ends, segs, b, least, out)
    ensures InsidesKept(m, n, b) && DataKept(m, n, Used(h) - {p})
  {
    UsedFacts(h);
    hide Used, Segmented, TopPlaced, HeapOk, OnlyData, Roles, InsidesKept, DataKept;
    ClientTags(m, n, h, top, ends, least, p);
    DataApart(m, n, h, top, least, p) by {
      assert HeapOk(m, h, top, ends, least);
      SettledLaid(m, h, top, topsize, dv, dvsize, ends, segs, b, least, out);
    }
    BinsApart(m, n, h, top, topsize, dv, dvsize, ends, segs, b, least, out, p);
  }

  lemma SettledLaid(m: Mem, h: Chunks, top: int, topsize: int, dv: int, dvsize: int, ends: set<int>,
                    segs: seq<Segment>, b: map<int, int>, least: int, out: set<int>)
    requires Settled(m, h, top, topsize, dv, dvsize, ends, segs, b, least, out)
    ensures Laid(h, top, least)
    ensures forall q :: q in b ==> q in h && !h[q].used && b[q] == h[q].size
  {
  }

  lemma DataApart(m: Mem, n: Mem, h: Chunks, top: int, least: int, p: int)
    requires Laid(h, top, least) && p in Used(h) && OnlyData(m, n, p, Used(h)[p])
    ensures DataKept(m, n, Used(h) - {p})
  {
    UsedFacts(h);
    hide Used;
    forall q, a | q in Used(h) && q != p && q + FD <= a < q + Used(h)[q] + CHUNK_OVERHEAD
      ensures Rd(n, a) == Rd(m, a)
    {
      assert h[q].size > 0 && h[p].size > 0;
    }
  }

  lemma BinsApart(m: Mem, n: Mem, h: Chunks, top: int, topsize: int, dv: int, dvsize: int, ends: set<int>,
                  segs: seq<Segment>, b: map<int, int>, least: int, out: set<int>, p: int)
    requires Settled(m, h, top, topsize, dv, dvsize, ends, segs, b, least, out) && p in h && h[p].used
    requires OnlyData(m, n, p, h[p].size)
    ensures InsidesKept(m, n, b)
  {
    SettledLaid(m, h, top, topsize, dv, dvsize, ends, segs, b, least, out);
    hide Settled;
    assert h[p].size > 0;
    forall q, a | q in b && q + FD <= a < q + b[q]
      ensures Rd(n, a) == Rd(m, a)
    {
      assert h[q].size > 0 && q != p;
    }
  }

  /** Two neighbours in use become one chunk in use. */
  lemma JoinChunks(m: Mem, h: Chunks, top: int, topsize: int, dv: int, dvsize: int, ends: set<int>,
                   segs: seq<Segment>, b: map<int, int>, least: int, p: int, next: int)
    requires Settled(m, h, top, topsize, dv, dvsize, ends, segs, b, least, {})
    requires var u := Used(h) - ends; p in u && next in u && next == p + u[p]
    ensures var u := Used(h) - ends;
            var size := u[p] + u[next];
            var n, h' := SetInuse(m, p, size), Recut1(h, p, p + size, true);
            && Settled(n, h', top, topsize, dv, dvsize, ends, segs, b, least, {})
            && Used(h') - ends == (u - {next})[p := size] && Used(h') == (Used(h) - {next})[p := size]
            && DataKept(m, n, u - {p} - {next}) && InsidesKept(m, n, b)
  {
    hide Settled, Piece, Used, DataKept, InsidesKept, SetInuse, Recut1, Laid, Segmented, HeadsOk, Apart, Pinuse,
      Cinuse, ChunkSize, Foot, TagStores;
    var u := Used(h) - ends;
    UsedLive(h, ends, p);
    UsedLive(h, ends, next);
    ChunkFacts(m, h, top, topsize, dv, dvsize, ends, segs, b, least, {}, p);
    ChunkFacts(m, h, top, topsize, dv, dvsize, ends, segs, b, least, {}, next);
    ChunkPiece(h, top, least, ends, segs, p);
    ChunkPiece(h, top, least, ends, segs, next);
    var none: set<int> := {};
    var end := next + h[next].size;
    JoinPieces(h, top, ends, segs, none, p, next, {p}, none, end, {next});
    assert none + none == none;
    assert end - p == u[p] + u[next];
    GrownWhole(m, h, top, topsize, dv, dvsize, ends, segs, b, least, none, p, end, {p} + {next});
    var n := SetInuse(m, p, end - p);
    JoinedLive(Used(h), ends, p, next, end - p);
    DataFewer(m, n, Used(h) - ({p} + {next}), ends);
  }

  lemma JoinedLive(u: map<int, int>, ends: set<int>, p: int, next: int, size: int)
    requires p !in ends
    ensures (u - ({p} + {next}))[p := size] - ends == ((u - ends) - {next})[p := size] || p == next
    ensures (u - ({p} + {next})) - ends == (u - ends) - {p} - {next}
    ensures (u - ({p} + {next}))[p := size] == (u - {next})[p := size] || p == next
  {
    if p != next {
      assert (u - ({p} + {next}))[p := size] == (u - {next})[p := size];
      assert (u - ({p} + {next}))[p := size] - ends == ((u - ends) - {next})[p := size];
    }
  }
}
