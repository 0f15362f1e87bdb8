/** The steps of malloc and free on the heap: what each group of stores makes of the chunks. */
module HeapOps {
  import opened Memory
  import opened Bins
  import opened Heap
  import opened Segments

  /** The chunks in use and their sizes. */
  ghost function Used(h: Chunks): map<int, int> {
    map p | p in h && h[p].used :: h[p].size
  }

  /** The data of the chunks of `u` is untouched.  A chunk's data runs from its third word up to and including
      the `prev_foot` word of the chunk above. */
  ghost predicate DataKept(m: Mem, n: Mem, u: map<int, int>) {
    forall p, a :: p in u && p + FD <= a < p + u[p] + CHUNK_OVERHEAD ==> Rd(n, a) == Rd(m, a)
  }

  lemma DataKeptTrans(m: Mem, n: Mem, o: Mem, u: map<int, int>, v: map<int, int>)
    requires DataKept(m, n, u) && DataKept(n, o, v)
    requires forall p :: p in u ==> p in v && v[p] == u[p]
    ensures DataKept(m, o, u)
  {
  }

  /** A request for `nb` bytes was served by the new chunk `p`, wasting less than a minimum chunk. */
  ghost predicate Served(u: map<int, int>, u': map<int, int>, p: int, nb: int) {
    && p !in u && p in u' && u' == u[p := u'[p]]
    && nb <= u'[p] < nb + MIN_CHUNK_SIZE && p % 16 == 0 && 0 < p
  }

  /** What is done to the chunks in use is done to those handed out. */
  lemma ServedLive(m: Mem, n: Mem, u: map<int, int>, ends: set<int>, p: int, s: int, nb: int)
    requires p !in u && p !in ends && nb <= s < nb + MIN_CHUNK_SIZE && p % 16 == 0 && 0 < p
    requires DataKept(m, n, u)
    ensures Served(u - ends, u[p := s] - ends, p, nb)
    ensures DataKept(m, n, u - ends)
  {
    assert u[p := s] - ends == (u - ends)[p := s];
  }

  lemma UsedLive(h: Chunks, ends: set<int>, p: int)
    requires p in Used(h) - ends
    ensures p in h && h[p].used && p in Used(h) && p !in ends && (Used(h) - ends)[p] == Used(h)[p] == h[p].size
  {
  }

  /** The same, where the ends changed but for no chunk handed out. */
  lemma ServedBelow(m: Mem, n: Mem, u: map<int, int>, ends: set<int>, ends': set<int>, p: int, nb: int)
    requires p !in u && p !in ends' && u - ends' == u - ends && p % 16 == 0 && 0 < p
    requires DataKept(m, n, u)
    ensures Served(u - ends, u[p := nb] - ends', p, nb)
    ensures DataKept(m, n, u - ends)
  {
    assert u[p := nb] - ends' == (u - ends')[p := nb];
  }

  lemma ServedGrows(u: map<int, int>, u': map<int, int>, p: int, nb: int)
    requires Served(u, u', p, nb)
    ensures 0 < p && forall q :: q in u ==> q in u' && u'[q] == u[q]
  {
  }

  lemma ServedMem(u: map<int, int>, u': map<int, int>, p: int, nb: int)
    requires Served(u, u', p, nb)
    ensures (p + 16) % 16 == 0
  {
  }

  lemma IsChunkSize(h: Chunks, p: int, size: int, used: bool)
    requires IsChunk(h, p, size, used)
    ensures p in h && h[p].size == size && h[p].used == used
  {
  }

  lemma DataNone(m: Mem, n: Mem, u: map<int, int>)
    requires u == map[]
    ensures DataKept(m, n, u)
  {
  }

  /** The data of a chunk whose first `s` bytes were kept, word by word. */
  lemma PrefixWords(m: Mem, n: Mem, u: map<int, int>, p: int, s: int, k: int)
    requires DataKept(m, n, u[p := s]) && p in u && k + CHUNK_OVERHEAD <= s
    ensures DataKept(m, n, u - {p})
    ensures forall a :: p + FD <= a < p + FD + k ==> Rd(n, a) == Rd(m, a)
  {
    var v := u[p := s];
    assert p in v && v[p] == s;
    forall q, a | q in u - {p} && q + FD <= a < q + u[q] + CHUNK_OVERHEAD
      ensures Rd(n, a) == Rd(m, a)
    {
      assert q in v && v[q] == u[q];
    }
  }

  lemma SplitThenFreed(u: map<int, int>, p: int, nb: int, r: int, s: int)
    requires p in u && r !in u
    ensures u[p := nb][r := s] - {p} == (u - {p})[r := s]
    ensures forall q :: q in u - {p} ==> q in u[p := nb] && (u - {p})[q] <= u[p := nb][q]
    ensures forall q :: q in u - {p} ==> q in (u - {p})[r := s] && (u - {p})[q] <= (u - {p})[r := s][q]
  {
  }

  lemma DataShorter(m: Mem, n: Mem, u: map<int, int>, v: map<int, int>)
    requires DataKept(m, n, u) && forall p :: p in v ==> p in u && v[p] <= u[p]
    ensures DataKept(m, n, v)
  {
  }

  lemma DataFewer(m: Mem, n: Mem, u: map<int, int>, gone: set<int>)
    requires DataKept(m, n, u)
    ensures DataKept(m, n, u - gone)
  {
  }

  lemma FewerLive(u: map<int, int>, p: int, ends: set<int>)
    ensures (u - {p}) - ends == (u - ends) - {p}
  {
  }

  lemma PayloadIsData(m: Mem, n: Mem, h: Chunks, u: map<int, int>)
    requires PayloadKept(m, n, h)
    requires forall p :: p in u ==> p in h && h[p].used && h[p].size == u[p]
    ensures DataKept(m, n, u)
  {
  }

  /** The top and the designated victim are free chunks of their cached sizes, the ends other than the top are in
      use for ever, and `b` holds all other free chunks but those in `out`. */
  ghost predicate Roles(h: Chunks, top: int, topsize: int, dv: int, dvsize: int, ends: set<int>, b: map<int, int>,
                        out: set<int>) {
    && (forall q {:trigger q in b} :: q in b <==> q in h && !h[q].used && q != top && q != dv && q !in out)
    && (forall q {:trigger b[q]} :: q in b ==> q in h && b[q] == h[q].size)
    && (top == 0 ==> topsize == 0 && h == map[])
    && (top != 0 ==> top in h && !h[top].used && h[top].size == topsize && top in ends)
    && (dv == 0 <==> dvsize == 0)
    && (dv != 0 ==> dv in h && !h[dv].used && h[dv].size == dvsize && dv != top)
    && (forall p :: p in ends && p != top ==> p in h && h[p].used)
    && (forall p :: p in out ==> p in h && !h[p].used && p != top && p != dv)
  }

  /** The heap, its tags and the roles of its free chunks. */
  ghost predicate HeapInv(m: Mem, h: Chunks, top: int, topsize: int, dv: int, dvsize: int, ends: set<int>,
                          b: map<int, int>, least: int, out: set<int>) {
    HeapOk(m, h, top, ends, least) && Roles(h, top, topsize, dv, dvsize, ends, b, out)
  }

  /** The free chunks the bins hold have the sizes their heads say, and are spaced as the bins require. */
  lemma BinnedFacts(m: Mem, h: Chunks, top: int, topsize: int, dv: int, dvsize: int, ends: set<int>,
                    b: map<int, int>, least: int, out: set<int>)
    requires HeapInv(m, h, top, topsize, dv, dvsize, ends, b, least, out)
    ensures HeadsRead(m, b) && Spaced(b, least)
    ensures forall p :: p in b ==> p in h && !h[p].used && b[p] == h[p].size && p != top && p != dv && p !in out
  {
    hide Tagged, Joined, Coalesced;
    forall p | p in b
      ensures ChunkSize(m, p) == b[p]
    {
      TagFacts(m, h, top, ends, least, p);
    }
    FreeSpaced(h, top, least, b);
  }

  // ---------------------------------------------------------------- windows

  lemma WindowOne(h: Chunks, top: int, least: int, p: int)
    requires Laid(h, top, least) && p in h
    ensures Window(h, p, Next(h, p)) && p % 16 == 0
    ensures forall q :: q in h && p <= q < Next(h, p) ==> q == p
  {
    assert h[p].size > 0;
    Mod16(p, h[p].size);
    forall q | q in h && p <= q < Next(h, p)
      ensures q == p
    {
      assert h[q].size > 0;
    }
  }

  lemma WindowJoin(h: Chunks, base: int, mid: int, end: int)
    requires Window(h, base, mid) && Window(h, mid, end)
    ensures Window(h, base, end)
  {
  }

  /** What a window about to be recut holds: chunks in use that end with it, free chunks laid aside, and maybe
      the top. */
  ghost predicate Holds(h: Chunks, top: int, ends: set<int>, out: set<int>, base: int, end: int, gone: set<int>) {
    && (forall q {:trigger h[q]} :: q in h && base <= q < end ==> if h[q].used then q in gone else q in out || q == top)
    && (forall q {:trigger q in out} :: q in out ==> base <= q < end)
    && (forall q {:trigger q in gone} :: q in gone ==> q in h && h[q].used && base <= q < end && q !in ends)
  }

  lemma RecutSize(h: Chunks, base: int, end: int, used: bool)
    requires base < end
    ensures base in Recut1(h, base, end, used) && Recut1(h, base, end, used)[base].size == end - base
  {
  }

  lemma Recut1Used(h: Chunks, base: int, end: int, used: bool, gone: set<int>)
    requires base < end
    requires forall q :: q in h && base <= q < end && h[q].used ==> q in gone
    requires forall q :: q in gone ==> q in h && base <= q < end
    ensures var u := Used(h) - gone;
            Used(Recut1(h, base, end, used)) == if used then u[base := end - base] else u
    ensures Used(Outside(h, base, end)) == Used(h) - gone
  {
  }

  lemma Recut2Used(h: Chunks, base: int, end: int, nb: int, usedB: bool, gone: set<int>)
    requires base < end && 0 < nb < end - base
    requires forall q :: q in h && base <= q < end && h[q].used ==> q in gone
    requires forall q :: q in gone ==> q in h && base <= q < end
    ensures var u := (Used(h) - gone)[base := nb];
            Used(Recut2(h, base, end, nb, true, usedB)) == if usedB then u[base + nb := end - base - nb] else u
    ensures Used(Outside(h, base, end)) == Used(h) - gone
  {
    Recut1Used(h, base, end, true, gone);
    assert Recut2(h, base, end, nb, true, usedB)
        == Recut1(h, base, end, true)[base := Extent(nb, true)][base + nb := Extent(end - base - nb, usedB)];
    hide Recut1, Recut2, Outside;
  }

  lemma RolesOne(h: Chunks, top: int, topsize: int, dv: int, dvsize: int, ends: set<int>, b: map<int, int>,
                 out: set<int>, base: int, end: int, used: bool, gone: set<int>)
    requires Roles(h, top, topsize, dv, dvsize, ends, b, out) && Holds(h, top, ends, out, base, end, gone)
    requires base in h && 0 < base < end && 0 !in h
    requires forall q :: q in ends && base <= q < end ==> end !in h
    requires base <= top < end <==> end !in h
    requires end !in h ==> !used
    ensures var h' := Recut1(h, base, end, used);
            if end !in h then Roles(h', base, end - base, dv, dvsize, EndsAfter(h, ends, base, end, base), b, {})
            else Roles(h', top, topsize, dv, dvsize, ends, b, if used then {} else {base})
  {
    var h' := Recut1(h, base, end, used);
    assert forall q :: q in h' <==> q == base || (q in h && !(base <= q < end));
    assert forall q :: q in h' && q != base ==> h'[q] == h[q];
    assert h'[base] == Extent(end - base, used);
    hide Recut1, Outside;
  }

  lemma RolesTwo(h: Chunks, top: int, topsize: int, dv: int, dvsize: int, ends: set<int>, b: map<int, int>,
                 out: set<int>, base: int, end: int, nb: int, usedB: bool, gone: set<int>)
    requires Roles(h, top, topsize, dv, dvsize, ends, b, out) && Holds(h, top, ends, out, base, end, gone)
    requires base in h && 0 < base && 0 < nb < end - base && 0 !in h
    requires forall q :: q in ends && base <= q < end ==> end !in h
    requires base <= top < end <==> end !in h
    requires end !in h ==> !usedB
    ensures var h', r := Recut2(h, base, end, nb, true, usedB), base + nb;
            if end !in h then Roles(h', r, end - r, dv, dvsize, EndsAfter(h, ends, base, end, r), b, {})
            else Roles(h', top, topsize, dv, dvsize, ends, b, if usedB then {} else {r})
  {
    var h', r := Recut2(h, base, end, nb, true, usedB), base + nb;
    assert forall q :: q in h' <==> q == base || q == r || (q in h && !(base <= q < end));
    assert forall q :: q in h' && q != base && q != r ==> h'[q] == h[q];
    assert h'[base] == Extent(nb, true) && h'[r] == Extent(end - r, usedB);
    hide Recut2, Outside;
  }

  /** A window becomes one chunk: a free chunk taken, chunks fused on the way to being free, or a chunk in use
      joined with what follows it.  If it held the top, it is the new top. */
  lemma BecomesOne(m: Mem, n: Mem, h: Chunks, top: int, topsize: int, dv: int, dvsize: int, ends: set<int>,
                   b: map<int, int>, least: int, out: set<int>, base: int, end: int, used: bool,
                   hs: set<int>, fs: set<int>, gone: set<int>)
    requires HeapInv(m, h, top, topsize, dv, dvsize, ends, b, least, out)
    requires Window(h, base, end) && Holds(h, top, ends, out, base, end, gone)
    requires TagStores(m, n, hs, fs) && Tags1(m, n, h, base, end, used)
    requires forall q :: q in hs ==> base <= q <= end && q % 16 == 0
    requires forall q :: q in fs ==> base < q <= end && q % 16 == 0
    requires base <= top < end <==> end !in h
    requires end !in h ==> !used
    requires MIN_CHUNK_SIZE <= end - base
    requires !used ==> Pinuse(m, base) && (end in h ==> h[end].used)
    ensures var h' := Recut1(h, base, end, used);
            && (if end !in h then
                  HeapInv(n, h', base, end - base, dv, dvsize, EndsAfter(h, ends, base, end, base), b, least, {})
                else HeapInv(n, h', top, topsize, dv, dvsize, ends, b, least, if used then {} else {base}))
            && (Used(h') == var u := Used(h) - gone; if used then u[base := end - base] else u)
            && InsidesKept(m, n, b) && DataKept(m, n, Used(h) - gone)
            && SameOutside(h, h', base, end)
  {
    hide HeadWord, PinuseBit, CinuseBit, Tagged, InsidesKept, PayloadKept, TagStores, Coalesced, DataKept, Tags1,
      SameOutside, Window, Recut1, Outside, EndsAfter, HeapOk, Used, Roles, Holds, Laid, Joined, Pinuse;
    HeapLaid(m, h, top, topsize, dv, dvsize, ends, b, least, out);
    NullIsNoChunk(m, h, top, ends, least);
    WindowStarts(h, base, end);
    WindowEnds(h, top, least, ends, base, end);
    BaseAbove(h, top, least, base);
    Outsiders(h, top, topsize, dv, dvsize, ends, b, out, base, end, gone);
    Recut1Keeps(m, n, h, top, if end !in h then base else top, ends, least, base, end, used, hs, fs, b);
    RolesOne(h, top, topsize, dv, dvsize, ends, b, out, base, end, used, gone);
    Recut1Used(h, base, end, used, gone);
    PayloadIsData(m, n, Outside(h, base, end), Used(h) - gone) by {
      UsedFacts(Outside(h, base, end));
    }
    Recut1Shape(h, top, least, base, end, used);
    SameEnds(h, ends, base, end, base);
  }

  lemma UsedFacts(h: Chunks)
    ensures forall p {:trigger p in Used(h)} {:trigger p in h} :: p in Used(h) <==> p in h && h[p].used
    ensures forall p {:trigger Used(h)[p]} :: p in Used(h) ==> Used(h)[p] == h[p].size
  {
  }

  lemma SameEnds(h: Chunks, ends: set<int>, base: int, end: int, last: int)
    ensures end in h ==> EndsAfter(h, ends, base, end, last) == ends
  {
  }

  /** The bins hold nothing of the window. */
  lemma Outsiders(h: Chunks, top: int, topsize: int, dv: int, dvsize: int, ends: set<int>, b: map<int, int>,
                  out: set<int>, base: int, end: int, gone: set<int>)
    requires Roles(h, top, topsize, dv, dvsize, ends, b, out) && Holds(h, top, ends, out, base, end, gone)
    ensures forall q :: q in b ==> q in h && b[q] == h[q].size && !(base <= q < end)
    ensures forall q :: q in h && base <= q < end && h[q].used ==> q in gone
    ensures forall q :: q in gone ==> q in h && base <= q < end
  {
  }

  /** A window becomes two chunks, the lower in use: a chunk split, or a boundary moved. */
  lemma BecomesTwo(m: Mem, n: Mem, h: Chunks, top: int, topsize: int, dv: int, dvsize: int, ends: set<int>,
                   b: map<int, int>, least: int, out: set<int>, base: int, end: int, nb: int, usedB: bool,
                   hs: set<int>, fs: set<int>, gone: set<int>)
    requires HeapInv(m, h, top, topsize, dv, dvsize, ends, b, least, out)
    requires Window(h, base, end) && Holds(h, top, ends, out, base, end, gone)
    requires TagStores(m, n, hs, fs) && Tags2(m, n, h, base, end, nb, true, usedB)
    requires MIN_CHUNK_SIZE <= nb < end - base && nb % 16 == 0
    requires forall q :: q in hs ==> base <= q <= end && q % 16 == 0
    requires forall q :: q in fs ==> base < q <= end && q % 16 == 0
    requires base <= top < end <==> end !in h
    requires if end in h then MIN_CHUNK_SIZE <= end - base - nb && (!usedB ==> h[end].used) else !usedB
    ensures var h', r := Recut2(h, base, end, nb, true, usedB), base + nb;
            && (if end !in h then
                  HeapInv(n, h', r, end - r, dv, dvsize, EndsAfter(h, ends, base, end, r), b, least, {})
                else HeapInv(n, h', top, topsize, dv, dvsize, ends, b, least, if usedB then {} else {r}))
            && (Used(h') == var u := (Used(h) - gone)[base := nb]; if usedB then u[r := end - r] else u)
            && InsidesKept(m, n, b) && DataKept(m, n, Used(h) - gone)
            && SameOutside(h, h', base, end)
  {
    hide HeadWord, PinuseBit, CinuseBit, Tagged, InsidesKept, PayloadKept, TagStores, Coalesced, DataKept, Tags2,
      SameOutside, Window, Recut2, Outside, EndsAfter, HeapOk, Used, Roles, Holds, Laid, Joined, Pinuse;
    HeapLaid(m, h, top, topsize, dv, dvsize, ends, b, least, out);
    NullIsNoChunk(m, h, top, ends, least);
    WindowStarts(h, base, end);
    WindowEnds(h, top, least, ends, base, end);
    BaseAbove(h, top, least, base);
    Outsiders(h, top, topsize, dv, dvsize, ends, b, out, base, end, gone);
    Recut2Keeps(m, n, h, top, if end !in h then base + nb else top, ends, least, base, end, nb, true, usedB, hs, fs, b);
    RolesTwo(h, top, topsize, dv, dvsize, ends, b, out, base, end, nb, usedB, gone);
    Recut2Used(h, base, end, nb, usedB, gone);
    PayloadIsData(m, n, Outside(h, base, end), Used(h) - gone) by {
      UsedFacts(Outside(h, base, end));
    }
    Recut2Shape(h, top, least, base, end, nb, true, usedB);
    SameEnds(h, ends, base, end, base + nb);
  }

  /** The heap with its segments. */
  ghost predicate Settled(m: Mem, h: Chunks, top: int, topsize: int, dv: int, dvsize: int, ends: set<int>,
                          segs: seq<Segment>, b: map<int, int>, least: int, out: set<int>) {
    && HeapInv(m, h, top, topsize, dv, dvsize, ends, b, least, out)
    && Segmented(h, ends, segs) && TopPlaced(top, topsize, segs)
  }

  /** A window that lies in one segment, and what it holds. */
  ghost predicate Piece(h: Chunks, top: int, ends: set<int>, segs: seq<Segment>, out: set<int>, base: int, end: int,
                        gone: set<int>) {
    Window(h, base, end) && Holds(h, top, ends, out, base, end, gone) && Housed(segs, base, end)
  }

  /** One chunk is a piece. */
  lemma ChunkPiece(h: Chunks, top: int, least: int, ends: set<int>, segs: seq<Segment>, p: int)
    requires Laid(h, top, least) && Segmented(h, ends, segs)
    requires p in h && (h[p].used ==> p !in ends)
    ensures Piece(h, top, ends, segs, if h[p].used || p == top then {} else {p}, p, p + h[p].size,
                  if h[p].used then {p} else {})
  {
    WindowOne(h, top, least, p);
    assert Next(h, p) == p + h[p].size;
    assert h[p].size > 0;
    hide Laid, Window, Apart, EndsApart, First, End, InSeg, Housed;
  }

  /** Neighbouring pieces make a piece. */
  lemma JoinPieces(h: Chunks, top: int, ends: set<int>, segs: seq<Segment>, out: set<int>, base: int, mid: int,
                   gone: set<int>, out': set<int>, end: int, gone': set<int>)
    requires Apart(segs)
    requires Piece(h, top, ends, segs, out, base, mid, gone) && Piece(h, top, ends, segs, out', mid, end, gone')
    ensures Piece(h, top, ends, segs, out + out', base, end, gone + gone')
  {
    WindowJoin(h, base, mid, end);
    assert base < mid < end;
    var k := HouseOf(segs, base, mid);
    var j := HouseOf(segs, mid, end);
    SameSegment(segs, k, j, mid);
    assert InSeg(segs[k], base, end);
    hide Window, Apart, First, End, InSeg;
  }

  /** The window that ends the heap ends with the top, in the top's segment. */
  lemma TopWindow(h: Chunks, top: int, topsize: int, least: int, ends: set<int>, segs: seq<Segment>, base: int,
                  end: int,
                  p: int)
    requires base <= p < end
    requires Laid(h, top, least) && Joined(h, ends) && Segmented(h, ends, segs) && TopPlaced(top, topsize, segs)
    requires Window(h, base, end) && Housed(segs, base, end) && base <= top < end
    requires top in ends && h[top].size == topsize
    ensures end == top + topsize
    ensures TopPlaced(p, end - p, segs)
  {
    assert Next(h, top) == end;
    BaseAbove(h, top, least, base);
    hide Laid, Joined, Window;
    var k := HouseOf(segs, base, end);
    SameSegment(segs, 0, k, top);
  }

  lemma SettledOne(m: Mem, n: Mem, h: Chunks, top: int, topsize: int, dv: int, dvsize: int, ends: set<int>,
                   segs: seq<Segment>, b: map<int, int>, least: int, out: set<int>, base: int, end: int, used: bool,
                   hs: set<int>, fs: set<int>, gone: set<int>)
    requires Settled(m, h, top, topsize, dv, dvsize, ends, segs, b, least, out)
    requires Piece(h, top, ends, segs, out, base, end, gone)
    requires TagStores(m, n, hs, fs) && Tags1(m, n, h, base, end, used)
    requires forall q :: q in hs ==> base <= q <= end && q % 16 == 0
    requires forall q :: q in fs ==> base < q <= end && q % 16 == 0
    requires base <= top < end <==> end !in h
    requires end !in h ==> !used
    requires MIN_CHUNK_SIZE <= end - base
    requires !used ==> Pinuse(m, base) && (end in h ==> h[end].used)
    ensures var h' := Recut1(h, base, end, used);
            && (if end !in h then
                  Settled(n, h', base, end - base, dv, dvsize, EndsAfter(h, ends, base, end, base), segs, b, least, {})
                else Settled(n, h', top, topsize, dv, dvsize, ends, segs, b, least, if used then {} else {base}))
            && (Used(h') == var u := Used(h) - gone; if used then u[base := end - base] else u)
            && InsidesKept(m, n, b) && DataKept(m, n, Used(h) - gone)
  {
    hide HeadWord, Tagged, InsidesKept, TagStores, Coalesced, DataKept, Tags1, SameOutside, Window, Recut1, Outside,
      Holds, Segmented, Pinuse, Laid, Joined, Housed, TopPlaced, Used;
    BecomesOne(m, n, h, top, topsize, dv, dvsize, ends, b, least, out, base, end, used, hs, fs, gone);
    var h' := Recut1(h, base, end, used);
    WindowStarts(h, base, end);
    if end !in h {
      TopWindow(h, top, topsize, least, ends, segs, base, end, base);
    }
    BaseAbove(h, top, least, base);
    hide HeapInv, EndsAfter;
    assert InWindow(h', base, base, end) by {
      Recut1Base(h, base, end, used);
    }
    WindowSegments(h, h', top, least, ends, segs, base, end, base) by {
      assert HeapInv(m, h, top, topsize, dv, dvsize, ends, b, least, out);
      HeapLaid(m, h, top, topsize, dv, dvsize, ends, b, least, out);
    }
    SameEnds(h, ends, base, end, base);
  }

  lemma HeapLaid(m: Mem, h: Chunks, top: int, topsize: int, dv: int, dvsize: int, ends: set<int>, b: map<int, int>,
                 least: int, out: set<int>)
    requires HeapInv(m, h, top, topsize, dv, dvsize, ends, b, least, out)
    ensures Laid(h, top, least) && Joined(h, ends)
  {
  }

  lemma BaseAbove(h: Chunks, top: int, least: int, p: int)
    requires Laid(h, top, least) && p in h
    ensures HEAP_MIN <= least <= p && p % 16 == 0 && h[p].size % 16 == 0 && (p + h[p].size) % 16 == 0
  {
    assert h[p].size > 0;
    Mod16(p, h[p].size);
  }

  lemma Recut1Base(h: Chunks, base: int, end: int, used: bool)
    requires base < end
    ensures InWindow(Recut1(h, base, end, used), base, base, end)
  {
  }

  lemma Recut2Rest(h: Chunks, base: int, end: int, nb: int, usedB: bool)
    requires 0 < nb < end - base
    ensures InWindow(Recut2(h, base, end, nb, true, usedB), base + nb, base, end)
  {
  }

  lemma SettledTwo(m: Mem, n: Mem, h: Chunks, top: int, topsize: int, dv: int, dvsize: int, ends: set<int>,
                   segs: seq<Segment>, b: map<int, int>, least: int, out: set<int>, base: int, end: int, nb: int,
                   usedB: bool, hs: set<int>, fs: set<int>, gone: set<int>)
    requires Settled(m, h, top, topsize, dv, dvsize, ends, segs, b, least, out)
    requires Piece(h, top, ends, segs, out, base, end, gone)
    requires TagStores(m, n, hs, fs) && Tags2(m, n, h, base, end, nb, true, usedB)
    requires MIN_CHUNK_SIZE <= nb < end - base && nb % 16 == 0
    requires forall q :: q in hs ==> base <= q <= end && q % 16 == 0
    requires forall q :: q in fs ==> base < q <= end && q % 16 == 0
    requires base <= top < end <==> end !in h
    requires if end in h then MIN_CHUNK_SIZE <= end - base - nb && (!usedB ==> h[end].used) else !usedB
    ensures var h', r := Recut2(h, base, end, nb, true, usedB), base + nb;
            && (if end !in h then
                  Settled(n, h', r, end - r, dv, dvsize, EndsAfter(h, ends, base, end, r), segs, b, least, {})
                else Settled(n, h', top, topsize, dv, dvsize, ends, segs, b, least, if usedB then {} else {r}))
            && (Used(h') == var u := (Used(h) - gone)[base := nb]; if usedB then u[r := end - r] else u)
            && InsidesKept(m, n, b) && DataKept(m, n, Used(h) - gone)
  {
    hide HeadWord, Tagged, InsidesKept, TagStores, Coalesced, DataKept, Tags2, SameOutside, Window, Recut2, Outside,
      Holds, Segmented, Pinuse, Laid, Joined, Housed, TopPlaced, Used;
    BecomesTwo(m, n, h, top, topsize, dv, dvsize, ends, b, least, out, base, end, nb, usedB, hs, fs, gone);
    var h', r := Recut2(h, base, end, nb, true, usedB), base + nb;
    WindowStarts(h, base, end);
    if end !in h {
      TopWindow(h, top, topsize, least, ends, segs, base, end, r);
    }
    BaseAbove(h, top, least, base);
    hide HeapInv, EndsAfter;
    Recut2Rest(h, base, end, nb, usedB);
    WindowSegments(h, h', top, least, ends, segs, base, end, r) by {
      HeapLaid(m, h, top, topsize, dv, dvsize, ends, b, least, out);
    }
    SameEnds(h, ends, base, end, r);
  }

  // ---------------------------------------------------------------- the stores of each operation

  lemma OrClear(size: int, used: bool)
    requires size % 16 == 0
    ensures OrPinuse(HeadWord(size, used, false)) == HeadWord(size, used, true)
    ensures OrPinuse(HeadWord(size, used, true)) == HeadWord(size, used, true)
    ensures ClearPinuse(HeadWord(size, used, true)) == HeadWord(size, used, false)
    ensures ClearPinuse(HeadWord(size, used, false)) == HeadWord(size, used, false)
  {
    HeadWordFacts(size, used, true);
    HeadWordFacts(size, used, false);
  }

  /** The word of the chunk above a window. */
  lemma AboveHead(m: Mem, h: Chunks, p: int)
    requires HeadsOk(m, h) && p in h && h[p].size % 16 == 0
    ensures OrPinuse(Head(m, p)) == HeadWord(h[p].size, h[p].used, true)
    ensures ClearPinuse(Head(m, p)) == HeadWord(h[p].size, h[p].used, false)
    ensures !Pinuse(m, p) ==> Head(m, p) == HeadWord(h[p].size, h[p].used, false)
  {
    OrClear(h[p].size, h[p].used);
    hide OrPinuse, ClearPinuse, HeadWord;
  }

  /** `set_inuse` on a whole window. */
  lemma InuseTags(m: Mem, h: Chunks, base: int, end: int)
    requires HeadsOk(m, h) && base < end && end in h && h[end].size % 16 == 0
    ensures var n := SetInuse(m, base, end - base);
            Tags1(m, n, h, base, end, true) && TagStores(m, n, {base, end}, {})
  {
    AboveHead(m, h, end);
    assert base in {base, end} && end in {base, end};
    hide HeadWord, OrPinuse, HeadsOk, PinuseBit;
  }

  /** Where `pinuse` is set, `set_inuse_and_pinuse` is `set_inuse`. */
  lemma SetInuseSame(m: Mem, p: int, s: int)
    requires Pinuse(m, p)
    ensures SetInuse(m, p, s) == SetInuseAndPinuse(m, p, s)
  {
  }

  /** `set_free_with_pinuse` on a whole window. */
  lemma FreedTags(m: Mem, h: Chunks, base: int, end: int)
    requires HeadsOk(m, h) && base < end && end in h && h[end].size % 16 == 0 && base % 16 == 0 && end % 16 == 0
    requires Pinuse(m, base)
    ensures var n := SetFreeWithPinuse(m, base, end - base, end);
            Tags1(m, n, h, base, end, false) && TagStores(m, n, {base, end}, {end})
  {
    AboveHead(m, h, end);
    assert base in {base, end} && end in {base, end} && end in {end};
    hide HeadWord, ClearPinuse, HeadsOk, PinuseBit;
  }

  /** `set_size_and_pinuse_of_free_chunk` on a window below which `pinuse` is clear. */
  lemma EnlargedTags(m: Mem, h: Chunks, base: int, end: int)
    requires HeadsOk(m, h) && base < end && end in h && h[end].size % 16 == 0 && base % 16 == 0 && end % 16 == 0
    requires Pinuse(m, base) && !Pinuse(m, end)
    ensures var n := SetFreeChunk(m, base, end - base);
            Tags1(m, n, h, base, end, false) && TagStores(m, n, {base}, {end})
  {
    AboveHead(m, h, end);
    assert base in {base} && end in {end};
    hide HeadWord, ClearPinuse, HeadsOk, PinuseBit;
  }

  /** The head of a new top. */
  function SetTopHead(m: Mem, p: int, s: int): Mem {
    m[p + HEAD := HeadWord(s, false, true)]
  }

  lemma TopTags(m: Mem, h: Chunks, base: int, end: int)
    requires base < end && end !in h && Pinuse(m, base)
    ensures var n := SetTopHead(m, base, end - base);
            Tags1(m, n, h, base, end, false) && TagStores(m, n, {base}, {})
  {
    assert base in {base};
    hide HeadWord, PinuseBit;
  }

  /** Cutting `nb` bytes off the bottom of a free chunk. */
  function CarveStores(m: Mem, p: int, nb: int, s: int): Mem {
    SetFreeChunk(SetInuseChunk(m, p, nb), p + nb, s - nb)
  }

  lemma CarveTags(m: Mem, h: Chunks, base: int, end: int, nb: int)
    requires HeadsOk(m, h) && end in h && h[end].size % 16 == 0
    requires base % 16 == 0 && end % 16 == 0 && nb % 16 == 0 && 0 < nb < end - base
    requires Pinuse(m, base) && !Pinuse(m, end)
    ensures var n := CarveStores(m, base, nb, end - base);
            Tags2(m, n, h, base, end, nb, true, false) && TagStores(m, n, {base, base + nb}, {end})
  {
    AboveHead(m, h, end);
    var r := base + nb;
    assert base in {base, r} && r in {base, r} && end in {end};
    hide HeadWord, OrPinuse, ClearPinuse, HeadsOk, PinuseBit;
  }

  /** Cutting `nb` bytes off the bottom of the top. */
  lemma CarveTopTags(m: Mem, h: Chunks, base: int, end: int, nb: int)
    requires end !in h && 0 < nb < end - base && Pinuse(m, base)
    ensures var n := SetInuseChunk(SetTopHead(m, base + nb, end - base - nb), base, nb);
            Tags2(m, n, h, base, end, nb, true, false) && TagStores(m, n, {base, base + nb}, {})
  {
    var r := base + nb;
    assert base in {base, r} && r in {base, r};
    hide HeadWord, PinuseBit;
  }

  lemma OrPinuseSets(w: int)
    ensures PinuseBit(OrPinuse(w))
  {
  }

  /** Splitting a window into two chunks in use. */
  function SplitStores(m: Mem, p: int, nb: int, s: int): Mem {
    SetInuse(SetInuse(m, p, nb), p + nb, s - nb)
  }

  lemma SplitTags(m: Mem, h: Chunks, base: int, end: int, nb: int)
    requires HeadsOk(m, h) && end in h && h[end].size % 16 == 0 && 0 < nb < end - base
    ensures var n := SplitStores(m, base, nb, end - base);
            Tags2(m, n, h, base, end, nb, true, true) && TagStores(m, n, {base, base + nb, end}, {})
  {
    AboveHead(m, h, end);
    var r := base + nb;
    OrPinuseSets(Head(m, r));
    assert base in {base, r, end} && r in {base, r, end} && end in {base, r, end};
    hide HeadWord, OrPinuse, HeadsOk, PinuseBit;
  }

  /** The same, the upper chunk first. */
  function SplitStoresAbove(m: Mem, p: int, nb: int, s: int): Mem {
    SetInuse(SetInuse(m, p + nb, s - nb), p, nb)
  }

  /** Splitting writes heads only. */
  lemma SplitElsewhere(m: Mem, p: int, nb: int, s: int)
    ensures forall a :: a != p + HEAD && a != p + nb + HEAD && a != p + s + HEAD ==>
              Rd(SplitStores(m, p, nb, s), a) == Rd(m, a) && Rd(SplitStoresAbove(m, p, nb, s), a) == Rd(m, a)
  {
    hide HeadWord, PinuseBit, OrPinuse;
  }

  lemma SplitAboveTags(m: Mem, h: Chunks, base: int, end: int, nb: int)
    requires HeadsOk(m, h) && end in h && h[end].size % 16 == 0 && 0 < nb < end - base && (end - base - nb) % 16 == 0
    ensures var n := SplitStoresAbove(m, base, nb, end - base);
            Tags2(m, n, h, base, end, nb, true, true) && TagStores(m, n, {base, base + nb, end}, {})
  {
    AboveHead(m, h, end);
    var r := base + nb;
    OrClear(end - r, true);
    assert HeadWord(end - r, true, Pinuse(m, r)) in {HeadWord(end - r, true, true), HeadWord(end - r, true, false)};
    assert base in {base, r, end} && r in {base, r, end} && end in {base, r, end};
    hide HeadWord, OrPinuse, HeadsOk, PinuseBit;
  }

  /** Extending a chunk in use into the top. */
  lemma ShiftTopTags(m: Mem, h: Chunks, base: int, end: int, nb: int)
    requires end !in h && 0 < nb < end - base
    ensures var n := SetTopHead(SetInuse(m, base, nb), base + nb, end - base - nb);
            Tags2(m, n, h, base, end, nb, true, false) && TagStores(m, n, {base, base + nb}, {})
  {
    var r := base + nb;
    assert base in {base, r} && r in {base, r};
    hide HeadWord, OrPinuse, PinuseBit;
  }

  /** Extending a chunk in use into the designated victim. */
  function ShiftStores(m: Mem, p: int, nb: int, s: int): Mem {
    var n := SetFreeChunk(SetInuse(m, p, nb), p + nb, s - nb);
    n[p + s + HEAD := ClearPinuse(Head(n, p + s))]
  }

  lemma ShiftTags(m: Mem, h: Chunks, base: int, end: int, nb: int)
    requires HeadsOk(m, h) && end in h && h[end].size % 16 == 0
    requires base % 16 == 0 && end % 16 == 0 && nb % 16 == 0 && 0 < nb < end - base
    ensures var n := ShiftStores(m, base, nb, end - base);
            Tags2(m, n, h, base, end, nb, true, false) && TagStores(m, n, {base, base + nb, end}, {end})
  {
    AboveHead(m, h, end);
    var r := base + nb;
    assert base in {base, r, end} && r in {base, r, end} && end in {base, r, end} && end in {end};
    hide HeadWord, OrPinuse, ClearPinuse, HeadsOk, PinuseBit;
  }

  // ---------------------------------------------------------------- changes of role

  lemma NullIsNoChunk(m: Mem, h: Chunks, top: int, ends: set<int>, least: int)
    requires HeapOk(m, h, top, ends, least)
    ensures 0 !in h
  {
    hide Tagged, Joined, Coalesced;
    forall p | p in h
      ensures p != 0
    {
      assert h[p].size > 0;
    }
  }

  /** The designated victim is laid aside. */
  lemma DvAside(m: Mem, h: Chunks, top: int, topsize: int, dv: int, dvsize: int, ends: set<int>, segs: seq<Segment>,
                b: map<int, int>, least: int, out: set<int>)
    requires Settled(m, h, top, topsize, dv, dvsize, ends, segs, b, least, out) && dv != 0
    ensures Settled(m, h, top, topsize, 0, 0, ends, segs, b, least, out + {dv})
    ensures dv in h && !h[dv].used && h[dv].size == dvsize && dv !in b && dv != top
  {
    NullIsNoChunk(m, h, top, ends, least);
    hide HeapOk, Segmented, TopPlaced;
    assert dv in out + {dv} && h[dv].size == dvsize;
    assert Roles(h, top, topsize, 0, 0, ends, b, out + {dv});
  }

  /** The designated victim is a chunk or null, and no chunk laid aside. */
  lemma DvNull(m: Mem, h: Chunks, top: int, topsize: int, dv: int, dvsize: int, ends: set<int>, segs: seq<Segment>,
               b: map<int, int>, least: int, out: set<int>)
    requires Settled(m, h, top, topsize, dv, dvsize, ends, segs, b, least, out) && 0 !in out
    ensures (dv == 0 <==> dvsize == 0) && dv !in out && 0 <= dvsize < WORD_MAX - HEAP_MIN
  {
    if dv != 0 {
      assert h[dv].size > 0;
    }
  }

  lemma DataSame(m: Mem, u: map<int, int>)
    ensures DataKept(m, m, u)
  {
  }

  /** A chunk laid aside becomes the designated victim. */
  lemma BecomesDv(m: Mem, h: Chunks, top: int, topsize: int, ends: set<int>, segs: seq<Segment>, b: map<int, int>,
                  least: int, r: int)
    requires Settled(m, h, top, topsize, 0, 0, ends, segs, b, least, {r})
    ensures r in h && Settled(m, h, top, topsize, r, h[r].size, ends, segs, b, least, {})
  {
    assert r in {r};
    NullIsNoChunk(m, h, top, ends, least);
    assert h[r].size > 0;
    hide HeapOk, Segmented, TopPlaced;
  }

  /** Stores that link a chunk laid aside into a bin leave the heap settled. */
  lemma IntoBin(m: Mem, n: Mem, h: Chunks, top: int, topsize: int, dv: int, dvsize: int, ends: set<int>,
                segs: seq<Segment>, b: map<int, int>, least: int, out: set<int>, r: int, s: int)
    requires Settled(m, h, top, topsize, dv, dvsize, ends, segs, b, least, out) && r in out
    requires r in h && s == h[r].size && OnlyInside(m, n, b[r := s])
    ensures Settled(n, h, top, topsize, dv, dvsize, ends, segs, b[r := s], least, out - {r})
    ensures DataKept(m, n, Used(h))
  {
    hide HeapOk, Segmented, TopPlaced, OnlyInside, Used, DataKept;
    RolesBinned(h, top, topsize, dv, dvsize, ends, b, out, r);
    FreeStores(m, n, h, top, ends, least, b[r := s]);
  }

  lemma FreeStores(m: Mem, n: Mem, h: Chunks, top: int, ends: set<int>, least: int, b: map<int, int>)
    requires HeapOk(m, h, top, ends, least) && OnlyInside(m, n, b)
    requires forall p :: p in b ==> p in h && !h[p].used && b[p] == h[p].size
    ensures HeapOk(n, h, top, ends, least) && DataKept(m, n, Used(h))
  {
    hide HeapOk, OnlyInside, Used, DataKept;
    InsideKeepsTags(m, n, h, top, ends, least, b);
    UsedFacts(h);
    PayloadIsData(m, n, h, Used(h));
  }

  lemma RolesBinned(h: Chunks, top: int, topsize: int, dv: int, dvsize: int, ends: set<int>, b: map<int, int>,
                    out: set<int>, r: int)
    requires Roles(h, top, topsize, dv, dvsize, ends, b, out) && r in out
    ensures r in h && r !in b && Roles(h, top, topsize, dv, dvsize, ends, b[r := h[r].size], out - {r})
    ensures forall p :: p in b[r := h[r].size] ==> p in h && !h[p].used && b[r := h[r].size][p] == h[p].size
  {
  }

  /** What the bins ask of a chunk about to be linked in. */
  lemma Binnable(m: Mem, h: Chunks, top: int, topsize: int, dv: int, dvsize: int, ends: set<int>,
                 segs: seq<Segment>, b: map<int, int>, least: int, out: set<int>, r: int)
    requires Settled(m, h, top, topsize, dv, dvsize, ends, segs, b, least, out) && r in out
    ensures r in h && r !in b && MIN_CHUNK_SIZE <= h[r].size < WORD_MAX && r != 0
    ensures Spaced(b[r := h[r].size], least) && HeadsRead(m, b)
  {
    hide Tagged, Joined, Coalesced, Segmented, TopPlaced;
    assert h[r].size > 0;
    RolesBinned(h, top, topsize, dv, dvsize, ends, b, out, r);
    BinnedFacts(m, h, top, topsize, dv, dvsize, ends, b, least, out);
    BinnedFacts(m, h, top, topsize, dv, dvsize, ends, b[r := h[r].size], least, out - {r});
  }

  /** Stores that unlink a chunk from its bin lay it aside. */
  lemma OutOfBin(m: Mem, n: Mem, h: Chunks, top: int, topsize: int, dv: int, dvsize: int, ends: set<int>,
                 segs: seq<Segment>, b: map<int, int>, least: int, out: set<int>, r: int)
    requires Settled(m, h, top, topsize, dv, dvsize, ends, segs, b, least, out) && r in b && OnlyInside(m, n, b)
    ensures r in h && h[r].size == b[r]
    ensures Settled(n, h, top, topsize, dv, dvsize, ends, segs, b - {r}, least, out + {r})
    ensures DataKept(m, n, Used(h))
  {
    hide HeapOk, Segmented, TopPlaced, OnlyInside, Used, DataKept;
    FreeStores(m, n, h, top, ends, least, b);
  }

  /** What the bins hold. */
  lemma SettledBinned(m: Mem, h: Chunks, top: int, topsize: int, dv: int, dvsize: int, ends: set<int>,
                      segs: seq<Segment>, b: map<int, int>, least: int, out: set<int>)
    requires Settled(m, h, top, topsize, dv, dvsize, ends, segs, b, least, out)
    ensures HeadsRead(m, b) && Spaced(b, least)
  {
    hide HeapOk, Roles, Segmented, TopPlaced;
    BinnedFacts(m, h, top, topsize, dv, dvsize, ends, b, least, out);
  }

  lemma UsedSize(h: Chunks, ends: set<int>, p: int)
    requires p in Used(h) - ends
    ensures p in h && (Used(h) - ends)[p] == h[p].size
  {
    UsedFacts(h);
  }

  /** No chunk is as large as a request that no system can grant. */
  lemma NothingHuge(m: Mem, h: Chunks, top: int, topsize: int, dv: int, dvsize: int, ends: set<int>,
                    segs: seq<Segment>, b: map<int, int>, least: int)
    requires Settled(m, h, top, topsize, dv, dvsize, ends, segs, b, least, {})
    ensures NoneHolds(b, WORD_MAX - 1)
  {
    hide Settled;
    forall q | q in b
      ensures b[q] < WORD_MAX - 1
    {
      BinnedAligned(m, h, top, topsize, dv, dvsize, ends, segs, b, least, {}, q);
    }
  }

  lemma BinnedAligned(m: Mem, h: Chunks, top: int, topsize: int, dv: int, dvsize: int, ends: set<int>,
                      segs: seq<Segment>, b: map<int, int>, least: int, out: set<int>, p: int)
    requires Settled(m, h, top, topsize, dv, dvsize, ends, segs, b, least, out) && p in b
    ensures HEAP_MIN <= least <= p && p % 16 == 0 && b[p] % 16 == 0 && MIN_CHUNK_SIZE <= b[p] < WORD_MAX
  {
    hide HeapInv, Segmented, TopPlaced;
    SettledBinned(m, h, top, topsize, dv, dvsize, ends, segs, b, least, out);
  }

  // ---------------------------------------------------------------- an array of chunks to free

  /** The chunks whose payloads the entries point to. */
  ghost function Pending(s: seq<int>): set<int> {
    if s == [] then {} else (if s[0] == 0 then {} else {s[0] - 16}) + Pending(s[1..])
  }

  /** No payload is named twice. */
  ghost predicate NamedOnce(s: seq<int>) {
    s == [] || ((s[0] != 0 ==> s[0] - 16 !in Pending(s[1..])) && NamedOnce(s[1..]))
  }

  lemma PendingNone(s: seq<int>)
    requires s == []
    ensures Pending(s) == {}
  {
  }

  lemma FusedRest(u: map<int, int>, p: int, next: int, size: int, todo: set<int>, todo': set<int>)
    requires p in todo && next in todo && todo' == todo - {next} && p != next
    ensures (u - {next})[p := size] - todo' == u - todo
    ensures forall q :: q in u - todo ==> q in u - {p} - {next} && (u - todo)[q] <= (u - {p} - {next})[q]
  {
    assert (u - {next})[p := size] - todo' == u - todo;
  }

  /** The first entry and the others. */
  lemma PendingStep(s: seq<int>, k: nat)
    requires k < |s| && NamedOnce(s[k..])
    ensures NamedOnce(s[k + 1..])
    ensures Pending(s[k..]) == (if s[k] == 0 then {} else {s[k] - 16}) + Pending(s[k + 1..])
    ensures s[k] != 0 ==> s[k] - 16 !in Pending(s[k + 1..])
  {
    assert s[k..][1..] == s[k + 1..];
  }

  /** Where the first two entries are neighbours, the first can stand for both. */
  lemma PendingFused(s: seq<int>, k: nat, t: seq<int>)
    requires k + 1 < |s| && NamedOnce(s[k..]) && s[k] != 0 && s[k + 1] != 0
    requires |t| == |s| && t[k + 1] == s[k] && t[k + 2..] == s[k + 2..]
    ensures NamedOnce(t[k + 1..]) && Pending(t[k + 1..]) == Pending(s[k..]) - {s[k + 1] - 16}
    ensures s[k] - 16 in Pending(s[k..]) && s[k + 1] - 16 in Pending(s[k..]) && s[k] != s[k + 1]
  {
    PendingStep(s, k);
    PendingStep(s, k + 1);
    assert t[k + 1..] == [s[k]] + s[k + 2..];
  }
}
