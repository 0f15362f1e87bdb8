/** The heap as a map of chunks, and the boundary tags that record it in the store. */
module Heap {
  import opened Memory
  import opened Bins

  datatype Extent = Extent(size: int, used: bool)

  /** Every chunk of the heap by its address. */
  type Chunks = map<int, Extent>

  const CHUNK_OVERHEAD := 8

  /** The address just past chunk `p`, where its neighbour starts if it has one. */
  function Next(h: Chunks, p: int): int
    requires p in h
  {
    p + h[p].size
  }

  ghost predicate IsChunk(h: Chunks, p: int, size: int, used: bool) {
    p in h && h[p] == Extent(size, used)
  }

  /** Chunks are aligned, lie above `least`, do not overlap, and all but the top are of minimum size. */
  ghost predicate Laid(h: Chunks, top: int, least: int) {
    && HEAP_MIN <= least
    && (forall p {:trigger h[p]} :: p in h ==>
          && least <= p && p % 16 == 0 && h[p].size % 16 == 0 && 0 < h[p].size && p + h[p].size < WORD_MAX
          && (p != top ==> MIN_CHUNK_SIZE <= h[p].size))
    && (forall p, q {:trigger h[p], h[q]} :: p in h && q in h && p < q ==> p + h[p].size <= q)
  }

  /** Every chunk has a neighbour above it except those in `ends`: the top and the last chunk of each older
      segment, which stays in use for ever. */
  ghost predicate Joined(h: Chunks, ends: set<int>) {
    && (forall p {:trigger Next(h, p)} :: p in h && p !in ends ==> Next(h, p) in h)
    && (forall p {:trigger p in ends} :: p in ends ==> p in h && Next(h, p) !in h)
  }

  /** No two free chunks touch. */
  ghost predicate Coalesced(h: Chunks) {
    forall p {:trigger Next(h, p)} :: p in h && !h[p].used && Next(h, p) in h ==> h[Next(h, p)].used
  }

  predicate PinuseBit(w: int) { w % 2 == 1 }

  predicate CinuseBit(w: int) { w / 2 % 2 == 1 }

  predicate Pinuse(m: Mem, p: int) { PinuseBit(Head(m, p)) }

  predicate Cinuse(m: Mem, p: int) { CinuseBit(Head(m, p)) }

  function HeadWord(size: int, used: bool, pinuse: bool): int {
    size + (if used then 2 else 0) + if pinuse then 1 else 0
  }

  /** Heads hold the sizes and the in-use bits. */
  ghost predicate HeadsOk(m: Mem, h: Chunks) {
    forall p {:trigger Head(m, p)} :: p in h ==> Head(m, p) == HeadWord(h[p].size, h[p].used, Pinuse(m, p))
  }

  /** `pinuse` mirrors the chunk below. */
  ghost predicate PinsOk(m: Mem, h: Chunks) {
    forall p {:trigger Next(h, p)} :: p in h && Next(h, p) in h ==> (Pinuse(m, Next(h, p)) <==> h[p].used)
  }

  /** Where `pinuse` is clear, `prev_foot` leads back to a free chunk that ends here. */
  ghost predicate FeetOk(m: Mem, h: Chunks) {
    forall p {:trigger FreeBelow(m, h, p)} :: p in h && !Pinuse(m, p) ==> FreeBelow(m, h, p)
  }

  ghost predicate FreeBelow(m: Mem, h: Chunks, p: int) {
    var q := p - Foot(m, p);
    q in h && !h[q].used && q + h[q].size == p
  }

  /** The boundary tags record the chunks. */
  ghost predicate Tagged(m: Mem, h: Chunks) {
    HeadsOk(m, h) && PinsOk(m, h) && FeetOk(m, h)
  }

  /** Everything about the heap but the bins. */
  ghost predicate HeapOk(m: Mem, h: Chunks, top: int, ends: set<int>, least: int) {
    Laid(h, top, least) && Joined(h, ends) && Coalesced(h) && Tagged(m, h)
  }

  /** The payload of every chunk in use is as it was. */
  ghost predicate PayloadKept(m: Mem, n: Mem, h: Chunks) {
    forall p, a :: p in h && h[p].used && p + FD <= a < Next(h, p) + CHUNK_OVERHEAD ==> Rd(n, a) == Rd(m, a)
  }

  // ---------------------------------------------------------------- reading the tags

  /** What the words of a chunk say. */
  lemma TagFacts(m: Mem, h: Chunks, top: int, ends: set<int>, least: int, p: int)
    requires HeapOk(m, h, top, ends, least) && p in h
    ensures ChunkSize(m, p) == h[p].size && (Cinuse(m, p) <==> h[p].used)
    ensures !h[p].used ==> Pinuse(m, p)
    ensures !Pinuse(m, p) ==>
              var q := p - Foot(m, p);
              && q in h && !h[q].used && Next(h, q) == p && Foot(m, p) == h[q].size && q < p && q !in ends
    ensures p !in ends ==> Next(h, p) in h && (Pinuse(m, Next(h, p)) <==> h[p].used) && Next(h, p) != p
  {
    HeadWordFacts(h[p].size, h[p].used, Pinuse(m, p));
    if !Pinuse(m, p) {
      assert FreeBelow(m, h, p);
      var q := p - Foot(m, p);
      assert Next(h, q) == p;
    }
  }

  lemma HeadWordFacts(size: int, used: bool, pinuse: bool)
    requires size % 16 == 0
    ensures var w := HeadWord(size, used, pinuse);
            && w - w % 8 == size
            && (CinuseBit(w) <==> used)
            && (PinuseBit(w) <==> pinuse)
  {
    BitFacts(HeadWord(size, used, pinuse), size / 16, (if used then 2 else 0) + if pinuse then 1 else 0);
  }

  lemma BitFacts(w: int, k: int, c: int)
    requires w == 16 * k + c && 0 <= c < 4
    ensures w % 8 == c && w / 2 % 2 == c / 2 && w % 2 == c % 2
  {
    Remainder(w, 2 * k, c, 8);
    Remainder(w, 8 * k + c / 2, c % 2, 2);
    Remainder(8 * k + c / 2, 4 * k, c / 2, 2);
  }

  lemma Remainder(a: int, q: int, r: int, d: int)
    requires d in {2, 8} && a == q * d + r && 0 <= r < d
    ensures a / d == q && a % d == r
  {
  }

  lemma SameTags(m: Mem, n: Mem, h: Chunks)
    requires Tagged(m, h)
    requires forall p :: p in h ==> Head(n, p) == Head(m, p) && Foot(n, p) == Foot(m, p)
    ensures Tagged(n, h)
  {
    hide PinuseBit, HeadWord, Head, Foot;
    assert HeadsOk(n, h);
    assert PinsOk(n, h) by {
      hide HeadsOk, FeetOk;
    }
    forall p | p in h && !Pinuse(n, p)
      ensures FreeBelow(n, h, p)
    {
      assert FreeBelow(m, h, p);
    }
  }

  /** Stores inside free chunks leave every tag and payload alone. */
  lemma InsideKeepsTags(m: Mem, n: Mem, h: Chunks, top: int, ends: set<int>, least: int, b: map<int, int>)
    requires HeapOk(m, h, top, ends, least) && OnlyInside(m, n, b)
    requires forall p :: p in b ==> p in h && !h[p].used && b[p] == h[p].size
    ensures HeapOk(n, h, top, ends, least)
    ensures PayloadKept(m, n, h)
    ensures forall p :: p in h ==> Head(n, p) == Head(m, p) && Foot(n, p) == Foot(m, p)
  {
    hide Tagged, Joined, Coalesced;
    forall p | p in h
      ensures Head(n, p) == Head(m, p) && Foot(n, p) == Foot(m, p)
    {
      forall q | q in b
        ensures p + HEAD < q + FD || q + b[q] <= p
      {
      }
    }
    SameTags(m, n, h);
    PayloadOutside(m, n, h, top, least, b);
  }

  lemma PayloadOutside(m: Mem, n: Mem, h: Chunks, top: int, least: int, b: map<int, int>)
    requires Laid(h, top, least) && OnlyInside(m, n, b)
    requires forall p :: p in b ==> p in h && !h[p].used && b[p] == h[p].size
    ensures PayloadKept(m, n, h)
  {
    forall p, a | p in h && h[p].used && p + FD <= a < Next(h, p) + CHUNK_OVERHEAD
      ensures Rd(n, a) == Rd(m, a)
    {
      forall q | q in b
        ensures a < q + FD || q + b[q] <= a
      {
        assert p != q;
      }
    }
  }

  /** Free chunks meet the spacing the bins ask for. */
  lemma FreeSpaced(h: Chunks, top: int, least: int, b: map<int, int>)
    requires Laid(h, top, least)
    requires forall p :: p in b ==> p in h && b[p] == h[p].size && p != top
    ensures Spaced(b, least)
  {
  }

  // ---------------------------------------------------------------- writing the tags

  /** `n` differs from `m` at most in the heads of the addresses `hs` and the `prev_foot` words of `fs`. */
  ghost predicate TagStores(m: Mem, n: Mem, hs: set<int>, fs: set<int>) {
    forall a :: a - HEAD !in hs && a !in fs ==> Rd(n, a) == Rd(m, a)
  }

  /** No chunk of `b` has `q` strictly inside. */
  ghost predicate Boundary(b: map<int, int>, q: int) {
    HEAP_MIN <= q && forall p :: p in b ==> q <= p || p + b[p] <= q
  }

  lemma TagStoresKeepBins(m: Mem, n: Mem, hs: set<int>, fs: set<int>, b: map<int, int>)
    requires TagStores(m, n, hs, fs)
    requires forall q :: q in hs || q in fs ==> Boundary(b, q)
    ensures InsidesKept(m, n, b)
  {
  }

  /** Heads at boundaries of the chunks in use, and feet above free chunks, are no part of any payload. */
  lemma TagStoresKeepPayload(m: Mem, n: Mem, hs: set<int>, fs: set<int>, h: Chunks)
    requires TagStores(m, n, hs, fs)
    requires forall p, q :: p in h && h[p].used && q in hs ==> q <= p || Next(h, p) <= q
    requires forall p, q :: p in h && h[p].used && q in fs ==> q <= p || Next(h, p) + CHUNK_OVERHEAD <= q
    ensures PayloadKept(m, n, h)
  {
  }

  /** Set or clear the `pinuse` bit of a head word. */
  function OrPinuse(w: int): int { if w % 2 == 1 then w else w + 1 }

  function ClearPinuse(w: int): int { if w % 2 == 1 then w - 1 else w }

  /** `set_inuse_and_pinuse`. */
  function SetInuseAndPinuse(m: Mem, p: int, s: int): Mem {
    var n := m[p + HEAD := HeadWord(s, true, true)];
    n[p + s + HEAD := OrPinuse(Head(n, p + s))]
  }

  /** `set_size_and_pinuse_of_inuse_chunk`. */
  function SetInuseChunk(m: Mem, p: int, s: int): Mem {
    m[p + HEAD := HeadWord(s, true, true)]
  }

  /** `set_size_and_pinuse_of_free_chunk`. */
  function SetFreeChunk(m: Mem, p: int, s: int): Mem {
    m[p + HEAD := HeadWord(s, false, true)][p + s := s]
  }

  /** `set_free_with_pinuse`. */
  function SetFreeWithPinuse(m: Mem, p: int, s: int, next: int): Mem {
    SetFreeChunk(m[next + HEAD := ClearPinuse(Head(m, next))], p, s)
  }

  /** `set_inuse`, which keeps the `pinuse` bit of the chunk itself. */
  function SetInuse(m: Mem, p: int, s: int): Mem {
    var n := m[p + HEAD := HeadWord(s, true, Pinuse(m, p))];
    n[p + s + HEAD := OrPinuse(Head(n, p + s))]
  }

  // ---------------------------------------------------------------- changing a window of the heap

  /** `h'` differs from `h` only between `base` and `end`, which are chunk boundaries of both. */
  ghost predicate SameOutside(h: Chunks, h': Chunks, base: int, end: int) {
    && base in h && base in h' && base < end
    && (forall q {:trigger q in h} {:trigger q in h'} :: q < base || end <= q ==> (q in h <==> q in h'))
    && (forall q {:trigger h[q]} {:trigger h'[q]} :: q in h && q in h' && (q < base || end <= q) ==> h[q] == h'[q])
    && (forall q {:trigger h[q]} :: q in h && base <= q < end ==> q + h[q].size <= end)
    && (forall q {:trigger h'[q]} :: q in h' && base <= q < end ==> q + h'[q].size <= end)
  }

  ghost predicate InWindow(h: Chunks, q: int, base: int, end: int) {
    q in h && base <= q < end
  }

  /** The chunks of the window are laid out well. */
  ghost predicate WindowLaid(h': Chunks, top': int, base: int, end: int) {
    && (forall q {:trigger h'[q]} :: InWindow(h', q, base, end) ==>
          && q % 16 == 0 && h'[q].size % 16 == 0 && 0 < h'[q].size
          && (q != top' ==> MIN_CHUNK_SIZE <= h'[q].size))
    && (forall p, q {:trigger h'[p], h'[q]} :: InWindow(h', p, base, end) && InWindow(h', q, base, end) && p < q ==>
          p + h'[p].size <= q)
  }

  /** Every chunk of the window has a neighbour above unless it is an end, and outside the ends are unchanged. */
  ghost predicate WindowJoined(h': Chunks, ends: set<int>, ends': set<int>, base: int, end: int) {
    && (forall q {:trigger Next(h', q)} :: InWindow(h', q, base, end) && q !in ends' ==> Next(h', q) in h')
    && (forall q {:trigger q in ends'} :: q in ends' && base <= q < end ==> q in h' && Next(h', q) !in h')
    && (forall q {:trigger q in ends} {:trigger q in ends'} :: q < base || end <= q ==> (q in ends <==> q in ends'))
  }

  /** No free chunk of the window has a free neighbour above. */
  ghost predicate WindowCoalesced(h': Chunks, base: int, end: int) {
    forall q {:trigger Next(h', q)} :: InWindow(h', q, base, end) && !h'[q].used && Next(h', q) in h' ==>
          h'[Next(h', q)].used
  }

  lemma WindowKeepsLaid(h: Chunks, h': Chunks, top: int, top': int, least: int, base: int, end: int)
    requires Laid(h, top, least) && SameOutside(h, h', base, end)
    requires WindowLaid(h', top', base, end) && end < WORD_MAX
    requires top' == top || base <= top < end
    ensures Laid(h', top', least)
  {
    forall p | p in h'
      ensures least <= p && p % 16 == 0 && h'[p].size % 16 == 0 && 0 < h'[p].size && p + h'[p].size < WORD_MAX
      ensures p != top' ==> MIN_CHUNK_SIZE <= h'[p].size
    {
      assert h[base].size > 0;
      if !InWindow(h', p, base, end) {
        assert p in h && h'[p] == h[p];
      }
    }
    forall p, q | p in h' && q in h' && p < q
      ensures p + h'[p].size <= q
    {
      if !InWindow(h', p, base, end) {
        assert p in h && h'[p] == h[p];
        assert h[base].size > 0;
        if q in h {
          assert h[q].size > 0;
        }
      }
    }
  }

  lemma WindowKeepsJoined(h: Chunks, h': Chunks, top: int, least: int, ends: set<int>, ends': set<int>, base: int,
                          end: int)
    requires Laid(h, top, least) && Joined(h, ends) && SameOutside(h, h', base, end)
    requires WindowJoined(h', ends, ends', base, end)
    ensures Joined(h', ends')
  {
    forall q | q in h' && q !in ends'
      ensures Next(h', q) in h'
    {
      if !InWindow(h', q, base, end) {
        OutsideNext(h, h', top, least, base, end, q);
      }
    }
    forall q | q in ends'
      ensures q in h' && Next(h', q) !in h'
    {
      if q < base || end <= q {
        OutsideNext(h, h', top, least, base, end, q);
      }
    }
  }

  /** The neighbour of a chunk outside the window is the same in both heaps. */
  lemma OutsideNext(h: Chunks, h': Chunks, top: int, least: int, base: int, end: int, q: int)
    requires Laid(h, top, least) && SameOutside(h, h', base, end) && q in h && (q < base || end <= q)
    ensures q in h' && h'[q] == h[q] && Next(h', q) == Next(h, q)
    ensures Next(h, q) in h <==> Next(h, q) in h'
    ensures Next(h, q) <= base || end < Next(h, q)
    ensures q < base ==> Next(h, q) <= base
  {
    assert h'[q] == h[q];
    assert h[base].size > 0;
  }

  lemma WindowKeepsCoalesced(h: Chunks, h': Chunks, top: int, least: int, base: int, end: int)
    requires Laid(h, top, least) && Coalesced(h) && SameOutside(h, h', base, end)
    requires WindowCoalesced(h', base, end)
    requires h'[base].used || !h[base].used || forall q :: q in h && Next(h, q) == base ==> h[q].used
    ensures Coalesced(h')
  {
    forall q | q in h' && !h'[q].used && Next(h', q) in h'
      ensures h'[Next(h', q)].used
    {
      if !InWindow(h', q, base, end) {
        OutsideNext(h, h', top, least, base, end, q);
        if Next(h, q) != base {
          assert h'[Next(h, q)] == h[Next(h, q)];
        }
      }
    }
  }

  /** The tags that a change of the window must set right, and those it must leave. */
  ghost predicate Retagged(m: Mem, n: Mem, h: Chunks, h': Chunks, base: int, end: int) {
    && (forall q {:trigger Head(n, q)} :: q in h && (q < base || end < q) ==> Head(n, q) == Head(m, q))
    && (forall q {:trigger Foot(n, q)} :: q in h && (q <= base || end < q) ==> Foot(n, q) == Foot(m, q))
    && (Pinuse(n, base) <==> Pinuse(m, base))
    && (end in h ==> Head(n, end) == HeadWord(h[end].size, h[end].used, Pinuse(n, end)))
    && (forall q {:trigger Head(n, q)} :: InWindow(h', q, base, end) ==>
          Head(n, q) == HeadWord(h'[q].size, h'[q].used, Pinuse(n, q)))
    && (forall q {:trigger Next(h', q)} :: InWindow(h', q, base, end) && Next(h', q) in h' ==>
          (Pinuse(n, Next(h', q)) <==> h'[q].used))
    && (forall q {:trigger FreeBelow(n, h', q)} :: q in h' && base < q <= end && !Pinuse(n, q) ==> FreeBelow(n, h', q))
  }

  lemma WindowKeepsTagged(m: Mem, n: Mem, h: Chunks, h': Chunks, top: int, least: int, base: int, end: int)
    requires Laid(h, top, least) && Tagged(m, h) && SameOutside(h, h', base, end)
    requires Retagged(m, n, h, h', base, end)
    ensures Tagged(n, h')
  {
    hide HeadWord, PinuseBit;
    forall q | q in h'
      ensures Head(n, q) == HeadWord(h'[q].size, h'[q].used, Pinuse(n, q))
    {
      if !InWindow(h', q, base, end) {
        assert h'[q] == h[q];
        if q != end {
          assert Head(n, q) == Head(m, q);
        }
      }
    }
    assert HeadsOk(n, h');
    WindowKeepsPins(m, n, h, h', top, least, base, end);
    WindowKeepsFeet(m, n, h, h', top, least, base, end);
  }

  lemma WindowKeepsPins(m: Mem, n: Mem, h: Chunks, h': Chunks, top: int, least: int, base: int, end: int)
    requires Laid(h, top, least) && PinsOk(m, h) && SameOutside(h, h', base, end)
    requires Retagged(m, n, h, h', base, end)
    ensures PinsOk(n, h')
  {
    hide HeadWord, PinuseBit;
    forall q | q in h' && Next(h', q) in h'
      ensures Pinuse(n, Next(h', q)) <==> h'[q].used
    {
      if !InWindow(h', q, base, end) {
        OutsideNext(h, h', top, least, base, end, q);
        var x := Next(h, q);
        if x != base {
          assert Head(n, x) == Head(m, x);
        }
      }
    }
  }

  lemma WindowKeepsFeet(m: Mem, n: Mem, h: Chunks, h': Chunks, top: int, least: int, base: int, end: int)
    requires Laid(h, top, least) && FeetOk(m, h) && SameOutside(h, h', base, end)
    requires Retagged(m, n, h, h', base, end)
    ensures FeetOk(n, h')
  {
    hide HeadWord, PinuseBit;
    forall q | q in h' && !Pinuse(n, q)
      ensures FreeBelow(n, h', q)
    {
      if !(base < q <= end) {
        if q != base {
          assert Head(n, q) == Head(m, q);
        }
        assert FreeBelow(m, h, q);
        assert Foot(n, q) == Foot(m, q);
        var b := q - Foot(m, q);
        assert h[b].size > 0 && h[base].size > 0;
        assert b < base || end <= b;
        assert h'[b] == h[b];
      }
    }
  }

  /** A change of the window keeps the heap well formed. */
  lemma WindowKeeps(m: Mem, n: Mem, h: Chunks, h': Chunks, top: int, top': int, ends: set<int>, ends': set<int>,
                    least: int, base: int, end: int)
    requires HeapOk(m, h, top, ends, least) && SameOutside(h, h', base, end) && end < WORD_MAX
    requires WindowLaid(h', top', base, end) && (top' == top || base <= top < end)
    requires Retagged(m, n, h, h', base, end)
    requires WindowJoined(h', ends, ends', base, end)
    requires WindowCoalesced(h', base, end)
    requires h'[base].used || !h[base].used || forall q :: q in h && Next(h, q) == base ==> h[q].used
    ensures HeapOk(n, h', top', ends', least)
  {
    WindowKeepsLaid(h, h', top, top', least, base, end) by {
      hide Joined, Coalesced, Tagged, Retagged;
    }
    WindowKeepsJoined(h, h', top, least, ends, ends', base, end) by {
      hide Coalesced, Tagged, Retagged;
    }
    WindowKeepsCoalesced(h, h', top, least, base, end) by {
      hide Joined, Tagged, Retagged;
    }
    WindowKeepsTagged(m, n, h, h', top, least, base, end);
  }

  // ---------------------------------------------------------------- recutting a window

  /** The chunks that do not start between `base` and `end`. */
  ghost function Outside(h: Chunks, base: int, end: int): Chunks {
    map q | q in h && !(base <= q < end) :: h[q]
  }

  /** The window becomes one chunk. */
  ghost function Recut1(h: Chunks, base: int, end: int, used: bool): Chunks {
    Outside(h, base, end)[base := Extent(end - base, used)]
  }

  /** The window becomes two chunks, the lower of `nb` bytes. */
  ghost function Recut2(h: Chunks, base: int, end: int, nb: int, usedA: bool, usedB: bool): Chunks {
    Outside(h, base, end)[base := Extent(nb, usedA)][base + nb := Extent(end - base - nb, usedB)]
  }

  /** The chunks of `h` tile the window from `base` to `end`. */
  ghost predicate Window(h: Chunks, base: int, end: int) {
    && base in h && base < end && end % 16 == 0 && end < WORD_MAX
    && (forall q {:trigger h[q]} :: q in h && base <= q < end ==> q + h[q].size <= end)
    && (forall q {:trigger Next(h, q)} :: q in h && base <= q < end ==> Next(h, q) == end || Next(h, q) in h)
  }

  /** The ends after a recut whose last chunk is `last`. */
  ghost function EndsAfter(h: Chunks, ends: set<int>, base: int, end: int, last: int): set<int> {
    if end in h then ends else (set q | q in ends && !(base <= q < end)) + {last}
  }

  lemma Recut1Shape(h: Chunks, top: int, least: int, base: int, end: int, used: bool)
    requires Laid(h, top, least) && Window(h, base, end)
    ensures var h' := Recut1(h, base, end, used);
            && SameOutside(h, h', base, end)
            && (forall q :: InWindow(h', q, base, end) <==> q == base)
            && Next(h', base) == end && (end in h <==> end in h')
            && (end in h ==> h'[end] == h[end])
            && base % 16 == 0
  {
  }

  lemma Recut2Shape(h: Chunks, top: int, least: int, base: int, end: int, nb: int, usedA: bool, usedB: bool)
    requires Laid(h, top, least) && Window(h, base, end) && 0 < nb < end - base
    ensures var h' := Recut2(h, base, end, nb, usedA, usedB);
            && SameOutside(h, h', base, end)
            && (forall q :: InWindow(h', q, base, end) <==> q == base || q == base + nb)
            && Next(h', base) == base + nb && Next(h', base + nb) == end
            && (end in h <==> end in h')
            && (end in h ==> h'[end] == h[end])
            && base % 16 == 0
  {
  }

  lemma OutsideGap(h: Chunks, top: int, least: int, base: int, end: int, p: int)
    requires Laid(h, top, least) && Window(h, base, end) && p in h && !(base <= p < end)
    ensures p + h[p].size <= base || end <= p
    ensures HEAP_MIN <= base && base % 16 == 0
  {
    assert h[p].size > 0 && h[base].size > 0;
  }

  lemma NextMultiple(a: int, b: int)
    requires a % 16 == 0 && b % 16 == 0 && a < b
    ensures a + 16 <= b
  {
  }

  /** Tag stores confined to a window leave the bins and the payloads outside it alone. */
  lemma WindowFrame(m: Mem, n: Mem, h: Chunks, top: int, least: int, base: int, end: int, hs: set<int>, fs: set<int>,
                    b: map<int, int>)
    requires Laid(h, top, least) && Window(h, base, end) && TagStores(m, n, hs, fs)
    requires forall q :: q in hs ==> base <= q <= end
    requires forall q :: q in fs ==> base < q <= end && q % 16 == 0
    requires forall q :: q in b ==> q in h && b[q] == h[q].size && !(base <= q < end)
    ensures InsidesKept(m, n, b)
    ensures PayloadKept(m, n, Outside(h, base, end))
  {
    hide Laid, TagStores, InsidesKept, PayloadKept, Window;
    var o := Outside(h, base, end);
    WindowStarts(h, base, end);
    BaseAligned(h, top, least, base);
    forall p | p in o
      ensures Next(o, p) <= base || end <= p
    {
      OutsideGap(h, top, least, base, end, p);
    }
    forall q | q in fs
      ensures base + 16 <= q
    {
      NextMultiple(base, q);
    }
    forall q | q in hs || q in fs
      ensures Boundary(b, q)
    {
      forall p | p in b
        ensures q <= p || p + b[p] <= q
      {
        OutsideGap(h, top, least, base, end, p);
      }
    }
    TagStoresKeepBins(m, n, hs, fs, b);
    hide Outside;
    TagStoresKeepPayload(m, n, hs, fs, o);
  }

  lemma BaseAligned(h: Chunks, top: int, least: int, p: int)
    requires Laid(h, top, least) && p in h
    ensures HEAP_MIN <= p && p % 16 == 0
  {
    assert h[p].size > 0;
  }

  /** Outside the window nothing is retagged. */
  lemma OutsideTags(m: Mem, n: Mem, h: Chunks, top: int, least: int, base: int, end: int, hs: set<int>, fs: set<int>)
    requires Laid(h, top, least) && Window(h, base, end) && TagStores(m, n, hs, fs)
    requires forall q :: q in hs ==> base <= q <= end && q % 16 == 0
    requires forall q :: q in fs ==> base < q <= end && q % 16 == 0
    ensures forall q {:trigger Head(n, q)} :: q in h && (q < base || end < q) ==> Head(n, q) == Head(m, q)
    ensures forall q {:trigger Foot(n, q)} :: q in h && (q <= base || end < q) ==> Foot(n, q) == Foot(m, q)
  {
    forall q | q in h
      ensures q % 16 == 0
    {
      assert h[q].size > 0;
    }
  }

  lemma FreeBelowIs(m: Mem, h: Chunks, p: int, q: int)
    requires q in h && !h[q].used && q + h[q].size == p && Foot(m, p) == h[q].size
    ensures FreeBelow(m, h, p)
  {
  }

  /** What the tags of a window recut into one chunk must be. */
  ghost predicate Tags1(m: Mem, n: Mem, h: Chunks, base: int, end: int, used: bool) {
    && Head(n, base) == HeadWord(end - base, used, Pinuse(m, base))
    && (end in h ==> Head(n, end) == HeadWord(h[end].size, h[end].used, used))
    && (end in h && !used ==> Foot(n, end) == end - base)
  }

  lemma Recut1Retagged(m: Mem, n: Mem, h: Chunks, top: int, least: int, base: int, end: int, used: bool,
                       hs: set<int>, fs: set<int>)
    requires Laid(h, top, least) && Window(h, base, end) && TagStores(m, n, hs, fs) && Tags1(m, n, h, base, end, used)
    requires forall q :: q in hs ==> base <= q <= end && q % 16 == 0
    requires forall q :: q in fs ==> base < q <= end && q % 16 == 0
    ensures Retagged(m, n, h, Recut1(h, base, end, used), base, end)
  {
    hide PinuseBit, CinuseBit, Laid, Window, TagStores, SameOutside, HeadWord, FreeBelow, Foot, Outside;
    var h' := Recut1(h, base, end, used);
    Recut1Shape(h, top, least, base, end, used);
    OutsideTags(m, n, h, top, least, base, end, hs, fs);
    WindowBounds(h, top, least, base, end);
    Mod16(end, base);
    HeadWordFacts(end - base, used, Pinuse(m, base));
    if end in h {
      SizeAligned(h, top, least, end);
      HeadWordFacts(h[end].size, h[end].used, used);
    }
    assert h'[base] == Extent(end - base, used);
    hide Recut1;
    if end in h && !used {
      FreeBelowIs(n, h', end, base);
    }
    forall q | q in h' && base < q <= end && !Pinuse(n, q)
      ensures FreeBelow(n, h', q)
    {
      assert q < end ==> InWindow(h', q, base, end);
    }
  }

  lemma Recut1Parts(h: Chunks, top: int, top': int, least: int, ends: set<int>, base: int, end: int, used: bool)
    requires Laid(h, top, least) && Joined(h, ends) && Window(h, base, end)
    requires base == top' || MIN_CHUNK_SIZE <= end - base
    requires !used && end in h ==> h[end].used
    ensures var h', ends' := Recut1(h, base, end, used), EndsAfter(h, ends, base, end, base);
            && WindowLaid(h', top', base, end) && WindowJoined(h', ends, ends', base, end)
            && WindowCoalesced(h', base, end) && SameOutside(h, h', base, end)
            && h'[base].used == used && end < WORD_MAX
  {
    hide Laid, Joined, SameOutside, WindowLaid, WindowJoined, WindowCoalesced, Outside;
    var h', ends' := Recut1(h, base, end, used), EndsAfter(h, ends, base, end, base);
    Recut1Shape(h, top, least, base, end, used);
    WindowEnds(h, top, least, ends, base, end);
    WindowBounds(h, top, least, base, end);
    Mod16(end, base);
    assert h'[base] == Extent(end - base, used);
    OneJoined(h, h', ends, base, end);
    hide Recut1, Window, EndsAfter;
    OneLaid(h', top', base, end, used);
  }

  lemma SizeAligned(h: Chunks, top: int, least: int, q: int)
    requires Laid(h, top, least) && q in h
    ensures h[q].size % 16 == 0
  {
  }

  lemma WindowBounds(h: Chunks, top: int, least: int, base: int, end: int)
    requires Laid(h, top, least) && Window(h, base, end)
    ensures base < end < WORD_MAX && base % 16 == 0 && end % 16 == 0
  {
  }

  /** A window of one chunk. */
  lemma OneLaid(h': Chunks, top': int, base: int, end: int, used: bool)
    requires forall q :: InWindow(h', q, base, end) <==> q == base
    requires base in h' && h'[base] == Extent(end - base, used) && base < end
    requires base % 16 == 0 && (end - base) % 16 == 0 && (base == top' || MIN_CHUNK_SIZE <= end - base)
    requires !used && end in h' ==> h'[end].used
    ensures WindowLaid(h', top', base, end) && WindowCoalesced(h', base, end)
  {
  }

  lemma OneJoined(h: Chunks, h': Chunks, ends: set<int>, base: int, end: int)
    requires forall q :: InWindow(h', q, base, end) <==> q == base
    requires base in h' && Next(h', base) == end && (end in h <==> end in h') && base < end
    requires forall q :: q in ends && base <= q < end ==> end !in h
    ensures WindowJoined(h', ends, EndsAfter(h, ends, base, end, base), base, end)
  {
  }

  /** A window recut into one chunk: taking a free chunk, fusing free neighbours, growing or joining chunks in
      use. */
  lemma Recut1Keeps(m: Mem, n: Mem, h: Chunks, top: int, top': int, ends: set<int>, least: int,
                    base: int, end: int, used: bool, hs: set<int>, fs: set<int>, b: map<int, int>)
    requires HeapOk(m, h, top, ends, least) && Window(h, base, end)
    requires TagStores(m, n, hs, fs) && Tags1(m, n, h, base, end, used)
    requires forall q :: q in hs ==> base <= q <= end && q % 16 == 0
    requires forall q :: q in fs ==> base < q <= end && q % 16 == 0
    requires base == top' || MIN_CHUNK_SIZE <= end - base
    requires if base <= top < end then top' == base else top' == top
    requires !used ==> Pinuse(m, base) && (end in h ==> h[end].used)
    requires forall q :: q in b ==> q in h && b[q] == h[q].size && !(base <= q < end)
    ensures HeapOk(n, Recut1(h, base, end, used), top', EndsAfter(h, ends, base, end, base), least)
    ensures InsidesKept(m, n, b) && PayloadKept(m, n, Outside(h, base, end))
  {
    hide HeadWord, PinuseBit, CinuseBit, Tagged, InsidesKept, PayloadKept, TagStores, Coalesced, Laid, Joined, Window,
      Tags1, Recut1, Outside, EndsAfter, Retagged, SameOutside, WindowLaid, WindowJoined, WindowCoalesced;
    Recut1Parts(h, top, top', least, ends, base, end, used);
    Recut1Retagged(m, n, h, top, least, base, end, used, hs, fs);
    WindowFrame(m, n, h, top, least, base, end, hs, fs, b);
    if !used {
      WindowStarts(h, base, end);
      BelowFree(m, h, top, ends, least, base);
    }
    WindowKeeps(m, n, h, Recut1(h, base, end, used), top, top', ends, EndsAfter(h, ends, base, end, base), least,
        base, end);
  }

  lemma Mod16(a: int, b: int)
    requires a % 16 == 0 && b % 16 == 0
    ensures (a - b) % 16 == 0 && (a + b) % 16 == 0
  {
  }

  lemma WindowStarts(h: Chunks, base: int, end: int)
    requires Window(h, base, end)
    ensures base in h
  {
  }

  /** Where `pinuse` is set, no free chunk ends. */
  lemma BelowFree(m: Mem, h: Chunks, top: int, ends: set<int>, least: int, p: int)
    requires HeapOk(m, h, top, ends, least) && p in h && Pinuse(m, p)
    ensures forall q :: q in h && Next(h, q) == p ==> h[q].used
  {
  }

  /** Only the last chunk of a window with nothing above it is an end. */
  lemma WindowEnds(h: Chunks, top: int, least: int, ends: set<int>, base: int, end: int)
    requires Laid(h, top, least) && Joined(h, ends) && Window(h, base, end)
    ensures forall q :: q in ends && base <= q < end ==> end !in h
  {
    forall q | q in ends && base <= q < end
      ensures end !in h
    {
      assert h[q].size > 0 && Next(h, q) !in h;
    }
  }

  /** What the tags of a window recut into two chunks must be. */
  ghost predicate Tags2(m: Mem, n: Mem, h: Chunks, base: int, end: int, nb: int, usedA: bool, usedB: bool) {
    && Head(n, base) == HeadWord(nb, usedA, Pinuse(m, base))
    && Head(n, base + nb) == HeadWord(end - base - nb, usedB, usedA)
    && (end in h ==> Head(n, end) == HeadWord(h[end].size, h[end].used, usedB))
    && (!usedA ==> Foot(n, base + nb) == nb)
    && (end in h && !usedB ==> Foot(n, end) == end - base - nb)
  }

  lemma Recut2Retagged(m: Mem, n: Mem, h: Chunks, top: int, least: int, base: int, end: int, nb: int,
                       usedA: bool, usedB: bool, hs: set<int>, fs: set<int>)
    requires Laid(h, top, least) && Window(h, base, end) && TagStores(m, n, hs, fs)
    requires Tags2(m, n, h, base, end, nb, usedA, usedB)
    requires 0 < nb < end - base && nb % 16 == 0
    requires forall q :: q in hs ==> base <= q <= end && q % 16 == 0
    requires forall q :: q in fs ==> base < q <= end && q % 16 == 0
    ensures Retagged(m, n, h, Recut2(h, base, end, nb, usedA, usedB), base, end)
  {
    hide PinuseBit, CinuseBit, HeadWord, Head, Laid, Window, TagStores, SameOutside, FreeBelow, Foot, Outside;
    var h', r := Recut2(h, base, end, nb, usedA, usedB), base + nb;
    Recut2Shape(h, top, least, base, end, nb, usedA, usedB);
    OutsideTags(m, n, h, top, least, base, end, hs, fs);
    Tags2Pins(m, n, h, top, least, base, end, nb, usedA, usedB);
    assert h'[base] == Extent(nb, usedA) && h'[r] == Extent(end - base - nb, usedB);
    assert base < r < end;
    hide Recut2;
    if end in h && !usedB {
      FreeBelowIs(n, h', end, r);
    }
    if !usedA {
      FreeBelowIs(n, h', r, base);
    }
    assert Head(n, base) == HeadWord(nb, usedA, Pinuse(n, base));
    assert Head(n, r) == HeadWord(end - base - nb, usedB, Pinuse(n, r));
    hide Tags2, Pinuse;
    forall q | InWindow(h', q, base, end)
      ensures Head(n, q) == HeadWord(h'[q].size, h'[q].used, Pinuse(n, q))
    {
      assert q == base || q == r;
    }
    forall q | InWindow(h', q, base, end) && Next(h', q) in h'
      ensures Pinuse(n, Next(h', q)) <==> h'[q].used
    {
      assert q == base || q == r;
    }
    forall q | q in h' && base < q <= end && !Pinuse(n, q)
      ensures FreeBelow(n, h', q)
    {
      assert q < end ==> InWindow(h', q, base, end);
    }
    hide HeadWord, Head, Next, InWindow;
  }

  lemma Tags2Pins(m: Mem, n: Mem, h: Chunks, top: int, least: int, base: int, end: int, nb: int, usedA: bool,
                  usedB: bool)
    requires Laid(h, top, least) && Window(h, base, end) && Tags2(m, n, h, base, end, nb, usedA, usedB)
    requires nb % 16 == 0
    ensures Pinuse(n, base) <==> Pinuse(m, base)
    ensures Pinuse(n, base + nb) <==> usedA
    ensures end in h ==> (Pinuse(n, end) <==> usedB)
  {
    assert base % 16 == 0 && end % 16 == 0 by {
      assert h[base].size > 0;
    }
    Mod16(end, base);
    Mod16(end - base, nb);
    HeadWordFacts(nb, usedA, Pinuse(m, base));
    HeadWordFacts(end - base - nb, usedB, usedA);
    if end in h {
      assert h[end].size % 16 == 0;
      HeadWordFacts(h[end].size, h[end].used, usedB);
    }
    hide HeadWord, PinuseBit, CinuseBit;
  }

  /** A window of exactly two chunks is laid out, joined and coalesced. */
  lemma TwoParts(h: Chunks, top: int, ends: set<int>, ends': set<int>, base: int, r: int, end: int)
    requires base < r < end && base % 16 == 0 && r % 16 == 0
    requires forall q :: InWindow(h, q, base, end) <==> q == base || q == r
    requires base in h && r in h && Next(h, base) == r && Next(h, r) == end
    requires h[base].size % 16 == 0 && h[r].size % 16 == 0
    requires MIN_CHUNK_SIZE <= h[base].size && (r == top || MIN_CHUNK_SIZE <= h[r].size)
    requires h[base].used || h[r].used
    requires !h[r].used && end in h ==> h[end].used
    requires forall q :: q < base || end <= q ==> (q in ends <==> q in ends')
    requires forall q :: base <= q < end ==> (q in ends' <==> q == r && end !in h)
    ensures WindowLaid(h, top, base, end) && WindowJoined(h, ends, ends', base, end) && WindowCoalesced(h, base, end)
  {
  }

  lemma Recut2Parts(h: Chunks, top: int, top': int, least: int, ends: set<int>, base: int, end: int, nb: int,
                    usedA: bool, usedB: bool)
    requires Laid(h, top, least) && Joined(h, ends) && Window(h, base, end)
    requires MIN_CHUNK_SIZE <= nb < end - base && nb % 16 == 0
    requires base + nb == top' || MIN_CHUNK_SIZE <= end - base - nb
    requires usedA || usedB
    requires !usedB && end in h ==> h[end].used
    ensures var h', ends' := Recut2(h, base, end, nb, usedA, usedB), EndsAfter(h, ends, base, end, base + nb);
            && WindowLaid(h', top', base, end) && WindowJoined(h', ends, ends', base, end)
            && WindowCoalesced(h', base, end) && SameOutside(h, h', base, end)
            && h'[base].used == usedA && end < WORD_MAX
  {
    var h', ends', r := Recut2(h, base, end, nb, usedA, usedB), EndsAfter(h, ends, base, end, base + nb), base + nb;
    Recut2Shape(h, top, least, base, end, nb, usedA, usedB);
    WindowEnds(h, top, least, ends, base, end);
    Mod16(end, base);
    Mod16(base, nb);
    Mod16(end - base, nb);
    assert h'[base] == Extent(nb, usedA) && h'[r] == Extent(end - base - nb, usedB);
    hide Laid, Joined, Recut2, Outside, SameOutside, WindowLaid, WindowJoined, WindowCoalesced;
    TwoParts(h', top', ends, ends', base, r, end);
  }

  /** A window recut into two chunks: splitting a chunk, or moving the boundary between two neighbours. */
  lemma Recut2Keeps(m: Mem, n: Mem, h: Chunks, top: int, top': int, ends: set<int>, least: int,
                    base: int, end: int, nb: int, usedA: bool, usedB: bool, hs: set<int>, fs: set<int>, b: map<int,
                        int>)
    requires HeapOk(m, h, top, ends, least) && Window(h, base, end)
    requires TagStores(m, n, hs, fs) && Tags2(m, n, h, base, end, nb, usedA, usedB)
    requires MIN_CHUNK_SIZE <= nb < end - base && nb % 16 == 0
    requires forall q :: q in hs ==> base <= q <= end && q % 16 == 0
    requires forall q :: q in fs ==> base < q <= end && q % 16 == 0
    requires base + nb == top' || MIN_CHUNK_SIZE <= end - base - nb
    requires if base <= top < end then top' == base + nb else top' == top
    requires usedA || (usedB && Pinuse(m, base))
    requires !usedB && end in h ==> h[end].used
    requires forall q :: q in b ==> q in h && b[q] == h[q].size && !(base <= q < end)
    ensures HeapOk(n, Recut2(h, base, end, nb, usedA, usedB), top', EndsAfter(h, ends, base, end, base + nb), least)
    ensures InsidesKept(m, n, b) && PayloadKept(m, n, Outside(h, base, end))
  {
    hide HeadWord, PinuseBit, CinuseBit, Tagged, InsidesKept, PayloadKept, TagStores, Coalesced, Laid, Joined, Window,
      Tags2, Recut2, Outside, EndsAfter, Retagged, SameOutside, WindowLaid, WindowJoined, WindowCoalesced;
    Recut2Parts(h, top, top', least, ends, base, end, nb, usedA, usedB);
    Recut2Retagged(m, n, h, top, least, base, end, nb, usedA, usedB, hs, fs);
    WindowFrame(m, n, h, top, least, base, end, hs, fs, b);
    if !usedA {
      WindowStarts(h, base, end);
      BelowFree(m, h, top, ends, least, base);
    }
    WindowKeeps(m, n, h, Recut2(h, base, end, nb, usedA, usedB), top, top', ends,
                EndsAfter(h, ends, base, end, base + nb), least, base, end);
  }
}
