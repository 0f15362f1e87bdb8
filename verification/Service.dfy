/** When a request can be met: from what is free, or from what the system grants. */
module Service {
  import opened Memory
  import opened TreeIndex
  import opened Bins
  import opened Segments
  import opened Search
  import opened System
  import opened Requests

  const TRIM_THRESHOLD := 0x20_0000

  /** What is free, and where memory has been obtained: the chunks in bins with their sizes, the designated victim and
      the top, the segments, how much they are and have been at most, the least address, and what limits more and less
      of it. */
  datatype Space = Space(binned: map<int, int>, dv: int, dvsize: int, top: int, topsize: int, segs: seq<Segment>,
                         footprint: int, peak: int, least: int, limit: int, contiguous: bool, trimCheck: int)

  /** The contiguous call of `sys_alloc` yields memory. */
  predicate GrantsContiguous(s: Space, nb: int, env: Morecore) {
    var ssize := FirstAsk(nb, s.top, s.topsize, env.current);
    && s.contiguous && ssize < HALF_MAX && env.first != CMFAIL
    && if s.top == 0
       then env.current != CMFAIL && (s.limit == 0 || s.footprint + ssize <= s.limit)
       else || (s.segs != [] && env.first == End(s.segs[0]))
            || nb + SYS_ALLOC_PADDING <= ssize
            || env.more != CMFAIL
  }

  /** `sys_alloc` obtains memory: with the contiguous call, or else with the other. */
  predicate Obtains(s: Space, nb: int, env: Morecore) {
    GrantsContiguous(s, nb, env) || (Asize(nb) < HALF_MAX && env.again != CMFAIL)
  }

  /** `sys_alloc` serves the request: its size does not wrap around, the limit allows it, and memory is obtained. */
  predicate SystemServes(s: Space, nb: int, env: Morecore) {
    && nb + SYS_ALLOC_PADDING + PAGE_SIZE - 1 < WORD_MAX
    && (s.limit == 0 || s.footprint + Asize(nb) <= s.limit)
    && Obtains(s, nb, env)
  }

  /** A request can be met: a chunk of `nb` bytes can be had from a bin, the designated victim, the top or the
      system. */
  ghost predicate CanServe(s: Space, nb: int, env: Morecore) {
    !NoneHolds(s.binned, nb) || nb <= s.dvsize || nb < s.topsize || SystemServes(s, nb, env)
  }

  // ---------------------------------------------------------------- which chunk answers a request

  /** The chunk `p` of a bin is preferred to the designated victim: the victim is too small, or `p` fits tighter; for a
      small request it must then fit exactly. */
  predicate Preferred(s: Space, nb: int, p: int) {
    && p in s.binned && nb <= s.binned[p]
    && (nb <= s.dvsize ==> if nb < MIN_LARGE_SIZE then s.binned[p] == nb else s.binned[p] < s.dvsize)
  }

  ghost predicate BinsServe(s: Space, nb: int) { exists p :: Preferred(s, nb, p) }

  /** What is said of a small request served from the bins, or passed over, makes the least fit the preferred one. */
  lemma SmallChoice(s: Space, nb: int, p: int)
    requires nb < MIN_LARGE_SIZE
    requires p == 0 ==> nb <= s.dvsize || NoneHolds(s.binned, nb)
    requires p != 0 ==> LeastFit(s.binned, nb, p) && (nb <= s.dvsize ==> s.binned[p] == nb)
    requires (exists q :: q in s.binned && s.binned[q] == nb) ==> p in s.binned && s.binned[p] == nb && p != 0
    ensures p != 0 <==> BinsServe(s, nb)
  {
    if p != 0 {
      assert Preferred(s, nb, p);
    }
  }

  /** Likewise for a large one. */
  lemma LargeChoice(s: Space, nb: int, p: int)
    requires MIN_LARGE_SIZE <= nb
    requires p == 0 ==> NoFit(s.binned, nb) || (nb <= s.dvsize && NoneTighter(s.binned, nb, s.dvsize))
    requires p != 0 ==> BestFit(s.binned, nb, p) && (nb <= s.dvsize ==> s.binned[p] < s.dvsize)
    ensures p != 0 <==> BinsServe(s, nb)
    ensures p != 0 ==> LeastFit(s.binned, nb, p)
  {
    if p != 0 {
      assert Preferred(s, nb, p);
    }
  }

  lemma NothingServes(s: Space, nb: int)
    requires NoneHolds(s.binned, nb)
    ensures !BinsServe(s, nb)
  {
  }

  /** The bins pass a request over only where they hold no fit or the designated victim has room. */
  lemma ServesSome(s: Space, nb: int)
    ensures BinsServe(s, nb) ==> !NoneHolds(s.binned, nb)
    ensures !BinsServe(s, nb) ==> nb <= s.dvsize || NoneHolds(s.binned, nb)
  {
    forall p | p in s.binned && s.dvsize < nb <= s.binned[p]
      ensures BinsServe(s, nb)
    {
      assert Preferred(s, nb, p);
    }
  }

  /** Neither a bin, nor the designated victim, nor the top serves the request. */
  ghost predicate LeftToSystem(s: Space, nb: int) { !BinsServe(s, nb) && s.dvsize < nb && s.topsize <= nb }

  /** The memory that `sys_alloc` obtains. */
  function Obtained(s: Space, nb: int, env: Morecore): Segment {
    var ssize := FirstAsk(nb, s.top, s.topsize, env.current);
    if !GrantsContiguous(s, nb, env) then Segment(env.again, Asize(nb))
    else if s.top == 0 || (s.segs != [] && env.first == End(s.segs[0])) || nb + SYS_ALLOC_PADDING <= ssize
    then Segment(env.first, ssize)
    else Segment(env.first, ssize + MoreAsk(nb, ssize))
  }

  /** The memory lies right above the most recent segment. */
  predicate OnTop(segs: seq<Segment>, g: Segment) { segs != [] && g.base == End(segs[0]) }

  function StartingAt(segs: seq<Segment>, a: int): nat {
    if segs == [] || segs[0].base == a then 0 else 1 + StartingAt(segs[1..], a)
  }

  lemma {:induction false} StartingAtIs(segs: seq<Segment>, a: int, k: nat)
    requires k <= |segs| && (k < |segs| ==> segs[k].base == a) && forall j :: 0 <= j < k ==> segs[j].base != a
    ensures StartingAt(segs, a) == k
  {
    if k > 0 {
      StartingAtIs(segs[1..], a, k - 1);
    }
  }

  /** The memory lies right below a segment. */
  predicate Beneath(segs: seq<Segment>, g: Segment) { !OnTop(segs, g) && StartingAt(segs, End(g)) < |segs| }

  /** The segments with new memory: it extends the most recent one upward or any one downward, or is one of its own. */
  function Attached(segs: seq<Segment>, g: Segment): seq<Segment> {
    if OnTop(segs, g) then segs[0 := Segment(segs[0].base, segs[0].size + g.size)]
    else if Beneath(segs, g) then
      var k := StartingAt(segs, End(g));
      segs[k := Segment(g.base, segs[k].size + g.size)]
    else [g] + segs
  }

  lemma StartingAtBound(segs: seq<Segment>, a: int)
    ensures StartingAt(segs, a) <= |segs|
    ensures StartingAt(segs, a) < |segs| ==> segs[StartingAt(segs, a)].base == a
  {
  }

  /** The segments hold just as much more. */
  lemma AttachedTotal(segs: seq<Segment>, g: Segment)
    ensures Total(Attached(segs, g)) == Total(segs) + g.size
  {
    if OnTop(segs, g) {
      TotalUpdate(segs, 0, Segment(segs[0].base, segs[0].size + g.size));
    } else if Beneath(segs, g) {
      var k := StartingAt(segs, End(g));
      TotalUpdate(segs, k, Segment(g.base, segs[k].size + g.size));
    } else {
      TotalPush(g, segs);
    }
  }

  /** Where the chunk for a request lies that new memory serves. */
  function NewPlace(segs: seq<Segment>, top: int, g: Segment): int {
    if OnTop(segs, g) then top else AlignAsChunk(g.base)
  }

  /** The first choice is a least fit from the bins, the next the designated victim, then the top; only where all fail
      is it the start of new memory, or the top that new memory has extended. */
  ghost predicate Chosen(s: Space, nb: int, env: Morecore, p: int) {
    if BinsServe(s, nb) then LeastFit(s.binned, nb, p)
    else if nb <= s.dvsize then p == s.dv
    else if nb < s.topsize then p == s.top
    else p == NewPlace(s.segs, s.top, Obtained(s, nb, env))
  }

  /** What is left of `size` bytes from `p` once `nb` are taken off: a chunk, or null where that would be too small. */
  function Rest(p: int, size: int, nb: int): (int, int) {
    if size - nb < MIN_CHUNK_SIZE then (0, 0) else (p + nb, size - nb)
  }

  /** The designated victim after a small request that a chunk `p` of a bin has met: what is left of it, if anything. */
  predicate VictimOf(s: Space, p: int, nb: int, t: Space) {
    && p in s.binned
    && (t.dv, t.dvsize) == if s.binned[p] - nb < MIN_CHUNK_SIZE then (s.dv, s.dvsize) else Rest(p, s.binned[p], nb)
  }

  /** The designated victim is as it was, but that new memory right below may be part of it. */
  predicate VictimLowered(s: Space, t: Space) {
    t.dv <= s.dv && t.dv + t.dvsize == s.dv + s.dvsize && (t.dv == 0 <==> s.dv == 0)
  }

  /** The designated victim after a request: the rest of a chunk from a bin, for a small request; its own rest, where it
      was used; else what it was, with new memory right below it. */
  ghost predicate VictimAfter(s: Space, nb: int, p: int, t: Space) {
    if BinsServe(s, nb) then if nb < MIN_LARGE_SIZE then VictimOf(s, p, nb, t) else (t.dv, t.dvsize) == (s.dv, s.dvsize)
    else if nb <= s.dvsize then (t.dv, t.dvsize) == Rest(p, s.dvsize, nb)
    else if nb < s.topsize then (t.dv, t.dvsize) == (s.dv, s.dvsize)
    else VictimLowered(s, t)
  }

  /** The memory held is as it was. */
  predicate SameMemory(s: Space, t: Space) {
    && t.segs == s.segs && t.footprint == s.footprint && t.peak == s.peak && t.least == s.least
    && t.limit == s.limit && t.contiguous == s.contiguous && t.trimCheck == s.trimCheck
  }

  /** The least address: that of the first memory obtained, or of memory found lower later on. */
  function LeastAfter(segs: seq<Segment>, least: int, g: Segment): int {
    if !OnTop(segs, g) && (g.base < least || (segs == [] && least == 0)) then g.base else least
  }

  /** The new memory `g` is put to use. */
  predicate Extended(s: Space, g: Segment, t: Space) {
    && t.segs == Attached(s.segs, g) && t.footprint == s.footprint + g.size && t.limit == s.limit
    && t.peak == (if t.footprint > s.peak then t.footprint else s.peak)
    && t.least == LeastAfter(s.segs, s.least, g)
    && t.trimCheck == if Beneath(s.segs, g) then s.trimCheck else TRIM_THRESHOLD
  }

  /** The memory held after a request that was met: more of it only where there was no other way. */
  ghost predicate MemoryAfter(s: Space, nb: int, env: Morecore, t: Space) {
    if LeftToSystem(s, nb)
    then Extended(s, Obtained(s, nb, env), t) && t.contiguous == GrantsContiguous(s, nb, env)
    else SameMemory(s, t)
  }

  /** A request for a chunk of `nb` bytes is met by `p`. */
  ghost predicate Placed(s: Space, nb: int, env: Morecore, p: int, t: Space) {
    Chosen(s, nb, env, p) && VictimAfter(s, nb, p, t) && MemoryAfter(s, nb, env, t)
  }

  /** `sys_alloc` gets as far as calling `MORECORE`. */
  predicate Calls(s: Space, nb: int) {
    nb + SYS_ALLOC_PADDING + PAGE_SIZE - 1 < WORD_MAX && (s.limit == 0 || s.footprint + Asize(nb) <= s.limit)
  }

  /** A request that is refused changes nothing, except that a contiguous call that failed is the last one. */
  predicate Refused(s: Space, nb: int, t: Space) { t == s.(contiguous := s.contiguous && !Calls(s, nb)) }

  // ---------------------------------------------------------------- what freeing does

  /** The designated victim has grown, or the top has taken it up. */
  predicate VictimGrows(s: Space, t: Space) {
    && t.top <= s.top
    && if s.dv == 0 then t.dv == 0
       else if t.dv == 0 then t.top <= s.dv && s.dv + s.dvsize <= s.top
       else t.dv <= s.dv && s.dv + s.dvsize <= t.dv + t.dvsize
  }

  /** The size of the top before a trim, when it was merged downward. */
  function Merged(s: Space, t: Space): int { s.top + s.topsize - t.top }

  /** A chunk is freed and merged with its free neighbours; no memory is given back. */
  predicate Merges(s: Space, t: Space) { VictimGrows(s, t) && SameMemory(s, t) && t.topsize == Merged(s, t) }

  /** The system takes memory back from a top of `size` bytes of which `pad` bytes are to stay. */
  predicate TakesBack(s: Space, size: int, pad: int, rel: Release) {
    && size > pad + TOP_FOOT_SIZE + PAGE_SIZE && pad < MAX_REQUEST
    && s.segs != [] && rel.brk == End(s.segs[0]) && rel.granted
  }

  /** `sys_trim` on a top of `size` bytes: all whole pages that are not to stay are given back, if the system takes
      them; a trim in vain is the last one on account of the size. */
  predicate GivesBack(s: Space, t: Space, size: int, pad: int, rel: Release) {
    && t.contiguous == s.contiguous && t.limit == s.limit && t.peak == s.peak && t.least == s.least
    && if TakesBack(s, size, pad, rel) then
         && pad + TOP_FOOT_SIZE < t.topsize <= pad + TOP_FOOT_SIZE + PAGE_SIZE && (size - t.topsize) % PAGE_SIZE == 0
         && t.footprint == s.footprint - (size - t.topsize) && t.trimCheck == TRIM_THRESHOLD
         && t.segs == s.segs[0 := Segment(s.segs[0].base, s.segs[0].size - (size - t.topsize))]
       else
         && t.topsize == size && t.footprint == s.footprint && t.segs == s.segs
         && t.trimCheck == if pad < MAX_REQUEST && s.segs != [] && size > s.trimCheck then CMFAIL else s.trimCheck
  }

  /** The free chunks are the same, but for the size of the top. */
  predicate SameChunks(s: Space, t: Space) {
    t.binned == s.binned && (t.dv, t.dvsize, t.top) == (s.dv, s.dvsize, s.top)
  }

  /** Chunks are freed, and the top is trimmed if it has grown past the threshold; `always` says that it is looked at
      even where it has not grown. */
  predicate Freed(s: Space, t: Space, rel: Release, always: bool) {
    && VictimGrows(s, t)
    && if (always || t.top != s.top) && Merged(s, t) > s.trimCheck then GivesBack(s, t, Merged(s, t), 0, rel)
       else SameMemory(s, t) && t.topsize == Merged(s, t)
  }

  /** Where chunks are freed, `m` is the space before a trim is considered. */
  lemma FreedThen(s: Space, m: Space, t: Space, rel: Release, always: bool)
    requires Merges(s, m)
    requires if (always || m.top != s.top) && m.topsize > m.trimCheck
             then GivesBack(m, t, m.topsize, 0, rel) && SameChunks(m, t)
             else t == m
    ensures Freed(s, t, rel, always)
  {
  }

  /** The chunk `p` of `size` bytes was made to hold `nb` bytes where it is: what it does not need is freed, what it
      lacks is taken from above. */
  predicate InPlace(s: Space, p: int, size: int, nb: int, t: Space) {
    if size < nb && p + size == s.top then
      && SameMemory(s, t) && (t.dv, t.dvsize) == (s.dv, s.dvsize)
      && t.top == p + nb && t.top + t.topsize == s.top + s.topsize
    else if size < nb && p + size == s.dv then
      && SameMemory(s, t) && (t.top, t.topsize) == (s.top, s.topsize)
      && (t.dv, t.dvsize) == Rest(p, size + s.dvsize, nb)
    else Merges(s, t)
  }

  /** The block at `r` is cut from the one at `r0`: it starts there if that is a multiple of `a`, else at the first
      multiple that leaves a chunk below. */
  predicate AlignedFrom(r0: int, a: int, r: int)
    requires a > 0
  {
    r % a == 0 && if r0 % a == 0 then r == r0 else r0 + MIN_CHUNK_SIZE <= r <= r0 + a + 16
  }

  /** A new chunk `q` of `nb` bytes was found, and then the old one freed. */
  ghost predicate MovedTo(s: Space, nb: int, env: Morecore, q: int, rel: Release, t: Space) {
    exists m: Space :: Placed(s, nb, env, q, m) && Freed(m, t, rel, false)
  }

  /** A chunk of `nb` bytes was found, and what lies below and above an aligned block in it was freed. */
  ghost predicate CutFrom(s: Space, nb: int, env: Morecore, a: int, r: int, t: Space)
    requires a > 0
  {
    exists p, m: Space :: Placed(s, nb, env, p, m) && AlignedFrom(p + MEM_OFFSET, a, r) && Merges(m, t)
  }

  lemma MovedBy(s: Space, nb: int, env: Morecore, q: int, rel: Release, m: Space, t: Space)
    requires Placed(s, nb, env, q, m) && Freed(m, t, rel, false)
    ensures MovedTo(s, nb, env, q, rel, t)
  {
  }

  lemma CutBy(s: Space, nb: int, env: Morecore, a: int, r: int, p: int, m: Space, t: Space)
    requires a > 0 && Placed(s, nb, env, p, m) && AlignedFrom(p + MEM_OFFSET, a, r) && Merges(m, t)
    ensures CutFrom(s, nb, env, a, r, t)
  {
  }

  /** A request that is too large is refused without a call. */
  lemma HugeRefused(s: Space, bytes: int)
    requires bytes >= MAX_REQUEST
    ensures Refused(s, NeedOf(bytes), s)
  {
  }

  lemma MergesTop(s: Space, t: Space, p: int)
    requires SameMemory(s, t) && 0 < p < s.top && (s.dv == p ==> p + s.dvsize <= s.top)
    requires t.top == p && t.topsize == s.topsize + (s.top - p)
    requires (t.dv, t.dvsize) == if p == s.dv then (0, 0) else (s.dv, s.dvsize)
    ensures Merges(s, t)
  {
  }

  lemma MergesVictim(s: Space, t: Space)
    requires SameMemory(s, t) && (t.top, t.topsize) == (s.top, s.topsize)
    requires t.dv <= s.dv && s.dv + s.dvsize <= t.dv + t.dvsize && (t.dv == 0 <==> s.dv == 0)
    ensures Merges(s, t)
  {
  }

  lemma MergesOn(s: Space, t: Space, u: Space)
    requires Merges(s, t) && Merges(t, u)
    ensures Merges(s, u)
  {
  }

  /** What the system answers a request for `nb` bytes: as `env` says, or with a refusal where that would not be
      honest. */
  function Given(segs: seq<Segment>, top: int, topsize: int, nb: int, env: Morecore): Morecore {
    if Honest(env, segs, top, topsize, nb) then env else Morecore(CMFAIL, CMFAIL, CMFAIL, CMFAIL)
  }

  lemma GivenIsHonest(segs: seq<Segment>, top: int, topsize: int, nb: int, env: Morecore)
    ensures Honest(Given(segs, top, topsize, nb, env), segs, top, topsize, nb)
  {
  }

  /** The limit on memory from the system is kept. */
  predicate WithinLimit(s: Space) { s.limit == 0 || s.footprint <= s.limit }
}
