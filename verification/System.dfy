/** The system's side of `sys_alloc`: what `MORECORE` is asked for, and what it may answer. */
module System {
  import opened Memory
  import opened Segments

  const PAGE_SIZE := 4096
  const CMFAIL := 0xffff_ffff_ffff_ffff
  const HALF_MAX := 0x7fff_ffff_ffff_ffff
  const SYS_ALLOC_PADDING := 96

  /** `granularity_align`, and `page_align` likewise. */
  function GranularityAlign(s: int): int {
    (s + PAGE_SIZE - 1) % WORD_MAX / PAGE_SIZE * PAGE_SIZE
  }

  lemma AlignUp(s: int)
    requires 0 <= s && s + PAGE_SIZE - 1 < WORD_MAX
    ensures s <= GranularityAlign(s) < s + PAGE_SIZE && GranularityAlign(s) % PAGE_SIZE == 0
  {
  }

  /** Rounding up in two steps asks for no more than rounding up in one. */
  lemma AlignTwice(s: int, t: int)
    requires 0 <= t <= s && s + PAGE_SIZE - 1 < WORD_MAX && t % PAGE_SIZE == 0
    ensures t + GranularityAlign(s - t) == GranularityAlign(s)
  {
    AlignUp(s);
    AlignUp(s - t);
  }

  lemma AlignMonotone(s: int, t: int)
    requires 0 <= t <= s && s + PAGE_SIZE - 1 < WORD_MAX
    ensures GranularityAlign(t) <= GranularityAlign(s)
  {
    AlignUp(s);
    AlignUp(t);
  }

  /** The answers to the calls of `MORECORE` in one `sys_alloc`: the break, the contiguous extension, the rest of
      it after a partial failure, and the extension that need not be contiguous. */
  datatype Morecore = Morecore(current: int, first: int, more: int, again: int)

  /** The request rounded up to the granularity. */
  function Asize(nb: int): int { GranularityAlign((nb + SYS_ALLOC_PADDING) % WORD_MAX) }

  /** Where the rounded request is not above the request, the sum has wrapped around. */
  lemma WrapTest(nb: int)
    requires 0 < nb < WORD_MAX
    ensures Asize(nb) > nb <==> nb + SYS_ALLOC_PADDING + PAGE_SIZE - 1 < WORD_MAX
    ensures 0 <= Asize(nb) < WORD_MAX
  {
  }

  /** What the contiguous call asks for: on the first call, enough to end on a page boundary. */
  function FirstAsk(nb: int, top: int, topsize: int, current: int): int {
    if top == 0 then
      Asize(nb) + if current % PAGE_SIZE == 0 then 0 else GranularityAlign(current) - current
    else
      GranularityAlign((nb - topsize + SYS_ALLOC_PADDING) % WORD_MAX)
  }

  function MoreAsk(nb: int, ssize: int): int { GranularityAlign((nb + SYS_ALLOC_PADDING - ssize) % WORD_MAX) }

  /** Memory from `a` that belongs to nobody else. */
  predicate Region(segs: seq<Segment>, a: int, n: int) {
    && 0x1_0000 <= a && a + n < USER_MAX
    && forall i {:trigger segs[i]} :: 0 <= i < |segs| ==> Disjoint(segs[i], Segment(a, n))
  }

  /** `MORECORE` extends by exactly what is asked, or fails.  What it grants right behind the most recent segment may
      end anywhere, and so may what the first call of all grants at the break; memory elsewhere ends on a 16-byte
      boundary. */
  predicate Honest(env: Morecore, segs: seq<Segment>, top: int, topsize: int, nb: int) {
    var ssize := FirstAsk(nb, top, topsize, env.current);
    && (env.current == CMFAIL || 0 <= env.current < USER_MAX)
    && (env.first != CMFAIL ==> Region(segs, env.first, ssize))
    && (env.first != CMFAIL ==>
          || (env.first + ssize) % 16 == 0
          || if top == 0 then env.first == env.current else segs != [] && env.first == End(segs[0]))
    && (env.more != CMFAIL ==> Region(segs, env.first, ssize + MoreAsk(nb, ssize)))
    && (env.again != CMFAIL ==> Region(segs, env.again, Asize(nb)) && env.again % 16 == 0)
  }

  /** The sizes that `sys_alloc` computes, once the request has not wrapped around. */
  lemma AskFacts(nb: int, top: int, topsize: int, current: int)
    requires 32 <= nb && nb + SYS_ALLOC_PADDING + PAGE_SIZE - 1 < WORD_MAX && 0 <= topsize <= nb
    requires current == CMFAIL || 0 <= current < USER_MAX
    ensures Asize(nb) >= nb + SYS_ALLOC_PADDING && Asize(nb) % PAGE_SIZE == 0
    ensures var t := FirstAsk(nb, top, topsize, current);
            && (top == 0 && current != CMFAIL ==> t >= Asize(nb) && (current + t) % PAGE_SIZE == 0)
            && (top != 0 ==> t % PAGE_SIZE == 0 && PAGE_SIZE <= t <= Asize(nb) && t + topsize >= nb + SYS_ALLOC_PADDING)
            && (top != 0 && t < nb + SYS_ALLOC_PADDING ==>
                  var e := MoreAsk(nb, t);
                  t + e == Asize(nb) && 0 < e && e % PAGE_SIZE == 0 && (topsize < USER_MAX ==> e < HALF_MAX))
  {
    var s := nb + SYS_ALLOC_PADDING;
    AlignUp(s);
    assert s % WORD_MAX == s;
    if top == 0 {
      if current != CMFAIL {
        AlignUp(current);
        PageSum(Asize(nb), GranularityAlign(current), current);
      }
    } else {
      var u := s - topsize;
      assert u % WORD_MAX == u;
      AlignUp(u);
      AlignMonotone(s, u);
      var t := GranularityAlign(u);
      if t < s {
        assert (s - t) % WORD_MAX == s - t;
        AlignTwice(s, t);
        AlignUp(s - t);
      }
    }
  }

  lemma PageSum(a: int, c: int, b: int)
    requires a % PAGE_SIZE == 0 && c % PAGE_SIZE == 0
    ensures (b + (a + (c - b))) % PAGE_SIZE == 0
    ensures b % PAGE_SIZE == 0 ==> (b + a) % PAGE_SIZE == 0
  {
  }

  lemma HonestBreak(env: Morecore, segs: seq<Segment>, top: int, topsize: int, nb: int)
    requires Honest(env, segs, top, topsize, nb)
    ensures env.current == CMFAIL || 0 <= env.current < USER_MAX
  {
  }

  lemma EndAligned(a: int, n: int)
    requires a % 16 == 0 && n % PAGE_SIZE == 0
    ensures (a + n) % 16 == 0
  {
    assert n == 16 * (256 * (n / PAGE_SIZE));
  }

  lemma PageAligned(n: int)
    requires n % PAGE_SIZE == 0
    ensures n % 16 == 0
  {
    assert n == 16 * (256 * (n / PAGE_SIZE));
  }

  /** The system's side of `sys_trim`: where the break is, and whether it can be lowered.  When it can, it is lowered
      by exactly what is asked. */
  datatype Release = Release(brk: int, granted: bool)

  /** Whole pages of `size` above `pad`, keeping part of one. */
  function Extra(size: int, pad: int): int {
    ((size - pad + (PAGE_SIZE - 1)) / PAGE_SIZE - 1) * PAGE_SIZE
  }

  lemma ExtraFacts(size: int, pad: int)
    requires pad < size
    ensures var e := Extra(size, pad);
            0 <= e < size - pad && size - pad - e <= PAGE_SIZE && e % PAGE_SIZE == 0 && e % 16 == 0
  {
    PageAligned(Extra(size, pad));
  }
}
