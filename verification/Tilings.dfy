/** A fully coalesced heap is determined by its segments and its chunks in use. */
module Tilings {
  import opened Memory
  import opened Heap
  import opened Segments
  import opened HeapOps
  import opened Growth

  /** The heap, its ends and its top over the segments `segs`, without its bins. */
  ghost predicate Tiling(h: Chunks, top: int, topsize: int, least: int, ends: set<int>, segs: seq<Segment>) {
    && Laid(h, top, least) && Joined(h, ends) && Coalesced(h) && Segmented(h, ends, segs)
    && TopPlaced(top, topsize, segs)
    && top in ends && !h[top].used && h[top].size == topsize
    && forall p :: p in ends && p != top ==> h[p].used
  }

  /** Two tilings with the same chunks in use agree on the size of a chunk both have. */
  lemma SameNext(h: Chunks, top: int, topsize: int, least: int, ends: set<int>,
                 h': Chunks, top': int, topsize': int, least': int, ends': set<int>, segs: seq<Segment>, q: int)
    requires Tiling(h, top, topsize, least, ends, segs) && Tiling(h', top', topsize', least', ends', segs)
    requires Used(h) == Used(h') && q in h && q in h'
    ensures h[q].used == h'[q].used
    ensures h[q].size >= h'[q].size
  {
    UsedFacts(h);
    UsedFacts(h');
    hide Used;
    assert h[q].used == h'[q].used;
    assert h[q].size > 0;
    if !h[q].used {
      if q == top {
        TopIsTop(h, top, topsize, least, ends, h', top', topsize', least', ends', segs);
      } else {
        var x := Next(h, q);
        assert x in h && h[x].used;
        assert x in Used(h);
        assert x in h' && h'[q].size > 0;
      }
    }
  }

  /** Above a free chunk that is not the top lies a chunk in use of the same segment. */
  lemma UsedAbove(h: Chunks, top: int, topsize: int, least: int, ends: set<int>, segs: seq<Segment>,
                  t: int) returns (j: int)
    requires Tiling(h, top, topsize, least, ends, segs) && t in h && !h[t].used && t != top
    ensures Next(h, t) in Used(h) && t < Next(h, t) && 0 <= j < |segs| && InSeg(segs[j], t, Next(h, t))
  {
    assert h[t].size > 0;
    j := HouseOf(segs, t, Next(h, t));
  }

  /** No chunk of the top's segment lies above the top. */
  lemma NothingOnTop(h: Chunks, top: int, topsize: int, least: int, ends: set<int>, segs: seq<Segment>, x: int, j: int)
    requires Tiling(h, top, topsize, least, ends, segs) && x in h && x != top
    requires 0 <= j < |segs| && InSeg(segs[j], top, top) && InSeg(segs[j], x, x)
    ensures x < top
  {
    hide Coalesced, Laid, Segmented;
    AboveTop(h, top, topsize, least, ends, segs, x);
    TopInFirst(h, top, topsize, least, ends, segs);
    ApartSegments(h, ends, segs);
    SameSegment(segs, 0, j, top);
  }

  lemma TopInFirst(h: Chunks, top: int, topsize: int, least: int, ends: set<int>, segs: seq<Segment>)
    requires Laid(h, top, least) && TopPlaced(top, topsize, segs) && top in h && h[top].size == topsize && segs != []
    ensures InSeg(segs[0], top, top)
  {
    assert h[top].size > 0;
  }

  lemma ApartSegments(h: Chunks, ends: set<int>, segs: seq<Segment>)
    requires Segmented(h, ends, segs)
    ensures Segments.Apart(segs)
  {
  }

  /** Where the top of one tiling is free in the other, it is the top there. */
  lemma TopIsTop(h: Chunks, top: int, topsize: int, least: int, ends: set<int>,
                 h': Chunks, top': int, topsize': int, least': int, ends': set<int>, segs: seq<Segment>)
    requires Tiling(h, top, topsize, least, ends, segs) && Tiling(h', top', topsize', least', ends', segs)
    requires Used(h) == Used(h') && top in h' && !h'[top].used
    ensures top == top'
  {
    UsedFacts(h);
    hide Tiling, Used;
    if top != top' {
      var j := UsedAbove(h', top', topsize', least', ends', segs, top);
      NothingOnTop(h, top, topsize, least, ends, segs, Next(h', top), j);
    }
  }

  lemma NextHoused(h: Chunks, top: int, least: int, ends: set<int>, segs: seq<Segment>, k: int, q: int)
    requires Laid(h, top, least) && Joined(h, ends) && Segmented(h, ends, segs)
    requires 0 <= k < |segs| && q in h && q !in ends && InSeg(segs[k], q, Next(h, q))
    ensures Next(h, q) in h && InSeg(segs[k], Next(h, q), Next(h, Next(h, q)))
  {
    var x := Next(h, q);
    assert h[q].size > 0 && h[x].size > 0;
    var j := HouseOf(segs, x, Next(h, x));
    assert InSeg(segs[k], x, x) && InSeg(segs[j], x, x);
    SameSegment(segs, j, k, x);
  }

  /** An end of one tiling is an end of the other. */
  lemma NotEnd(h: Chunks, top: int, topsize: int, least: int, ends: set<int>,
               h': Chunks, top': int, topsize': int, least': int, ends': set<int>, segs: seq<Segment>, k: int, q: int)
    requires Tiling(h, top, topsize, least, ends, segs) && Tiling(h', top', topsize', least', ends', segs)
    requires Used(h) == Used(h') && q in h && q in h' && h[q] == h'[q] && q !in ends
    requires 0 <= k < |segs| && InSeg(segs[k], q, Next(h, q))
    ensures q !in ends'
  {
    UsedFacts(h);
    UsedFacts(h');
    hide Used;
    assert h[q].size > 0;
    var x := Next(h, q);
    NextHoused(h, top, least, ends, segs, k, q);
    EndAbove(h, top, least, ends, segs, k, x);
    var e :| e in ends && x <= e && InSeg(segs[k], e, e);
    assert InSeg(segs[k], q, q);
    assert h[top].size > 0;
    if q in ends' {
      if e == top {
        assert InSeg(segs[0], top, top) && InSeg(segs[0], top', top');
        SameSegment(segs, 0, k, top);
      } else {
        assert e in Used(h);
        assert e in h' && h'[e].size > 0;
        var j := HouseOf(segs, e, Next(h', e));
        assert InSeg(segs[j], e, e);
        SameSegment(segs, j, k, e);
        EndAbove(h', top', least', ends', segs, k, e);
      }
      assert false;
    }
  }

  /** Walking up from a chunk that both have, every chunk of the first tiling is one of the second. */
  lemma SameUpTo(h: Chunks, top: int, topsize: int, least: int, ends: set<int>,
                 h': Chunks, top': int, topsize': int, least': int, ends': set<int>, segs: seq<Segment>,
                 k: int, q: int, p: int)
    requires Tiling(h, top, topsize, least, ends, segs) && Tiling(h', top', topsize', least', ends', segs)
    requires Used(h) == Used(h') && q in h && q in h' && p in h && q <= p
    requires 0 <= k < |segs| && InSeg(segs[k], q, Next(h, q)) && InSeg(segs[k], p, Next(h, p))
    ensures p in h' && h'[p] == h[p]
    decreases p - q
  {
    hide Used, Laid, Joined, Coalesced, Segmented, TopPlaced, InSeg;
    SameNext(h, top, topsize, least, ends, h', top', topsize', least', ends', segs, q);
    SameNext(h', top', topsize', least', ends', h, top, topsize, least, ends, segs, q);
    if q < p {
      StepUp(h, top, least, ends, segs, k, q, p);
      var x := Next(h, q);
      NotEnd(h, top, topsize, least, ends, h', top', topsize', least', ends', segs, k, q);
      JoinedNext(h', ends', q);
      SameUpTo(h, top, topsize, least, ends, h', top', topsize', least', ends', segs, k, x, p);
    }
  }

  lemma JoinedNext(h: Chunks, ends: set<int>, q: int)
    requires Joined(h, ends) && q in h && q !in ends
    ensures Next(h, q) in h
  {
  }

  /** From a chunk below another of its segment there is a step up. */
  lemma StepUp(h: Chunks, top: int, least: int, ends: set<int>, segs: seq<Segment>, k: int, q: int, p: int)
    requires Laid(h, top, least) && Joined(h, ends) && Segmented(h, ends, segs)
    requires 0 <= k < |segs| && q in h && p in h && q < p
    requires InSeg(segs[k], q, Next(h, q)) && InSeg(segs[k], p, Next(h, p))
    ensures q !in ends && Next(h, q) in h && q < Next(h, q) <= p
    ensures InSeg(segs[k], Next(h, q), Next(h, Next(h, q)))
  {
    assert h[q].size > 0 && h[p].size > 0;
    EndAbove(h, top, least, ends, segs, k, p);
    var e :| e in ends && p <= e && InSeg(segs[k], e, e);
    assert InSeg(segs[k], q, q);
    NextHoused(h, top, least, ends, segs, k, q);
  }

  /** A tiling that is fully coalesced is determined by the chunks in use. */
  lemma CoalescedIsUnique(h: Chunks, top: int, topsize: int, least: int, ends: set<int>,
                          h': Chunks, top': int, topsize': int, least': int, ends': set<int>, segs: seq<Segment>)
    requires Tiling(h, top, topsize, least, ends, segs) && Tiling(h', top', topsize', least', ends', segs)
    requires Used(h) == Used(h')
    ensures h == h'
  {
    forall p | p in h
      ensures p in h' && h'[p] == h[p]
    {
      FromFirst(h, top, topsize, least, ends, h', top', topsize', least', ends', segs, p);
    }
    forall p | p in h'
      ensures p in h
    {
      FromFirst(h', top', topsize', least', ends', h, top, topsize, least, ends, segs, p);
    }
  }

  lemma FromFirst(h: Chunks, top: int, topsize: int, least: int, ends: set<int>,
                  h': Chunks, top': int, topsize': int, least': int, ends': set<int>, segs: seq<Segment>, p: int)
    requires Tiling(h, top, topsize, least, ends, segs) && Tiling(h', top', topsize', least', ends', segs)
    requires Used(h) == Used(h') && p in h
    ensures p in h' && h'[p] == h[p]
  {
    hide Used, Coalesced, Joined, EndsApart;
    var k := HouseOf(segs, p, Next(h, p));
    var f := First(segs[k]);
    assert f in h && f in h' && h[f].size > 0 && h[p].size > 0;
    var j := HouseOf(segs, f, Next(h, f));
    assert InSeg(segs[k], f, f) && InSeg(segs[j], f, f);
    SameSegment(segs, j, k, f);
    SameUpTo(h, top, topsize, least, ends, h', top', topsize', least', ends', segs, k, f, p);
  }

  /** Two settled heaps over the same segments and with the same chunks in use are the same heap, whatever the
      order in which the rest was freed and merged. */
  lemma SettledIsUnique(m: Mem, h: Chunks, top: int, topsize: int, dv: int, dvsize: int, ends: set<int>,
                        b: map<int, int>, least: int,
                        m': Mem, h': Chunks, top': int, topsize': int, dv': int, dvsize': int, ends': set<int>,
                        b': map<int, int>, least': int, segs: seq<Segment>)
    requires Settled(m, h, top, topsize, dv, dvsize, ends, segs, b, least, {})
    requires Settled(m', h', top', topsize', dv', dvsize', ends', segs, b', least', {})
    requires Used(h) == Used(h')
    ensures h == h'
  {
    TopBounds(m, h, top, topsize, dv, dvsize, ends, segs, b, least, {});
    TopBounds(m', h', top', topsize', dv', dvsize', ends', segs, b', least', {});
    hide Tagged, Laid, Joined, Coalesced, Segmented;
    if segs != [] {
      assert Tiling(h, top, topsize, least, ends, segs) && Tiling(h', top', topsize', least', ends', segs);
      CoalescedIsUnique(h, top, topsize, least, ends, h', top', topsize', least', ends', segs);
    }
  }
}
