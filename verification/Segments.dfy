/** The segments of memory obtained from the system, and how the chunks of the heap tile them. */
module Segments {
  import opened Heap

  datatype Segment = Segment(base: int, size: int)

  /** All memory the system grants lies below this address. */
  const USER_MAX := 0x7fff_ffff_ffff_0000

  /** `TOP_FOOT_SIZE`: room kept above the top for a segment record and fenceposts. */
  const TOP_FOOT_SIZE := 80

  /** `align_as_chunk`: the address of the first chunk of a segment at `a`. */
  function AlignAsChunk(a: int): int {
    if a % 16 == 0 then a else a + 16 - a % 16
  }

  function First(s: Segment): int { AlignAsChunk(s.base) }

  function End(s: Segment): int { s.base + s.size }

  /** The addresses from `p` to `e`, and the word above, lie in the chunk area of the segment. */
  ghost predicate InSeg(s: Segment, p: int, e: int) { First(s) <= p && e + CHUNK_OVERHEAD <= End(s) }

  ghost predicate Housed(segs: seq<Segment>, p: int, e: int) {
    exists i :: 0 <= i < |segs| && InSeg(segs[i], p, e)
  }

  predicate Disjoint(s: Segment, t: Segment) { End(s) <= t.base || End(t) <= s.base }

  ghost predicate Apart(segs: seq<Segment>) {
    forall i, j :: 0 <= i < |segs| && 0 <= j < |segs| && i != j ==> Disjoint(segs[i], segs[j])
  }

  /** No segment has two ends. */
  ghost predicate EndsApart(ends: set<int>, segs: seq<Segment>) {
    forall i, e, f {:trigger InSeg(segs[i], e, e), InSeg(segs[i], f, f)} ::
      0 <= i < |segs| && e in ends && f in ends && InSeg(segs[i], e, e) && InSeg(segs[i], f, f) ==> e == f
  }

  /** Segments do not overlap; each starts with a chunk and has exactly one end, and every chunk lies in one. */
  ghost predicate Segmented(h: Chunks, ends: set<int>, segs: seq<Segment>) {
    && Apart(segs)
    && EndsApart(ends, segs)
    && (forall i :: 0 <= i < |segs| ==>
          First(segs[i]) in h && First(segs[i]) + CHUNK_OVERHEAD <= End(segs[i]) < USER_MAX)
    && (forall p {:trigger Next(h, p)} :: p in h ==> Housed(segs, p, Next(h, p)))
  }

  /** The most recent segment ends on a 16-byte boundary. */
  ghost predicate EndsAligned(segs: seq<Segment>) { segs != [] ==> End(segs[0]) % 16 == 0 }

  /** The top ends the most recent segment, but for its foot. */
  ghost predicate TopPlaced(top: int, topsize: int, segs: seq<Segment>) {
    if top == 0 then segs == []
    else |segs| > 0 && First(segs[0]) <= top && top + topsize + TOP_FOOT_SIZE == End(segs[0])
  }

  /** The sum of the sizes of the segments. */
  function Total(segs: seq<Segment>): int {
    if segs == [] then 0 else segs[0].size + Total(segs[1..])
  }

  lemma TotalPush(s: Segment, segs: seq<Segment>)
    ensures Total([s] + segs) == s.size + Total(segs)
  {
    assert ([s] + segs)[1..] == segs;
  }

  lemma {:induction false} TotalUpdate(segs: seq<Segment>, i: nat, s: Segment)
    requires i < |segs|
    ensures Total(segs[i := s]) == Total(segs) + s.size - segs[i].size
  {
    if i == 0 {
      assert segs[0 := s][1..] == segs[1..];
    } else {
      TotalUpdate(segs[1..], i - 1, s);
      assert segs[i := s][1..] == segs[1..][i - 1 := s];
    }
  }

  /** Recutting a window inside one segment keeps the segments tiled. */
  lemma WindowSegments(h: Chunks, h': Chunks, top: int, least: int, ends: set<int>, segs: seq<Segment>, base: int,
                       end: int,
                       last: int)
    requires Laid(h, top, least) && Joined(h, ends) && Segmented(h, ends, segs)
    requires Window(h, base, end) && SameOutside(h, h', base, end) && Housed(segs, base, end)
    requires InWindow(h', last, base, end)
    ensures Segmented(h', EndsAfter(h, ends, base, end, last), segs)
  {
    hide Laid, Joined, Window, First, InSeg, Next, Apart, EndsApart, EndsAfter, SameOutside, InWindow, Housed;
    var k := HouseOf(segs, base, end);
    forall i | 0 <= i < |segs|
      ensures First(segs[i]) in h' && First(segs[i]) + CHUNK_OVERHEAD <= End(segs[i]) < USER_MAX
    {
      FirstKept(h, h', segs, base, end, k, i);
    }
    forall p | p in h'
      ensures Housed(segs, p, Next(h', p))
    {
      HousedKept(h, h', segs, base, end, k, p);
    }
    InWindowIs(h', last, base, end);
    WindowEndsApart(h, top, least, ends, segs, base, end, k, last);
  }

  lemma InWindowIs(h: Chunks, q: int, base: int, end: int)
    requires InWindow(h, q, base, end)
    ensures q in h && base <= q < end
  {
  }

  lemma HouseOf(segs: seq<Segment>, p: int, e: int) returns (k: int)
    requires Housed(segs, p, e)
    ensures 0 <= k < |segs| && InSeg(segs[k], p, e)
  {
    k :| 0 <= k < |segs| && InSeg(segs[k], p, e);
  }

  lemma HousedKept(h: Chunks, h': Chunks, segs: seq<Segment>, base: int, end: int, k: int, p: int)
    requires SameOutside(h, h', base, end) && p in h'
    requires 0 <= k < |segs| && InSeg(segs[k], base, end)
    requires p in h ==> Housed(segs, p, Next(h, p))
    ensures Housed(segs, p, Next(h', p))
  {
    if base <= p < end {
      assert InSeg(segs[k], p, Next(h', p));
    }
  }

  lemma WindowEndsApart(h: Chunks, top: int, least: int, ends: set<int>, segs: seq<Segment>, base: int, end: int,
                        k: int,
                        last: int)
    requires Laid(h, top, least) && Joined(h, ends) && Window(h, base, end)
    requires Apart(segs) && EndsApart(ends, segs)
    requires 0 <= k < |segs| && InSeg(segs[k], base, end) && base <= last < end
    ensures EndsApart(EndsAfter(h, ends, base, end, last), segs)
  {
    if end !in h {
      LastIsEnd(h, top, least, ends, base, end);
      var e :| e in ends && base <= e < end;
      hide Laid, Joined, Window;
      var ends' := EndsAfter(h, ends, base, end, last);
      assert InSeg(segs[k], e, e) && InSeg(segs[k], last, last);
      forall i, f, g | 0 <= i < |segs| && f in ends' && g in ends' && InSeg(segs[i], f, f) && InSeg(segs[i], g, g)
        ensures f == g
      {
        if f == last || g == last {
          SameSegment(segs, i, k, last);
        }
      }
    }
  }

  lemma SameSegment(segs: seq<Segment>, i: int, j: int, p: int)
    requires Apart(segs)
    requires 0 <= i < |segs| && 0 <= j < |segs| && InSeg(segs[i], p, p) && InSeg(segs[j], p, p)
    ensures i == j
  {
  }

  lemma FirstKept(h: Chunks, h': Chunks, segs: seq<Segment>, base: int, end: int, k: int, i: int)
    requires Apart(segs)
    requires SameOutside(h, h', base, end)
    requires 0 <= k < |segs| && InSeg(segs[k], base, end)
    requires 0 <= i < |segs| && First(segs[i]) in h && First(segs[i]) + CHUNK_OVERHEAD <= End(segs[i])
    ensures First(segs[i]) in h'
  {
    var f := First(segs[i]);
    if base <= f < end {
      assert InSeg(segs[k], f, f) && InSeg(segs[i], f, f);
      SameSegment(segs, i, k, f);
    }
  }

  /** A window with nothing above it holds an end. */
  lemma LastIsEnd(h: Chunks, top: int, least: int, ends: set<int>, base: int, end: int)
    requires Laid(h, top, least) && Joined(h, ends) && Window(h, base, end) && end !in h
    ensures exists e :: e in ends && base <= e < end
  {
    EndFrom(h, top, least, ends, base, end, base);
  }

  lemma EndFrom(h: Chunks, top: int, least: int, ends: set<int>, base: int, end: int, p: int)
    requires Laid(h, top, least) && Joined(h, ends) && Window(h, base, end) && end !in h
    requires p in h && base <= p < end
    ensures exists e :: e in ends && base <= e < end
    decreases end - p
  {
    if p !in ends {
      assert Next(h, p) in h && h[p].size > 0;
      EndFrom(h, top, least, ends, base, end, Next(h, p));
    }
  }
}
