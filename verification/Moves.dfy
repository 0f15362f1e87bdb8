/** How compaction moves the bytes of unlocked blocks down over free ones. */
module Moves {
  import opened Common
  import opened ListSort
  import opened Blocks
  import opened Ranges

  /** What lay in `[lo, hi)` lies `d` bytes lower, and nothing else changed but what that overwrote. */
  ghost predicate Slid(m: seq<int>, n: seq<int>, lo: int, hi: int, d: int) {
    && |n| == |m| && 0 <= d <= lo <= hi <= |m|
    && (forall x :: lo - d <= x < hi - d ==> n[x] == m[x + d])
    && (forall x :: 0 <= x < |m| && (x < lo - d || hi - d <= x) ==> n[x] == m[x])
  }

  /** `memmove`, downwards. */
  method MoveBytes(bytes: array<int>, dest: nat, src: nat, n: nat)
    requires dest <= src && src + n <= bytes.Length
    modifies bytes
    ensures Slid(old(bytes[..]), bytes[..], src, src + n, src - dest)
  {
    forall i | 0 <= i < n {
      bytes[dest + i] := bytes[src + i];
    }
  }

  lemma SlidOn(m: seq<int>, n: seq<int>, o: seq<int>, lo: int, mid: int, hi: int, d: int)
    requires Slid(m, n, lo, mid, d) && Slid(n, o, mid, hi, d)
    ensures Slid(m, o, lo, hi, d)
  {
  }

  lemma SlidNothing(m: seq<int>, lo: int, d: int)
    requires 0 <= d <= lo <= |m|
    ensures Slid(m, m, lo, lo, d)
  {
  }

  /** The headers with an index in `[u, c)` point `d` bytes lower than the blocks `b` lie, the others where they lie. */
  ghost predicate Lowered(l: seq<Header>, b: seq<Block>, u: int, c: int, d: int)
    reads l`memory
  {
    |b| == |l| && forall k :: 0 <= k < |l| ==> l[k].memory == b[k].addr - if u <= k < c then d else 0
  }

  ghost predicate Sized(l: seq<Header>, b: seq<Block>)
    reads l`size
  {
    |b| == |l| && forall i :: 0 <= i < |l| ==> l[i].size == b[i].size
  }

  /** The blocks with an index in `[u, c)`, of those that tile `[lo, hi)`, have been moved; `m` were the bytes
      before. */
  ghost predicate Moving(bytes: array<int>, l: seq<Header>, b: seq<Block>, m: seq<int>, u: nat, c: nat, e: nat, d: int,
                         lo: int, hi: int)
    reads bytes, l`memory, l`size, l`next
  {
    && Linked(l, null) && Distinct(l) && Sized(l, b) && Lowered(l, b, u, c, d)
    && u <= c <= e <= |l| && Tiles(b[u..e], lo, hi) && 0 <= d <= lo && hi <= bytes.Length
    && Slid(m, bytes[..], lo, lo + Sum(b[u..c]), d)
  }

  /** Moves one block down by `d` bytes. */
  method MoveOne(bytes: array<int>, h: Header, d: int, ghost l: seq<Header>, ghost b: seq<Block>, ghost m: seq<int>,
                 ghost u: nat, ghost c: nat, ghost e: nat, ghost lo: int, ghost hi: int)
    requires Moving(bytes, l, b, m, u, c, e, d, lo, hi) && c < e && h == l[c]
    modifies bytes, l`memory
    ensures Moving(bytes, l, b, m, u, c + 1, e, d, lo, hi)
  {
    hide Linked, Sum, Tiles, Slid;
    SliceAt(b, u, e, c, lo, hi);
    SumStep(b, u, c);
    var src := h.memory;
    var dest := src - d;
    h.memory := dest;
    ghost var n := bytes[..];
    assert h.size == b[c].size;
    MoveBytes(bytes, dest, src, h.size);
    SlidOn(m, n, bytes[..], lo, src, src + h.size, d);
  }

  /** The loop of `rm_compact` that moves the unlocked blocks down by `d` bytes, lowest first. */
  method MoveUnlocked(bytes: array<int>, first: Header, lastNext: Header?, d: int, ghost l: seq<Header>, ghost u: nat,
                      ghost e: nat, ghost lo: int, ghost hi: int)
    returns (size: int)
    requires Linked(l, null) && Distinct(l) && u < e <= |l| && first == l[u] && lastNext == At(l, e)
    requires Tiles(Snap(l)[u..e], lo, hi) && 0 <= d <= lo && hi <= bytes.Length
    modifies bytes, l`memory
    ensures size == old(Sum(Snap(l)[u..e])) && Slid(old(bytes[..]), bytes[..], lo, hi, d)
    ensures Lowered(l, old(Snap(l)), u, e, d)
  {
    hide Linked, Snap, Sum, Slid, Tiles, Distinct, Lowered, Sized, Moving;
    ghost var b := Snap(l);
    var h: Header? := first;
    size := 0;
    ghost var c := u;
    SumOne(b, u);
    MovingNothing(bytes, l, u, e, d, lo, hi);
    while h != null && h != lastNext
      invariant u <= c <= e && h == At(l, c) && size == Sum(b[u..c])
      invariant Moving(bytes, l, b, old(bytes[..]), u, c, e, d, lo, hi)
      decreases e - c
    {
      Step(bytes, l, b, old(bytes[..]), u, c, e, d, lo, hi, lastNext);
      size := size + h.size;
      MoveOne(bytes, h, d, l, b, old(bytes[..]), u, c, e, lo, hi);
      h := h.next;
      c := c + 1;
    }
    Moved(bytes, l, b, old(bytes[..]), u, c, e, d, lo, hi, lastNext);
  }

  lemma MovingNothing(bytes: array<int>, l: seq<Header>, u: nat, e: nat, d: int, lo: int, hi: int)
    requires Linked(l, null) && Distinct(l) && u <= e <= |l|
    requires Tiles(Snap(l)[u..e], lo, hi) && 0 <= d <= lo && hi <= bytes.Length
    ensures Moving(bytes, l, Snap(l), bytes[..], u, u, e, d, lo, hi)
  {
    hide Linked, Sum, Tiles, Distinct, Snap;
    SumOne(Snap(l), u);
    SnapAre(l);
    RoomBelow(Snap(l), u, e, lo, hi);
    SlidNothing(bytes[..], lo, d);
  }

  lemma Step(bytes: array<int>, l: seq<Header>, b: seq<Block>, m: seq<int>, u: nat, c: nat, e: nat, d: int, lo: int,
             hi: int, next: Header?)
    requires Moving(bytes, l, b, m, u, c, e, d, lo, hi) && next == At(l, e) && At(l, c) != null && At(l, c) != next
    ensures c < e && l[c].next == At(l, c + 1) && Sum(b[u..c + 1]) == Sum(b[u..c]) + l[c].size
  {
    hide Tiles, Slid, Sum, Lowered;
    ScanEnds(l, c, next, e);
    LinkedNext(l, c);
    SumStep(b, u, c);
  }

  lemma Moved(bytes: array<int>, l: seq<Header>, b: seq<Block>, m: seq<int>, u: nat, c: nat, e: nat, d: int, lo: int,
              hi: int, next: Header?)
    requires Moving(bytes, l, b, m, u, c, e, d, lo, hi) && next == At(l, e) && (At(l, c) == null || At(l, c) == next)
    ensures c == e && Slid(m, bytes[..], lo, hi, d) && Lowered(l, b, u, e, d)
  {
    hide Tiles, Slid, Sum, Lowered;
    ScanEnds(l, c, next, e);
    SliceTotal(b, u, e, lo, hi);
  }

  lemma RoomBelow(b: seq<Block>, u: nat, e: nat, lo: int, hi: int)
    requires u <= e <= |b| && Tiles(b[u..e], lo, hi)
    ensures lo <= hi
  {
    TilesSum(b[u..e], lo, hi);
  }

  lemma SliceAt(b: seq<Block>, u: nat, e: nat, c: nat, lo: int, hi: int)
    requires u <= c < e <= |b| && Tiles(b[u..e], lo, hi)
    ensures b[c].addr == lo + Sum(b[u..c]) && 0 < b[c].size && lo <= b[c].addr && b[c].addr + b[c].size <= hi
  {
    TilesAt(b[u..e], lo, hi, c - u);
    assert b[u..e][..c - u] == b[u..c];
  }

  lemma SliceTotal(b: seq<Block>, u: nat, e: nat, lo: int, hi: int)
    requires u <= e <= |b| && Tiles(b[u..e], lo, hi)
    ensures hi == lo + Sum(b[u..e])
  {
    TilesSum(b[u..e], lo, hi);
  }

  lemma ScanEnds(l: seq<Header>, c: nat, next: Header?, e: nat)
    requires Distinct(l) && c <= e <= |l| && next == At(l, e)
    ensures At(l, c) == null || At(l, c) == next <==> c == e
  {
  }
}
