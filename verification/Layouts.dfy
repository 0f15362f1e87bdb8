/** The heap of rmalloc as a value: its blocks and what the slots list, and what each call makes of them. */
module Layouts {
  import opened Common
  import opened ListSort
  import opened Blocks
  import opened Choices

  /** `sizeof(rm_header_t)`, packed. */
  const HEADER := 29

  /** `block_new` rounds small requests up. */
  function Padded(size: nat): nat { if size < MIN_BLOCK then MIN_BLOCK else size }

  /** The blocks by address, the free ones that each slot lists, where the blocks end and the headers begin, and where
      the heap ends. */
  datatype Layout = Layout(blocks: seq<Block>, listed: seq<seq<Block>>, top: int, bottom: int, end: int)

  // ---------------------------------------------------------------- the blocks

  /** The place of the block at address `a`, or the number of blocks. */
  function PlaceOf(b: seq<Block>, a: int): nat {
    if b == [] || b[0].addr == a then 0 else 1 + PlaceOf(b[1..], a)
  }

  lemma {:induction false} PlaceIs(b: seq<Block>, lo: int, hi: int, i: nat)
    requires Tiles(b, lo, hi) && i < |b|
    ensures PlaceOf(b, b[i].addr) == i
  {
    if i > 0 {
      TilesOrdered(b, lo, hi, 0, i);
      PlaceIs(b[1..], lo + b[0].size, hi, i - 1);
    }
  }

  /** The block at address `a` gets another kind. */
  function WithKind(b: seq<Block>, a: int, kind: Kind): seq<Block> {
    var i := PlaceOf(b, a);
    if i < |b| then b[i := b[i].(kind := kind)] else b
  }

  /** The blocks after the lower `d` bytes of the block of index `i` have been cut off. */
  function SplitBlocks(b: seq<Block>, i: nat, d: int): seq<Block>
    requires i < |b|
  {
    b[..i] + [Block(b[i].addr, d, Free)] + [Block(b[i].addr + d, b[i].size - d, b[i].kind)] + b[i + 1..]
  }

  // ---------------------------------------------------------------- the slots

  /** The block `x` comes first in the slot of its size. */
  function Listing(s: seq<seq<Block>>, x: Block): seq<seq<Block>> {
    if 0 < x.size && Log2(x.size) < |s| then s[Log2(x.size) := [x] + s[Log2(x.size)]] else s
  }

  function Unlisting(s: seq<seq<Block>>, k: nat, j: nat): seq<seq<Block>>
    requires k < |s| && j < |s[k]|
  {
    s[k := s[k][..j] + s[k][j + 1..]]
  }

  /** The free blocks of `b` in `n` slots, where each comes before those that lie lower. */
  function Relisted(b: seq<Block>, n: nat): (s: seq<seq<Block>>)
    ensures |s| == n
  {
    if b == [] then seq(n, k => [])
    else
      var s, x := Relisted(b[..|b| - 1], n), b[|b| - 1];
      if x.kind == Free then Listing(s, x) else s
  }

  /** Every slot lists free blocks of its sizes, from the highest one down. */
  ghost predicate Falling(s: seq<seq<Block>>, top: int) {
    && (forall k, i, j :: 0 <= k < |s| && 0 <= i < j < |s[k]| ==> s[k][j].addr < s[k][i].addr)
    && (forall k, j :: 0 <= k < |s| && 0 <= j < |s[k]| ==>
          var x := s[k][j]; x.kind == Free && 0 < x.size && Log2(x.size) == k && x.addr < top)
  }

  lemma ListingFalls(s: seq<seq<Block>>, top: int, x: Block, top': int)
    requires Falling(s, top) && x.kind == Free && top <= x.addr < top' && 0 < x.size && Log2(x.size) < |s|
    ensures Falling(Listing(s, x), top')
  {
    hide Log2;
  }

  lemma {:induction false} RelistedFalls(b: seq<Block>, n: nat, lo: int, hi: int)
    requires Tiles(b, lo, hi) && forall i :: 0 <= i < |b| ==> 0 < b[i].size && Log2(b[i].size) < n
    ensures Falling(Relisted(b, n), hi)
  {
    hide Tiles, Sum, Listing, Log2;
    if b == [] {
    } else {
      var c, x := b[..|b| - 1], b[|b| - 1];
      assert b == c + [x];
      TilesSplit(c, [x], lo, hi);
      TilesAt(b, lo, hi, |b| - 1);
      assert b[..|b| - 1] == c;
      RelistedFalls(c, n, lo, x.addr);
      if x.kind == Free {
        ListingFalls(Relisted(c, n), x.addr, x, hi);
      }
    }
  }

  /** The first block of a slot with room for `size` bytes. */
  function FirstRoom(l: seq<Block>, size: nat): (i: nat)
    ensures i <= |l|
  {
    if l == [] || l[0].size >= size then 0 else 1 + FirstRoom(l[1..], size)
  }

  /** The first slot from `k` on that lists anything. */
  function FirstListing(s: seq<seq<Block>>, k: nat): (i: nat)
    requires k <= |s|
    ensures k <= i <= |s| && (i < |s| ==> s[i] != [])
    decreases |s| - k
  {
    if k == |s| || s[k] != [] then k else FirstListing(s, k + 1)
  }

  datatype Fit = NoFit | Fit(k: nat, j: nat)

  /** Where the block is listed that a search for `size` bytes takes: the first of the lowest slot above that of `size`
      that lists any, else the first that is large enough in the slot of `size`. */
  function FitFor(s: seq<seq<Block>>, size: nat): (f: Fit)
    requires 0 < size
    ensures f.Fit? ==> f.k < |s| && f.j < |s[f.k]|
  {
    if |s| <= Log2(size) then NoFit
    else
      var k, j := FirstListing(s, Log2(size) + 1), FirstRoom(s[Log2(size)], size);
      if k < |s| then Fit(k, 0) else if j < |s[Log2(size)]| then Fit(Log2(size), j) else NoFit
  }

  // ---------------------------------------------------------------- what the calls do

  /** `sizeof(free_memory_block_t *)`. */
  const SLOT_BYTES := 8

  /** The heap of `size` bytes before the first request. */
  function NewHeap(size: nat): Layout
    requires 0 < size
  {
    var n := Log2(size) + 1;
    Layout([], seq(n, k => []), SLOT_BYTES * n, size - 2 * HEADER, size)
  }

  predicate HasHeader(sp: Layout, recycled: bool) { recycled || sp.bottom - 2 * HEADER > sp.top }

  predicate HasTop(sp: Layout, n: nat) { sp.top + n + HEADER < sp.bottom }

  /** A request for `n` bytes is met: there is a header, and either there is room above the blocks or the first fit is
      large enough to be cut. */
  predicate Serves(sp: Layout, n: nat, recycled: bool)
    requires 0 < n
  {
    && HasHeader(sp, recycled)
    && (HasTop(sp, n) || var f := FitFor(sp.listed, n); f != NoFit && sp.listed[f.k][f.j].size >= n + MIN_BLOCK)
  }

  function HeadersAfter(sp: Layout, recycled: bool): int { sp.bottom - if recycled then 0 else HEADER }

  /** The heap after a search for `n` bytes. The first fit is listed no more; if it is large enough to be cut, and there
      is a header, its lower part is a free block of its own. */
  function AfterFind(sp: Layout, n: nat, recycled: bool): Layout
    requires 0 < n
  {
    var f := FitFor(sp.listed, n);
    if f == NoFit then sp
    else
      var x, listed := sp.listed[f.k][f.j], Unlisting(sp.listed, f.k, f.j);
      var i := PlaceOf(sp.blocks, x.addr);
      if i < |sp.blocks| && HasHeader(sp, recycled) && x.size >= n + MIN_BLOCK then
        sp.(blocks := SplitBlocks(sp.blocks, i, x.size - n),
            listed := Listing(listed, Block(x.addr, x.size - n, Free)), bottom := HeadersAfter(sp, recycled))
      else sp.(listed := listed)
  }

  /** Where the block for a request is that is met from the slots. */
  function FoundAt(sp: Layout, n: nat): int
    requires 0 < n
  {
    var f := FitFor(sp.listed, n);
    if f == NoFit then 0 else sp.listed[f.k][f.j].addr + (sp.listed[f.k][f.j].size - n)
  }

  /** The heap after a request for `n` bytes, met or not. */
  function AfterMalloc(sp: Layout, n: nat, recycled: bool): Layout
    requires 0 < n
  {
    if HasTop(sp, n) then
      if !HasHeader(sp, recycled) then sp
      else sp.(blocks := sp.blocks + [Block(sp.top, n, Unlocked)], top := sp.top + n,
               bottom := HeadersAfter(sp, recycled))
    else if Serves(sp, n, recycled) then AfterKind(AfterFind(sp, n, recycled), FoundAt(sp, n), Unlocked)
    else AfterFind(sp, n, recycled)
  }

  /** The heap after the block at address `a` was given back. */
  function AfterFree(sp: Layout, a: int): Layout {
    var i := PlaceOf(sp.blocks, a);
    if i < |sp.blocks|
    then sp.(blocks := WithKind(sp.blocks, a, Free), listed := Listing(sp.listed, sp.blocks[i].(kind := Free)))
    else sp
  }

  /** The heap after the block at address `a` was locked or unlocked. */
  function AfterKind(sp: Layout, a: int, kind: Kind): Layout { sp.(blocks := WithKind(sp.blocks, a, kind)) }

  /** The bottom of the headers when `n` more have been taken, as far as there is room above the blocks. */
  function WithMore(bottom: int, top: int, n: nat): int
    decreases n
  {
    if n > 0 && bottom - 2 * HEADER > top then WithMore(bottom - HEADER, top, n - 1) else bottom
  }

  /** The bottom of the headers when `n` have been given up, as far as there are any. */
  function WithFewer(bottom: int, end: int, n: nat): int
    decreases n
  {
    if n > 0 && bottom + HEADER <= end then WithFewer(bottom + HEADER, end, n - 1) else bottom
  }

  /** Nothing from index `c` on is in use. */
  ghost predicate UnusedFrom(b: seq<Block>, c: nat) {
    c <= |b| && (forall i :: c <= i < |b| ==> b[i].kind == Free) && (c > 0 ==> b[c - 1].kind != Free)
  }

  /** The heap after a compaction of so many rounds: they have moved what they were to move, the free blocks at the end
      are given up, and the others are listed anew. */
  ghost predicate Compacts(sp: Layout, sp': Layout, limited: bool, patience: nat, released: nat, rounds: nat) {
    var d := RoundsFrom(sp.blocks, 0, rounds).0;
    && Ran(sp.blocks, limited, patience, rounds)
    && UnusedFrom(d, |sp'.blocks|) && sp'.blocks == d[..|sp'.blocks|]
    && sp'.top - Sum(sp'.blocks) == sp.top - Sum(sp.blocks)
    && sp'.listed == Relisted(sp'.blocks, |sp.listed|)
    && sp'.bottom == WithFewer(WithMore(sp.bottom, sp.top, SparesFrom(sp.blocks, 0, rounds)), sp.end, released)
    && sp'.end == sp.end
  }
}
