/** Lists of rmalloc block headers, and the ranges of free and of unlocked blocks that compaction looks for. */
module Ranges {
  import opened ListSort
  import opened Blocks
  import opened Choices

  function BlockOf(h: Header): Block
    reads h`memory, h`size, h`kind
  {
    Block(h.memory, h.size, h.kind)
  }

  /** The blocks of the headers `l`. */
  ghost function Snap(l: seq<Header>): (b: seq<Block>)
    reads l`memory, l`size, l`kind
    ensures |b| == |l|
  {
    if l == [] then [] else [Block(l[0].memory, l[0].size, l[0].kind)] + Snap(l[1..])
  }

  lemma {:induction false} SnapAre(l: seq<Header>)
    ensures forall i :: 0 <= i < |l| ==> Snap(l)[i] == Block(l[i].memory, l[i].size, l[i].kind)
  {
    if l != [] {
      SnapAre(l[1..]);
    }
  }

  lemma SnapAt(l: seq<Header>, i: nat)
    requires i < |l|
    ensures Snap(l)[i] == Block(l[i].memory, l[i].size, l[i].kind)
  {
    SnapAre(l);
  }

  lemma SnapConcat(x: seq<Header>, y: seq<Header>)
    ensures Snap(x + y) == Snap(x) + Snap(y)
  {
    hide Snap;
    SnapAre(x);
    SnapAre(y);
    SnapAre(x + y);
    assert Snap(x + y) == Snap(x) + Snap(y);
  }

  lemma SnapSlice(l: seq<Header>, i: nat, j: nat)
    requires i <= j <= |l|
    ensures Snap(l[i..j]) == Snap(l)[i..j]
  {
    hide Snap;
    SnapAre(l);
    SnapAre(l[i..j]);
    assert Snap(l[i..j]) == Snap(l)[i..j];
  }

  /** The headers of `l` are linked in order, the last to `end`. */
  ghost predicate Linked(l: seq<Header>, end: Header?)
    reads l`next
  {
    forall i :: 0 <= i < |l| ==> l[i].next == After(l, i, end)
  }

  /** What follows index `i` of `l`, when `end` follows the last. */
  function After(l: seq<Header>, i: nat, end: Header?): Header? { if i + 1 < |l| then l[i + 1] else end }

  lemma LinkedNext(l: seq<Header>, i: nat)
    requires Linked(l, null) && i < |l|
    ensures l[i].next == At(l, i + 1)
  {
    assert l[i].next == After(l, i, null);
  }

  lemma SumOne(b: seq<Block>, i: nat)
    requires i <= |b|
    ensures Sum(b[i..i]) == 0
  {
    assert b[i..i] == [];
  }

  // ---------------------------------------------------------------- finding ranges

  /** `find_last_nonfree_header`, from index `i` of the list on. */
  method FindLastNonfree(root: Header?, ghost l: seq<Header>, ghost i: nat) returns (last: Header?, ghost f: nat)
    requires Linked(l, null) && i <= |l| && root == At(l, i)
    ensures i <= f <= |l| && (forall k :: i <= k < f ==> l[k].kind != Free) && (f < |l| ==> l[f].kind == Free)
    ensures last == if f > i then l[f - 1] else null
  {
    hide Linked;
    var h := root;
    last := null;
    f := i;
    while h != null && h.kind != Free
      invariant i <= f <= |l| && h == At(l, f) && forall k :: i <= k < f ==> l[k].kind != Free
      invariant last == if f > i then l[f - 1] else null
      decreases |l| - f
    {
      LinkedNext(l, f);
      last := h;
      h := h.next;
      f := f + 1;
    }
  }

  /** `get_free_header_range`: the first maximal run of free blocks from index `i` on. */
  method GetFreeRange(start0: Header?, ghost l: seq<Header>, ghost i: nat)
    returns (first: Header?, last: Header?, size: int, ghost f: nat, ghost g: nat)
    requires Linked(l, null) && i <= |l| && start0 == At(l, i)
    ensures i <= f <= g <= |l| && (forall k :: i <= k < f ==> l[k].kind != Free)
    ensures forall k :: f <= k < g ==> l[k].kind == Free
    ensures g < |l| ==> l[g].kind != Free
    ensures if f == |l| then first == null && size == 0 && f == g
            else f < g && first == l[f] && last == l[g - 1] && size == Sum(Snap(l)[f..g])
    ensures f == First(Snap(l), i, AFree) && g == First(Snap(l), f, AUsed)
  {
    hide Linked, Snap, Sum, First;
    var start := start0;
    f := i;
    while start != null && start.kind != Free
      invariant i <= f <= |l| && start == At(l, f) && forall k :: i <= k < f ==> l[k].kind != Free
      decreases |l| - f
    {
      LinkedNext(l, f);
      start := start.next;
      f := f + 1;
    }
    first, last, size, g := start, start, 0, f;
    ghost var b := Snap(l);
    SumOne(b, f);
    while start != null && start.kind == Free
      invariant f <= g <= |l| && start == At(l, g) && forall k :: f <= k < g ==> l[k].kind == Free
      invariant first == At(l, f) && (g > f ==> last == l[g - 1]) && size == Sum(b[f..g])
      decreases |l| - g
    {
      LinkedNext(l, g);
      SumStep(b, f, g);
      SnapAt(l, g);
      last := start;
      size := size + start.size;
      start := start.next;
      g := g + 1;
    }
    SnapAre(l);
    FirstIs(b, i, AFree, f);
    FirstIs(b, f, AUsed, g);
  }

  /** The last loop of `get_unlocked_header_range`: the unlocked blocks from `start` on, up to a total of `maxSize`
      unless that is zero. */
  method TakeUnlocked(start0: Header, maxSize: int, ghost l: seq<Header>, ghost u: nat, passed0: bool)
    returns (last: Header, size: int, passed: bool, ghost e: nat)
    requires Linked(l, null) && u < |l| && start0 == l[u] && start0.kind == Unlocked
    requires maxSize > 0 ==> start0.size <= maxSize
    ensures u < e <= |l| && last == l[e - 1] && size == Sum(Snap(l)[u..e])
    ensures forall k :: u <= k < e ==> l[k].kind == Unlocked
    ensures maxSize > 0 ==> size <= maxSize
    ensures maxSize == 0 && e < |l| ==> l[e].kind != Unlocked
    ensures e == RunEnd(Snap(l), u, u, maxSize)
    ensures passed <==> passed0 || (e < |l| && l[e].kind == Free)
  {
    hide Linked, Snap, Sum;
    SnapAre(l);
    var start: Header? := start0;
    last, size, e, passed := start0, 0, u, passed0;
    ghost var b := Snap(l);
    SumOne(b, u);
    while start != null && start.kind == Unlocked
      invariant u <= e <= |l| && start == At(l, e) && size == Sum(b[u..e])
      invariant (e == u ==> start == start0 && size == 0) && (e > u ==> last == l[e - 1])
      invariant forall k :: u <= k < e ==> l[k].kind == Unlocked
      invariant maxSize > 0 ==> size <= maxSize
      invariant RunEnd(b, u, e, maxSize) == RunEnd(b, u, u, maxSize)
      decreases |l| - e
    {
      if maxSize > 0 && size + start.size > maxSize {
        break;
      }
      LinkedNext(l, e);
      SumStep(b, u, e);
      SnapAt(l, e);
      last := start;
      size := size + start.size;
      start := start.next;
      e := e + 1;
    }
    if start != null && start.kind == Free {
      passed := true;
    }
  }

  /** Whether some block from index `g` on is free. */
  ghost predicate SomeFree(l: seq<Header>, g: nat)
    reads l`kind
  {
    exists k :: g <= k < |l| && l[k].kind == Free
  }

  /** The first loop of `get_unlocked_header_range`: on to the first unlocked block. */
  method SkipLocked(start0: Header, ghost l: seq<Header>, ghost g: nat)
    returns (start: Header?, before: Header?, passed: bool, ghost u: nat)
    requires Linked(l, null) && g < |l| && start0 == l[g]
    ensures g <= u <= |l| && start == At(l, u) && (u > g ==> before == l[u - 1])
    ensures start != null ==> start.kind == Unlocked
    ensures start0.kind == Unlocked <==> u == g
    ensures passed ==> SomeFree(l, g)
    ensures u == First(Snap(l), g, AnUnlocked) && (passed <==> First(Snap(l), g, AFree) < u)
  {
    hide Linked, Snap, First;
    start, before, passed, u := start0, null, false, g;
    while start != null && start.kind != Unlocked
      invariant g <= u <= |l| && start == At(l, u) && (u > g ==> before == l[u - 1])
      invariant passed ==> exists k :: g <= k < u && l[k].kind == Free
      invariant !passed ==> forall k :: g <= k < u ==> l[k].kind != Free
      invariant forall k :: g <= k < u ==> l[k].kind != Unlocked
      invariant start0.kind == Unlocked ==> u == g
      decreases |l| - u
    {
      LinkedNext(l, u);
      if start.kind == Free {
        passed := true;
      }
      before := start;
      start := start.next;
      u := u + 1;
    }
    SnapAre(l);
    FirstIs(Snap(l), g, AnUnlocked, u);
    FirstOf(Snap(l), g, AFree);
  }

  /** The second loop: on to an unlocked block that fits, but not past a free block. */
  method SkipTooLarge(start0: Header, before0: Header?, maxSize: int, ghost l: seq<Header>, ghost u0: nat)
    returns (found: bool, start: Header?, before: Header?, ghost u: nat)
    requires Linked(l, null) && u0 < |l| && start0 == l[u0]
    ensures u0 <= u <= |l| && start == At(l, u) && before == if u > u0 then l[u - 1] else before0
    ensures found ==> start != null && start.kind == Unlocked && start.size <= maxSize
    ensures !found && start != null ==> start.kind == Free
    ensures u == First(Snap(l), u0, AFit(maxSize)) && (found <==> u < |l| && l[u].kind == Unlocked)
  {
    hide Linked, Snap, First;
    SnapAre(l);
    found, start, before, u := false, start0, before0, u0;
    while start != null && start.kind != Free
      invariant u0 <= u <= |l| && start == At(l, u) && before == if u > u0 then l[u - 1] else before0
      invariant forall k :: u0 <= k < u ==> !Wanted(AFit(maxSize), Snap(l)[k])
      decreases |l| - u
    {
      if start.kind == Unlocked && start.size <= maxSize {
        found := true;
        break;
      }
      LinkedNext(l, u);
      before := start;
      start := start.next;
      u := u + 1;
    }
    FirstIs(Snap(l), u0, AFit(maxSize), u);
  }

  /** `get_unlocked_header_range`: from index `g` on, unlocked blocks that fit into `maxSize` bytes, unless that is
      zero. */
  method GetUnlockedRange(start0: Header, maxSize: int, ghost l: seq<Header>, ghost g: nat)
    returns (first: Header?, last: Header?, before: Header?, size: int, passed: bool, ghost u: nat, ghost e: nat)
    requires Linked(l, null) && g < |l| && start0 == l[g] && 0 <= maxSize
    ensures first != null ==> g <= u < e <= |l| && first == l[u] && last == l[e - 1] && size == Sum(Snap(l)[u..e])
    ensures first != null ==> forall k :: u <= k < e ==> l[k].kind == Unlocked
    ensures first != null && maxSize > 0 ==> size <= maxSize
    ensures first != null && u > g ==> before == l[u - 1]
    ensures first == null ==> last == null
    ensures start0.kind == Unlocked && maxSize == 0 ==> first != null && u == g && (e < |l| ==> l[e].kind != Unlocked)
    ensures start0.kind != Unlocked && first != null ==> u > g
    ensures first == null && passed ==> SomeFree(l, g)
    ensures first != null <==> u < |l| && l[u].kind == Unlocked
    ensures u == if maxSize == 0 then First(Snap(l), g, AnUnlocked) else FitFrom(Snap(l), g, maxSize)
    ensures first != null ==> e == RunEnd(Snap(l), u, u, maxSize)
    ensures first == null ==> (passed <==> First(Snap(l), g, AFree) < |l|)
  {
    hide Linked, Snap, Sum, First, RunEnd;
    SnapAre(l);
    FirstOf(Snap(l), g, AFree);
    FirstOf(Snap(l), |l|, AFit(maxSize));
    var start;
    start, before, passed, u := SkipLocked(start0, l, g);
    first, last, size, e := null, null, 0, u;
    if start == null {
      return;
    }
    if maxSize > 0 {
      var found;
      found, start, before, u := SkipTooLarge(start, before, maxSize, l, u);
      if start != null && start.kind == Free {
        passed := true;
      }
      if !found {
        FitIs(Snap(l), g, maxSize);
        before := null;
        return;
      }
    }
    first := start;
    last, size, passed, e := TakeUnlocked(start, maxSize, l, u, passed);
  }

  // ---------------------------------------------------------------- one look at the list

  /** What a round of compaction decides: to stop, to look again from a later header, or to slide unlocked blocks. */
  datatype Outcome = Stop | Again | Slide

  /** The blocks `[f, g)` are a maximal run of free blocks, the first from index `r` on, and the blocks `[u, e)` are
      unlocked and go into their place. */
  ghost predicate Chosen(l: seq<Header>, r: nat, f: nat, g: nat, u: nat, e: nat)
    reads l`memory, l`size, l`kind
  {
    && r <= f < g <= u < e <= |l|
    && (forall k :: r <= k < f ==> l[k].kind != Free)
    && (forall k :: f <= k < g ==> l[k].kind == Free)
    && (forall k :: u <= k < e ==> l[k].kind == Unlocked)
    && l[g].kind != Free
    && (u == g <==> l[g].kind == Unlocked)
    && (u > g ==> Sum(Snap(l)[u..e]) <= Sum(Snap(l)[f..g]))
  }

  /** From index `f` on every block is free, and none is from `r` to there. */
  ghost predicate FreeTail(l: seq<Header>, r: nat, f: nat)
    reads l`kind
  {
    && r <= f <= |l|
    && (forall k :: r <= k < f ==> l[k].kind != Free)
    && (forall k :: f <= k < |l| ==> l[k].kind == Free)
  }

  /** No block is locked. */
  ghost predicate NoneLocked(l: seq<Header>)
    reads l`kind
  {
    forall k :: 0 <= k < |l| ==> l[k].kind == Free || l[k].kind == Unlocked
  }

  lemma SumPositive(b: seq<Block>, i: nat, j: nat, lo: int, hi: int)
    requires Tiles(b, lo, hi) && i < j <= |b|
    ensures MIN_BLOCK <= Sum(b[i..j])
  {
    hide Tiles, Sum;
    assert b == b[..i] + b[i..j] + b[j..];
    TilesSplit(b[..i] + b[i..j], b[j..], lo, hi);
    TilesSplit(b[..i], b[i..j], lo, lo + Sum(b[..i] + b[i..j]));
    TilesSum(b[i..j], lo + Sum(b[..i]), lo + Sum(b[..i] + b[i..j]));
  }

  lemma SnapOrdered(l: seq<Header>, i: nat, j: nat, lo: int, hi: int)
    requires Tiles(Snap(l), lo, hi) && i < j < |l|
    ensures l[i].memory < l[j].memory
  {
    hide Tiles, Snap;
    var b := Snap(l);
    TilesOrdered(b, lo, hi, i, j);
    TilesAt(b, lo, hi, i);
    SnapAt(l, i);
    SnapAt(l, j);
  }

  /** `header_memory_offset`. */
  method HeaderMemoryOffset(first: Header, last: Header) returns (d: int)
    ensures d == if first.memory > last.memory then 0 else last.memory - first.memory
  {
    var f, l := first.memory, last.memory;
    if f > l {
      return 0;
    }
    d := l - f;
  }

  /** The first half of the loop body of `rm_compact`: the ranges to work on, starting at the header of index `r`. */
  method Survey(root: Header, ghost l: seq<Header>, ghost r: nat, ghost lo: int, ghost hi: int)
    returns (outcome: Outcome, rootLast: Header?, freeFirst: Header?, freeLast: Header?, freeSize: int,
             usedFirst: Header?, usedLast: Header?, before: Header?, offset: int,
             ghost f: nat, ghost g: nat, ghost u: nat, ghost e: nat)
    requires Linked(l, null) && r < |l| && root == l[r] && Tiles(Snap(l), lo, hi)
    ensures Choose(Snap(l), r)
         == match outcome case Stop => NoMove case Again => LookFrom(g) case Slide => Moves(f, g, u, e)
    ensures outcome == Stop && NoneLocked(l) ==> FreeTail(l, r, f)
    ensures outcome == Again ==> r < g < |l| && freeLast != null && freeLast.next == l[g] && l[g].kind != Free
    ensures outcome == Again ==> !NoneLocked(l)
    ensures outcome == Slide ==> Chosen(l, r, f, g, u, e)
    ensures outcome == Slide ==> freeFirst == l[f] && freeLast == l[g - 1] && freeSize == Sum(Snap(l)[f..g])
    ensures outcome == Slide ==> usedFirst == l[u] && usedLast == l[e - 1] && (u > g ==> before == l[u - 1])
    ensures outcome == Slide ==> rootLast == if f > r then l[f - 1] else null
    ensures outcome == Slide ==> offset == l[u].memory - l[f].memory > 0
  {
    hide Linked, Snap, Sum, Tiles, First, RunEnd, FitFrom;
    ghost var b := Snap(l);
    SnapAre(l);
    ghost var f0;
    rootLast, f0 := FindLastNonfree(root, l, r);
    freeFirst, freeLast, freeSize, f, g := GetFreeRange(root, l, r);
    assert f0 == f;
    outcome, usedFirst, usedLast, before, offset, u, e := Stop, null, null, null, 0, g, g;
    if f < g {
      SumPositive(b, f, g, lo, hi);
    }
    if freeSize == 0 {
      return;
    }
    LinkedNext(l, g - 1);
    var start := freeLast.next;
    if start == null {
      return;
    }
    var maxSize := 0;
    if start.kind != Unlocked {
      maxSize := freeSize;
    }
    var usedSize, passed;
    usedFirst, usedLast, before, usedSize, passed, u, e := GetUnlockedRange(start, maxSize, l, g);
    if maxSize > 0 && usedFirst == null {
      if usedLast == null {
        if freeLast.next != null && passed {
          outcome := Again;
        }
      }
      return;
    }
    SumPositive(b, u, e, lo, hi);
    if usedSize == 0 {
      return;
    }
    SnapOrdered(l, f, u, lo, hi);
    offset := HeaderMemoryOffset(freeFirst, usedFirst);
    if offset == 0 {
      return;
    }
    outcome := Slide;
  }
}
