/** A round of compaction: the unlocked blocks slide over a run of free blocks, and the list is linked anew. */
module Rounds {
  import opened Common
  import opened ListSort
  import opened Blocks
  import opened Ranges
  import opened Moves

  // ---------------------------------------------------------------- the round on values

  /** The order after a round: the blocks `[u, e)` and the spare block take the place of `[f, g)`, and one freed block
      stands where `[u, e)` was. */
  function Rearranged<T>(l: seq<T>, spare: seq<T>, f: nat, g: nat, u: nat, e: nat): seq<T>
    requires f < g <= u < e <= |l|
  {
    l[..f] + l[u..e] + spare + l[g..u] + [l[f]] + l[e..]
  }

  /** By how much the last moved block grows, when what is left over is too small for a free block. */
  function Stretching(b: seq<Block>, f: nat, g: nat, u: nat, e: nat): int
    requires f < g <= u < e <= |b|
  {
    var free, used := Sum(b[f..g]), Sum(b[u..e]);
    if u > g && free < used + MIN_BLOCK then free - used else 0
  }

  /** The free block for what is left over. */
  function SpareBlocks(b: seq<Block>, f: nat, g: nat, u: nat, e: nat): seq<Block>
    requires f < g <= u < e <= |b|
  {
    var free, used := Sum(b[f..g]), Sum(b[u..e]);
    if u > g && free >= used + MIN_BLOCK then [Block(b[f].addr + used, free - used, Free)] else []
  }

  /** The block of the header of index `i` after the round. */
  function AfterAt(b: seq<Block>, f: nat, g: nat, u: nat, e: nat, i: nat): Block
    requires f < g <= u < e <= |b| && i < |b|
  {
    if u <= i < e then
      var more := if i == e - 1 then Stretching(b, f, g, u, e) else 0;
      Block(b[i].addr - (b[u].addr - b[f].addr), b[i].size + more, b[i].kind)
    else if i == f then
      if u == g then Block(b[f].addr + Sum(b[u..e]), Sum(b[f..g]), Free) else Block(b[u].addr, Sum(b[u..e]), Free)
    else b[i]
  }

  ghost predicate IsAfter(b: seq<Block>, d: seq<Block>, f: nat, g: nat, u: nat, e: nat)
    requires f < g <= u < e <= |b|
  {
    |d| == |b| && forall i :: 0 <= i < |b| && (i <= f || g <= i) ==> d[i] == AfterAt(b, f, g, u, e, i)
  }

  lemma MovedSlice(b: seq<Block>, d: seq<Block>, f: nat, g: nat, u: nat, e: nat)
    requires f < g <= u < e <= |b| && IsAfter(b, d, f, g, u, e)
    ensures var moved := Shift(b[u..e], b[u].addr - b[f].addr);
            var more := Stretching(b, f, g, u, e);
            moved != [] && d[u..e] == if more == 0 then moved else Stretch(moved, more)
  {
    hide Sum, SpareBlocks, Stretching, Stretch;
    var moved := Shift(b[u..e], b[u].addr - b[f].addr);
    var n := Stretching(b, f, g, u, e);
    var x := d[u..e];
    assert |moved| == |x| && forall i :: 0 <= i < |x| - 1 ==> x[i] == moved[i];
    assert d[e - 1] == AfterAt(b, f, g, u, e, e - 1);
    StretchedLast(moved, x, n);
  }

  lemma StretchedLast(s: seq<Block>, x: seq<Block>, n: int)
    requires s != [] && |x| == |s| && forall i :: 0 <= i < |x| - 1 ==> x[i] == s[i]
    requires x[|x| - 1] == s[|s| - 1].(size := s[|s| - 1].size + n)
    ensures x == if n == 0 then s else Stretch(s, n)
  {
    if n != 0 {
      assert x == Stretch(s, n);
    }
  }

  lemma KeptSlices(b: seq<Block>, d: seq<Block>, f: nat, g: nat, u: nat, e: nat)
    requires f < g <= u < e <= |b| && IsAfter(b, d, f, g, u, e)
    ensures |d| == |b| && d[..f] == b[..f] && d[g..u] == b[g..u] && d[e..] == b[e..]
            && d[f] == AfterAt(b, f, g, u, e, f)
  {
    hide Sum, SpareBlocks, Stretching;
  }

  lemma StretchNothing(b: seq<Block>)
    requires b != []
    ensures Stretch(b, 0) == b
  {
  }

  /** Rearranging the changed blocks is what `Compacted` says of a round. */
  lemma AfterIsCompacted(b: seq<Block>, d: seq<Block>, f: nat, g: nat, u: nat, e: nat)
    requires f < g <= u < e <= |b| && IsAfter(b, d, f, g, u, e)
    ensures Rearranged(d, SpareBlocks(b, f, g, u, e), f, g, u, e)
         == Compacted(b[..f], b[f..g], b[g..u], b[u..e], b[e..])
  {
    hide Sum, Shift, Stretch, IsAfter, Compacted;
    var a, c, z := b[..f], b[g..u], b[e..];
    KeptSlices(b, d, f, g, u, e);
    MovedSlice(b, d, f, g, u, e);
    StretchNothing(Shift(b[u..e], b[u].addr - b[f].addr));
    assert b[f..g][0] == b[f] && b[u..e][0] == b[u] && |b[u..e]| == e - u && |c| == u - g;
    Assemble(a, b[f..g], c, b[u..e], z, d[u..e], d[f], SpareBlocks(b, f, g, u, e));
  }

  lemma Assemble(a: seq<Block>, f: seq<Block>, c: seq<Block>, u: seq<Block>, z: seq<Block>, mid: seq<Block>,
                 freed: Block,
                 spare: seq<Block>)
    requires f != [] && u != []
    requires var moved, free, used := Shift(u, u[0].addr - f[0].addr), Sum(f), Sum(u);
             && mid == (if c != [] && free < used + MIN_BLOCK then Stretch(moved, free - used) else moved)
             && freed == (if c == [] then Block(f[0].addr + used, free, Free) else Block(u[0].addr, used, Free))
             && spare == if c != [] && free >= used + MIN_BLOCK
                          then [Block(f[0].addr + used, free - used, Free)] else []
    ensures a + mid + spare + c + [freed] + z == Compacted(a, f, c, u, z)
  {
    hide Sum, Shift, Stretch;
    if c == [] {
      assert a + mid + spare + c + [freed] == a + mid + [freed];
    } else if spare == [] {
      assert a + mid + spare == a + mid;
    }
  }

  /** `d` is the block `b` later on: it has the same kind, it has not shrunk, a locked block has not moved, and what
      the block held in `m` it holds in `n`. */
  ghost predicate Survives(b: Block, m: seq<int>, d: Block, n: seq<int>) {
    && d.kind == b.kind && b.size <= d.size
    && (b.kind != Unlocked ==> d.addr == b.addr && d.size == b.size)
    && 0 <= b.addr && 0 <= b.size && b.addr + b.size <= |m| && 0 <= d.addr && d.addr + b.size <= |n|
    && n[d.addr..d.addr + b.size] == m[b.addr..b.addr + b.size]
  }

  lemma SurvivesTwice(b: Block, m: seq<int>, d: Block, n: seq<int>, c: Block, o: seq<int>)
    requires Survives(b, m, d, n) && Survives(d, n, c, o)
    ensures Survives(b, m, c, o)
  {
    assert o[c.addr..c.addr + b.size] == o[c.addr..c.addr + d.size][..b.size];
    assert n[d.addr..d.addr + b.size] == n[d.addr..d.addr + d.size][..b.size];
  }

  lemma SurvivesApart(b: Block, m: seq<int>, n: seq<int>, lo: int, hi: int, d: int)
    requires Slid(m, n, lo, hi, d) && 0 <= b.addr && 0 <= b.size && b.addr + b.size <= |m|
    requires b.addr + b.size <= lo - d || hi - d <= b.addr
    ensures Survives(b, m, b, n)
  {
    assert n[b.addr..b.addr + b.size] == m[b.addr..b.addr + b.size];
  }

  lemma SurvivesMoved(b: Block, k: nat, m: seq<int>, n: seq<int>, lo: int, hi: int, d: int)
    requires Slid(m, n, lo, hi, d) && lo <= b.addr && 0 <= b.size && b.addr + b.size <= hi && b.kind == Unlocked
    ensures Survives(b, m, Block(b.addr - d, b.size + k, b.kind), n)
  {
    assert n[b.addr - d..b.addr - d + b.size] == m[b.addr..b.addr + b.size];
  }

  /** The ranges of a round, as places. */
  lemma Places(b: seq<Block>, f: nat, g: nat, u: nat, e: nat, lo: int, hi: int)
    requires f < g <= u < e <= |b| && Tiles(b, lo, hi)
    ensures Tiles(b[u..e], b[u].addr, b[u].addr + Sum(b[u..e])) && b[u].addr + Sum(b[u..e]) <= hi
    ensures b[f].addr + Sum(b[f..g]) <= b[u].addr && lo <= b[f].addr && 0 < Sum(b[f..g]) && 0 < Sum(b[u..e])
    ensures forall i :: 0 <= i < f ==> lo <= b[i].addr && b[i].addr + b[i].size <= b[f].addr && 0 < b[i].size
    ensures forall i :: g <= i < u ==> b[f].addr + Sum(b[f..g]) <= b[i].addr && b[i].addr + b[i].size <= hi
                                       && 0 < b[i].size
    ensures forall i :: u <= i < e ==> b[u].addr <= b[i].addr
                                       && b[i].addr + b[i].size <= b[u].addr + Sum(b[u..e]) && 0 < b[i].size
    ensures forall i :: e <= i < |b| ==> b[u].addr + Sum(b[u..e]) <= b[i].addr && b[i].addr + b[i].size <= hi
                                         && 0 < b[i].size
  {
    hide Tiles, Sum;
    var a, ff, c, uu, z := b[..f], b[f..g], b[g..u], b[u..e], b[e..];
    assert b == a + ff + c + uu + z;
    PartsTile(a, ff, c, uu, z, lo, hi);
    var p := lo + Sum(a);
    var q := p + Sum(ff);
    var w := q + Sum(c);
    TilesSum(a, lo, p);
    TilesSum(ff, p, q);
    TilesSum(c, q, w);
    TilesSum(uu, w, w + Sum(uu));
    TilesSum(z, w + Sum(uu), hi);
    TilesAt(ff, p, q, 0);
    TilesAt(uu, w, w + Sum(uu), 0);
    FirstAt(ff, p, q);
    FirstAt(uu, w, w + Sum(uu));
    forall i | 0 <= i < f ensures lo <= b[i].addr && b[i].addr + b[i].size <= p && 0 < b[i].size {
      TilesAt(a, lo, p, i);
    }
    forall i | g <= i < u ensures q <= b[i].addr && b[i].addr + b[i].size <= w && 0 < b[i].size {
      TilesAt(c, q, w, i - g);
      assert c[i - g] == b[i];
    }
    forall i | u <= i < e ensures w <= b[i].addr && b[i].addr + b[i].size <= w + Sum(uu) && 0 < b[i].size {
      TilesAt(uu, w, w + Sum(uu), i - u);
      assert uu[i - u] == b[i];
    }
    forall i | e <= i < |b| ensures w + Sum(uu) <= b[i].addr && b[i].addr + b[i].size <= hi && 0 < b[i].size {
      TilesAt(z, w + Sum(uu), hi, i - e);
      assert z[i - e] == b[i];
    }
  }

  /** A round preserves every block outside the free run: its bytes, and its place when it is not moved. */
  lemma RoundSurvives(b: seq<Block>, m: seq<int>, n: seq<int>, f: nat, g: nat, u: nat, e: nat, lo: int, hi: int, i: nat)
    requires f < g <= u < e <= |b| && Tiles(b, lo, hi) && 0 <= lo && hi <= |m|
    requires forall k :: u <= k < e ==> b[k].kind == Unlocked
    requires u > g ==> Sum(b[u..e]) <= Sum(b[f..g])
    requires Slid(m, n, b[u].addr, b[u].addr + Sum(b[u..e]), b[u].addr - b[f].addr)
    requires i < |b| && (i < f || g <= i)
    ensures Survives(b[i], m, AfterAt(b, f, g, u, e, i), n)
  {
    hide Tiles, Sum, Slid;
    Places(b, f, g, u, e, lo, hi);
    var d := b[u].addr - b[f].addr;
    var start, end := b[u].addr, b[u].addr + Sum(b[u..e]);
    if u <= i < e {
      SurvivesMoved(b[i], if i == e - 1 then Stretching(b, f, g, u, e) else 0, m, n, start, end, d);
    } else {
      SurvivesApart(b[i], m, n, start, end, d);
    }
  }

  // ---------------------------------------------------------------- the round on headers

  /** The first header of `y`, or `end` when there is none. */
  function First(y: seq<Header>, end: Header?): Header? { if y == [] then end else y[0] }

  lemma LinkedConcat(x: seq<Header>, y: seq<Header>, end: Header?)
    requires Linked(x, First(y, end)) && Linked(y, end)
    ensures Linked(x + y, end)
  {
  }

  lemma LinkedSlice(l: seq<Header>, x: nat, y: nat, end: Header?)
    requires x <= y <= |l| && (x < y ==> l[y - 1].next == end)
    requires forall i :: x <= i < y - 1 ==> l[i].next == At(l, i + 1)
    ensures Linked(l[x..y], end)
  {
    var s := l[x..y];
    forall i | 0 <= i < |s| ensures s[i].next == After(s, i, end) {
      assert s[i] == l[x + i];
    }
  }

  lemma LinkedNexts(l: seq<Header>)
    requires Linked(l, null)
    ensures |Nexts(l)| == |l| && forall i :: 0 <= i < |l| ==> Nexts(l)[i] == At(l, i + 1)
  {
    NextsAre(l);
  }

  ghost function Nexts(l: seq<Header>): (n: seq<Header?>)
    reads l`next
  {
    if l == [] then [] else [l[0].next] + Nexts(l[1..])
  }

  lemma {:induction false} NextsAre(l: seq<Header>)
    ensures |Nexts(l)| == |l| && forall i :: 0 <= i < |l| ==> Nexts(l)[i] == l[i].next
  {
    if l != [] {
      NextsAre(l[1..]);
    }
  }

  /** Sets one link of the list. */
  method SetNext(h: Header, next: Header?, ghost l: seq<Header>, ghost i: nat)
    requires Distinct(l) && i < |l| && h == l[i]
    modifies h`next
    ensures |old(Nexts(l))| == |l| && Nexts(l) == old(Nexts(l))[i := next]
  {
    hide Nexts;
    NextsAre(l);
    ghost var n := Nexts(l);
    h.next := next;
    NextsAre(l);
    assert Nexts(l) == n[i := next];
  }

  /** The links `n` after a round: four headers link on to where they now belong, the others as before. */
  ghost predicate Relinked(l: seq<Header>, n: seq<Header?>, third: Header?, f: nat, g: nat, u: nat, e: nat)
    requires f < g <= u < e <= |l|
  {
    && |n| == |l|
    && (f > 0 ==> n[f - 1] == l[u])
    && n[e - 1] == third
    && (u > g ==> n[u - 1] == l[f])
    && n[f] == At(l, e)
    && (forall i :: 0 <= i < |l| && i != f - 1 && i != e - 1 && i != u - 1 && i != f ==> n[i] == At(l, i + 1))
  }

  lemma LinkedParts(a: seq<Header>, b: seq<Header>, s: seq<Header>, c: seq<Header>, d: seq<Header>, z: seq<Header>)
    requires b != [] && d != []
    requires Linked(a, b[0]) && Linked(b, First(s, First(c, d[0]))) && Linked(s, First(c, d[0])) && Linked(c, d[0])
    requires Linked(d, First(z, null)) && Linked(z, null)
    ensures Linked(a + b + s + c + d + z, null)
  {
    hide Linked;
    LinkedConcat(d, z, null);
    LinkedConcat(c, d + z, null);
    LinkedConcat(s, c + (d + z), null);
    LinkedConcat(b, s + (c + (d + z)), null);
    LinkedConcat(a, b + (s + (c + (d + z))), null);
    assert a + b + s + c + d + z == a + (b + (s + (c + (d + z))));
  }

  lemma RelinkedIsLinked(l: seq<Header>, spare: seq<Header>, f: nat, g: nat, u: nat, e: nat)
    requires f < g <= u < e <= |l|
    requires Relinked(l, Nexts(l), First(spare, if u > g then l[g] else l[f]), f, g, u, e)
    requires spare == [] || (u > g && |spare| == 1 && spare[0].next == l[g])
    ensures Linked(Rearranged(l, spare, f, g, u, e), null)
  {
    hide Linked, Nexts, Relinked;
    var a, b, c, d, z := l[..f], l[u..e], l[g..u], [l[f]], l[e..];
    SlicesLinked(l, First(spare, if u > g then l[g] else l[f]), f, g, u, e);
    SpareLinked(spare, First(c, l[f]));
    LinkedParts(a, b, spare, c, d, z);
  }

  lemma SlicesLinked(l: seq<Header>, third: Header?, f: nat, g: nat, u: nat, e: nat)
    requires f < g <= u < e <= |l| && Relinked(l, Nexts(l), third, f, g, u, e)
    ensures Linked(l[..f], l[u]) && Linked(l[u..e], third) && Linked(l[g..u], l[f])
    ensures Linked([l[f]], At(l, e)) && Linked(l[e..], null)
  {
    hide Linked, Nexts, First;
    var n := Nexts(l);
    NextsAre(l);
    LinkedSlice(l, 0, f, l[u]);
    LinkedSlice(l, u, e, n[e - 1]);
    LinkedSlice(l, g, u, l[f]);
    LinkedSlice(l, f, f + 1, n[f]);
    LinkedSlice(l, e, |l|, null);
    assert l[0..f] == l[..f] && l[f..f + 1] == [l[f]] && l[e..|l|] == l[e..];
  }

  lemma SpareLinked(s: seq<Header>, end: Header?)
    requires s == [] || (|s| == 1 && s[0].next == end)
    ensures Linked(s, end)
  {
  }

  lemma FirstOf(s: seq<Header>, end: Header?)
    ensures First(s, end) == if s == [] then end else s[0]
  {
  }

  lemma RelinkedBy(l: seq<Header>, n: seq<Header?>, m: seq<Header?>, third: Header?, f: nat, g: nat, u: nat, e: nat)
    requires f < g <= u < e <= |l| && |n| == |l| && forall i :: 0 <= i < |l| ==> n[i] == At(l, i + 1)
    requires m == if u == g then n[e - 1 := third][f := At(l, e)] else n[u - 1 := l[f]][f := At(l, e)][e - 1 := third]
    ensures Relinked(l, if f > 0 then m[f - 1 := l[u]] else m, third, f, g, u, e)
  {
    hide At;
  }

  /** The half of the loop body of `rm_compact` that links the blocks in their new order; `spare` is the header of the
      block for what is left over, if any. */
  method Relink(head: Header, rootLast: Header?, first: Header, freeNext: Header, usedFirst: Header, usedLast: Header,
                usedNext: Header?, before: Header?, spare: Header?,
                ghost l: seq<Header>, ghost spares: seq<Header>, ghost f: nat, ghost g: nat, ghost u: nat, ghost e: nat)
    returns (newHead: Header)
    requires f < g <= u < e <= |l| && Linked(l, null) && Distinct(l)
    requires head == l[0] && rootLast == (if f > 0 then l[f - 1] else null) && first == l[f] && freeNext == l[g]
    requires usedFirst == l[u] && usedLast == l[e - 1] && usedNext == At(l, e) && (u > g ==> before == l[u - 1])
    requires spares == (if spare == null then [] else [spare]) && (spare != null ==> u > g && spare !in l)
    modifies l`next, spares`next
    ensures Relinked(l, Nexts(l), First(spares, if u > g then l[g] else l[f]), f, g, u, e)
    ensures newHead == First(l[..f], l[u])
    ensures spare != null ==> spare.next == freeNext
  {
    hide Linked, Distinct, Nexts, Relinked, At, First;
    LinkedNexts(l);
    OneIndex(l, g, u);
    FirstOf(spares, if u > g then l[g] else l[f]);
    FirstOf(l[..f], l[u]);
    ghost var n := Nexts(l);
    if freeNext == usedFirst {
      SetNext(usedLast, first, l, e - 1);
      SetNext(first, usedNext, l, f);
    } else {
      SetNext(before, first, l, u - 1);
      SetNext(first, usedNext, l, f);
      if spare != null {
        SetNext(usedLast, spare, l, e - 1);
        spare.next := freeNext;
      } else {
        SetNext(usedLast, freeNext, l, e - 1);
      }
    }
    RelinkedBy(l, n, Nexts(l), First(spares, if u > g then l[g] else l[f]), f, g, u, e);
    if rootLast == null {
      newHead := usedFirst;
    } else {
      SetNext(rootLast, usedFirst, l, f - 1);
      newHead := head;
    }
  }

  lemma OneIndex(l: seq<Header>, i: nat, j: nat)
    requires Distinct(l) && i < |l| && j < |l|
    ensures l[i] == l[j] <==> i == j
  {
  }

  lemma SnapRearranged(l: seq<Header>, spare: seq<Header>, f: nat, g: nat, u: nat, e: nat)
    requires f < g <= u < e <= |l|
    ensures Snap(Rearranged(l, spare, f, g, u, e)) == Rearranged(Snap(l), Snap(spare), f, g, u, e)
  {
    hide Snap;
    SnapSlice(l, 0, f);
    SnapSlice(l, u, e);
    SnapSlice(l, g, u);
    SnapSlice(l, f, f + 1);
    SnapSlice(l, e, |l|);
    var a, b, c, d, z := l[..f], l[u..e], l[g..u], [l[f]], l[e..];
    assert l[0..f] == a && l[f..f + 1] == d && l[e..|l|] == z;
    SnapConcat(a, b);
    SnapConcat(a + b, spare);
    SnapConcat(a + b + spare, c);
    SnapConcat(a + b + spare + c, d);
    SnapConcat(a + b + spare + c + d, z);
    var t := Snap(l);
    assert t[0..f] == t[..f] && t[f..f + 1] == [t[f]] && t[e..|l|] == t[e..];
  }

  /** The half of the loop body that records the new places: of the freed block, and of what is left over. */
  method Place(first: Header, usedFirst: Header, usedLast: Header, adjacent: bool, freeStart: int, freeSize: int,
               usedStart: int, used: int, bottom: int, ghost l: seq<Header>, ghost b: seq<Block>,
               ghost f: nat, ghost g: nat, ghost u: nat, ghost e: nat)
    returns (spare: Header?)
    requires f < g <= u < e <= |l| && |b| == |l| && Distinct(l) && adjacent == (u == g)
    requires first == l[f] && usedFirst == l[u] && usedLast == l[e - 1]
    requires freeStart == b[f].addr && freeSize == Sum(b[f..g]) && usedStart == b[u].addr && used == Sum(b[u..e])
    requires Lowered(l, b, u, e, b[u].addr - b[f].addr)
    requires forall i :: 0 <= i < |l| ==> l[i].size == b[i].size && l[i].kind == b[i].kind
    requires bottom <= freeStart < usedStart && 0 < used
    modifies l`memory, l`size, l`kind
    ensures IsAfter(b, Snap(l), f, g, u, e)
    ensures SpareBlocks(b, f, g, u, e) == if spare == null then [] else [Block(spare.memory, spare.size, spare.kind)]
    ensures spare != null ==> fresh(spare) && u > g
  {
    hide Sum, Snap;
    spare := null;
    if adjacent {
      first.kind, first.memory, first.size := Free, freeStart + used, freeSize;
    } else {
      first.kind, first.memory, first.size := Free, usedStart, used;
      if first.memory <= bottom {
        assert false;
      }
      if freeSize >= used + MIN_BLOCK {
        spare := new Header(usedFirst.memory + used, freeSize - used, Free);
        if spare.memory <= bottom {
          assert false;
        }
      } else {
        usedLast.size := usedLast.size + (freeSize - used);
      }
    }
    SnapAre(l);
  }

  /** No header is in both lists. */
  ghost predicate Apart(x: seq<Header>, y: seq<Header>) {
    forall i, j :: 0 <= i < |x| && 0 <= j < |y| ==> x[i] != y[j]
  }

  lemma ApartConcat(x: seq<Header>, y: seq<Header>, z: seq<Header>)
    requires Apart(x, z) && Apart(y, z)
    ensures Apart(x + y, z)
  {
  }

  lemma DistinctConcat(x: seq<Header>, y: seq<Header>)
    requires Distinct(x) && Distinct(y) && Apart(x, y)
    ensures Distinct(x + y)
  {
  }

  lemma SlicesApart(l: seq<Header>, i: nat, j: nat, p: nat, q: nat)
    requires Distinct(l) && i <= j <= |l| && p <= q <= |l| && (j <= p || q <= i)
    ensures Apart(l[i..j], l[p..q])
  {
  }

  lemma SliceOnce(l: seq<Header>, i: nat, j: nat)
    requires Distinct(l) && i <= j <= |l|
    ensures Distinct(l[i..j])
  {
  }

  lemma SpareApart(l: seq<Header>, spare: seq<Header>, i: nat, j: nat)
    requires Apart(l, spare) && i <= j <= |l|
    ensures Apart(l[i..j], spare) && Apart(spare, l[i..j])
  {
  }

  /** A round keeps the list free of repetitions. */
  lemma RearrangedOnce(l: seq<Header>, spare: seq<Header>, f: nat, g: nat, u: nat, e: nat)
    requires f < g <= u < e <= |l| && Distinct(l) && Distinct(spare) && Apart(l, spare)
    ensures Distinct(Rearranged(l, spare, f, g, u, e))
  {
    hide Distinct, Apart;
    var n := |l|;
    var a, b, c, d, z := l[0..f], l[u..e], l[g..u], l[f..f + 1], l[e..n];
    assert l[..f] == a && [l[f]] == d && l[e..] == z;
    SliceOnce(l, 0, f);
    SliceOnce(l, u, e);
    SliceOnce(l, g, u);
    SliceOnce(l, f, f + 1);
    SliceOnce(l, e, n);
    SlicesApart(l, 0, f, u, e);
    DistinctConcat(a, b);
    SpareApart(l, spare, 0, f);
    SpareApart(l, spare, u, e);
    ApartConcat(a, b, spare);
    DistinctConcat(a + b, spare);
    SlicesApart(l, 0, f, g, u);
    SlicesApart(l, u, e, g, u);
    SpareApart(l, spare, g, u);
    ApartConcat(a, b, c);
    ApartConcat(a + b, spare, c);
    DistinctConcat(a + b + spare, c);
    SlicesApart(l, 0, f, f, f + 1);
    SlicesApart(l, u, e, f, f + 1);
    SlicesApart(l, g, u, f, f + 1);
    SpareApart(l, spare, f, f + 1);
    ApartConcat(a, b, d);
    ApartConcat(a + b, spare, d);
    ApartConcat(a + b + spare, c, d);
    DistinctConcat(a + b + spare + c, d);
    SlicesApart(l, 0, f, e, n);
    SlicesApart(l, u, e, e, n);
    SlicesApart(l, g, u, e, n);
    SlicesApart(l, f, f + 1, e, n);
    SpareApart(l, spare, e, n);
    ApartConcat(a, b, z);
    ApartConcat(a + b, spare, z);
    ApartConcat(a + b + spare, c, z);
    ApartConcat(a + b + spare + c, d, z);
    DistinctConcat(a + b + spare + c + d, z);
  }

  /** The headers `l` are the acyclic, null-terminated list from `head`, and their blocks tile `[lo, hi)` in order. */
  ghost predicate InOrder(head: Header?, l: seq<Header>, lo: int, hi: int)
    reads l`memory, l`size, l`kind, l`next
  {
    head == At(l, 0) && Linked(l, null) && Distinct(l) && Tiles(Snap(l), lo, hi)
  }

  /** The blocks `b` and bytes `m` have become `d` and `n` in a round with these ranges. */
  ghost predicate Changed(b: seq<Block>, m: seq<int>, d: seq<Block>, n: seq<int>, f: nat, g: nat, u: nat, e: nat) {
    f < g <= u < e <= |b| && IsAfter(b, d, f, g, u, e) && SlidBytes(b, m, n, f, u, e)
  }

  ghost predicate SlidBytes(b: seq<Block>, m: seq<int>, n: seq<int>, f: nat, u: nat, e: nat)
    requires f < |b| && u < e <= |b|
  {
    Slid(m, n, b[u].addr, b[u].addr + Sum(b[u..e]), b[u].addr - b[f].addr)
  }

  lemma SlideStart(l: seq<Header>, b: seq<Block>, f: nat, g: nat, u: nat, e: nat, lo: int, hi: int)
    requires b == Snap(l) && Tiles(b, lo, hi) && 0 <= lo && f < g <= u < e <= |l|
    ensures l[u].memory == b[u].addr && l[f].memory == b[f].addr && 0 <= b[f].addr <= b[u].addr
    ensures Tiles(b[u..e], b[u].addr, b[u].addr + Sum(b[u..e])) && b[u].addr + Sum(b[u..e]) <= hi
    ensures forall i :: 0 <= i < |l| ==> l[i].size == b[i].size && l[i].kind == b[i].kind
  {
    hide Snap, Tiles, Sum;
    SnapAre(l);
    Places(b, f, g, u, e, lo, hi);
  }

  lemma SpareSnap(spare: Header?, s: seq<Header>)
    requires s == if spare == null then [] else [spare]
    ensures Snap(s) == if spare == null then [] else [Block(spare.memory, spare.size, spare.kind)]
    ensures Distinct(s)
  {
    SnapAre(s);
  }

  lemma HeadOf(l: seq<Header>, spare: seq<Header>, f: nat, g: nat, u: nat, e: nat)
    requires f < g <= u < e <= |l|
    ensures Rearranged(l, spare, f, g, u, e) != [] && Rearranged(l, spare, f, g, u, e)[0] == First(l[..f], l[u])
  {
    var r := Rearranged(l, spare, f, g, u, e);
    assert r == l[..f] + (l[u..e] + spare + l[g..u] + [l[f]] + l[e..]);
  }

  lemma SlideEnd(head: Header, l: seq<Header>, b: seq<Block>, spare: seq<Header>, f: nat, g: nat, u: nat, e: nat,
                 lo: int, hi: int)
    requires f < g <= u < e <= |l| == |b| && Tiles(b, lo, hi) && Distinct(l)
    requires u > g ==> Sum(b[u..e]) <= Sum(b[f..g])
    requires IsAfter(b, Snap(l), f, g, u, e) && Snap(spare) == SpareBlocks(b, f, g, u, e)
    requires head == First(l[..f], l[u]) && Linked(Rearranged(l, spare, f, g, u, e), null)
    requires Distinct(spare) && Apart(l, spare)
    ensures InOrder(head, Rearranged(l, spare, f, g, u, e), lo, hi)
    ensures Snap(Rearranged(l, spare, f, g, u, e)) == Compacted(b[..f], b[f..g], b[g..u], b[u..e], b[e..])
  {
    hide Tiles, Sum, Snap, Linked, Distinct, Apart, Compacted, SpareBlocks, IsAfter, Rearranged;
    RearrangedOnce(l, spare, f, g, u, e);
    SnapRearranged(l, spare, f, g, u, e);
    AfterIsCompacted(b, Snap(l), f, g, u, e);
    assert b == b[..f] + b[f..g] + b[g..u] + b[u..e] + b[e..];
    CompactedTiles(b[..f], b[f..g], b[g..u], b[u..e], b[e..], lo, hi);
    HeadOf(l, spare, f, g, u, e);
  }

  lemma FreshApart(l: seq<Header>, spare: Header?, s: seq<Header>)
    requires s == if spare == null then [] else [spare]
    requires spare !in l
    ensures Apart(l, s)
  {
  }

  lemma ChosenSums(l: seq<Header>, b: seq<Block>, r: nat, f: nat, g: nat, u: nat, e: nat)
    requires Chosen(l, r, f, g, u, e) && b == Snap(l)
    ensures f < g <= u < e <= |l| && (u > g ==> Sum(b[u..e]) <= Sum(b[f..g]))
  {
  }

  lemma AboveBottom(b: seq<Block>, f: nat, g: nat, u: nat, e: nat, lo: int, hi: int)
    requires f < g <= u < e <= |b| && Tiles(b, lo, hi)
    ensures lo <= b[f].addr < b[u].addr && 0 < Sum(b[u..e])
  {
    hide Tiles, Sum;
    Places(b, f, g, u, e, lo, hi);
  }

  /** Puts the freed block and what is left over into their places, and links the list anew. */
  method Rearrange(head: Header, rootLast: Header?, first: Header, freeNext: Header, freeStart: int, freeSize: int,
                   usedFirst: Header, usedLast: Header, usedNext: Header?, before: Header?, usedStart: int, used: int,
                   ghost l: seq<Header>, ghost b: seq<Block>, ghost f: nat, ghost g: nat, ghost u: nat, ghost e: nat,
                   lo: int, ghost hi: int)
    returns (newHead: Header, spared: bool, ghost spare: seq<Header>)
    requires f < g <= u < e <= |l| == |b| && Linked(l, null) && Distinct(l) && Tiles(b, lo, hi)
    requires u > g ==> Sum(b[u..e]) <= Sum(b[f..g])
    requires head == l[0] && rootLast == (if f > 0 then l[f - 1] else null) && first == l[f] && freeNext == l[g]
    requires usedFirst == l[u] && usedLast == l[e - 1] && usedNext == At(l, e) && (u > g ==> before == l[u - 1])
    requires freeStart == b[f].addr && freeSize == Sum(b[f..g]) && usedStart == b[u].addr && used == Sum(b[u..e])
    requires Lowered(l, b, u, e, b[u].addr - b[f].addr)
    requires forall i :: 0 <= i < |l| ==> l[i].size == b[i].size && l[i].kind == b[i].kind
    modifies l
    ensures |spare| <= 1 && spared == (spare != []) && forall i :: 0 <= i < |spare| ==> fresh(spare[i])
    ensures InOrder(newHead, Rearranged(l, spare, f, g, u, e), lo, hi)
    ensures IsAfter(b, Snap(l), f, g, u, e) && Snap(spare) == SpareBlocks(b, f, g, u, e) && Apart(l, spare)
  {
    hide Snap, Tiles, Sum, Linked, Distinct, Lowered, IsAfter, SpareBlocks, Rearranged, Relinked, Apart, Nexts, InOrder;
    OneIndex(l, g, u);
    AboveBottom(b, f, g, u, e, lo, hi);
    var rest := Place(first, usedFirst, usedLast, freeNext == usedFirst, freeStart, freeSize, usedStart, used, lo,
                      l, b, f, g, u, e);
    spare := if rest == null then [] else [rest];
    spared := rest != null;
    FreshApart(l, rest, spare);
    SpareSnap(rest, spare);
    newHead := Relink(head, rootLast, first, freeNext, usedFirst, usedLast, usedNext, before, rest, l, spare, f, g,
        u, e);
    RelinkedIsLinked(l, spare, f, g, u, e);
    SlideEnd(newHead, l, b, spare, f, g, u, e, lo, hi);
  }

  /** The second half of the loop body of `rm_compact`: moves the chosen unlocked blocks over the free run, and puts a
      free block in the place they leave. The first header of the free run is set unused and at once taken again for
      that free block. */
  method SlideOver(bytes: array<int>, head: Header, rootLast: Header?, first: Header, freeLast: Header, freeSize: int,
                   usedFirst: Header, usedLast: Header, before: Header?, offset: int, ghost l: seq<Header>,
                   ghost r: nat, ghost f: nat, ghost g: nat, ghost u: nat, ghost e: nat, lo: int, ghost hi: int)
    returns (newHead: Header, spared: bool, ghost spare: seq<Header>)
    requires InOrder(head, l, lo, hi) && 0 <= lo && hi <= bytes.Length
    requires Chosen(l, r, f, g, u, e) && rootLast == if f > 0 then l[f - 1] else null
    requires first == l[f] && freeLast == l[g - 1] && freeSize == Sum(Snap(l)[f..g])
    requires usedFirst == l[u] && usedLast == l[e - 1] && (u > g ==> before == l[u - 1])
    requires offset == l[u].memory - l[f].memory
    modifies bytes, l
    ensures |spare| <= 1 && spared == (spare != []) && forall i :: 0 <= i < |spare| ==> fresh(spare[i])
    ensures InOrder(newHead, Rearranged(l, spare, f, g, u, e), lo, hi)
    ensures Changed(old(Snap(l)), old(bytes[..]), Snap(l), bytes[..], f, g, u, e)
    ensures Snap(spare) == old(SpareBlocks(Snap(l), f, g, u, e)) && Apart(l, spare)
  {
    hide Snap, Tiles, Sum, Linked, Distinct, Slid, SlidBytes, Lowered, IsAfter, SpareBlocks, Rearranged, Apart,
      Chosen, InOrder, Changed;
    ghost var b := Snap(l);
    ghost var m := bytes[..];
    InOrderParts(head, l, lo, hi);
    ChosenSums(l, b, r, f, g, u, e);
    SlideStart(l, b, f, g, u, e, lo, hi);
    LinkedNext(l, g - 1);
    LinkedNext(l, e - 1);
    var usedNext, freeNext, usedStart, freeStart := usedLast.next, freeLast.next, usedFirst.memory, first.memory;
    var used := MoveUnlocked(bytes, usedFirst, usedNext, offset, l, u, e, usedStart, usedStart + Sum(b[u..e]));
    ChangedBytes(b, m, bytes[..], f, g, u, e, usedStart, usedStart + Sum(b[u..e]), offset);
    newHead, spared, spare := Rearrange(head, rootLast, first, freeNext, freeStart, freeSize, usedFirst, usedLast,
        usedNext,
                                        before, usedStart, used, l, b, f, g, u, e, lo, hi);
    ChangedIs(b, m, Snap(l), bytes[..], f, g, u, e);
  }

  lemma InOrderParts(head: Header?, l: seq<Header>, lo: int, hi: int)
    requires InOrder(head, l, lo, hi)
    ensures head == At(l, 0) && Linked(l, null) && Distinct(l) && Tiles(Snap(l), lo, hi)
  {
  }

  lemma ChangedBytes(b: seq<Block>, m: seq<int>, n: seq<int>, f: nat, g: nat, u: nat, e: nat, start: int, end: int,
                     offset: int)
    requires f < g <= u < e <= |b| && Slid(m, n, start, end, offset)
    requires start == b[u].addr && end == start + Sum(b[u..e]) && offset == b[u].addr - b[f].addr
    ensures SlidBytes(b, m, n, f, u, e)
  {
  }

  lemma ChangedIs(b: seq<Block>, m: seq<int>, d: seq<Block>, n: seq<int>, f: nat, g: nat, u: nat, e: nat)
    requires f < g <= u < e <= |b| && IsAfter(b, d, f, g, u, e) && SlidBytes(b, m, n, f, u, e)
    ensures Changed(b, m, d, n, f, g, u, e)
  {
  }
}
