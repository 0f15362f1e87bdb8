/** What the rounds of a compaction do, as functions of the blocks: which blocks a round slides, when it looks again
    from a later block, and when there is nothing left to do. */
module Choices {
  import opened ListSort
  import opened Blocks

  /** What the loops of a round look for. */
  datatype Want = AFree | AUsed | AnUnlocked | AFit(max: int)

  /** A search for an unlocked block of at most `max` bytes does not go past a free block. */
  predicate Wanted(w: Want, x: Block) {
    match w
    case AFree => x.kind == Free
    case AUsed => x.kind != Free
    case AnUnlocked => x.kind == Unlocked
    case AFit(max) => x.kind == Free || (x.kind == Unlocked && x.size <= max)
  }

  /** The first block from index `i` on that is wanted, or the number of blocks. */
  function First(b: seq<Block>, i: nat, w: Want): nat
    decreases |b| - i
  {
    if i >= |b| || Wanted(w, b[i]) then i else First(b, i + 1, w)
  }

  lemma {:induction false} FirstIs(b: seq<Block>, i: nat, w: Want, j: nat)
    requires i <= j <= |b| && (forall k :: i <= k < j ==> !Wanted(w, b[k])) && (j < |b| ==> Wanted(w, b[j]))
    ensures First(b, i, w) == j
    decreases j - i
  {
    if i < j {
      FirstIs(b, i + 1, w, j);
    }
  }

  lemma {:induction false} FirstOf(b: seq<Block>, i: nat, w: Want)
    requires i <= |b|
    ensures var j := First(b, i, w);
            i <= j <= |b| && (forall k :: i <= k < j ==> !Wanted(w, b[k])) && (j < |b| ==> Wanted(w, b[j]))
    decreases |b| - i
  {
    if i < |b| && !Wanted(w, b[i]) {
      FirstOf(b, i + 1, w);
    }
  }

  /** The end of the run of unlocked blocks from `u` on, up to a total of `max` bytes unless that is zero; `e` is where
      the count has come to. */
  function RunEnd(b: seq<Block>, u: nat, e: nat, max: int): nat
    requires u <= e
    decreases |b| - e
  {
    if e >= |b| || b[e].kind != Unlocked || (max > 0 && Sum(b[u..e]) + b[e].size > max) then e
    else RunEnd(b, u, e + 1, max)
  }

  lemma {:induction false} RunEndOf(b: seq<Block>, u: nat, e: nat, max: int)
    requires u <= e <= |b|
    ensures e <= RunEnd(b, u, e, max) <= |b|
    ensures forall k :: e <= k < RunEnd(b, u, e, max) ==> b[k].kind == Unlocked
    decreases |b| - e
  {
    if e < |b| && b[e].kind == Unlocked && !(max > 0 && Sum(b[u..e]) + b[e].size > max) {
      RunEndOf(b, u, e + 1, max);
    }
  }

  /** Where `get_unlocked_header_range` ends its search for unlocked blocks of at most `max` bytes: at the first one
      that fits, but no further than the first free block after the first unlocked one. */
  function FitFrom(b: seq<Block>, g: nat, max: int): nat { First(b, First(b, g, AnUnlocked), AFit(max)) }

  /** What a round decides: to end the compaction, to look again from block `g`, or to slide the blocks `[u, e)` to the
      start of the free blocks `[f, g)`. */
  datatype Choice = NoMove | LookFrom(g: nat) | Moves(f: nat, g: nat, u: nat, e: nat)

  /** The decision of a round that starts at block `r`. The unlocked blocks right behind the first run of free blocks
      are moved, however large; where a locked block follows it, blocks that fit into the run are. */
  function Choose(b: seq<Block>, r: nat): Choice {
    var f := First(b, r, AFree);
    var g := First(b, f, AUsed);
    if g >= |b| then NoMove
    else if b[g].kind == Unlocked then Moves(f, g, g, RunEnd(b, g, g, 0))
    else if f <= g then
      var max := Sum(b[f..g]);
      var u := FitFrom(b, g, max);
      if u < |b| && b[u].kind == Unlocked then Moves(f, g, u, RunEnd(b, u, u, max))
      else if First(b, g, AFree) < |b| then LookFrom(g)
      else NoMove
    else NoMove
  }

  /** The ranges of a move are as their names say. */
  lemma MovesAre(b: seq<Block>, r: nat)
    requires r <= |b| && Choose(b, r).Moves? && forall i :: 0 <= i < |b| ==> 0 < b[i].size
    ensures var Moves(f, g, u, e) := Choose(b, r);
            && r <= f < g <= u < e <= |b|
            && (forall k :: r <= k < f ==> b[k].kind != Free) && (forall k :: f <= k < g ==> b[k].kind == Free)
            && (forall k :: u <= k < e ==> b[k].kind == Unlocked)
            && (u == g <==> b[g].kind == Unlocked) && b[g].kind != Free
  {
    var f := First(b, r, AFree);
    FirstOf(b, r, AFree);
    var g := First(b, f, AUsed);
    FirstOf(b, f, AUsed);
    assert f < g;
    if b[g].kind == Unlocked {
      RunEndOf(b, g, g + 1, 0);
      SumNone(b, g);
    } else {
      var max := Sum(b[f..g]);
      FitIs(b, g, max);
      var u := FitFrom(b, g, max);
      SumNone(b, u);
      RunEndOf(b, u, u + 1, max);
    }
  }

  lemma SumNone(b: seq<Block>, i: nat)
    requires i <= |b|
    ensures Sum(b[i..i]) == 0
  {
    assert b[i..i] == [];
  }

  lemma FitIs(b: seq<Block>, g: nat, max: int)
    requires g <= |b|
    ensures var v, u := First(b, g, AnUnlocked), FitFrom(b, g, max);
            && g <= v <= u <= |b| && (forall k :: g <= k < v ==> b[k].kind != Unlocked)
            && (forall k :: v <= k < u ==> b[k].kind != Free && (b[k].kind == Unlocked ==> b[k].size > max))
            && (u < |b| ==> b[u].kind == Free || (b[u].kind == Unlocked && b[u].size <= max))
            && (b[g..] != [] && b[g].kind != Unlocked && u < |b| && b[u].kind == Unlocked ==> g < u)
  {
    FirstOf(b, g, AnUnlocked);
    FirstOf(b, First(b, g, AnUnlocked), AFit(max));
  }

  // ---------------------------------------------------------------- when a round does what

  /** When a compaction ends: no free block is left, or only free blocks are from the next one on, or a locked block
      follows it and behind that there is neither another free block nor an unlocked one that fits. */
  ghost predicate NothingToDo(b: seq<Block>, r: nat) {
    var f := First(b, r, AFree);
    var g := First(b, f, AUsed);
    g >= |b| || (b[g].kind != Unlocked && f <= g
                 && forall k :: g <= k < |b| ==>
                      b[k].kind != Free && (b[k].kind == Unlocked ==> b[k].size > Sum(b[f..g])))
  }

  lemma StopsIff(b: seq<Block>, r: nat)
    requires r <= |b|
    ensures Choose(b, r) == NoMove <==> NothingToDo(b, r)
  {
    var f := First(b, r, AFree);
    FirstOf(b, r, AFree);
    var g := First(b, f, AUsed);
    FirstOf(b, f, AUsed);
    if g < |b| && b[g].kind != Unlocked {
      FirstOf(b, g, AFree);
      FitIs(b, g, Sum(b[f..g]));
      hide First;
    }
  }

  /** A round moves something exactly if an unlocked block follows the first run of free blocks, or some unlocked block
      is no larger than the run and no free block lies between it and the first unlocked one. */
  lemma MovesIff(b: seq<Block>, r: nat)
    requires r <= |b|
    ensures var f := First(b, r, AFree);
            var g := First(b, f, AUsed);
            Choose(b, r).Moves? <==>
              g < |b| && (|| b[g].kind == Unlocked
                          || exists u :: g < u < |b| && b[u].kind == Unlocked && f <= g && b[u].size <= Sum(b[f..g])
                                         && forall k :: First(b, g, AnUnlocked) <= k < u ==> b[k].kind != Free)
  {
    var f := First(b, r, AFree);
    FirstOf(b, r, AFree);
    var g := First(b, f, AUsed);
    FirstOf(b, f, AUsed);
    if g < |b| && b[g].kind != Unlocked {
      FitIs(b, g, Sum(b[f..g]));
      hide First;
    }
  }

  // ---------------------------------------------------------------- what a round makes of the blocks

  /** The blocks after a round, and the block from which the next one starts. */
  function AfterRound(b: seq<Block>, r: nat): (seq<Block>, nat) {
    match Choose(b, r)
    case NoMove => (b, r)
    case LookFrom(g) => (b, g)
    case Moves(f, g, u, e) =>
      if f < g <= u < e <= |b| then (Compacted(b[..f], b[f..g], b[g..u], b[u..e], b[e..]), f + (e - u) - 1) else (b, r)
  }

  /** A round needs a header for what is left over of the free blocks. */
  function SparesIn(b: seq<Block>, r: nat): nat {
    match Choose(b, r)
    case Moves(f, g, u, e) =>
      if f < g < u < e <= |b| && Sum(b[f..g]) >= Sum(b[u..e]) + MIN_BLOCK then 1 else 0
    case _ => 0
  }

  /** The headers that `n` rounds need. */
  function SparesFrom(b: seq<Block>, r: nat, n: nat): nat {
    if n == 0 then 0 else var (d, q) := RoundsFrom(b, r, n - 1); SparesFrom(b, r, n - 1) + SparesIn(d, q)
  }

  lemma StopStays(b: seq<Block>, r: nat)
    ensures Choose(b, r) == NoMove ==> AfterRound(b, r) == (b, r)
  {
  }

  /** The blocks after `n` rounds. */
  function RoundsFrom(b: seq<Block>, r: nat, n: nat): (seq<Block>, nat) {
    if n == 0 then (b, r) else var (d, q) := RoundsFrom(b, r, n - 1); AfterRound(d, q)
  }

  /** The blocks below those that are moved stay, and the moved ones follow them, lowered and no smaller. */
  lemma CompactedStart(a: seq<Block>, f: seq<Block>, c: seq<Block>, u: seq<Block>, z: seq<Block>)
    requires f != [] && u != [] && (c != [] ==> Sum(u) <= Sum(f))
    ensures var d, off := Compacted(a, f, c, u, z), u[0].addr - f[0].addr;
            && |a| + |u| <= |d| && (forall i :: 0 <= i < |a| ==> d[i] == a[i])
            && forall i :: 0 <= i < |u| ==>
                 var x := d[|a| + i]; x.kind == u[i].kind && x.addr == u[i].addr - off && x.size >= u[i].size
  {
    hide Sum;
  }

  lemma MovedStart(b: seq<Block>, f: nat, g: nat, u: nat, e: nat)
    requires f < g <= u < e <= |b| && (u > g ==> Sum(b[u..e]) <= Sum(b[f..g]))
    ensures var d := Compacted(b[..f], b[f..g], b[g..u], b[u..e], b[e..]);
            && f + (e - u) <= |d| && (forall i :: 0 <= i < f ==> d[i] == b[i])
            && (forall i :: f <= i < f + (e - u) ==> d[i].kind == b[u + (i - f)].kind)
            && d[f].addr == b[f].addr && d[f].size >= b[u].size
  {
    CompactedStart(b[..f], b[f..g], b[g..u], b[u..e], b[e..]);
    hide Compacted, Sum;
    var d := Compacted(b[..f], b[f..g], b[g..u], b[u..e], b[e..]);
    assert b[u..e][0] == b[u] && b[f..g][0] == b[f] && d[f] == d[|b[..f]| + 0];
    forall i | f <= i < f + (e - u)
      ensures d[i].kind == b[u + (i - f)].kind
    {
      assert d[i] == d[|b[..f]| + (i - f)] && b[u..e][i - f] == b[u + (i - f)];
    }
  }

  /** The first unlocked block that fits, with only locked or larger ones between it and the first run of free blocks,
      is moved to the start of that run. */
  lemma FitMoves(b: seq<Block>, r: nat, f: nat, g: nat, u: nat)
    requires r <= f < g < u < |b| && f == First(b, r, AFree) && g == First(b, f, AUsed)
    requires b[g].kind != Unlocked && b[u].kind == Unlocked && b[u].size <= Sum(b[f..g])
    requires forall k :: g <= k < u ==> b[k].kind != Free && (b[k].kind == Unlocked ==> b[k].size > Sum(b[f..g]))
    requires forall i :: 0 <= i < |b| ==> 0 < b[i].size
    ensures Choose(b, r).Moves? && Choose(b, r).u == u
    ensures var (d, q) := AfterRound(b, r);
            && f <= q < |d| && d[f].kind == Unlocked && d[f].addr == b[f].addr && d[f].size >= b[u].size
            && forall i :: 0 <= i < f ==> d[i] == b[i]
  {
    FirstOf(b, g, AnUnlocked);
    FirstIs(b, First(b, g, AnUnlocked), AFit(Sum(b[f..g])), u);
    MovesAre(b, r);
    RunFits(b, r);
    var e := Choose(b, r).e;
    MovedStart(b, f, g, u, e);
    hide First, RunEnd, Choose, Compacted;
  }

  lemma {:induction false} RunEndFits(b: seq<Block>, u: nat, e: nat, max: int)
    requires u <= e <= |b| && Sum(b[u..e]) <= max && 0 < max
    ensures e <= RunEnd(b, u, e, max) <= |b| && Sum(b[u..RunEnd(b, u, e, max)]) <= max
    decreases |b| - e
  {
    if e < |b| && b[e].kind == Unlocked && Sum(b[u..e]) + b[e].size <= max {
      SumStep(b, u, e);
      RunEndFits(b, u, e + 1, max);
    }
  }

  /** What is moved past other blocks fits into the run. */
  lemma RunFits(b: seq<Block>, r: nat)
    requires r <= |b| && Choose(b, r).Moves? && forall i :: 0 <= i < |b| ==> 0 < b[i].size
    ensures var Moves(f, g, u, e) := Choose(b, r);
            f < g <= u < e <= |b| && (u > g ==> Sum(b[u..e]) <= Sum(b[f..g]))
  {
    MovesAre(b, r);
    var Moves(f, g, u, e) := Choose(b, r);
    if u > g {
      SumNone(b, u);
      SumAtLeast(b, f, g);
      RunEndFits(b, u, u, Sum(b[f..g]));
    }
  }

  lemma {:induction false} SumAtLeast(b: seq<Block>, i: nat, j: nat)
    requires i < j <= |b| && forall k :: 0 <= k < |b| ==> 0 < b[k].size
    ensures 0 < Sum(b[i..j])
  {
    SumStep(b, i, j - 1);
    if i < j - 1 {
      SumAtLeast(b, i, j - 1);
    } else {
      SumNone(b, i);
    }
  }

  // ---------------------------------------------------------------- what a whole compaction achieves

  /** No unlocked block lies right above a free one, at least below block `q`. */
  ghost predicate Closed(b: seq<Block>, q: nat) {
    forall i :: 0 <= i < q && i + 1 < |b| && b[i].kind == Free ==> b[i + 1].kind != Unlocked
  }

  /** A compaction of the blocks `b` ran for so many rounds: until there was nothing left to do, when no unlocked block
      lay right above a free one, or until the time was up after `patience` rounds, if there is a limit. */
  ghost predicate Ran(b: seq<Block>, limited: bool, patience: nat, rounds: nat) {
    var (d, q) := RoundsFrom(b, 0, rounds);
    && (limited ==> rounds <= patience)
    && ((limited && rounds == patience) || (Choose(d, q) == NoMove && Closed(d, |d|)))
  }

  lemma ClosedBelow(d: seq<Block>, c: nat)
    requires Closed(d, |d|) && c <= |d|
    ensures Closed(d[..c], c)
  {
  }

  /** Where a round starts. */
  ghost predicate Started(b: seq<Block>, r: nat) {
    && (forall i :: 0 <= i < |b| ==> 0 < b[i].size)
    && r <= |b| && (0 < r < |b| ==> b[r].kind != Free) && (r == |b| ==> r == 0)
  }

  lemma MoveCloses(b: seq<Block>, r: nat, f: nat, g: nat, u: nat, e: nat)
    requires r <= f < g <= u < e <= |b| && (u > g ==> Sum(b[u..e]) <= Sum(b[f..g]))
    requires (forall k :: r <= k < f ==> b[k].kind != Free) && (forall k :: u <= k < e ==> b[k].kind == Unlocked)
    requires Closed(b, r) && (0 < r ==> b[r].kind != Free) && b[f].kind == Free
    ensures Closed(Compacted(b[..f], b[f..g], b[g..u], b[u..e], b[e..]), f + (e - u) - 1)
  {
    MovedStart(b, f, g, u, e);
    hide Compacted, Sum;
  }

  lemma LookCloses(b: seq<Block>, r: nat, f: nat, g: nat)
    requires r <= f < g < |b| && b[g].kind != Unlocked
    requires (forall k :: r <= k < f ==> b[k].kind != Free) && (forall k :: f <= k < g ==> b[k].kind == Free)
    requires Closed(b, r)
    ensures Closed(b, g)
  {
  }

  /** A round leaves no unlocked block right above a free one below its new start. */
  lemma RoundCloses(b: seq<Block>, r: nat)
    requires Started(b, r) && Closed(b, r)
    ensures var (d, q) := AfterRound(b, r); Closed(d, q)
  {
    match Choose(b, r)
    case NoMove =>
    case LookFrom(g) =>
      FirstOf(b, r, AFree);
      FirstOf(b, First(b, r, AFree), AUsed);
      LookCloses(b, r, First(b, r, AFree), g);
    case Moves(f, g, u, e) =>
      MovesAre(b, r);
      RunFits(b, r);
      hide First, RunEnd, Choose, Compacted, Closed;
      MoveCloses(b, r, f, g, u, e);
  }

  /** Where there is nothing left to do, no unlocked block lies right above a free one anywhere. */
  lemma EndCloses(b: seq<Block>, r: nat)
    requires Started(b, r) && Closed(b, r) && Choose(b, r) == NoMove
    ensures Closed(b, |b|)
  {
    StopsIff(b, r);
    FirstOf(b, r, AFree);
    FirstOf(b, First(b, r, AFree), AUsed);
    hide First, Choose;
  }
}
