/** The main loop of `rm_compact`. */
module Compaction {
  import opened Common
  import opened ListSort
  import opened Blocks
  import opened Choices
  import opened Ranges
  import opened Moves
  import opened Rounds
  import opened Survival

  /** No block is locked. */
  ghost predicate AllLoose(b: seq<Block>) {
    forall i :: 0 <= i < |b| ==> b[i].kind == Free || b[i].kind == Unlocked
  }

  /** No block below index `r` is free. */
  ghost predicate Packed(b: seq<Block>, r: nat) {
    r <= |b| && forall i :: 0 <= i < r ==> b[i].kind != Free
  }

  /** The free blocks are those from index `f` on. */
  ghost predicate FreeAtEnd(b: seq<Block>, f: nat) {
    Packed(b, f) && forall i :: f <= i < |b| ==> b[i].kind == Free
  }

  /** The header `root` of index `r`, from which the next round starts. */
  ghost predicate Rooted(root: Header, l: seq<Header>, b: seq<Block>, r: nat) {
    r < |l| == |b| && root == l[r] && (r > 0 ==> b[r].kind != Free)
  }

  /** What a round says about order when nothing is locked. */
  ghost predicate Orderly(l: seq<Header>, b: seq<Block>, r: nat, k: seq<Header>, d: seq<Block>, q: nat) {
    |l| == |b| && |k| == |d| && (AllLoose(b) && Packed(b, r) ==>
          AllLoose(d) && Packed(d, q) && Live(k, d) == Live(l, b))
  }

  /** The loop has come closer to its end. */
  ghost predicate Nearer(b: seq<Block>, r: nat, d: seq<Block>, q: nat) {
    && r < |b| && q < |d|
    && (Unlockeds(d[q + 1..]) < Unlockeds(b[r + 1..])
        || (Unlockeds(d[q + 1..]) == Unlockeds(b[r + 1..]) && |d| - q < |b| - r))
  }

  lemma KeptItself(l: seq<Header>, b: seq<Block>, m: seq<int>, lo: int, hi: int)
    requires |l| == |b| && Distinct(l) && Tiles(b, lo, hi) && 0 <= lo && hi <= |m|
    ensures Kept(l, b, m, l, b, m)
  {
    hide Tiles;
    forall i | 0 <= i < |b| ensures Survives(b[i], m, b[i], m) {
      TilesAt(b, lo, hi, i);
    }
  }

  lemma ChosenFacts(l: seq<Header>, b: seq<Block>, r: nat, f: nat, g: nat, u: nat, e: nat)
    requires Chosen(l, r, f, g, u, e) && b == Snap(l)
    ensures r <= f < g <= u < e <= |b|
    ensures forall k :: r <= k < f ==> b[k].kind != Free
    ensures forall k :: f <= k < g ==> b[k].kind == Free
    ensures forall k :: u <= k < e ==> b[k].kind == Unlocked
    ensures u > g ==> Sum(b[u..e]) <= Sum(b[f..g])
    ensures b[g].kind != Free && (u == g <==> b[g].kind == Unlocked)
  {
    SnapAre(l);
  }

  lemma PiecesOf(l: seq<Header>, spare: seq<Header>, f: nat, g: nat, u: nat, e: nat)
    requires f < g <= u < e <= |l|
    ensures var k := Rearranged(l, spare, f, g, u, e);
            f + (e - u) <= |k| && k[f + (e - u) - 1] == l[e - 1]
            && forall i :: 0 <= i < |k| ==> k[i] in l || k[i] in spare
  {
  }

  lemma PackedAfter(b: seq<Block>, d: seq<Block>, sb: seq<Block>, r: nat, f: nat, g: nat, u: nat, e: nat)
    requires r <= f < g <= u < e <= |b| == |d|
    requires forall i :: 0 <= i < |b| && (i < f || g <= i) ==> d[i].kind == b[i].kind
    requires forall k :: r <= k < f ==> b[k].kind != Free
    requires forall k :: u <= k < e ==> b[k].kind == Unlocked
    ensures var c := Rearranged(d, sb, f, g, u, e);
            f + (e - u) <= |c| && c[f + (e - u) - 1].kind == Unlocked
            && (Packed(b, r) ==> Packed(c, f + (e - u) - 1))
  {
  }

  lemma LooseAfter(b: seq<Block>, d: seq<Block>, f: nat, g: nat, e: nat)
    requires f < g < e <= |b| == |d| && d[f].kind == Free && AllLoose(b)
    requires forall i :: 0 <= i < |b| && (i < f || g <= i) ==> d[i].kind == b[i].kind
    ensures AllLoose(Rearranged(d, [], f, g, g, e))
  {
  }

  lemma SizesKept(b: seq<Block>, m: seq<int>, d: seq<Block>, n: seq<int>, f: nat, g: nat, e: nat)
    requires Changed(b, m, d, n, f, g, g, e)
    ensures |d| == |b| && forall i :: 0 <= i < |b| && (i < f || g <= i) ==>
              d[i].kind == b[i].kind && d[i].size == b[i].size
    ensures SpareBlocks(b, f, g, g, e) == []
  {
    hide Sum, Slid;
  }

  /** The effects of a round of compaction that slides, on order. */
  lemma RoundIsOrderly(l: seq<Header>, b: seq<Block>, m: seq<int>, d: seq<Block>, n: seq<int>, spare: seq<Header>,
                       r: nat, f: nat, g: nat, u: nat, e: nat)
    requires |l| == |b| && Changed(b, m, d, n, f, g, u, e) && r <= f < g <= u < e <= |b| == |d|
    requires |spare| == |SpareBlocks(b, f, g, u, e)|
    requires forall k :: r <= k < f ==> b[k].kind != Free
    requires forall k :: f <= k < g ==> b[k].kind == Free
    requires forall k :: u <= k < e ==> b[k].kind == Unlocked
    requires b[g].kind != Free && (u == g <==> b[g].kind == Unlocked)
    ensures Orderly(l, b, r, Rearranged(l, spare, f, g, u, e), Rearranged(d, SpareBlocks(b, f, g, u, e), f, g, u, e),
                    f + (e - u) - 1)
  {
    hide Live, Changed, SpareBlocks, Rearranged;
    FreedIsFree(b, m, d, n, f, g, u, e);
    PackedAfter(b, d, SpareBlocks(b, f, g, u, e), r, f, g, u, e);
    LengthAfter(l, spare, f, g, u, e);
    LengthAfter(d, SpareBlocks(b, f, g, u, e), f, g, u, e);
    if AllLoose(b) && Packed(b, r) {
      assert u == g;
      SizesKept(b, m, d, n, f, g, e);
      LooseAfter(b, d, f, g, e);
      assert spare == [];
      RoundOrder(l, b, d, f, g, e);
    }
  }

  lemma LengthAfter<T>(l: seq<T>, spare: seq<T>, f: nat, g: nat, u: nat, e: nat)
    requires f < g <= u < e <= |l|
    ensures |Rearranged(l, spare, f, g, u, e)| == |l| - (g - f) + 1 + |spare|
  {
  }

  lemma ApartSpare(l: seq<Header>, spare: seq<Header>)
    requires Apart(l, spare)
    ensures forall i, j :: 0 <= i < |l| && 0 <= j < |spare| ==> l[i] != spare[j]
  {
  }

  /** All that a round that slides makes true. */
  lemma RoundFacts(l: seq<Header>, b: seq<Block>, m: seq<int>, d: seq<Block>, n: seq<int>, spare: seq<Header>,
                   r: nat, f: nat, g: nat, u: nat, e: nat, lo: int, hi: int)
    requires |l| == |b| && Changed(b, m, d, n, f, g, u, e) && Tiles(b, lo, hi) && 0 <= lo && hi <= |m|
    requires r <= f < g <= u < e <= |b| && Distinct(l) && Apart(l, spare)
    requires forall k :: r <= k < f ==> b[k].kind != Free
    requires forall k :: f <= k < g ==> b[k].kind == Free
    requires forall k :: u <= k < e ==> b[k].kind == Unlocked
    requires u > g ==> Sum(b[u..e]) <= Sum(b[f..g])
    requires b[g].kind != Free && (u == g <==> b[g].kind == Unlocked)
    requires |spare| == |SpareBlocks(b, f, g, u, e)|
    ensures |d| == |b|
    ensures var k, c, q := Rearranged(l, spare, f, g, u, e), Rearranged(d, SpareBlocks(b, f, g, u, e), f, g, u, e),
        f + (e - u) - 1;
            Kept(l, b, m, k, c, n) && Orderly(l, b, r, k, c, q) && Nearer(b, r, c, q) && Rooted(l[e - 1], k, c, q)
  {
    hide Tiles, Sum, Changed, Kept, Orderly, SpareBlocks, Rearranged, Apart;
    ApartSpare(l, spare);
    FreedIsFree(b, m, d, n, f, g, u, e);
    SpareIsFree(b, f, g, u, e);
    RoundKeeps(l, b, m, d, n, spare, f, g, u, e, lo, hi);
    RoundIsOrderly(l, b, m, d, n, spare, r, f, g, u, e);
    RoundUsesUp(b, d, SpareBlocks(b, f, g, u, e), r, f, g, u, e);
    PackedAfter(b, d, SpareBlocks(b, f, g, u, e), r, f, g, u, e);
    PiecesOf(l, spare, f, g, u, e);
    LengthAfter(l, spare, f, g, u, e);
    LengthAfter(d, SpareBlocks(b, f, g, u, e), f, g, u, e);
  }

  /** One pass through the loop body of `rm_compact`, from the header `root` of index `r`. */
  method Round(bytes: array<int>, head: Header, root: Header, ghost l: seq<Header>, ghost r: nat,
               lo: int, ghost hi: int)
    returns (outcome: Outcome, newHead: Header, newRoot: Header, spared: bool, ghost k: seq<Header>, ghost q: nat,
             ghost f: nat)
    requires InOrder(head, l, lo, hi) && 0 <= lo && hi <= bytes.Length && Rooted(root, l, Snap(l), r)
    modifies bytes, l
    ensures InOrder(newHead, k, lo, hi) && Rooted(newRoot, k, Snap(k), q)
    ensures forall i :: 0 <= i < |k| ==> k[i] in l || fresh(k[i])
    ensures Kept(l, old(Snap(l)), old(bytes[..]), k, Snap(k), bytes[..])
    ensures Orderly(l, old(Snap(l)), r, k, Snap(k), q)
    ensures (Snap(k), q) == AfterRound(old(Snap(l)), r) && (outcome == Stop <==> Choose(old(Snap(l)), r) == NoMove)
    ensures (if spared then 1 else 0) == SparesIn(old(Snap(l)), r)
    ensures outcome != Stop ==> Nearer(old(Snap(l)), r, Snap(k), q)
    ensures outcome == Stop && AllLoose(old(Snap(l))) && Packed(old(Snap(l)), r) ==> FreeAtEnd(Snap(k), f)
  {
    hide Snap, Tiles, Sum, Linked, Distinct, InOrder, Rearranged, Changed, Kept, Orderly, Nearer, Apart, Chosen,
      AllLoose, Packed, FreeAtEnd, SpareBlocks, Choose, Compacted;
    ghost var b, m := Snap(l), bytes[..];
    InOrderParts(head, l, lo, hi);
    KeptItself(l, b, m, lo, hi);
    newHead, newRoot, spared, k, q := head, root, false, l, r;
    var rootLast, freeFirst, freeLast, freeSize, usedFirst, usedLast, before, offset;
    ghost var g, u, e;
    outcome, rootLast, freeFirst, freeLast, freeSize, usedFirst, usedLast, before, offset, f, g, u, e :=
      Survey(root, l, r, lo, hi);
    if outcome == Again {
      newRoot, q := freeLast.next, g;
      AgainFacts(l, b, r, g);
    } else if outcome == Stop {
      StopFacts(l, b, r, f);
    } else {
      ChosenFacts(l, b, r, f, g, u, e);
      ghost var spare;
      RootLastIs(l, b, r, f);
      newHead, spared, spare := SlideOver(bytes, head, rootLast, freeFirst, freeLast, freeSize, usedFirst, usedLast,
                                          before, offset, l, r, f, g, u, e, lo, hi);
      newRoot := usedLast;
      k, q := Rearranged(l, spare, f, g, u, e), f + (e - u) - 1;
      SnapRearranged(l, spare, f, g, u, e);
      RoundFacts(l, b, m, Snap(l), bytes[..], spare, r, f, g, u, e, lo, hi);
      ChangedParts(b, m, Snap(l), bytes[..], f, g, u, e);
      AfterIsCompacted(b, Snap(l), f, g, u, e);
      SpareIs(b, f, g, u, e);
      PiecesOf(l, spare, f, g, u, e);
    }
  }

  lemma SpareIs(b: seq<Block>, f: nat, g: nat, u: nat, e: nat)
    requires f < g <= u < e <= |b|
    ensures SpareBlocks(b, f, g, u, e) != [] <==> g < u && Sum(b[f..g]) >= Sum(b[u..e]) + MIN_BLOCK
  {
  }

  lemma ChangedParts(b: seq<Block>, m: seq<int>, d: seq<Block>, n: seq<int>, f: nat, g: nat, u: nat, e: nat)
    requires Changed(b, m, d, n, f, g, u, e)
    ensures f < g <= u < e <= |b| && IsAfter(b, d, f, g, u, e)
  {
  }

  lemma AgainFacts(l: seq<Header>, b: seq<Block>, r: nat, g: nat)
    requires b == Snap(l) && r < g < |l| && l[g].kind != Free && !NoneLocked(l)
    ensures Orderly(l, b, r, l, b, g) && Nearer(b, r, b, g) && Rooted(l[g], l, b, g)
  {
    SnapAre(l);
    LaterUsesUp(b, r, g);
  }

  lemma StopFacts(l: seq<Header>, b: seq<Block>, r: nat, f: nat)
    requires b == Snap(l) && (NoneLocked(l) ==> FreeTail(l, r, f))
    ensures Orderly(l, b, r, l, b, r)
    ensures AllLoose(b) && Packed(b, r) ==> FreeAtEnd(b, f)
  {
    SnapAre(l);
  }

  /** Only at the very start may the list begin with free blocks. */
  lemma RootLastIs(l: seq<Header>, b: seq<Block>, r: nat, f: nat)
    requires b == Snap(l) && r <= f < |b| && b[f].kind == Free && (r > 0 ==> b[r].kind != Free)
    ensures f > r <==> f > 0
  {
  }

  lemma OrderlyTwice(l: seq<Header>, b: seq<Block>, r: nat, k: seq<Header>, d: seq<Block>, q: nat,
                     j: seq<Header>, c: seq<Block>, p: nat)
    requires Orderly(l, b, r, k, d, q) && Orderly(k, d, q, j, c, p)
    ensures Orderly(l, b, r, j, c, p)
  {
    hide AllLoose, Packed, Live;
  }

  lemma OrderlyItself(l: seq<Header>, b: seq<Block>)
    requires |l| == |b|
    ensures Orderly(l, b, 0, l, b, 0) && Packed(b, 0)
  {
    hide Live;
  }

  /** The main loop of `rm_compact`, on the sorted list `l` of blocks that tile `[lo, hi)`. The clock is a number of
      rounds after which it says stop, when there is a time limit at all. The result tells how many headers the rounds
      took beyond the recycled ones. */
  method Compact(bytes: array<int>, head: Header?, limited: bool, patience: nat, ghost l: seq<Header>,
                 lo: int, ghost hi: int)
    returns (newHead: Header?, spares: nat, ghost k: seq<Header>, ghost f: nat, ghost rounds: nat)
    requires InOrder(head, l, lo, hi) && 0 <= lo && hi <= bytes.Length
    modifies bytes, l
    ensures InOrder(newHead, k, lo, hi)
    ensures forall i :: 0 <= i < |k| ==> k[i] in l || fresh(k[i])
    ensures Kept(l, old(Snap(l)), old(bytes[..]), k, Snap(k), bytes[..])
    ensures Ran(old(Snap(l)), limited, patience, rounds) && Snap(k) == RoundsFrom(old(Snap(l)), 0, rounds).0
    ensures spares == SparesFrom(old(Snap(l)), 0, rounds)
    ensures !limited && AllLoose(old(Snap(l))) ==> FreeAtEnd(Snap(k), f) && Live(k, Snap(k)) == Live(l, old(Snap(l)))
  {
    hide Snap, Tiles, Linked, Distinct, Kept, Live, AllLoose, Packed, FreeAtEnd, Unlockeds, InOrder,
      Choose, AfterRound, Closed, SparesIn;
    ghost var b, m := Snap(l), bytes[..];
    InOrderParts(head, l, lo, hi);
    KeptItself(l, b, m, lo, hi);
    OrderlyItself(l, b);
    newHead, spares, k, f, rounds := head, 0, l, 0, 0;
    NothingFree(b);
    if head == null {
      return;
    }
    var root: Header := head;
    var done, left := false, patience;
    ghost var q := 0;
    while !done
      invariant newHead != null && InOrder(newHead, k, lo, hi) && Rooted(root, k, Snap(k), q)
      invariant forall i :: 0 <= i < |k| ==> k[i] in l || fresh(k[i])
      invariant Kept(l, b, m, k, Snap(k), bytes[..]) && Orderly(l, b, 0, k, Snap(k), q)
      invariant done && !limited && AllLoose(b) ==> FreeAtEnd(Snap(k), f)
      invariant RoundsFrom(b, 0, rounds) == (Snap(k), q) && Closed(Snap(k), q)
      invariant spares == SparesFrom(b, 0, rounds)
      invariant limited ==> rounds + left == patience
      invariant done && (limited ==> rounds < patience) ==> Choose(Snap(k), q) == NoMove
      decreases !done, Unlockeds(Snap(k)[q + 1..]), |k| - q
    {
      if limited && left == 0 {
        done := true;
        break;
      }
      left := if limited then left - 1 else left;
      ghost var k0, b0, q0 := k, Snap(k), q;
      ghost var m0 := bytes[..];
      var outcome, spared;
      InOrderParts(newHead, k, lo, hi);
      StartedAt(k0, b0, q0, lo, hi);
      outcome, newHead, root, spared, k, q, f := Round(bytes, newHead, root, k, q, lo, hi);
      KeptTwice(l, b, m, k0, b0, m0, k, Snap(k), bytes[..]);
      OrderlyTwice(l, b, 0, k0, b0, q0, k, Snap(k), q);
      rounds := rounds + 1;
      RoundCloses(b0, q0);
      if spared {
        spares := spares + 1;
      }
      if outcome == Stop {
        StopStays(b0, q0);
        done := true;
      }
    }
    InOrderParts(newHead, k, lo, hi);
    StartedAt(k, Snap(k), q, lo, hi);
    if Choose(Snap(k), q) == NoMove {
      EndCloses(Snap(k), q);
    }
  }

  lemma StartedAt(l: seq<Header>, b: seq<Block>, r: nat, lo: int, hi: int)
    requires |l| == |b| && Tiles(b, lo, hi) && r < |b| && (r > 0 ==> b[r].kind != Free)
    ensures Started(b, r)
  {
    forall i | 0 <= i < |b|
      ensures 0 < b[i].size
    {
      TilesAt(b, lo, hi, i);
    }
  }

  lemma NothingFree(b: seq<Block>)
    ensures b == [] ==> FreeAtEnd(b, 0) && Choose(b, 0) == NoMove
    ensures Closed(b, 0) && (b == [] ==> Closed(b, |b|))
  {
  }
}
