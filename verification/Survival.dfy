/** What compaction keeps from round to round: the live blocks, their bytes, their order when nothing is locked; and
    what it uses up. */
module Survival {
  import opened Common
  import opened ListSort
  import opened Blocks
  import opened Moves
  import opened Rounds

  /** The headers of the blocks in use. */
  ghost function LiveSet<T>(l: seq<T>, b: seq<Block>): set<T>
    requires |l| == |b|
  {
    set i | 0 <= i < |l| && b[i].kind != Free :: l[i]
  }

  /** Every block in use that both lists have under the same header is the same block later on. */
  ghost predicate Carried<T>(l: seq<T>, b: seq<Block>, m: seq<int>, k: seq<T>, d: seq<Block>, n: seq<int>)
    requires |l| == |b| && |k| == |d|
  {
    forall i, j :: 0 <= i < |l| && 0 <= j < |k| && l[i] == k[j] && b[i].kind != Free ==> Survives(b[i], m, d[j], n)
  }

  /** The same blocks are in use, and each survives. */
  ghost predicate Kept<T>(l: seq<T>, b: seq<Block>, m: seq<int>, k: seq<T>, d: seq<Block>, n: seq<int>) {
    |l| == |b| && |k| == |d| && LiveSet(l, b) == LiveSet(k, d) && Carried(l, b, m, k, d, n)
  }

  /** What is kept twice is kept. */
  lemma KeptTwice<T>(l: seq<T>, b: seq<Block>, m: seq<int>, k: seq<T>, d: seq<Block>, n: seq<int>,
                     j: seq<T>, c: seq<Block>, o: seq<int>)
    requires Kept(l, b, m, k, d, n) && Kept(k, d, n, j, c, o)
    ensures Kept(l, b, m, j, c, o)
  {
    forall x, z | 0 <= x < |l| && 0 <= z < |j| && l[x] == j[z] && b[x].kind != Free ensures Survives(b[x], m, c[z], o) {
      assert l[x] in LiveSet(k, d);
      var y :| 0 <= y < |k| && d[y].kind != Free && k[y] == l[x];
      SurvivesTwice(b[x], m, d[y], n, c[z], o);
    }
  }

  lemma CarriedConcat<T>(l: seq<T>, b: seq<Block>, m: seq<int>, x: seq<T>, dx: seq<Block>, y: seq<T>, dy: seq<Block>,
                         n: seq<int>)
    requires |l| == |b| && |x| == |dx| && |y| == |dy|
    requires Carried(l, b, m, x, dx, n) && Carried(l, b, m, y, dy, n)
    ensures Carried(l, b, m, x + y, dx + dy, n)
  {
    hide Survives;
  }

  lemma LiveSetConcat<T>(x: seq<T>, dx: seq<Block>, y: seq<T>, dy: seq<Block>)
    requires |x| == |dx| && |y| == |dy|
    ensures LiveSet(x + y, dx + dy) == LiveSet(x, dx) + LiveSet(y, dy)
  {
    var k, d := x + y, dx + dy;
    forall h | h in LiveSet(x, dx) ensures h in LiveSet(k, d) {
      var i :| 0 <= i < |x| && dx[i].kind != Free && x[i] == h;
      assert k[i] == h && d[i] == dx[i];
    }
    forall h | h in LiveSet(y, dy) ensures h in LiveSet(k, d) {
      var i :| 0 <= i < |y| && dy[i].kind != Free && y[i] == h;
      assert k[|x| + i] == h && d[|x| + i] == dy[i];
    }
  }

  lemma LiveSetSame<T>(l: seq<T>, b: seq<Block>, d: seq<Block>)
    requires |l| == |b| == |d| && forall i :: 0 <= i < |b| ==> d[i].kind == b[i].kind
    ensures LiveSet(l, b) == LiveSet(l, d)
  {
  }

  lemma LiveSetNone<T>(l: seq<T>, b: seq<Block>)
    requires |l| == |b| && forall i :: 0 <= i < |b| ==> b[i].kind == Free
    ensures LiveSet(l, b) == {}
  {
  }

  lemma CarriedSlice<T>(l: seq<T>, b: seq<Block>, m: seq<int>, d: seq<Block>, n: seq<int>, x: nat, y: nat)
    requires |l| == |b| == |d| && Distinct(l) && x <= y <= |l|
    requires forall i :: x <= i < y && b[i].kind != Free ==> Survives(b[i], m, d[i], n)
    ensures Carried(l, b, m, l[x..y], d[x..y], n)
  {
    hide Survives;
    forall i, j | 0 <= i < |l| && 0 <= j < y - x && l[i] == l[x..y][j] && b[i].kind != Free
      ensures Survives(b[i], m, d[x..y][j], n)
    {
      assert l[x + j] == l[i];
    }
  }

  /** What a round makes of one header's block. */
  lemma RoundCarries<T>(l: seq<T>, b: seq<Block>, m: seq<int>, d: seq<Block>, n: seq<int>, f: nat, g: nat, u: nat,
                        e: nat,
                        lo: int, hi: int)
    requires |l| == |b| && Changed(b, m, d, n, f, g, u, e) && Tiles(b, lo, hi) && 0 <= lo && hi <= |m|
    requires forall k :: u <= k < e ==> b[k].kind == Unlocked
    requires u > g ==> Sum(b[u..e]) <= Sum(b[f..g])
    ensures |d| == |b| && forall i :: 0 <= i < |b| && (i < f || g <= i) ==> Survives(b[i], m, d[i], n)
  {
    hide Tiles, Sum, Survives, Slid, AfterAt;
    forall i | 0 <= i < |b| && (i < f || g <= i) ensures Survives(b[i], m, d[i], n) {
      RoundSurvives(b, m, n, f, g, u, e, lo, hi, i);
    }
  }

  lemma SpareIsFree(b: seq<Block>, f: nat, g: nat, u: nat, e: nat)
    requires f < g <= u < e <= |b|
    ensures forall i :: 0 <= i < |SpareBlocks(b, f, g, u, e)| ==> SpareBlocks(b, f, g, u, e)[i].kind == Free
  {
    hide Sum;
  }

  lemma FreedIsFree(b: seq<Block>, m: seq<int>, d: seq<Block>, n: seq<int>, f: nat, g: nat, u: nat, e: nat)
    requires Changed(b, m, d, n, f, g, u, e)
    ensures f < g <= u < e <= |d| == |b| && d[f].kind == Free
    ensures forall i :: 0 <= i < |b| && (i < f || g <= i) ==> d[i].kind == b[i].kind
  {
    hide Sum, Slid, Stretching;
    assert d[f] == AfterAt(b, f, g, u, e, f);
  }

  lemma CarriedFree<T>(l: seq<T>, b: seq<Block>, m: seq<int>, f: nat, c: Block, n: seq<int>)
    requires |l| == |b| && Distinct(l) && f < |b| && b[f].kind == Free
    ensures Carried(l, b, m, [l[f]], [c], n)
  {
  }

  lemma CarriedOther<T>(l: seq<T>, b: seq<Block>, m: seq<int>, x: seq<T>, d: seq<Block>, n: seq<int>)
    requires |l| == |b| && |x| == |d| && forall i, j :: 0 <= i < |l| && 0 <= j < |x| ==> l[i] != x[j]
    ensures Carried(l, b, m, x, d, n)
  {
  }

  lemma RoundLive<T>(l: seq<T>, b: seq<Block>, d: seq<Block>, spare: seq<T>, sb: seq<Block>,
                     f: nat, g: nat, u: nat, e: nat)
    requires |l| == |b| == |d| && |spare| == |sb| && f < g <= u < e <= |b| && d[f].kind == Free
    requires forall i :: 0 <= i < |b| && (i < f || g <= i) ==> d[i].kind == b[i].kind
    requires forall i :: f <= i < g ==> b[i].kind == Free
    requires forall i :: 0 <= i < |sb| ==> sb[i].kind == Free
    ensures LiveSet(Rearranged(l, spare, f, g, u, e), Rearranged(d, sb, f, g, u, e)) == LiveSet(l, b)
  {
    hide LiveSet;
    LiveSetConcat(l[..f], d[..f], l[u..e], d[u..e]);
    LiveSetConcat(l[..f] + l[u..e], d[..f] + d[u..e], spare, sb);
    LiveSetConcat(l[..f] + l[u..e] + spare, d[..f] + d[u..e] + sb, l[g..u], d[g..u]);
    LiveSetConcat(l[..f] + l[u..e] + spare + l[g..u], d[..f] + d[u..e] + sb + d[g..u], [l[f]], [d[f]]);
    LiveSetConcat(l[..f] + l[u..e] + spare + l[g..u] + [l[f]], d[..f] + d[u..e] + sb + d[g..u] + [d[f]], l[e..],
        d[e..]);
    LiveSetNone(spare, sb);
    LiveSetNone([l[f]], [d[f]]);
    LiveSetNone(l[f..g], b[f..g]);
    LiveSetSame(l[..f], b[..f], d[..f]);
    LiveSetSame(l[g..u], b[g..u], d[g..u]);
    LiveSetSame(l[u..e], b[u..e], d[u..e]);
    LiveSetSame(l[e..], b[e..], d[e..]);
    LiveSetConcat(l[..f], b[..f], l[f..g], b[f..g]);
    LiveSetConcat(l[..f] + l[f..g], b[..f] + b[f..g], l[g..u], b[g..u]);
    LiveSetConcat(l[..f] + l[f..g] + l[g..u], b[..f] + b[f..g] + b[g..u], l[u..e], b[u..e]);
    LiveSetConcat(l[..f] + l[f..g] + l[g..u] + l[u..e], b[..f] + b[f..g] + b[g..u] + b[u..e], l[e..], b[e..]);
    assert l == l[..f] + l[f..g] + l[g..u] + l[u..e] + l[e..];
    assert b == b[..f] + b[f..g] + b[g..u] + b[u..e] + b[e..];
  }

  /** A round keeps the blocks in use. */
  lemma RoundKeeps<T>(l: seq<T>, b: seq<Block>, m: seq<int>, d: seq<Block>, n: seq<int>, spare: seq<T>,
                      f: nat, g: nat, u: nat, e: nat, lo: int, hi: int)
    requires |l| == |b| && Changed(b, m, d, n, f, g, u, e) && Tiles(b, lo, hi) && 0 <= lo && hi <= |m|
    requires forall k :: f <= k < g ==> b[k].kind == Free
    requires forall k :: u <= k < e ==> b[k].kind == Unlocked
    requires u > g ==> Sum(b[u..e]) <= Sum(b[f..g])
    requires Distinct(l) && |spare| == |SpareBlocks(b, f, g, u, e)|
    requires forall i, j :: 0 <= i < |l| && 0 <= j < |spare| ==> l[i] != spare[j]
    ensures |d| == |b|
    ensures Kept(l, b, m, Rearranged(l, spare, f, g, u, e), Rearranged(d, SpareBlocks(b, f, g, u, e), f, g, u, e), n)
  {
    hide Tiles, Sum, Survives, LiveSet, Carried, Changed, SpareBlocks;
    FreedIsFree(b, m, d, n, f, g, u, e);
    RoundCarries(l, b, m, d, n, f, g, u, e, lo, hi);
    SpareIsFree(b, f, g, u, e);
    var sb := SpareBlocks(b, f, g, u, e);
    RoundLive(l, b, d, spare, sb, f, g, u, e);
    CarriedSlice(l, b, m, d, n, 0, f);
    CarriedSlice(l, b, m, d, n, u, e);
    CarriedSlice(l, b, m, d, n, g, u);
    CarriedSlice(l, b, m, d, n, e, |l|);
    CarriedOther(l, b, m, spare, sb, n);
    CarriedFree(l, b, m, f, d[f], n);
    assert l[0..f] == l[..f] && d[0..f] == d[..f] && l[e..|l|] == l[e..] && d[e..|l|] == d[e..];
    CarriedConcat(l, b, m, l[..f], d[..f], l[u..e], d[u..e], n);
    CarriedConcat(l, b, m, l[..f] + l[u..e], d[..f] + d[u..e], spare, sb, n);
    CarriedConcat(l, b, m, l[..f] + l[u..e] + spare, d[..f] + d[u..e] + sb, l[g..u], d[g..u], n);
    CarriedConcat(l, b, m, l[..f] + l[u..e] + spare + l[g..u], d[..f] + d[u..e] + sb + d[g..u], [l[f]], [d[f]], n);
    CarriedConcat(l, b, m, l[..f] + l[u..e] + spare + l[g..u] + [l[f]], d[..f] + d[u..e] + sb + d[g..u] + [d[f]],
                  l[e..], d[e..], n);
  }

  // ---------------------------------------------------------------- termination

  /** How many of the blocks are unlocked. */
  function Unlockeds(b: seq<Block>): nat {
    if b == [] then 0 else (if b[0].kind == Unlocked then 1 else 0) + Unlockeds(b[1..])
  }

  lemma {:induction false} UnlockedsConcat(x: seq<Block>, y: seq<Block>)
    ensures Unlockeds(x + y) == Unlockeds(x) + Unlockeds(y)
  {
    if x == [] {
      assert x + y == y;
    } else {
      assert (x + y)[1..] == x[1..] + y;
      UnlockedsConcat(x[1..], y);
    }
  }

  lemma {:induction false} UnlockedsKinds(x: seq<Block>, y: seq<Block>)
    requires |x| == |y| && forall i :: 0 <= i < |x| ==> x[i].kind == y[i].kind
    ensures Unlockeds(x) == Unlockeds(y)
  {
    if x != [] {
      UnlockedsKinds(x[1..], y[1..]);
    }
  }

  lemma {:induction false} UnlockedsNone(x: seq<Block>)
    requires forall i :: 0 <= i < |x| ==> x[i].kind == Free
    ensures Unlockeds(x) == 0
  {
    if x != [] {
      UnlockedsNone(x[1..]);
    }
  }

  /** The round leaves fewer unlocked blocks after the last block it moved than there were after its root. */
  lemma RoundUsesUp(b: seq<Block>, d: seq<Block>, sb: seq<Block>, r: nat, f: nat, g: nat, u: nat, e: nat)
    requires r <= f < g <= u < e <= |b| == |d| && d[f].kind == Free && b[u].kind == Unlocked
    requires forall i :: 0 <= i < |b| && (i < f || g <= i) ==> d[i].kind == b[i].kind
    requires forall i :: 0 <= i < |sb| ==> sb[i].kind == Free
    ensures f + (e - u) <= |Rearranged(d, sb, f, g, u, e)|
    ensures Unlockeds(Rearranged(d, sb, f, g, u, e)[f + (e - u)..]) < Unlockeds(b[r + 1..])
  {
    var z := Rearranged(d, sb, f, g, u, e);
    assert z == (d[..f] + d[u..e]) + (sb + d[g..u] + [d[f]] + d[e..]);
    assert z[f + (e - u)..] == sb + d[g..u] + [d[f]] + d[e..];
    UnlockedsConcat(sb + d[g..u] + [d[f]], d[e..]);
    UnlockedsConcat(sb + d[g..u], [d[f]]);
    UnlockedsConcat(sb, d[g..u]);
    UnlockedsNone(sb);
    UnlockedsNone([d[f]]);
    UnlockedsKinds(d[g..u], b[g..u]);
    UnlockedsKinds(d[e..], b[e..]);
    assert b[r + 1..] == b[r + 1..g] + (b[g..u] + ([b[u]] + b[u + 1..e] + b[e..]));
    UnlockedsConcat(b[r + 1..g], b[g..u] + ([b[u]] + b[u + 1..e] + b[e..]));
    UnlockedsConcat(b[g..u], [b[u]] + b[u + 1..e] + b[e..]);
    UnlockedsConcat([b[u]] + b[u + 1..e], b[e..]);
    UnlockedsConcat([b[u]], b[u + 1..e]);
    assert [b[u]][1..] == [];
  }

  lemma LaterUsesUp(b: seq<Block>, r: nat, g: nat)
    requires r <= g < |b|
    ensures Unlockeds(b[g + 1..]) <= Unlockeds(b[r + 1..])
  {
    assert b[r + 1..] == b[r + 1..g + 1] + b[g + 1..];
    UnlockedsConcat(b[r + 1..g + 1], b[g + 1..]);
  }

  // ---------------------------------------------------------------- order

  /** The blocks in use, in order: their headers and sizes. */
  function Live<T>(l: seq<T>, b: seq<Block>): seq<(T, int)>
    requires |l| == |b|
  {
    if l == [] then [] else (if b[0].kind != Free then [(l[0], b[0].size)] else []) + Live(l[1..], b[1..])
  }

  lemma {:induction false} LiveConcat<T>(x: seq<T>, dx: seq<Block>, y: seq<T>, dy: seq<Block>)
    requires |x| == |dx| && |y| == |dy|
    ensures Live(x + y, dx + dy) == Live(x, dx) + Live(y, dy)
  {
    if x == [] {
      assert x + y == y && dx + dy == dy;
    } else {
      assert (x + y)[1..] == x[1..] + y && (dx + dy)[1..] == dx[1..] + dy;
      LiveConcat(x[1..], dx[1..], y, dy);
    }
  }

  lemma {:induction false} LiveSame<T>(l: seq<T>, b: seq<Block>, d: seq<Block>)
    requires |l| == |b| == |d| && forall i :: 0 <= i < |b| ==> d[i].kind == b[i].kind && d[i].size == b[i].size
    ensures Live(l, b) == Live(l, d)
  {
    if l != [] {
      LiveSame(l[1..], b[1..], d[1..]);
    }
  }

  lemma {:induction false} LiveNone<T>(l: seq<T>, b: seq<Block>)
    requires |l| == |b| && forall i :: 0 <= i < |b| ==> b[i].kind == Free
    ensures Live(l, b) == []
  {
    if l != [] {
      LiveNone(l[1..], b[1..]);
    }
  }

  lemma AdjacentForm<T>(l: seq<T>, f: nat, g: nat, e: nat)
    requires f < g < e <= |l|
    ensures Rearranged(l, [], f, g, g, e) == l[..f] + l[g..e] + [l[f]] + l[e..]
  {
  }

  lemma LiveParts<T>(a: seq<T>, ba: seq<Block>, b: seq<T>, bb: seq<Block>, c: seq<T>, bc: seq<Block>, d: seq<T>,
                     bd: seq<Block>)
    requires |a| == |ba| && |b| == |bb| && |c| == |bc| && |d| == |bd|
    ensures Live(a + b + c + d, ba + bb + bc + bd) == Live(a, ba) + Live(b, bb) + Live(c, bc) + Live(d, bd)
  {
    hide Live;
    LiveConcat(a + b + c, ba + bb + bc, d, bd);
    LiveConcat(a + b, ba + bb, c, bc);
    LiveConcat(a, ba, b, bb);
  }

  lemma LiveBefore<T>(l: seq<T>, b: seq<Block>, f: nat, g: nat, e: nat)
    requires |l| == |b| && f < g < e <= |b|
    requires forall i :: f <= i < g ==> b[i].kind == Free
    ensures Live(l, b) == Live(l[..f], b[..f]) + Live(l[g..e], b[g..e]) + Live(l[e..], b[e..])
  {
    hide Live;
    LiveParts(l[..f], b[..f], l[f..g], b[f..g], l[g..e], b[g..e], l[e..], b[e..]);
    LiveNone(l[f..g], b[f..g]);
    FourSlices(l, f, g, e);
    FourSlices(b, f, g, e);
    NothingAfter(Live(l[..f], b[..f]));
  }

  lemma FourSlices<T>(s: seq<T>, f: nat, g: nat, e: nat)
    requires f <= g <= e <= |s|
    ensures s == s[..f] + s[f..g] + s[g..e] + s[e..]
  {
  }

  lemma NothingAfter<T>(s: seq<T>)
    ensures s + [] == s
  {
  }

  lemma LiveAfter<T>(l: seq<T>, d: seq<Block>, f: nat, g: nat, e: nat)
    requires |l| == |d| && f < g < e <= |d| && d[f].kind == Free
    ensures Live(Rearranged(l, [], f, g, g, e), Rearranged(d, [], f, g, g, e))
         == Live(l[..f], d[..f]) + Live(l[g..e], d[g..e]) + Live(l[e..], d[e..])
  {
    hide Live, Rearranged;
    AdjacentForm(l, f, g, e);
    AdjacentForm(d, f, g, e);
    LiveParts(l[..f], d[..f], l[g..e], d[g..e], [l[f]], [d[f]], l[e..], d[e..]);
    LiveNone([l[f]], [d[f]]);
    var x := Live(l[..f], d[..f]) + Live(l[g..e], d[g..e]);
    assert x + [] == x;
  }

  /** A round on adjacent ranges keeps the order and the sizes of the blocks in use. */
  lemma RoundOrder<T>(l: seq<T>, b: seq<Block>, d: seq<Block>, f: nat, g: nat, e: nat)
    requires |l| == |b| == |d| && f < g < e <= |b| && d[f].kind == Free
    requires forall i :: 0 <= i < |b| && (i < f || g <= i) ==> d[i].kind == b[i].kind && d[i].size == b[i].size
    requires forall i :: f <= i < g ==> b[i].kind == Free
    ensures Live(Rearranged(l, [], f, g, g, e), Rearranged(d, [], f, g, g, e)) == Live(l, b)
  {
    hide Live, Rearranged;
    LiveBefore(l, b, f, g, e);
    LiveAfter(l, d, f, g, e);
    LiveSame(l[..f], b[..f], d[..f]);
    LiveSame(l[g..e], b[g..e], d[g..e]);
    LiveSame(l[e..], b[e..], d[e..]);
  }
}
