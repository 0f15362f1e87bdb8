/** Whole runs of rmalloc: a client makes any calls on the handles it was given, in any order, with compactions in
    between. */
module HandleClient {
  import opened Common
  import opened ListSort
  import opened Blocks
  import opened Layouts
  import opened Ranges
  import opened Rounds
  import opened Survival
  import opened Slots
  import opened HandleHeap

  /** A call of the client; handles go by the order in which they were handed out. */
  datatype Call =
    | CallMalloc(size: nat, recycled: bool)
    | CallFree(n: nat)
    | CallLock(n: nat)
    | CallWeakLock(n: nat)
    | CallUnlock(n: nat)
    | CallStore(n: nat, i: nat, v: int)
    | CallCompact(limited: bool, patience: nat, released: nat)

  /** What a client knows of a handle: whether it may be moved, where it is if it may not, and its contents. */
  datatype Held = Gone | Held(kind: Kind, at: int, contents: seq<int>)

  predicate InUse(x: seq<Held>, n: nat) { n < |x| && x[n].Held? }

  predicate Fixed(v: Held) { v.Held? && v.kind != Unlocked }

  /** The address of a block that becomes locked: one that was locked already stays where it is. */
  predicate LockedAt(x: seq<Held>, y: seq<Held>, n: nat, kind: Kind) {
    && n < |y| == |x| && x[n].Held? && y[n].Held?
    && y == x[n := Held(kind, y[n].at, x[n].contents)] && (Fixed(x[n]) ==> y[n].at == x[n].at)
  }

  /** The block of the heap at address `a` can be the one that the client knows as `v`. */
  predicate Leads(sp: Layout, a: int, v: Held)
    requires v.Held?
  {
    var i := PlaceOf(sp.blocks, a);
    && i < |sp.blocks| && sp.blocks[i].kind == v.kind && |v.contents| <= sp.blocks[i].size && (Fixed(v) ==> v.at == a)
  }

  ghost predicate FreeStep(n: nat, sp: Layout, sp': Layout, x: seq<Held>, y: seq<Held>)
    requires InUse(x, n)
  {
    y == x[n := Gone] && exists a :: Leads(sp, a, x[n]) && sp' == AfterFree(sp, a)
  }

  ghost predicate UnlockStep(n: nat, sp: Layout, sp': Layout, x: seq<Held>, y: seq<Held>)
    requires InUse(x, n)
  {
    y == x[n := Held(Unlocked, 0, x[n].contents)]
    && exists a :: Leads(sp, a, x[n]) && sp' == AfterKind(sp, a, Unlocked)
  }

  predicate LockStep(n: nat, kind: Kind, sp: Layout, sp': Layout, x: seq<Held>, y: seq<Held>)
    requires InUse(x, n)
  {
    LockedAt(x, y, n, kind) && Leads(sp, y[n].at, x[n]) && sp' == AfterKind(sp, y[n].at, kind)
  }

  /** A request is met exactly if it can be, by a new block of the size asked for. */
  predicate MallocStep(size: nat, recycled: bool, sp: Layout, sp': Layout, x: seq<Held>, y: seq<Held>) {
    && sp' == AfterMalloc(sp, Padded(size), recycled)
    && if Serves(sp, Padded(size), recycled) then
         && |y| == |x| + 1 && y[..|x|] == x && y[|x|].Held? && y[|x|].kind == Unlocked
         && |y[|x|].contents| == Padded(size)
       else y == x
  }

  /** What a call does to the heap and to what the client knows. A compaction does nothing to that; a call that the
      client is not entitled to is not made. */
  ghost predicate Step(call: Call, sp: Layout, sp': Layout, x: seq<Held>, y: seq<Held>) {
    match call
    case CallMalloc(size, recycled) =>
      if size <= sp.end then MallocStep(size, recycled, sp, sp', x, y) else sp' == sp && y == x
    case CallFree(n) => if InUse(x, n) then FreeStep(n, sp, sp', x, y) else sp' == sp && y == x
    case CallLock(n) => if InUse(x, n) then LockStep(n, Locked, sp, sp', x, y) else sp' == sp && y == x
    case CallWeakLock(n) => if InUse(x, n) then LockStep(n, WeakLocked, sp, sp', x, y) else sp' == sp && y == x
    case CallUnlock(n) => if InUse(x, n) then UnlockStep(n, sp, sp', x, y) else sp' == sp && y == x
    case CallStore(n, i, v) =>
      && sp' == sp
      && y == if InUse(x, n) && Fixed(x[n]) && i < |x[n].contents|
              then x[n := Held(x[n].kind, x[n].at, x[n].contents[i := v])] else x
    case CallCompact(limited, patience, released) =>
      y == x && exists rounds :: Compacts(sp, sp', limited, patience, released, rounds)
  }

  /** The block and the bytes are as the client knows them. */
  ghost predicate Shown(b: Block, v: Held, m: seq<int>)
    requires v.Held?
  {
    && v.kind == b.kind && v.kind != Free && (v.kind != Unlocked ==> v.at == b.addr)
    && |v.contents| <= b.size && 0 <= b.addr && b.addr + |v.contents| <= |m|
    && m[b.addr..b.addr + |v.contents|] == v.contents
  }

  ghost predicate AllShown(hs: seq<Header>, x: seq<Held>, m: seq<int>)
    reads hs
  {
    && |hs| == |x|
    && (forall n :: 0 <= n < |x| && x[n].Held? ==> Shown(BlockOf(hs[n]), x[n], m))
    && forall n, k :: 0 <= n < k < |x| && x[n].Held? && x[k].Held? ==> hs[n] != hs[k]
  }

  ghost function HeldSet(hs: seq<Header>, x: seq<Held>): set<Header>
    requires |hs| == |x|
  {
    set n | 0 <= n < |x| && x[n].Held? :: hs[n]
  }

  // ---------------------------------------------------------------- one call

  /** What a block that survives shows, it goes on showing. */
  lemma StillShown(b: Block, v: Held, m: seq<int>, d: Block, n: seq<int>)
    requires v.Held? && Shown(b, v, m) && Survives(b, m, d, n)
    ensures Shown(d, v, n)
  {
    var k := |v.contents|;
    assert n[d.addr..d.addr + k] == n[d.addr..d.addr + b.size][..k];
    assert m[b.addr..b.addr + k] == m[b.addr..b.addr + b.size][..k];
  }

  /** A handle in use has its block on both sides of a compaction. */
  lemma KeptOne(l: seq<Header>, b: seq<Block>, m: seq<int>, k: seq<Header>, d: seq<Block>, n: seq<int>, h: Header)
    returns (i: nat, j: nat)
    requires Kept(l, b, m, k, d, n) && h in LiveSet(l, b)
    ensures i < |l| == |b| && j < |k| == |d| && l[i] == h == k[j] && b[i].kind != Free && Survives(b[i], m, d[j], n)
  {
    i :| 0 <= i < |l| && l[i] == h && b[i].kind != Free;
    assert h in LiveSet(k, d);
    j :| 0 <= j < |k| && k[j] == h && d[j].kind != Free;
  }

  /** The snapshot of a heap, at the place of a header. */
  lemma SnapOf(l: seq<Header>, i: nat)
    requires i < |l|
    ensures Snap(l)[i] == BlockOf(l[i])
  {
    SnapAre(l);
  }

  lemma InHeld(hs: seq<Header>, x: seq<Held>, n: nat)
    requires n < |hs| == |x| && x[n].Held?
    ensures hs[n] in HeldSet(hs, x)
  {
  }

  /** A handle that is no longer in use leaves the set of handles. */
  lemma HeldGone(hs: seq<Header>, x: seq<Held>, m: seq<int>, n: nat)
    requires AllShown(hs, x, m) && InUse(x, n)
    ensures HeldSet(hs, x[n := Gone]) == HeldSet(hs, x) - {hs[n]}
  {
    var y := x[n := Gone];
    forall h | h in HeldSet(hs, x) - {hs[n]} ensures h in HeldSet(hs, y) {
      var k :| 0 <= k < |x| && x[k].Held? && hs[k] == h;
      assert y[k].Held?;
    }
    forall h | h in HeldSet(hs, y) ensures h in HeldSet(hs, x) - {hs[n]} {
      var k :| 0 <= k < |y| && y[k].Held? && hs[k] == h;
      assert x[k].Held?;
    }
  }

  lemma HeldSame(hs: seq<Header>, x: seq<Held>, y: seq<Held>)
    requires |hs| == |x| == |y| && forall n :: 0 <= n < |x| ==> x[n].Held? == y[n].Held?
    ensures HeldSet(hs, x) == HeldSet(hs, y)
  {
  }

  lemma HeldMore(hs: seq<Header>, x: seq<Held>, h: Header, v: Held)
    requires |hs| == |x| && v.Held?
    ensures HeldSet(hs + [h], x + [v]) == HeldSet(hs, x) + {h}
  {
    var hs', x' := hs + [h], x + [v];
    forall g | g in HeldSet(hs, x) + {h} ensures g in HeldSet(hs', x') {
      if g == h {
        assert hs'[|hs|] == h && x'[|hs|] == v;
      } else {
        var k :| 0 <= k < |x| && x[k].Held? && hs[k] == g;
        assert hs'[k] == g && x'[k] == x[k];
      }
    }
    forall g | g in HeldSet(hs', x') ensures g in HeldSet(hs, x) + {h} {
      var k :| 0 <= k < |x'| && x'[k].Held? && hs'[k] == g;
    }
  }

  class HandleClient {
    const r: Rmalloc
    var handles: seq<Header>
    var seen: seq<Held>

    ghost predicate Valid()
      reads this, r, r.bytes, r.slots, r.list, r.order, handles
    {
      && r.Valid() && MIN_BLOCK <= r.bytes.Length
      && AllShown(handles, seen, r.bytes[..])
      && r.Handles() == HeldSet(handles, seen)
    }

    /** `rm_init` on a heap of `size` bytes. */
    constructor (size: nat)
      requires 0 < size && SLOT_BYTES * (Log2(size) + 1) < size - 2 * HEADER
      ensures r.Shape() == NewHeap(size)
      ensures Valid() && seen == [] && fresh(r) && fresh(r.bytes) && fresh(r.slots) && r.list == []
    {
      hide Rmalloc.Valid;
      var heap := new Rmalloc(size);
      r, handles, seen := heap, [], [];
    }

    method DoMalloc(size: nat, recycled: bool)
      requires Valid() && size <= r.bytes.Length
      modifies this, r, r.slots, r.list
      ensures Valid() && MallocStep(size, recycled, old(r.Shape()), r.Shape(), old(seen), seen)
      ensures forall i :: 0 <= i < |r.list| ==> r.list[i] in old(r.list) || fresh(r.list[i])
    {
      hide Rmalloc.Valid, Rmalloc.Shape, AfterKind, HandlesOf, Rmalloc.TopHasRoom, Shown, Serves, AfterMalloc;
      ghost var list := r.list;
      HeldListed(r, handles, seen);
      var h := r.Malloc(size, recycled);
      forall n | 0 <= n < |seen| && seen[n].Held?
        ensures BlockOf(handles[n]) == old(BlockOf(handles[n]))
      {
        var i :| 0 <= i < |list| && list[i] == handles[n] && old(list[i].kind) != Free;
      }
      if h != null {
        NewShown(r, h);
        var v := Held(Unlocked, 0, r.bytes[h.memory..h.memory + h.size]);
        forall n | 0 <= n < |seen| && seen[n].Held? ensures handles[n] != h {
          InHeld(handles, seen, n);
        }
        HeldMore(handles, seen, h, v);
        handles, seen := handles + [h], seen + [v];
      }
    }

    method DoFree(n: nat)
      requires Valid() && InUse(seen, n)
      modifies this, r.slots, r.list`kind
      ensures Valid() && FreeStep(n, old(r.Shape()), r.Shape(), old(seen), seen)
    {
      hide Rmalloc.Valid, Rmalloc.Shape, AfterKind, HandlesOf, Shown, HeldSet, Leads, AfterFree;
      InHeld(handles, seen, n);
      HandleIn(r, handles[n]);
      LeadsTo(r, handles[n], seen[n], r.bytes[..]);
      HeldGone(handles, seen, r.bytes[..], n);
      r.Release(handles[n]);
      seen := seen[n := Gone];
    }

    /** `rm_lock` and `rm_weaklock`. */
    method DoLock(n: nat, weak: bool)
      requires Valid() && InUse(seen, n)
      modifies this, r.list`kind
      ensures Valid()
      ensures LockStep(n, if weak then WeakLocked else Locked, old(r.Shape()), r.Shape(), old(seen), seen)
    {
      hide Rmalloc.Valid, Rmalloc.Shape, AfterKind, HandlesOf, HeldSet, Shown, Leads;
      var h := handles[n];
      InHeld(handles, seen, n);
      HandleIn(r, h);
      ShownAt(BlockOf(h), seen[n], r.bytes[..]);
      LeadsTo(r, h, seen[n], r.bytes[..]);
      ghost var b := BlockOf(h);
      var at;
      if weak {
        at := r.WeakLock(h);
      } else {
        at := r.Lock(h);
      }
      OtherKind(b, seen[n], r.bytes[..], h.kind);
      seen := seen[n := Held(h.kind, at, seen[n].contents)];
      HeldSame(handles, old(seen), seen);
    }

    method DoUnlock(n: nat)
      requires Valid() && InUse(seen, n)
      modifies this, r.list`kind
      ensures Valid() && UnlockStep(n, old(r.Shape()), r.Shape(), old(seen), seen)
    {
      hide Rmalloc.Valid, Rmalloc.Shape, AfterKind, HandlesOf, HeldSet, Leads;
      InHeld(handles, seen, n);
      HandleIn(r, handles[n]);
      LeadsTo(r, handles[n], seen[n], r.bytes[..]);
      r.Unlock(handles[n]);
      seen := seen[n := Held(Unlocked, 0, seen[n].contents)];
      HeldSame(handles, old(seen), seen);
    }

    /** A store into a locked block, at the address that locking it gave. */
    method DoStore(n: nat, i: nat, v: int)
      requires Valid() && InUse(seen, n) && Fixed(seen[n]) && i < |seen[n].contents|
      modifies this, r.bytes
      ensures r.Shape() == old(r.Shape())
      ensures Valid() && seen == old(seen)[n := Held(old(seen)[n].kind, old(seen)[n].at, old(seen)[n].contents[i := v])]
    {
      hide Rmalloc.Valid, Rmalloc.Shape, AfterKind, HandlesOf, HeldSet, Shown;
      ghost var m := r.bytes[..];
      ShownAt(BlockOf(handles[n]), seen[n], m);
      r.bytes[seen[n].at + i] := v;
      ghost var a := seen[n].at + i;
      assert r.bytes[..] == m[a := v];
      forall k | 0 <= k < |seen| && k != n && seen[k].Held?
        ensures Shown(BlockOf(handles[k]), seen[k], m[a := v])
      {
        InHeld(handles, seen, n);
        InHeld(handles, seen, k);
        HandlesApart(r, handles[n], handles[k]);
        HandlesApart(r, handles[k], handles[n]);
        StoreApart(BlockOf(handles[k]), seen[k], m, a, v);
      }
      StoreShown(BlockOf(handles[n]), seen[n], m, i, v);
      seen := seen[n := Held(seen[n].kind, seen[n].at, seen[n].contents[i := v])];
      HeldSame(handles, old(seen), seen);
    }

    method DoCompact(limited: bool, patience: nat, released: nat) returns (ghost rounds: nat)
      requires Valid()
      modifies r, r.bytes, r.slots, r.list
      ensures Valid() && Compacts(old(r.Shape()), r.Shape(), limited, patience, released, rounds)
      ensures forall i :: 0 <= i < |r.list| ==> r.list[i] in old(r.list) || fresh(r.list[i])
    {
      hide Rmalloc.Valid, Rmalloc.Shape, AfterKind, Compacts, HandlesOf, HeldSet, Shown, Kept, Survives, LiveSet, Snap;
      ghost var l, b, m := r.order, Snap(r.order), r.bytes[..];
      HandlesLive(r);
      BeforeMove(r, handles, seen);
      rounds := r.Compact(limited, patience, released);
      AfterMove(r, l, b, m, handles, seen);
    }

    /** One call, if the client is entitled to it. */
    method Serve(call: Call)
      requires Valid()
      modifies this, r, r.bytes, r.slots, r.list
      ensures Valid() && Step(call, old(r.Shape()), r.Shape(), old(seen), seen)
      ensures forall i :: 0 <= i < |r.list| ==> r.list[i] in old(r.list) || fresh(r.list[i])
    {
      hide Valid, MallocStep, FreeStep, UnlockStep, LockStep, Compacts;
      EndIs(r);
      match call
      case CallMalloc(size, recycled) =>
        if size <= r.bytes.Length {
          DoMalloc(size, recycled);
        }
      case CallFree(n) =>
        if InUse(seen, n) {
          DoFree(n);
        }
      case CallLock(n) =>
        if InUse(seen, n) {
          DoLock(n, false);
        }
      case CallWeakLock(n) =>
        if InUse(seen, n) {
          DoLock(n, true);
        }
      case CallUnlock(n) =>
        if InUse(seen, n) {
          DoUnlock(n);
        }
      case CallStore(n, i, v) =>
        if InUse(seen, n) && Fixed(seen[n]) && i < |seen[n].contents| {
          DoStore(n, i, v);
        }
      case CallCompact(limited, patience, released) =>
        ghost var rounds := DoCompact(limited, patience, released);
    }
  }

  /** The calls were answered step by step. */
  ghost predicate History(calls: seq<Call>, heaps: seq<Layout>, views: seq<seq<Held>>) {
    && |heaps| == |views| == |calls| + 1
    && forall i :: 0 <= i < |calls| ==> Step(calls[i], heaps[i], heaps[i + 1], views[i], views[i + 1])
  }

  /** Any run, from an empty heap on: each call does what it is meant to do to what the client knows of its handles,
      and compactions do nothing to it. At the end every handle in use leads to a block of its own that holds what the
      client knows it to hold, at the address it was told if it is locked. */
  method Run(size: nat, calls: seq<Call>) 
    returns (c: HandleClient, ghost heaps: seq<Layout>, ghost views: seq<seq<Held>>)
    requires 0 < size && SLOT_BYTES * (Log2(size) + 1) < size - 2 * HEADER
    ensures History(calls, heaps, views) && views[0] == [] && views[|calls|] == c.seen
    ensures heaps[0] == NewHeap(size) && heaps[|calls|] == c.r.Shape()
    ensures AllShown(c.handles, c.seen, c.r.bytes[..])
    ensures c.r.Valid() && c.r.Handles() == HeldSet(c.handles, c.seen)
    ensures forall n, k :: 0 <= n < |c.seen| && 0 <= k < |c.seen| && n != k && c.seen[n].Held? && c.seen[k].Held? ==>
              var g, h := c.handles[n], c.handles[k];
              g.memory + g.size <= h.memory || h.memory + h.size <= g.memory
  {
    hide Rmalloc.Valid, Rmalloc.Shape, AfterKind, HandlesOf, HeldSet, Step, Shown, Log2;
    c := new HandleClient(size);
    heaps, views := [c.r.Shape()], [c.seen];
    var i := 0;
    while i < |calls|
      invariant fresh(c) && fresh(c.r) && fresh(c.r.bytes) && fresh(c.r.slots)
      invariant forall k :: 0 <= k < |c.r.list| ==> fresh(c.r.list[k])
      invariant i <= |calls| && c.Valid() && History(calls[..i], heaps, views) && views[0] == [] && views[i] == c.seen
      invariant heaps[0] == NewHeap(size) && heaps[i] == c.r.Shape()
    {
      c.Serve(calls[i]);
      heaps, views := heaps + [c.r.Shape()], views + [c.seen];
      assert calls[..i + 1] == calls[..i] + [calls[i]];
      i := i + 1;
    }
    assert calls[..i] == calls;
    ApartAll(c.r, c.handles, c.seen, c.r.bytes[..]);
  }

  lemma ApartAll(r: Rmalloc, hs: seq<Header>, x: seq<Held>, m: seq<int>)
    requires r.Valid() && AllShown(hs, x, m) && r.Handles() == HeldSet(hs, x)
    ensures forall n, k :: 0 <= n < |x| && 0 <= k < |x| && n != k && x[n].Held? && x[k].Held? ==>
              hs[n].memory + hs[n].size <= hs[k].memory || hs[k].memory + hs[k].size <= hs[n].memory
  {
    hide Rmalloc.Valid, Rmalloc.Shape, AfterKind, HandlesOf, HeldSet, Shown;
    forall n, k | 0 <= n < |x| && 0 <= k < |x| && n != k && x[n].Held? && x[k].Held?
      ensures hs[n].memory + hs[n].size <= hs[k].memory || hs[k].memory + hs[k].size <= hs[n].memory
    {
      InHeld(hs, x, n);
      InHeld(hs, x, k);
      HandlesApart(r, hs[n], hs[k]);
    }
  }

  /** The handles that the client holds are blocks in use of the list. */
  lemma HeldListed(r: Rmalloc, hs: seq<Header>, x: seq<Held>)
    requires |hs| == |x| && r.Handles() == HeldSet(hs, x)
    ensures forall n :: 0 <= n < |x| && x[n].Held? ==>
              exists i :: 0 <= i < |r.list| && r.list[i] == hs[n] && r.list[i].kind != Free
  {
    forall n | 0 <= n < |x| && x[n].Held?
      ensures exists i :: 0 <= i < |r.list| && r.list[i] == hs[n] && r.list[i].kind != Free
    {
      InHeld(hs, x, n);
    }
  }

  /** A block in use shows what its bytes are. */
  lemma NewShown(r: Rmalloc, h: Header)
    requires r.Valid() && h in r.Handles() && h.kind == Unlocked
    ensures 0 <= h.memory <= h.memory + h.size <= r.bytes.Length
    ensures Shown(BlockOf(h), Held(Unlocked, 0, r.bytes[h.memory..h.memory + h.size]), r.bytes[..])
  {
    hide Arranged, Linked, SlotsHold;
    BlockPlace(r.list, r.order, r.memoryBottom, r.memoryTop, h);
  }

  lemma EndIs(r: Rmalloc)
    ensures r.Shape().end == r.bytes.Length
  {
  }

  /** The block of a handle is the one that the client's knowledge leads to. */
  lemma LeadsTo(r: Rmalloc, h: Header, v: Held, m: seq<int>)
    requires r.Valid() && h in r.list && v.Held? && Shown(BlockOf(h), v, m)
    ensures Leads(r.Shape(), h.memory, v)
  {
    hide Linked, SlotsHold, Tiles, Distinct, Snap, SnapAll;
    AtIndex(r.list, r.order, IndexOf(r.list, r.order, h), h, r.memoryBottom, r.memoryTop);
  }

  lemma HandleIn(r: Rmalloc, h: Header)
    requires h in r.Handles()
    ensures h in r.list && h.kind != Free
  {
  }

  lemma ShownAt(b: Block, v: Held, m: seq<int>)
    requires v.Held? && Shown(b, v, m)
    ensures 0 <= b.addr && b.addr + |v.contents| <= |m| && |v.contents| <= b.size && (Fixed(v) ==> v.at == b.addr)
  {
  }

  lemma OtherKind(b: Block, v: Held, m: seq<int>, kind: Kind)
    requires v.Held? && Shown(b, v, m) && kind != Free
    ensures Shown(Block(b.addr, b.size, kind), Held(kind, b.addr, v.contents), m)
  {
  }

  lemma StoreApart(b: Block, v: Held, m: seq<int>, a: int, x: int)
    requires v.Held? && Shown(b, v, m) && 0 <= a < |m| && (a < b.addr || b.addr + b.size <= a)
    ensures Shown(b, v, m[a := x])
  {
    var k := |v.contents|;
    assert m[a := x][b.addr..b.addr + k] == m[b.addr..b.addr + k];
  }

  lemma StoreShown(b: Block, v: Held, m: seq<int>, i: nat, x: int)
    requires Fixed(v) && Shown(b, v, m) && i < |v.contents|
    ensures Shown(b, Held(v.kind, v.at, v.contents[i := x]), m[v.at + i := x])
  {
    var k := |v.contents|;
    assert m[v.at + i := x][b.addr..b.addr + k] == m[b.addr..b.addr + k][i := x];
  }

  // ---------------------------------------------------------------- compaction

  lemma HandlesLive(r: Rmalloc)
    requires r.Valid()
    ensures r.Handles() == LiveSet(r.order, Snap(r.order))
  {
    hide Linked, SlotsHold, Snap, Tiles, HandlesOf, LiveSet;
    ArrangedParts(r.list, r.order, r.memoryBottom, r.memoryTop);
    SameHandles(r.list, r.order);
  }

  /** What the client knows of its handles, said of the blocks of a list. */
  ghost predicate ShownBy(l: seq<Header>, b: seq<Block>, m: seq<int>, hs: seq<Header>, x: seq<Held>)
    requires |l| == |b| && |hs| == |x|
  {
    forall n, i :: 0 <= n < |x| && x[n].Held? && 0 <= i < |l| && l[i] == hs[n] ==> Shown(b[i], x[n], m)
  }

  lemma BeforeMove(r: Rmalloc, hs: seq<Header>, x: seq<Held>)
    requires AllShown(hs, x, r.bytes[..])
    ensures ShownBy(r.order, Snap(r.order), r.bytes[..], hs, x)
  {
    hide Shown, Snap;
    forall n, i | 0 <= n < |x| && x[n].Held? && 0 <= i < |r.order| && r.order[i] == hs[n]
      ensures Shown(Snap(r.order)[i], x[n], r.bytes[..])
    {
      SnapOf(r.order, i);
    }
  }

  lemma AfterMove(r: Rmalloc, l: seq<Header>, b: seq<Block>, m: seq<int>, hs: seq<Header>, x: seq<Held>)
    requires Kept(l, b, m, r.order, Snap(r.order), r.bytes[..]) && |hs| == |x| && |l| == |b|
    requires ShownBy(l, b, m, hs, x) && LiveSet(l, b) == HeldSet(hs, x)
    requires forall n, k :: 0 <= n < k < |x| && x[n].Held? && x[k].Held? ==> hs[n] != hs[k]
    ensures AllShown(hs, x, r.bytes[..])
  {
    hide Shown, Snap, Kept, Survives, LiveSet, HeldSet;
    forall n | 0 <= n < |x| && x[n].Held?
      ensures Shown(BlockOf(hs[n]), x[n], r.bytes[..])
    {
      InHeld(hs, x, n);
      var i, j := KeptOne(l, b, m, r.order, Snap(r.order), r.bytes[..], hs[n]);
      SnapOf(r.order, j);
      StillShown(b[i], x[n], m, Snap(r.order)[j], r.bytes[..]);
    }
  }
}
