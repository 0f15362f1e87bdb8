/** Whole runs of dlmalloc: a client makes any calls it is entitled to, in any order, and the system answers as it
    likes. */
module Client {
  import opened Common
  import opened Memory
  import opened Bins
  import opened Heap
  import opened HeapOps
  import opened System
  import opened Requests
  import opened Service
  import opened Growth
  import opened Dlmalloc

  /** A call of the client, with the system's answers to whatever it leads to. */
  datatype Call =
    | CallMalloc(bytes: int, env: Morecore)
    | CallFree(r: int, rel: Release)
    | CallRealloc(r: int, bytes: int, env: Morecore, rel: Release)
    | CallMemalign(alignment: int, bytes: int, env: Morecore)
    | CallBulkFree(rs: seq<int>, rel: Release)
    | CallTrim(pad: int, rel: Release)
    | CallStore(r: int, k: int, v: int)

  /** The blocks a client holds, with the sizes it asked for, are the chunks handed out, each large enough. */
  ghost predicate Held(held: map<int, int>, live: map<int, int>) {
    && (forall r :: r in held ==> r - MEM_OFFSET in live && 0 <= held[r]
                                  && held[r] + CHUNK_OVERHEAD <= live[r - MEM_OFFSET])
    && (forall p :: p in live ==> p + MEM_OFFSET in held)
  }

  /** The words that the client stored in its blocks, by block and index, and has not overwritten since. */
  ghost predicate Reads(m: Mem, stored: map<(int, int), int>, held: map<int, int>) {
    forall w :: w in stored ==>
      w.0 in held && 0 <= w.1 && 8 * w.1 < held[w.0] && Rd(m, w.0 + 8 * w.1) == stored[w]
  }

  /** The words stored in the block `r`, as far as they lie in its first `n` bytes, are now those of `r'`. */
  ghost function Moved(stored: map<(int, int), int>, r: int, r': int, n: int): map<(int, int), int> {
    map w | w in stored && w.0 == r && 8 * w.1 < n :: (r', w.1) := stored[w]
  }

  ghost function Others(stored: map<(int, int), int>, gone: set<int>): map<(int, int), int> {
    map w | w in stored && w.0 !in gone :: stored[w]
  }

  /** What a client sees of the heap: its blocks with the sizes it asked for, and what it stored in them. */
  datatype View = View(held: map<int, int>, stored: map<(int, int), int>)

  /** `r` is a new block of `bytes` bytes at a multiple of `a`, and nothing else has changed. */
  ghost predicate NewIn(x: View, y: View, r: int, bytes: int, a: int)
    requires a > 0
  {
    r !in x.held && r % a == 0 && bytes < MAX_REQUEST && y == View(x.held[r := bytes], x.stored)
  }

  /** The block `r` has become `r'`, of `bytes` bytes, with what it held as far as both reach. */
  ghost predicate ResizedTo(x: View, y: View, r: int, r': int, bytes: int) {
    && (r' == r || r' !in x.held) && bytes < MAX_REQUEST
    && y == View((x.held - {r})[r' := bytes], Others(x.stored, {r}) + Moved(x.stored, r, r', bytes))
  }

  /** What the system answers a request for a chunk of `nb` bytes. */
  function Answer(sp: Space, nb: int, env: Morecore): Morecore { Given(sp.segs, sp.top, sp.topsize, nb, env) }

  /** A chunk for `bytes` bytes can be had. */
  ghost predicate Able(sp: Space, bytes: int, env: Morecore) {
    bytes < MAX_REQUEST && CanServe(sp, NeedOf(bytes), Answer(sp, NeedOf(bytes), env))
  }

  /** What an aligned block of `bytes` bytes is cut from. */
  function PaddedFor(alignment: int, bytes: int): int {
    Request2Size(bytes) + EffectiveAlignment(alignment) + MIN_CHUNK_SIZE - CHUNK_OVERHEAD
  }

  /** A request for a block is met by the chunk that it is to be met by, and refused exactly if none can be had. */
  ghost predicate MallocStep(bytes: int, env: Morecore, r: int, sp: Space, sp': Space, x: View, y: View) {
    var nb := NeedOf(bytes);
    && (r != 0 <==> Able(sp, bytes, env))
    && if r == 0 then y == x && Refused(sp, nb, sp')
       else NewIn(x, y, r, bytes, 16) && Placed(sp, nb, Answer(sp, nb, env), r - MEM_OFFSET, sp')
  }

  /** To change the size of a block, it may also do to change it where it is, and one that is to be no larger is never
      refused and stays where it is; else the block moves to where a new one would be placed. */
  ghost predicate ReallocStep(p: int, bytes: int, env: Morecore, rel: Release, r: int, sp: Space, sp': Space, x: View,
                              y: View)
    requires p in x.held
  {
    var nb := NeedOf(bytes);
    && (Able(sp, bytes, env) ==> r != 0) && (bytes <= x.held[p] ==> r == p)
    && if r == 0 then y == x && Refused(sp, nb, sp')
       else
         && ResizedTo(x, y, p, r, bytes)
         && if r == p then Kept(p - MEM_OFFSET, x.held[p], nb, sp, sp')
            else Able(sp, bytes, env) && MovedTo(sp, nb, Answer(sp, nb, env), r - MEM_OFFSET, rel, sp')
  }

  /** The chunk `p` of a block that was asked for with `bytes` bytes is now one for `nb` bytes. */
  ghost predicate Kept(p: int, bytes: int, nb: int, sp: Space, sp': Space) {
    exists size :: bytes + CHUNK_OVERHEAD <= size && InPlace(sp, p, size, nb, sp')
  }

  ghost predicate MemalignStep(alignment: int, bytes: int, env: Morecore, r: int, sp: Space, sp': Space, x: View,
                               y: View) {
    var a, padded := EffectiveAlignment(alignment), PaddedFor(alignment, bytes);
    var nb := NeedOf(padded);
    && (r != 0 <==> bytes < MAX_REQUEST - a && Able(sp, padded, env))
    && if r != 0 then NewIn(x, y, r, bytes, a) && CutFrom(sp, nb, Answer(sp, nb, env), a, r, sp')
       else y == x && if bytes < MAX_REQUEST - a then Refused(sp, nb, sp') else sp' == sp
  }

  /** What a call that returns `r` does to what is free and to what the client sees: what it is meant to do and nothing
      besides, or it is refused and the client sees no change.  A call that the client is not entitled to is not
      made. */
  ghost predicate Step(call: Call, r: int, sp: Space, sp': Space, x: View, y: View) {
    match call
    case CallMalloc(bytes, env) =>
      if 0 <= bytes < WORD_MAX then MallocStep(bytes, env, r, sp, sp', x, y) else NoStep(r, sp, sp', x, y)
    case CallFree(p, rel) =>
      if p in x.held && p != 0
      then y == View(x.held - {p}, Others(x.stored, {p})) && Freed(sp, sp', rel, false)
      else NoStep(0, sp, sp', x, y)
    case CallRealloc(p, bytes, env, rel) =>
      if p == 0 && 0 <= bytes < WORD_MAX then MallocStep(bytes, env, r, sp, sp', x, y)
      else if p in x.held && 0 <= bytes < WORD_MAX then ReallocStep(p, bytes, env, rel, r, sp, sp', x, y)
      else NoStep(r, sp, sp', x, y)
    case CallMemalign(alignment, bytes, env) =>
      if 0 <= bytes < WORD_MAX && 0 <= alignment <= SIGN_BIT
      then MemalignStep(alignment, bytes, env, r, sp, sp', x, y) else NoStep(r, sp, sp', x, y)
    case CallBulkFree(ps, rel) =>
      if Entitled(ps, x.held)
      then y == View(x.held - Named(ps), Others(x.stored, Named(ps))) && Freed(sp, sp', rel, true)
      else NoStep(0, sp, sp', x, y)
    case CallTrim(pad, rel) =>
      y == x && if 0 <= pad then GivesBack(sp, sp', sp.topsize, pad, rel) && SameChunks(sp, sp') else sp' == sp
    case CallStore(p, k, v) =>
      && y == (if p in x.held && 0 <= k && 8 * k < x.held[p] then View(x.held, x.stored[(p, k) := v]) else x)
      && sp' == sp
  }

  predicate NoStep(r: int, sp: Space, sp': Space, x: View, y: View) { r == 0 && sp' == sp && y == x }

  function Named(ps: seq<int>): set<int> { set p | p in ps }

  /** The blocks are aligned and do not overlap. */
  ghost predicate Spread(held: map<int, int>) {
    && (forall r :: r in held ==> r % 16 == 0)
    && forall r, r' :: r in held && r' in held && r != r' ==> r + held[r] <= r' || r' + held[r'] <= r
  }

  /** The calls were answered step by step, from view to view. */
  ghost predicate History(calls: seq<Call>, answers: seq<int>, spaces: seq<Space>, views: seq<View>) {
    && |answers| == |calls| && |spaces| == |views| == |calls| + 1
    && (forall i :: 0 <= i < |calls| ==> Step(calls[i], answers[i], spaces[i], spaces[i + 1], views[i], views[i + 1]))
    && forall i :: 0 <= i <= |calls| ==> Spread(views[i].held) && WithinLimit(spaces[i])
  }

  /** Each entry is null or a block of the client, and no block is named twice. */
  predicate Entitled(rs: seq<int>, held: map<int, int>) {
    && (forall i :: 0 <= i < |rs| && rs[i] != 0 ==> rs[i] in held)
    && forall i, j :: 0 <= i < j < |rs| && rs[i] != 0 ==> rs[i] != rs[j]
  }

  lemma ReadsKept(m: Mem, n: Mem, stored: map<(int, int), int>, held: map<int, int>, live: map<int, int>,
                  gone: set<int>,
                  kept: map<int, int>)
    requires Held(held, live) && Reads(m, stored, held) && DataKept(m, n, kept)
    requires forall p :: p in live && p + MEM_OFFSET !in gone ==> p in kept && kept[p] == live[p]
    ensures Reads(n, Others(stored, gone), held - gone)
  {
    forall w | w in stored && w.0 !in gone
      ensures Rd(n, w.0 + 8 * w.1) == stored[w]
    {
      var p := w.0 - MEM_OFFSET;
      assert p in kept;
    }
  }

  lemma ReadsMoved(m: Mem, n: Mem, stored: map<(int, int), int>, held: map<int, int>, live: map<int, int>, r: int,
                   r': int,
                   bytes: int)
    requires Held(held, live) && r - MEM_OFFSET in live && Reads(m, stored, held) && r in held && 0 <= bytes
    requires Copied(m, n, r, r', Min(live[r - MEM_OFFSET] - CHUNK_OVERHEAD, bytes))
    ensures Reads(n, Moved(stored, r, r', bytes), map[r' := bytes])
  {
    hide Rd, Copied, Held, Min;
    forall w | w in stored && w.0 == r && 8 * w.1 < bytes
      ensures 0 <= w.1 && Rd(n, r' + 8 * w.1) == stored[w]
    {
      WordMoved(m, n, stored, held, live, r, r', bytes, w);
    }
  }

  lemma WordMoved(m: Mem, n: Mem, stored: map<(int, int), int>, held: map<int, int>, live: map<int, int>, r: int,
                  r': int,
                  bytes: int, w: (int, int))
    requires Held(held, live) && Reads(m, stored, held) && r in held && w in stored && w.0 == r && 8 * w.1 < bytes
    requires Copied(m, n, r, r', Min(live[r - MEM_OFFSET] - CHUNK_OVERHEAD, bytes))
    ensures 0 <= w.1 && Rd(n, r' + 8 * w.1) == stored[w]
  {
    hide Rd, Copied;
    CopiedWord(m, n, r, r', Min(live[r - MEM_OFFSET] - CHUNK_OVERHEAD, bytes), w.1);
  }

  lemma CopiedWord(m: Mem, n: Mem, r: int, r': int, len: int, k: int)
    requires Copied(m, n, r, r', len) && 0 <= k && 8 * k < len
    ensures Rd(n, r' + 8 * k) == Rd(m, r + 8 * k)
  {
    var a := r' + 8 * k;
    assert (a - r') % 8 == 0;
    assert r + (a - r') == r + 8 * k;
  }

  lemma ReadsBoth(m: Mem, x: map<(int, int), int>, hx: map<int, int>, y: map<(int, int), int>, hy: map<int, int>,
                  held: map<int, int>)
    requires Reads(m, x, hx) && Reads(m, y, hy)
    requires forall r :: r in hx ==> r in held && held[r] == hx[r]
    requires forall r :: r in hy ==> r in held && held[r] == hy[r]
    ensures Reads(m, x + y, held)
  {
  }

  lemma OthersAll(stored: map<(int, int), int>)
    ensures Others(stored, {}) == stored
  {
  }

  class Client {
    const s: MallocState
    var held: map<int, int>
    ghost var stored: map<(int, int), int>

    ghost predicate Valid()
      reads this, s
    {
      && s.Valid() && Held(held, s.Live()) && Reads(s.mem, stored, held)
      && (s.footprintLimit == 0 || s.footprint <= s.footprintLimit)
    }

    ghost function Seen(): View
      reads `held, `stored
    {
      View(held, stored)
    }

    constructor (limit: int)
      requires 0 <= limit < WORD_MAX
      ensures Valid() && fresh(s) && Seen() == View(map[], map[]) && s.footprintLimit == limit
      ensures s.State() == Space(map[], 0, 0, 0, 0, [], 0, 0, 0, limit, true, 0)
    {
      hide MallocState.Valid, MallocState.Live;
      var state := new MallocState(limit);
      s, held, stored := state, map[], map[];
      new;
    }

    method DoMalloc(bytes: int, env: Morecore) returns (r: int)
      requires Valid() && 0 <= bytes < WORD_MAX
      modifies this`held, s
      ensures Valid() && s.footprintLimit == old(s.footprintLimit)
      ensures MallocStep(bytes, env, r, old(s.State()), s.State(), old(Seen()), Seen())
    {
      hide MallocState.Valid, MallocState.Live, DataKept, Honest, Held, Reads, Served, CanServe, Given, Refused, Placed,
        BinsServe, MallocState.FirstOfSize;
      ghost var live, m := s.Live(), s.mem;
      GivenIsHonest(s.segs, s.top, s.topsize, NeedOf(bytes), env);
      var answer := Given(s.segs, s.top, s.topsize, NeedOf(bytes), env);
      r := s.Malloc(bytes, answer);
      if r == 0 {
        NothingNew(m, s.mem, stored, held, live);
      } else {
        ServedBlock(m, s.mem, stored, held, live, s.Live(), r, bytes);
        held := held[r := bytes];
      }
    }

    method DoFree(r: int, rel: Release)
      requires Valid() && (r != 0 ==> r in held)
      modifies this, s
      ensures Valid() && s.footprintLimit == old(s.footprintLimit)
      ensures Seen() == if r in old(held) then View(old(held) - {r}, Others(old(stored), {r})) else old(Seen())
      ensures 0 !in old(held)
      ensures if r == 0 then s.State() == old(s.State()) else Freed(old(s.State()), s.State(), rel, false)
    {
      hide MallocState.Valid, MallocState.Live, DataKept, Reads, Others, Freed;
      ghost var live, m := s.Live(), s.mem;
      NullNever(s);
      s.Free(r, rel);
      if r == 0 {
        assert live - {0 - MEM_OFFSET} == live;
        NothingNew(m, s.mem, stored, held, live);
      } else {
        ReadsKept(m, s.mem, stored, held, live, {r}, s.Live());
        held := held - {r};
        stored := Others(stored, {r});
      }
    }

    method DoRealloc(r: int, bytes: int, env: Morecore, rel: Release) returns (n: int)
      requires Valid() && 0 <= bytes < WORD_MAX && (r != 0 ==> r in held)
      modifies this, s
      ensures Valid() && s.footprintLimit == old(s.footprintLimit)
      ensures if r == 0 then MallocStep(bytes, env, n, old(s.State()), s.State(), old(Seen()), Seen())
              else ReallocStep(r, bytes, env, rel, n, old(s.State()), s.State(), old(Seen()), Seen())
    {
      hide MallocState.Valid, MallocState.Live, DataKept, Honest, Held, Reads, Served, Others, Moved, Copied, Min,
        CanServe, Given, MallocState.FitsInPlace, Relocated, Refused, Placed, MovedTo, InPlace;
      ghost var live, m := s.Live(), s.mem;
      GivenIsHonest(s.segs, s.top, s.topsize, NeedOf(bytes), env);
      var answer := Given(s.segs, s.top, s.topsize, NeedOf(bytes), env);
      if r != 0 {
        HeldAt(held, live, r);
        if bytes <= held[r] {
          NoLarger(s, held, r, bytes);
        }
      }
      n := s.Realloc(r, bytes, answer, rel);
      if n == 0 {
        NothingNew(m, s.mem, stored, held, live);
      } else if r == 0 {
        ServedBlock(m, s.mem, stored, held, live, s.Live(), n, bytes);
        held := held[n := bytes];
      } else {
        MovedBlock(m, s.mem, stored, held, live, s.Live(), r, n, bytes);
        stored := Others(stored, {r}) + Moved(stored, r, n, bytes);
        held := (held - {r})[n := bytes];
      }
    }

    method DoMemalign(alignment: int, bytes: int, env: Morecore) returns (r: int)
      requires Valid() && 0 <= bytes < WORD_MAX && 0 <= alignment <= SIGN_BIT
      modifies this`held, s
      ensures Valid() && s.footprintLimit == old(s.footprintLimit)
      ensures MemalignStep(alignment, bytes, env, r, old(s.State()), s.State(), old(Seen()), Seen())
    {
      hide MallocState.Valid, MallocState.Live, DataKept, Honest, Held, Reads, CanServe, Given, Request2Size, Refused,
        CutFrom;
      ghost var live, m := s.Live(), s.mem;
      var padded := PaddedFor(alignment, bytes);
      GivenIsHonest(s.segs, s.top, s.topsize, NeedOf(padded), env);
      var answer := Given(s.segs, s.top, s.topsize, NeedOf(padded), env);
      r := s.InternalMemalign(alignment, bytes, answer);
      if r == 0 {
        NothingNew(m, s.mem, stored, held, live);
      } else {
        NewBlock(m, s.mem, stored, held, live, s.Live(), r, bytes);
        held := held[r := bytes];
      }
    }

    method DoBulkFree(rs: seq<int>, rel: Release)
      requires Valid() && Entitled(rs, held)
      modifies this, s
      ensures Valid() && s.footprintLimit == old(s.footprintLimit)
      ensures Seen() == View(old(held) - Named(rs), Others(old(stored), Named(rs)))
      ensures Freed(old(s.State()), s.State(), rel, true)
    {
      hide MallocState.Valid, MallocState.Live, DataKept, Reads, Others, Pending, NamedOnce, Entitled, Held, Freed;
      ghost var live, m := s.Live(), s.mem;
      var a := new int[|rs|](i requires 0 <= i < |rs| => rs[i]);
      assert a[..] == rs;
      var gone := Named(rs);
      NullNever(s);
      HeldAfter(rs, held, live, gone);
      var unfreed := s.BulkFree(a, rel);
      ReadsKept(m, s.mem, stored, held, live, gone, s.Live());
      held := held - gone;
      stored := Others(stored, gone);
    }

    method DoTrim(pad: int, rel: Release)
      requires Valid() && 0 <= pad
      modifies s
      ensures Valid() && s.footprintLimit == old(s.footprintLimit)
      ensures GivesBack(old(s.State()), s.State(), old(s.topsize), pad, rel) && SameChunks(old(s.State()), s.State())
    {
      hide MallocState.Valid, MallocState.Live, DataKept, Held, Reads, GivesBack;
      ghost var live, m := s.Live(), s.mem;
      var trimmed := s.SysTrim(pad, rel);
      NothingNew(m, s.mem, stored, held, live);
    }

    method DoStore(r: int, k: int, v: int)
      requires Valid() && r in held && 0 <= k && 8 * k < held[r]
      modifies this`stored, s
      ensures Valid() && s.footprintLimit == old(s.footprintLimit)
      ensures stored == old(stored)[(r, k) := v] && s.State() == old(s.State())
    {
      hide MallocState.Valid, DataKept, Reads;
      ghost var live, m := s.Live(), s.mem;
      s.Store(r + 8 * k, v, r - MEM_OFFSET);
      ReadsStored(m, s.mem, stored, held, live, r, k, v);
      stored := stored[(r, k) := v];
    }

    /** One call, if the client is entitled to it. */
    method Serve(call: Call) returns (r: int)
      requires Valid()
      modifies this, s
      ensures Valid() && s.footprintLimit == old(s.footprintLimit)
      ensures Step(call, r, old(s.State()), s.State(), old(Seen()), Seen())
    {
      hide Valid, MallocStep, ReallocStep, MemalignStep, Entitled, Others, Named, GivesBack, Freed;
      r := 0;
      match call
      case CallMalloc(bytes, env) =>
        if 0 <= bytes < WORD_MAX {
          r := DoMalloc(bytes, env);
        }
      case CallFree(p, rel) =>
        if p == 0 || p in held {
          DoFree(p, rel);
        }
      case CallRealloc(p, bytes, env, rel) =>
        if (p == 0 || p in held) && 0 <= bytes < WORD_MAX {
          r := DoRealloc(p, bytes, env, rel);
        }
      case CallMemalign(alignment, bytes, env) =>
        if 0 <= bytes < WORD_MAX && 0 <= alignment <= SIGN_BIT {
          r := DoMemalign(alignment, bytes, env);
        }
      case CallBulkFree(ps, rel) =>
        if Entitled(ps, held) {
          DoBulkFree(ps, rel);
        }
      case CallTrim(pad, rel) =>
        if 0 <= pad {
          DoTrim(pad, rel);
        }
      case CallStore(p, k, v) =>
        if p in held && 0 <= k && 8 * k < held[p] {
          DoStore(p, k, v);
        }
    }
  }

  /** Any run, from the first request on, shows the client what a heap of separate blocks would show it: each call
      does what it is meant to do to the view before it, and is refused only if it cannot be served; the blocks of every
      view are aligned and apart, and the words that the client stored read as it stored them.  Beneath, the whole heap
      invariant holds, the blocks held are the chunks handed out, and the footprint is at all times within the limit,
      if there is one. */
  method Run(limit: int, calls: seq<Call>)
    returns (c: Client, answers: seq<int>, ghost spaces: seq<Space>, ghost views: seq<View>)
    requires 0 <= limit < WORD_MAX
    ensures History(calls, answers, spaces, views)
    ensures views[0] == View(map[], map[]) && views[|calls|] == c.Seen()
    ensures spaces[0] == Space(map[], 0, 0, 0, 0, [], 0, 0, 0, limit, true, 0) && spaces[|calls|] == c.s.State()
    ensures c.s.Valid() && Held(c.held, c.s.Live()) && Reads(c.s.mem, c.stored, c.held)
    ensures c.s.footprintLimit == limit
  {
    hide MallocState.Valid, MallocState.Live, Held, Reads, Step, Spread;
    c := new Client(limit);
    answers, spaces, views := [], [c.s.State()], [c.Seen()];
    HeldApart(c);
    var i := 0;
    while i < |calls|
      invariant fresh(c) && fresh(c.s) && c.Valid() && c.s.footprintLimit == limit
      invariant i <= |calls| && History(calls[..i], answers, spaces, views)
      invariant views[0] == View(map[], map[]) && views[i] == c.Seen()
      invariant spaces[0] == Space(map[], 0, 0, 0, 0, [], 0, 0, 0, limit, true, 0) && spaces[i] == c.s.State()
      modifies c, c.s
    {
      var r := c.Serve(calls[i]);
      HeldApart(c);
      assert calls[..i + 1] == calls[..i] + [calls[i]];
      OneMoreCall(calls[..i], answers, spaces, views, calls[i], r, c.s.State(), c.Seen());
      answers, spaces, views := answers + [r], spaces + [c.s.State()], views + [c.Seen()];
      i := i + 1;
    }
    assert calls[..i] == calls;
  }

  lemma OneMoreCall(calls: seq<Call>, answers: seq<int>, spaces: seq<Space>, views: seq<View>, call: Call, r: int,
                    sp: Space, y: View)
    requires History(calls, answers, spaces, views) && Step(call, r, spaces[|calls|], sp, views[|calls|], y)
    requires Spread(y.held) && WithinLimit(sp)
    ensures History(calls + [call], answers + [r], spaces + [sp], views + [y])
  {
    hide Step, Spread, WithinLimit;
  }

  /** A block always has room for no more than it was asked for. */
  lemma NoLarger(s: MallocState, held: map<int, int>, r: int, bytes: int)
    requires s.Valid() && Held(held, s.Live()) && r in held && 0 <= bytes <= held[r] && bytes < WORD_MAX
    ensures r - MEM_OFFSET in s.Live() && bytes < MAX_REQUEST
    ensures s.FitsInPlace(r - MEM_OFFSET, NeedOf(bytes))
  {
    hide Settled;
    LiveAligned(s.mem, s.heap, s.top, s.topsize, s.dv, s.dvsize, s.ends, s.segs, s.binned, s.Floor(), {},
                r - MEM_OFFSET);
    RoomFor(s.Live()[r - MEM_OFFSET], bytes);
  }

  lemma RoomFor(size: int, bytes: int)
    requires 0 <= bytes && bytes + CHUNK_OVERHEAD <= size < WORD_MAX - HEAP_MIN
    requires size % 16 == 0 && MIN_CHUNK_SIZE <= size
    ensures bytes < MAX_REQUEST && Request2Size(bytes) <= size
  {
  }

  /** At any point of a run, the blocks of the client are aligned and do not overlap. */
  lemma HeldApart(c: Client)
    requires c.Valid()
    ensures Spread(c.held)
  {
    hide MallocState.Valid, Reads;
    forall r, r' | r in c.held && r' in c.held && r != r'
      ensures r + c.held[r] <= r' || r' + c.held[r'] <= r
    {
      PairApart(c.s, c.held, r, r');
    }
    forall r | r in c.held
      ensures r % 16 == 0
    {
      OneAligned(c.s, c.held, r);
    }
  }

  lemma PairApart(s: MallocState, held: map<int, int>, r: int, r': int)
    requires s.Valid() && Held(held, s.Live()) && r in held && r' in held && r != r'
    ensures r + held[r] <= r' || r' + held[r'] <= r
  {
    hide Settled;
    LiveApart(s.mem, s.heap, s.top, s.topsize, s.dv, s.dvsize, s.ends, s.segs, s.binned, s.Floor(), {},
              r - MEM_OFFSET, r' - MEM_OFFSET);
  }

  lemma OneAligned(s: MallocState, held: map<int, int>, r: int)
    requires s.Valid() && Held(held, s.Live()) && r in held
    ensures r % 16 == 0
  {
    hide Settled;
    LiveAligned(s.mem, s.heap, s.top, s.topsize, s.dv, s.dvsize, s.ends, s.segs, s.binned, s.Floor(), {},
                r - MEM_OFFSET);
  }

  // ---------------------------------------------------------------- what the steps of a run rest on

  lemma {:induction false} EntitledOnce(rs: seq<int>, held: map<int, int>)
    requires Entitled(rs, held)
    ensures NamedOnce(rs)
    ensures forall p :: p in Pending(rs) <==> p + MEM_OFFSET in rs && p + MEM_OFFSET != 0
  {
    if rs != [] {
      EntitledOnce(rs[1..], held);
      assert rs == [rs[0]] + rs[1..];
    }
  }

  lemma HeldAt(held: map<int, int>, live: map<int, int>, r: int)
    requires Held(held, live) && r in held
    ensures r - MEM_OFFSET in live && held[r] + CHUNK_OVERHEAD <= live[r - MEM_OFFSET]
  {
  }

  /** Nothing is handed out at the null pointer. */
  lemma NullNever(s: MallocState)
    requires s.Valid()
    ensures 0 - MEM_OFFSET !in s.Live()
  {
    hide Settled;
    NullNotLive(s.mem, s.heap, s.top, s.topsize, s.dv, s.dvsize, s.ends, s.segs, s.binned, s.Floor(), {});
  }

  lemma HeldAfter(rs: seq<int>, held: map<int, int>, live: map<int, int>, gone: set<int>)
    requires Held(held, live) && Entitled(rs, held) && gone == Named(rs) && 0 - MEM_OFFSET !in live
    ensures NamedOnce(rs) && forall p :: p in Pending(rs) ==> p in live
    ensures Held(held - gone, live - Pending(rs))
    ensures forall p :: p in live && p + MEM_OFFSET !in gone ==> p in live - Pending(rs)
  {
    EntitledOnce(rs, held);
    HeldWithout(held, live, gone, Pending(rs));
    hide Pending, NamedOnce, Held, Entitled;
    assert forall p :: p in Pending(rs) ==> p + MEM_OFFSET in held by {
      EntitledAll(rs, held);
    }
    HeldIs(held, live);
  }

  lemma EntitledAll(rs: seq<int>, held: map<int, int>)
    requires Entitled(rs, held)
    ensures forall r :: r in rs && r != 0 ==> r in held
  {
  }

  lemma HeldIs(held: map<int, int>, live: map<int, int>)
    requires Held(held, live)
    ensures forall p :: p in live <==> p + MEM_OFFSET in held
  {
    forall p | p + MEM_OFFSET in held ensures p in live {
      assert p + MEM_OFFSET - MEM_OFFSET in live;
    }
  }

  lemma HeldWithout(held: map<int, int>, live: map<int, int>, gone: set<int>, todo: set<int>)
    requires Held(held, live) && 0 - MEM_OFFSET !in live
    requires forall p :: p in todo <==> p + MEM_OFFSET in gone && p + MEM_OFFSET != 0
    ensures Held(held - gone, live - todo)
  {
    forall r | r in held - gone ensures r - MEM_OFFSET in live - todo {
      assert r - MEM_OFFSET in todo ==> r - MEM_OFFSET + MEM_OFFSET in gone;
    }
  }

  lemma ReadsWider(m: Mem, stored: map<(int, int), int>, held: map<int, int>, more: map<int, int>)
    requires Reads(m, stored, held) && forall r :: r in held ==> r in more && more[r] == held[r]
    ensures Reads(m, stored, more)
  {
  }

  lemma NothingNew(m: Mem, n: Mem, stored: map<(int, int), int>, held: map<int, int>, live: map<int, int>)
    requires Held(held, live) && Reads(m, stored, held) && DataKept(m, n, live)
    ensures Reads(n, stored, held)
  {
    ReadsKept(m, n, stored, held, live, {}, live);
    OthersAll(stored);
    assert held - {} == held;
  }

  lemma NewBlock(m: Mem, n: Mem, stored: map<(int, int), int>, held: map<int, int>, live: map<int, int>,
                 after: map<int, int>, r: int, bytes: int)
    requires Held(held, live) && Reads(m, stored, held) && DataKept(m, n, live) && 0 <= bytes < MAX_REQUEST
    requires var p := r - MEM_OFFSET;
             p !in live && p in after && after == live[p := after[p]] && Request2Size(bytes) <= after[p]
    ensures Held(held[r := bytes], after) && Reads(n, stored, held[r := bytes]) && r !in held
  {
    RequestFits(bytes);
    NothingNew(m, n, stored, held, live);
    ReadsWider(n, stored, held, held[r := bytes]);
  }

  lemma ServedBlock(m: Mem, n: Mem, stored: map<(int, int), int>, held: map<int, int>, live: map<int, int>,
                    after: map<int, int>, r: int, bytes: int)
    requires Held(held, live) && Reads(m, stored, held) && DataKept(m, n, live) && 0 <= bytes < MAX_REQUEST
    requires Served(live, after, r - MEM_OFFSET, NeedOf(bytes))
    ensures Held(held[r := bytes], after) && Reads(n, stored, held[r := bytes]) && r !in held && r % 16 == 0
  {
    NewBlock(m, n, stored, held, live, after, r, bytes);
  }

  lemma MovedBlock(m: Mem, n: Mem, stored: map<(int, int), int>, held: map<int, int>, live: map<int, int>,
                   after: map<int, int>, r: int, r': int, bytes: int)
    requires Held(held, live) && Reads(m, stored, held) && r in held && 0 <= bytes < MAX_REQUEST
    requires Relocated(m, n, live, after, r - MEM_OFFSET, r' - MEM_OFFSET, bytes)
    ensures Held((held - {r})[r' := bytes], after) && (r' == r || r' !in held)
    ensures Reads(n, Others(stored, {r}) + Moved(stored, r, r', bytes), (held - {r})[r' := bytes])
  {
    hide Reads, Copied, DataKept, Others, Moved, Min;
    RequestFits(bytes);
    ReadsKept(m, n, stored, held, live, {r}, live - {r - MEM_OFFSET});
    ReadsMoved(m, n, stored, held, live, r, r', bytes);
    ReadsBoth(n, Others(stored, {r}), held - {r}, Moved(stored, r, r', bytes), map[r' := bytes],
        (held - {r})[r' := bytes]);
  }

  lemma ReadsStored(m: Mem, n: Mem, stored: map<(int, int), int>, held: map<int, int>, live: map<int, int>,
                    r: int, k: int, v: int)
    requires Held(held, live) && Reads(m, stored, held) && DataKept(m, n, live - {r - MEM_OFFSET})
    requires r in held && 0 <= k && 8 * k < held[r] && n == m[r + 8 * k := v]
    ensures Reads(n, stored[(r, k) := v], held)
  {
    forall w | w in stored && w != (r, k)
      ensures Rd(n, w.0 + 8 * w.1) == stored[w]
    {
      WordStays(m, n, stored, held, live, r, k, v, w);
    }
  }

  lemma WordStays(m: Mem, n: Mem, stored: map<(int, int), int>, held: map<int, int>, live: map<int, int>,
                  r: int, k: int, v: int, w: (int, int))
    requires Held(held, live) && Reads(m, stored, held) && DataKept(m, n, live - {r - MEM_OFFSET})
    requires n == m[r + 8 * k := v] && w in stored && w != (r, k)
    ensures Rd(n, w.0 + 8 * w.1) == stored[w]
  {
    assert Rd(m, w.0 + 8 * w.1) == stored[w];
    if w.0 != r {
      var p := w.0 - MEM_OFFSET;
      assert p in live - {r - MEM_OFFSET};
    }
  }
}
