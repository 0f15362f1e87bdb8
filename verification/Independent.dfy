/** The `independent_` routines of dlmalloc: many chunks from one request. */
module Independent {
  import opened Common
  import opened Memory
  import opened Bins
  import opened Heap
  import opened Segments
  import opened HeapOps
  import opened System
  import opened Requests
  import opened Service
  import opened Dlmalloc
  import H = HeapSteps

  function SumOf(s: seq<int>): int { if s == [] then 0 else SumOf(s[..|s| - 1]) + s[|s| - 1] }

  /** The chunks of the given sizes, side by side from `p`, beside those of `u`. */
  ghost function LaidOut(u: map<int, int>, p: int, sizes: seq<int>): map<int, int> {
    if sizes == [] then u
    else LaidOut(u, p, sizes[..|sizes| - 1])[p + SumOf(sizes[..|sizes| - 1]) := sizes[|sizes| - 1]]
  }

  predicate ChunkSizes(s: seq<int>) { forall i :: 0 <= i < |s| ==> s[i] % 16 == 0 && MIN_CHUNK_SIZE <= s[i] }

  lemma TakeNext(s: seq<int>, i: nat)
    requires i < |s|
    ensures SumOf(s[..i + 1]) == SumOf(s[..i]) + s[i]
    ensures s[..i + 1][..i] == s[..i] && s[..i + 1][i] == s[i]
  {
    assert s[..i + 1][..i] == s[..i];
  }

  lemma {:induction false} SumRest(s: seq<int>, i: nat)
    requires ChunkSizes(s) && i <= |s|
    ensures SumOf(s[..i]) + MIN_CHUNK_SIZE * (|s| - i) <= SumOf(s) && 0 <= SumOf(s[..i])
    ensures SumOf(s[..i]) % 16 == 0
    decreases |s|
  {
    if i == |s| {
      assert s[..i] == s;
      if s != [] {
        var t := s[..|s| - 1];
        SumRest(t, |t|);
        assert t[..|t|] == t;
      }
    } else {
      var t := s[..|s| - 1];
      SumRest(t, i);
      assert t[..i] == s[..i];
    }
  }

  lemma LaidNext(u: map<int, int>, p: int, s: seq<int>, i: nat)
    requires i < |s|
    ensures LaidOut(u, p, s[..i + 1]) == LaidOut(u, p, s[..i])[p + SumOf(s[..i]) := s[i]]
  {
    TakeNext(s, i);
  }

  /** What a split makes of the map of chunks. */
  lemma SplitOnce(l: map<int, int>, q: int, rem: int, size: int)
    requires q !in l && q + size !in l[q := rem]
    ensures l[q := rem][q := size][q + size := rem - size] == l[q := size][q + size := rem - size]
    ensures q + size !in l[q := size]
  {
  }

  /** Splits the chunk `p`, which is in use, into two in use. */
  method SplitLive(s: MallocState, p: int, nb: int)
    requires s.Valid() && p in s.Live() && nb % 16 == 0 && MIN_CHUNK_SIZE <= nb && nb + MIN_CHUNK_SIZE <= s.Live()[p]
    modifies s`mem, s`heap
    ensures s.Valid() && p in old(s.Live()) && p + nb !in old(s.Live())
    ensures s.Live() == old(s.Live())[p := nb][p + nb := old(s.Live())[p] - nb]
    ensures DataKept(old(s.mem), s.mem, old(s.Live()) - {p})
    ensures forall a :: a != p + HEAD && a != p + nb + HEAD && a != p + old(s.Live())[p] + HEAD ==>
              Rd(s.mem, a) == Rd(old(s.mem), a)
  {
    hide BinsOk, Settled, DataKept, Used, Piece, Min, Laid, Segmented, HeadsOk;
    ghost var u, m := s.Live(), s.mem;
    UsedLive(s.heap, s.ends, p);
    H.ChunkFacts(s.mem, s.heap, s.top, s.topsize, s.dv, s.dvsize, s.ends, s.segs, s.binned, s.Floor(), {}, p);
    SettledPiece(s, p);
    var size := ChunkSize(s.mem, p);
    s.SplitInUse(p, nb, size, false, {});
    H.MinIs(u[p], nb);
    DataShorter(m, s.mem, u[p := Min(u[p], nb)], u - {p});
  }

  lemma SettledPiece(s: MallocState, p: int)
    requires s.Valid() && p in s.heap && s.heap[p].used && p !in s.ends
    ensures Piece(s.heap, s.top, s.ends, s.segs, {}, p, p + s.heap[p].size, {p})
  {
    hide BinsOk, Piece, Laid, Segmented, HeadsOk;
    ChunkPiece(s.heap, s.top, s.Floor(), s.ends, s.segs, p);
  }

  // ---------------------------------------------------------------- clearing

  /** The payload of the chunk `q` of `s` bytes is all zero. */
  ghost predicate Zero(m: Mem, q: int, s: int) {
    forall a :: q + FD <= a < q + s + CHUNK_OVERHEAD && (a - q) % 8 == 0 ==> Rd(m, a) == 0
  }

  /** `memset` to zero of the first `len` bytes of a block. */
  method Clear(s: MallocState, p: int, len: int)
    requires s.Valid() && p in s.Live() && 0 <= len && len % 8 == 0 && len + CHUNK_OVERHEAD <= s.Live()[p]
    modifies s`mem
    ensures s.Valid() && s.Live() == old(s.Live()) && DataKept(old(s.mem), s.mem, s.Live() - {p})
    ensures Zero(s.mem, p, len + CHUNK_OVERHEAD)
  {
    hide MallocState.Valid, Used, DataKept;
    var k := 0;
    ghost var n := len / 8;
    DataSame(s.mem, s.Live() - {p});
    while 8 * k < len
      invariant 0 <= k <= n && s.Valid() && s.Live() == old(s.Live()) && DataKept(old(s.mem), s.mem, s.Live() - {p})
      invariant forall j :: 0 <= j < k ==> Rd(s.mem, p + MEM_OFFSET + 8 * j) == 0
    {
      ghost var m := s.mem;
      s.Store(p + MEM_OFFSET + 8 * k, 0, p);
      DataKeptTrans(old(s.mem), m, s.mem, s.Live() - {p}, s.Live() - {p});
      k := k + 1;
    }
    forall a | p + FD <= a < p + len + CHUNK_OVERHEAD + CHUNK_OVERHEAD && (a - p) % 8 == 0
      ensures Rd(s.mem, a) == 0
    {
      var j := (a - p - MEM_OFFSET) / 8;
      assert 8 * j == a - p - MEM_OFFSET && 0 <= j < k;
    }
  }

  // ---------------------------------------------------------------- splitting out the elements

  /** The sizes that come out: the last element takes what is over. */
  function Parts(want: seq<int>, total: int): seq<int>
    requires want != []
  {
    want[..|want| - 1] + [total - SumOf(want[..|want| - 1])]
  }

  /** Where the pointers go: into the array of the caller, or into a chunk at the end. */
  predicate Room(chunks: array?<int>, marray: int, n: nat, v: map<int, int>) {
    if chunks != null then n <= chunks.Length
    else marray - MEM_OFFSET in v && 8 * n + CHUNK_OVERHEAD <= v[marray - MEM_OFFSET]
  }

  /** The first `i` pointers have been stored. */
  ghost predicate Pointers(m: Mem, chunks: array?<int>, marray: int, p: int, want: seq<int>, i: nat)
    reads chunks
  {
    i <= |want|
    && if chunks != null then i <= chunks.Length && forall j :: 0 <= j < i ==>
          chunks[j] == p + SumOf(want[..j]) + MEM_OFFSET
       else forall j :: 0 <= j < i ==> Rd(m, marray + 8 * j) == p + SumOf(want[..j]) + MEM_OFFSET
  }

  ghost function Others(v: map<int, int>, chunks: array?<int>, marray: int): map<int, int> {
    if chunks != null then v else v - {marray - MEM_OFFSET}
  }

  /** On the way: the first `i` elements are laid out, and the chunk `q` of `rem` bytes remains. */
  ghost predicate Carving(live: map<int, int>, v: map<int, int>, p: int, want: seq<int>, total: int, i: nat, q: int,
                          rem: int) {
    && i < |want| && q == p + SumOf(want[..i]) && rem == total - SumOf(want[..i])
    && q !in LaidOut(v, p, want[..i]) && live == LaidOut(v, p, want[..i])[q := rem]
    && q !in v && forall x :: x in v ==> x in live && live[x] == v[x]
  }

  lemma CarvingStart(live: map<int, int>, v: map<int, int>, p: int, want: seq<int>, total: int)
    requires want != [] && p !in v && live == v[p := total]
    ensures Carving(live, v, p, want, total, 0, p, total)
  {
    assert want[..0] == [];
  }

  lemma CarvingNext(live: map<int, int>, next: map<int, int>, v: map<int, int>, p: int, want: seq<int>, total: int,
                    i: nat,
                    q: int, rem: int)
    requires Carving(live, v, p, want, total, i, q, rem) && i + 1 < |want|
    requires q + want[i] !in live && next == live[q := want[i]][q + want[i] := rem - want[i]]
    ensures Carving(next, v, p, want, total, i + 1, q + want[i], rem - want[i])
  {
    hide LaidOut, SumOf;
    TakeNext(want, i);
    LaidNext(v, p, want, i);
    SplitOnce(LaidOut(v, p, want[..i]), q, rem, want[i]);
  }

  lemma CarvingEnd(live: map<int, int>, v: map<int, int>, p: int, want: seq<int>, total: int, q: int, rem: int)
    requires want != [] && Carving(live, v, p, want, total, |want| - 1, q, rem)
    ensures live == LaidOut(v, p, Parts(want, total))
  {
    var n := |want| - 1;
    var s := Parts(want, total);
    assert s[..n] == want[..n] && s[n] == rem;
  }

  lemma CarvingSizes(live: map<int, int>, v: map<int, int>, p: int, want: seq<int>, total: int, i: nat, q: int,
                     rem: int)
    requires Carving(live, v, p, want, total, i, q, rem) && ChunkSizes(want) && SumOf(want) <= total && i + 1 < |want|
    ensures q in live && live[q] == rem && want[i] + MIN_CHUNK_SIZE <= rem
  {
    SumRest(want, i);
    SumRest(want, i + 1);
    TakeNext(want, i);
  }

  /** Stores the pointer to element `i`. */
  method StorePointer(s: MallocState, chunks: array?<int>, marray: int, i: nat, r: int, ghost v: map<int, int>,
                      ghost p: int, ghost want: seq<int>)
    requires s.Valid() && i < |want| && r == p + SumOf(want[..i]) + MEM_OFFSET && Room(chunks, marray, |want|, v)
    requires Pointers(s.mem, chunks, marray, p, want, i) && forall x :: x in v ==> x in s.Live() && s.Live()[x] == v[x]
    modifies s`mem, chunks
    ensures s.Valid() && s.Live() == old(s.Live()) && Pointers(s.mem, chunks, marray, p, want, i + 1)
    ensures DataKept(old(s.mem), s.mem, Others(v, chunks, marray))
    ensures forall a :: chunks != null || a < marray ==> Rd(s.mem, a) == Rd(old(s.mem), a)
  {
    hide BinsOk, Settled, DataKept, Used, SumOf;
    if chunks != null {
      chunks[i] := r;
      DataSame(s.mem, v);
    } else {
      s.Store(marray + 8 * i, r, marray - MEM_OFFSET);
      DataShorter(old(s.mem), s.mem, s.Live() - {marray - MEM_OFFSET}, Others(v, chunks, marray));
    }
  }

  lemma PointersKept(m: Mem, n: Mem, chunks: array?<int>, marray: int, p: int, want: seq<int>, i: nat, v: map<int, int>,
                     kept: map<int, int>)
    requires Pointers(m, chunks, marray, p, want, i) && DataKept(m, n, kept) && Room(chunks, marray, |want|, v)
    requires forall x :: x in v ==> x in kept && kept[x] == v[x]
    ensures Pointers(n, chunks, marray, p, want, i)
  {
    hide SumOf;
    if chunks == null {
      forall j | 0 <= j < i ensures Rd(n, marray + 8 * j) == Rd(m, marray + 8 * j) {
        var a := marray - MEM_OFFSET;
        assert a in kept && a + FD <= marray + 8 * j < a + kept[a] + CHUNK_OVERHEAD;
      }
    }
  }

  /** The payloads of the first `i` elements, and of the chunk `q` that remains, are all zero. */
  ghost predicate AllZero(m: Mem, p: int, want: seq<int>, i: nat, q: int, rem: int)
    requires i <= |want|
  {
    Zero(m, q, rem) && forall j :: 0 <= j < i ==> Zero(m, p + SumOf(want[..j]), want[j])
  }

  lemma {:induction false} SumUpTo(s: seq<int>, j: nat, i: nat)
    requires ChunkSizes(s) && j < i <= |s|
    ensures SumOf(s[..j]) + s[j] <= SumOf(s[..i]) && SumOf(s[..j]) % 16 == 0 && 0 <= SumOf(s[..j])
    decreases i
  {
    SumRest(s, j);
    TakeNext(s, i - 1);
    if j < i - 1 {
      SumUpTo(s, j, i - 1);
    }
  }

  /** Stores that leave alone what has been laid out, but for the head of what remains. */
  lemma AllZeroKept(m: Mem, n: Mem, p: int, want: seq<int>, i: nat, q: int, rem: int)
    requires i <= |want| && ChunkSizes(want) && q == p + SumOf(want[..i]) && AllZero(m, p, want, i, q, rem)
    requires forall a :: p + FD <= a < q + rem + CHUNK_OVERHEAD && a != q + HEAD ==> Rd(n, a) == Rd(m, a)
    requires 0 <= rem
    ensures AllZero(n, p, want, i, q, rem)
  {
    hide SumOf, ChunkSizes;
    SumStarts(want, i);
    forall j | 0 <= j < i
      ensures Zero(n, p + SumOf(want[..j]), want[j])
    {
      SumUpTo(want, j, i);
      assert Zero(m, p + SumOf(want[..j]), want[j]);
    }
  }

  lemma SumStarts(s: seq<int>, i: nat)
    requires ChunkSizes(s) && i <= |s|
    ensures 0 <= SumOf(s[..i])
  {
    SumRest(s, i);
  }

  /** One more element has been split off. */
  lemma AllZeroNext(m: Mem, n: Mem, p: int, want: seq<int>, i: nat, q: int, rem: int)
    requires i < |want| && ChunkSizes(want) && q == p + SumOf(want[..i]) && AllZero(m, p, want, i, q, rem)
    requires want[i] <= rem
    requires forall a :: a != q + HEAD && a != q + want[i] + HEAD && a != q + rem + HEAD ==> Rd(n, a) == Rd(m, a)
    ensures AllZero(n, p, want, i + 1, q + want[i], rem - want[i])
  {
    hide SumOf;
    assert want[i] % 16 == 0;
    forall j | 0 <= j < i + 1
      ensures Zero(n, p + SumOf(want[..j]), want[j])
    {
      if j < i {
        SumUpTo(want, j, i);
        assert Zero(m, p + SumOf(want[..j]), want[j]);
      }
    }
  }

  /** In the end, every element is zero. */
  lemma AllZeroEnd(m: Mem, p: int, want: seq<int>, total: int, q: int, rem: int)
    requires want != [] && AllZero(m, p, want, |want| - 1, q, rem)
    requires q == p + SumOf(want[..|want| - 1]) && rem == total - SumOf(want[..|want| - 1])
    ensures EachZero(m, p, want, total)
  {
    hide SumOf, Zero;
    var parts := Parts(want, total);
    forall j | 0 <= j < |want|
      ensures Zero(m, p + SumOf(want[..j]), parts[j])
    {
      assert j < |want| - 1 ==> parts[j] == want[j];
    }
  }

  /** The elements have been cleared. */
  ghost predicate EachZero(m: Mem, p: int, want: seq<int>, total: int)
    requires want != []
  {
    forall j :: 0 <= j < |want| ==> Zero(m, p + SumOf(want[..j]), Parts(want, total)[j])
  }

  /** The loop of `ialloc`: stores a pointer to each element and splits it off; the last takes what is over. Each split
      writes the head of what remains, which the program leaves to the next. */
  method SplitOut(s: MallocState, p: int, want: seq<int>, chunks: array?<int>, marray: int, ghost total: int,
                  ghost v: map<int, int>, ghost clear: bool)
    requires s.Valid() && want != [] && ChunkSizes(want) && SumOf(want) <= total && p !in v && s.Live() == v[p := total]
    requires Room(chunks, marray, |want|, v) && (chunks == null ==> p + total + MEM_OFFSET <= marray)
    requires clear ==> Zero(s.mem, p, total)
    modifies s`mem, s`heap, chunks
    ensures clear ==> EachZero(s.mem, p, want, total)
    ensures s.Valid() && s.Live() == LaidOut(v, p, Parts(want, total))
    ensures Pointers(s.mem, chunks, marray, p, want, |want|)
    ensures DataKept(old(s.mem), s.mem, Others(v, chunks, marray))
  {
    hide BinsOk, Settled, DataKept, Used, SumOf, Carving, Pointers, LaidOut, MallocState.Valid, MallocState.Live,
      Room, Others, ChunkSizes, AllZero, Zero, EachZero;
    var i, q := 0, p;
    ghost var rem, kept := total, Others(v, chunks, marray);
    CarvingStart(s.Live(), v, p, want, total);
    NoPointers(s.mem, chunks, marray, p, want, v);
    DataSame(s.mem, kept);
    ZeroFirst(s.mem, p, want, total, clear);
    while true
      invariant i < |want| && s.Valid() && Carving(s.Live(), v, p, want, total, i, q, rem)
      invariant clear ==> AllZero(s.mem, p, want, i, q, rem)
      invariant Pointers(s.mem, chunks, marray, p, want, i) && DataKept(old(s.mem), s.mem, kept)
      decreases |want| - i
    {
      ghost var m, live := s.mem, s.Live();
      CarvingIs(live, v, p, want, total, i, q, rem);
      StorePointer(s, chunks, marray, i, q + MEM_OFFSET, v, p, want);
      DataKeptTrans(old(s.mem), m, s.mem, kept, kept);
      RestIs(live, v, p, want, total, i, q, rem);
      if clear {
        AllZeroKept(m, s.mem, p, want, i, q, rem);
      }
      if i == |want| - 1 {
        break;
      }
      ghost var m1 := s.mem;
      CarvingSizes(live, v, p, want, total, i, q, rem);
      SizeAt(want, i);
      SplitLive(s, q, want[i]);
      OthersLess(v, live, q, chunks, marray);
      PointersKept(m1, s.mem, chunks, marray, p, want, i + 1, v, live - {q});
      DataShorter(m1, s.mem, live - {q}, kept);
      DataKeptTrans(old(s.mem), m1, s.mem, kept, kept);
      CarvingNext(live, s.Live(), v, p, want, total, i, q, rem);
      if clear {
        AllZeroNext(m1, s.mem, p, want, i, q, rem);
      }
      rem := rem - want[i];
      q := q + want[i];
      i := i + 1;
    }
    CarvingEnd(s.Live(), v, p, want, total, q, rem);
    if clear {
      AllZeroEnd(s.mem, p, want, total, q, rem);
    }
  }

  lemma ZeroFirst(m: Mem, p: int, want: seq<int>, total: int, clear: bool)
    requires clear ==> Zero(m, p, total)
    ensures clear ==> AllZero(m, p, want, 0, p, total)
  {
  }

  /** How much remains, and where it ends. */
  lemma RestIs(live: map<int, int>, v: map<int, int>, p: int, want: seq<int>, total: int, i: nat, q: int, rem: int)
    requires Carving(live, v, p, want, total, i, q, rem) && ChunkSizes(want) && SumOf(want) <= total && i < |want|
    ensures 0 <= rem == total - SumOf(want[..i]) && q + rem == p + total && q in live && live[q] == rem
  {
    SumRest(want, i);
  }

  lemma NoPointers(m: Mem, chunks: array?<int>, marray: int, p: int, want: seq<int>, v: map<int, int>)
    requires Room(chunks, marray, |want|, v)
    ensures Pointers(m, chunks, marray, p, want, 0)
  {
  }

  lemma CarvingIs(live: map<int, int>, v: map<int, int>, p: int, want: seq<int>, total: int, i: nat, q: int, rem: int)
    requires Carving(live, v, p, want, total, i, q, rem)
    ensures q == p + SumOf(want[..i]) && q !in v && forall x :: x in v ==> x in live && live[x] == v[x]
  {
  }

  lemma SizeAt(s: seq<int>, i: nat)
    requires ChunkSizes(s) && i < |s|
    ensures s[i] % 16 == 0 && MIN_CHUNK_SIZE <= s[i]
  {
  }

  lemma OthersLess(v: map<int, int>, live: map<int, int>, q: int, chunks: array?<int>, marray: int)
    requires q !in v && forall x :: x in v ==> x in live && live[x] == v[x]
    ensures forall x :: x in v ==> x in live - {q} && (live - {q})[x] == v[x]
    ensures forall x :: x in Others(v, chunks, marray) ==>
              x in live - {q} && Others(v, chunks, marray)[x] <= (live - {q})[x]
  {
  }

  /** What the client asks for: element `i` of `n`, all of the first size or each of its own. */
  function RequestOf(sizes: seq<int>, same: bool, i: nat): int
    requires sizes != [] && (same || i < |sizes|)
  {
    Request2Size(if same then sizes[0] else sizes[i])
  }

  predicate Asked(sizes: seq<int>, same: bool, n: nat) {
    (n > 0 ==> sizes != []) && (same || n == |sizes|) && forall i :: 0 <= i < |sizes| ==> 0 <= sizes[i] < MAX_REQUEST
  }

  /** The padded sizes of the first `n` elements. */
  function WantOf(sizes: seq<int>, same: bool, n: nat): (w: seq<int>)
    requires (n > 0 ==> sizes != []) && (same || n <= |sizes|)
    ensures |w| == n
  {
    if n == 0 then [] else WantOf(sizes, same, n - 1) + [RequestOf(sizes, same, n - 1)]
  }

  /** The padded sizes, and their total. */
  method Contents(sizes: seq<int>, same: bool, n: nat) returns (want: seq<int>, total: int)
    requires Asked(sizes, same, n) && 0 < n
    ensures want == WantOf(sizes, same, n) && ChunkSizes(want) && total == SumOf(want)
  {
    hide SumOf;
    want, total := [], 0;
    NoSum();
    while |want| < n
      invariant |want| <= n && ChunkSizes(want) && total == SumOf(want)
      invariant want == WantOf(sizes, same, |want|)
    {
      var size := RequestOf(sizes, same, |want|);
      RequestFits(if same then sizes[0] else sizes[|want|]);
      SumPush(want, size);
      want, total := want + [size], total + size;
    }
  }

  lemma NoSum()
    ensures SumOf([]) == 0
  {
  }

  lemma SumPush(s: seq<int>, x: int)
    ensures SumOf(s + [x]) == SumOf(s) + x
  {
    assert (s + [x])[..|s|] == s;
  }

  /** The size of the aggregate chunk is what the padded request comes to. */
  lemma AggregateFits(size: int)
    requires size % 16 == 0 && MIN_CHUNK_SIZE <= size && size - CHUNK_OVERHEAD < MAX_REQUEST
    ensures NeedOf(size - CHUNK_OVERHEAD) == size
  {
  }

  /** The part of `ialloc` that splits the array of pointers off the chunk `q`, unless the caller has one. */
  method SplitArray(s: MallocState, q: int, contents: int, n: nat, chunks: array?<int>, ghost u: map<int, int>,
                    ghost m: Mem, ghost clear: bool)
    returns (marray: int, ghost total: int, ghost v: map<int, int>)
    requires s.Valid() && q !in u && q in s.Live() && s.Live() == u[q := s.Live()[q]] && DataKept(m, s.mem, u)
    requires MIN_CHUNK_SIZE <= contents <= s.Live()[q] && contents % 16 == 0 && (chunks != null ==> n <= chunks.Length)
    requires chunks == null ==>
               contents + MIN_CHUNK_SIZE <= s.Live()[q] && contents + 8 * n + CHUNK_OVERHEAD <= s.Live()[q]
    requires clear ==> Zero(s.mem, q, if chunks != null then s.Live()[q] else contents)
    modifies s`mem, s`heap
    ensures clear ==> Zero(s.mem, q, total)
    ensures s.Valid() && q !in v && s.Live() == v[q := total] && DataKept(m, s.mem, u) && Room(chunks, marray, n, v)
    ensures chunks != null ==> v == u && q in old(s.Live()) && total == old(s.Live())[q]
    ensures chunks == null ==>
              && total == contents && marray == q + contents + MEM_OFFSET && q + contents !in u
              && q + contents in v && v == u[q + contents := v[q + contents]]
              && 8 * n + CHUNK_OVERHEAD <= v[q + contents]
  {
    hide DataKept, MallocState.Valid, MallocState.Live, Room;
    ghost var live, m1 := s.Live(), s.mem;
    marray, total, v := 0, live[q], u;
    if chunks == null {
      marray, total := q + contents + MEM_OFFSET, contents;
      SplitLive(s, q, contents);
      v := u[q + contents := live[q] - contents];
      ArrayApart(u, live, s.Live(), v, q, contents);
      DataShorter(m1, s.mem, live - {q}, u);
      DataKeptTrans(m, m1, s.mem, u, u);
      RoomInChunk(chunks, marray, n, v);
    } else {
      RoomInArray(chunks, marray, n, v);
    }
  }

  /** What is asked of `malloc` for `n` elements, and for the array of pointers if there is none. */
  function AggregateSize(sizes: seq<int>, same: bool, n: nat, own: bool): int
    requires Asked(sizes, same, n) && 0 < n
  {
    SumOf(WantOf(sizes, same, n)) + if own then 0 else Request2Size(8 * n)
  }

  /** The part of `ialloc` that clears the elements. */
  method ClearElements(s: MallocState, q: int, arraySize: int, ghost contents: int, clear: bool, ghost u: map<int, int>,
                       ghost m: Mem)
    requires s.Valid() && q !in u && q in s.Live() && s.Live() == u[q := s.Live()[q]] && DataKept(m, s.mem, u)
    requires 0 <= arraySize && arraySize % 16 == 0 && MIN_CHUNK_SIZE <= contents && contents + arraySize <= s.Live()[q]
    modifies s`mem
    ensures s.Valid() && s.Live() == old(s.Live()) && DataKept(m, s.mem, u)
    ensures clear ==> q in s.Live() && Zero(s.mem, q, if arraySize == 0 then s.Live()[q] else contents)
  {
    hide DataKept, MallocState.Valid, MallocState.Live, Zero, ChunkSize;
    if clear {
      SizeIs(s, q);
      ghost var m1 := s.mem;
      Clear(s, q, ChunkSize(s.mem, q) - CHUNK_OVERHEAD - arraySize);
      ZeroFewer(s.mem, q, s.Live()[q] - arraySize, if arraySize == 0 then s.Live()[q] else contents);
      DataShorter(m1, s.mem, s.Live() - {q}, u);
      DataKeptTrans(m, m1, s.mem, u, u);
    } else {
      DataSame(s.mem, u);
      DataKeptTrans(m, s.mem, s.mem, u, u);
    }
  }

  /** `ialloc` for at least one element; the pointers go into `chunks` or into a chunk of their own.  Either nothing
      changes but that the request fails, which it does exactly if no chunk for the aggregate can be had, or the chunks
      `want[i]` lie side by side from `p`, the last with what is over where the pointers lie elsewhere, and the array
      chunk behind them where they do not. */
  method SomeElements(s: MallocState, sizes: seq<int>, same: bool, clear: bool, n: nat, chunks: array?<int>,
                      env: Morecore)
    returns (ok: bool, marray: int, ghost want: seq<int>, ghost p: int, ghost total: int, ghost v: map<int, int>)
    requires s.Valid() && 0 < n && Asked(sizes, same, n) && (chunks != null ==> chunks.Length == n)
    requires var size := AggregateSize(sizes, same, n, chunks != null);
             8 * n < MAX_REQUEST && size - CHUNK_OVERHEAD < MAX_REQUEST && Honest(env, s.segs, s.top, s.topsize, size)
    modifies s, chunks
    ensures s.Valid() && want == WantOf(sizes, same, n)
    ensures ok <==> CanServe(old(s.State()), AggregateSize(sizes, same, n, chunks != null), env)
    ensures var size := AggregateSize(sizes, same, n, chunks != null);
            if ok then Placed(old(s.State()), size, env, p, s.State()) else Refused(old(s.State()), size, s.State())
    ensures !ok ==> s.Live() == old(s.Live()) && DataKept(old(s.mem), s.mem, s.Live())
    ensures ok ==> s.Live() == LaidOut(v, p, Parts(want, total)) && p !in v
                   && DataKept(old(s.mem), s.mem, old(s.Live()))
    ensures ok ==> Pointers(s.mem, chunks, marray, p, want, n)
    ensures ok && clear ==> EachZero(s.mem, p, want, total)
    ensures ok && chunks != null ==> v == old(s.Live()) && SumOf(want) <= total < SumOf(want) + MIN_CHUNK_SIZE
    ensures ok && chunks == null ==>
              && total == SumOf(want) && marray == p + total + MEM_OFFSET && p + total !in old(s.Live())
              && p + total in v && v == old(s.Live())[p + total := v[p + total]]
                  && 8 * n + CHUNK_OVERHEAD <= v[p + total]
    ensures s.footprintLimit == old(s.footprintLimit)
  {
    hide BinsOk, Settled, DataKept, Used, SumOf, Pointers, LaidOut, MallocState.Valid, MallocState.Live, Room, Served,
      Honest, ChunkSizes, Request2Size, Others, CanServe, Zero, EachZero, ChunkSize,
      Placed, Refused, BinsServe, MallocState.FirstOfSize;
    ghost var u, m := s.Live(), s.mem;
    var arraySize := if chunks != null then 0 else Request2Size(8 * n);
    var contents;
    var sizesOf;
    sizesOf, contents := Contents(sizes, same, n);
    want := sizesOf;
    ContentsFacts(want, contents);
    if chunks == null {
      RequestFits(8 * n);
    }
    AggregateFits(contents + arraySize);
    var mem := s.Malloc(contents + arraySize - CHUNK_OVERHEAD, env);
    ok, marray, p, total, v := false, 0, 0, 0, u;
    if mem == 0 {
      return;
    }
    var q := mem - MEM_OFFSET;
    ServedIs(u, s.Live(), q, contents + arraySize);
    ok, p := true, q;
    ClearElements(s, q, arraySize, contents, clear, u, m);
    marray, total, v := SplitArray(s, q, contents, n, chunks, u, m, clear);
    ghost var m2 := s.mem;
    SplitOut(s, q, sizesOf, chunks, marray, total, v, clear);
    OldKept(u, v, chunks, marray);
    DataShorter(m2, s.mem, Others(v, chunks, marray), u);
    DataKeptTrans(m, m2, s.mem, u, u);
  }

  /** `ialloc`: as above, and where no elements are asked for, nothing happens if there is an array, and else a chunk
      of the least size is the empty array. */
  method Ialloc(s: MallocState, sizes: seq<int>, same: bool, clear: bool, n: nat, chunks: array?<int>, env: Morecore)
    returns (ok: bool, marray: int, ghost want: seq<int>, ghost p: int, ghost total: int, ghost v: map<int, int>)
    requires s.Valid() && Asked(sizes, same, n) && (chunks != null ==> chunks.Length == n)
    requires n > 0 ==>
               var size := AggregateSize(sizes, same, n, chunks != null);
               && 8 * n < MAX_REQUEST && size - CHUNK_OVERHEAD < MAX_REQUEST
               && Honest(env, s.segs, s.top, s.topsize, size)
    requires n == 0 && chunks == null ==> Honest(env, s.segs, s.top, s.topsize, NeedOf(0))
    modifies s, chunks
    ensures s.Valid() && s.footprintLimit == old(s.footprintLimit)
    ensures !ok ==> s.Live() == old(s.Live()) && DataKept(old(s.mem), s.mem, s.Live())
    ensures ok ==> DataKept(old(s.mem), s.mem, old(s.Live()))
    ensures n == 0 && chunks != null ==> ok && s.State() == old(s.State()) && s.Live() == old(s.Live())
    ensures n == 0 && chunks == null ==> (ok <==> CanServe(old(s.State()), NeedOf(0), env))
    ensures n == 0 && chunks == null && ok ==> Served(old(s.Live()), s.Live(), marray - MEM_OFFSET, NeedOf(0))
    ensures n == 0 && chunks == null ==>
              if ok then Placed(old(s.State()), NeedOf(0), env, marray - MEM_OFFSET, s.State())
              else Refused(old(s.State()), NeedOf(0), s.State())
    ensures n > 0 ==>
              var size := AggregateSize(sizes, same, n, chunks != null);
              && (ok <==> CanServe(old(s.State()), size, env))
              && if ok then Placed(old(s.State()), size, env, p, s.State())
                 else Refused(old(s.State()), size, s.State())
    ensures n > 0 && ok ==>
              && want == WantOf(sizes, same, n) && s.Live() == LaidOut(v, p, Parts(want, total)) && p !in v
              && Pointers(s.mem, chunks, marray, p, want, n) && (clear ==> EachZero(s.mem, p, want, total))
    ensures n > 0 && ok && chunks != null ==>
              v == old(s.Live()) && SumOf(want) <= total < SumOf(want) + MIN_CHUNK_SIZE
    ensures n > 0 && ok && chunks == null ==>
              && total == SumOf(want) && marray == p + total + MEM_OFFSET && p + total !in old(s.Live())
              && p + total in v && v == old(s.Live())[p + total := v[p + total]]
              && 8 * n + CHUNK_OVERHEAD <= v[p + total]
  {
    hide BinsOk, Settled, DataKept, Used, SumOf, Pointers, LaidOut, MallocState.Valid, MallocState.Live, Served, Honest,
      Request2Size, CanServe, EachZero, AggregateSize, WantOf, Placed, Refused, BinsServe, MallocState.FirstOfSize;
    ok, marray, want, p, total, v := true, 0, [], 0, 0, map[];
    if n > 0 {
      ok, marray, want, p, total, v := SomeElements(s, sizes, same, clear, n, chunks, env);
    } else if chunks == null {
      marray := s.Malloc(0, env);
      ok := marray != 0;
    } else {
      DataSame(s.mem, s.Live());
    }
  }

  lemma SizeIs(s: MallocState, p: int)
    requires s.Valid() && p in s.Live()
    ensures ChunkSize(s.mem, p) == s.Live()[p] && s.Live()[p] % 16 == 0
  {
    hide BinsOk, Settled, Used, ChunkSize, Laid, Segmented, HeadsOk;
    UsedLive(s.heap, s.ends, p);
    H.ChunkFacts(s.mem, s.heap, s.top, s.topsize, s.dv, s.dvsize, s.ends, s.segs, s.binned, s.Floor(), {}, p);
    UsedSize(s.heap, s.ends, p);
  }

  lemma ZeroFewer(m: Mem, q: int, s: int, s': int)
    requires Zero(m, q, s) && s' <= s
    ensures Zero(m, q, s')
  {
  }

  lemma ContentsFacts(want: seq<int>, total: int)
    requires ChunkSizes(want) && total == SumOf(want) && want != []
    ensures MIN_CHUNK_SIZE <= total && total % 16 == 0
  {
    SumRest(want, 0);
    SumRest(want, |want|);
    assert want[..|want|] == want;
  }

  lemma ServedIs(u: map<int, int>, live: map<int, int>, p: int, nb: int)
    requires Served(u, live, p, nb)
    ensures p !in u && p in live && live == u[p := live[p]] && nb <= live[p] < nb + MIN_CHUNK_SIZE
  {
  }

  lemma ArrayApart(u: map<int, int>, live: map<int, int>, next: map<int, int>, v: map<int, int>, p: int, contents: int)
    requires p !in u && p in live && live == u[p := live[p]] && p + contents !in live && 0 < contents
    requires next == live[p := contents][p + contents := live[p] - contents]
    requires v == u[p + contents := live[p] - contents]
    ensures p !in v && next == v[p := contents] && p + contents !in u
    ensures forall x :: x in u ==> x in live - {p} && u[x] <= (live - {p})[x]
  {
  }

  lemma RoomInChunk(chunks: array?<int>, marray: int, n: nat, v: map<int, int>)
    requires chunks == null && marray - MEM_OFFSET in v && 8 * n + CHUNK_OVERHEAD <= v[marray - MEM_OFFSET]
    ensures Room(chunks, marray, n, v)
  {
  }

  lemma RoomInArray(chunks: array?<int>, marray: int, n: nat, v: map<int, int>)
    requires chunks != null && n <= chunks.Length
    ensures Room(chunks, marray, n, v)
  {
  }

  lemma OldKept(u: map<int, int>, v: map<int, int>, chunks: array?<int>, marray: int)
    requires chunks != null ==> v == u
    requires chunks == null ==>
               var a := marray - MEM_OFFSET;
               a !in u && a in v && v == u[a := v[a]]
    ensures forall x :: x in u ==> x in Others(v, chunks, marray) && u[x] <= Others(v, chunks, marray)[x]
  {
  }
}
