/** The buddy splitter: levels of chunk items whose halves are split, used or free. Addresses are offsets into the
    heap. */
module Buddy {
  import opened Common

  const MIN_CHUNK_SIZE := 4096
  const NULL := -1

  const A_USED: bv8 := 1
  const B_USED: bv8 := 2
  const A_SPLIT: bv8 := 4
  const B_SPLIT: bv8 := 8

  /** `chunk_item_t`; the items of a level are in the order of their list. */
  datatype Chunk = Chunk(a: int, b: int, flags: bv8)

  function HasFlag(flags: bv8, flag: bv8): bool { flags & flag != 0 }

  function SetFlag(c: Chunk, flag: bv8): Chunk { c.(flags := c.flags | flag) }

  function ClearFlag(c: Chunk, flag: bv8): Chunk { c.(flags := c.flags & !flag) }

  predicate AFree(c: Chunk) { c.a != NULL && !HasFlag(c.flags, A_USED) && !HasFlag(c.flags, A_SPLIT) }

  predicate BFree(c: Chunk) { c.b != NULL && !HasFlag(c.flags, B_USED) && !HasFlag(c.flags, B_SPLIT) }

  predicate HasFree(l: seq<Chunk>) { exists i :: 0 <= i < |l| && (AFree(l[i]) || BFree(l[i])) }

  /** The first item with a free half, or the number of items. */
  function FirstFree(l: seq<Chunk>): nat {
    if l == [] || AFree(l[0]) || BFree(l[0]) then 0 else 1 + FirstFree(l[1..])
  }

  lemma {:induction false} FirstFreeIs(l: seq<Chunk>, i: nat)
    requires i <= |l| && forall x :: 0 <= x < i ==> !AFree(l[x]) && !BFree(l[x])
    requires i < |l| ==> AFree(l[i]) || BFree(l[i])
    ensures FirstFree(l) == i && (i < |l| <==> HasFree(l))
  {
    if i > 0 {
      FirstFreeIs(l[1..], i - 1);
    }
  }

  lemma {:induction false} FirstFreeOf(l: seq<Chunk>)
    ensures FirstFree(l) <= |l| && (FirstFree(l) < |l| <==> HasFree(l))
    ensures FirstFree(l) < |l| ==> AFree(l[FirstFree(l)]) || BFree(l[FirstFree(l)])
  {
    if l != [] && !AFree(l[0]) && !BFree(l[0]) {
      FirstFreeOf(l[1..]);
      if HasFree(l) {
        var i :| 0 <= i < |l| && (AFree(l[i]) || BFree(l[i]));
        assert l[i] == l[1..][i - 1];
      }
    }
  }

  /** Of the levels before level `n`, the one with the smallest chunks that has a free half; -1 if none has. */
  function SmallestFree(levels: seq<seq<Chunk>>, n: nat): int {
    if n == 0 then -1
    else if n <= |levels| && HasFree(levels[n - 1]) then n - 1
    else SmallestFree(levels, n - 1)
  }

  lemma {:induction false} SmallestFreeIs(levels: seq<seq<Chunk>>, n: nat, k: int)
    requires -1 <= k < n && k < |levels| && (k >= 0 ==> HasFree(levels[k]))
    requires forall j :: k < j < n && j < |levels| ==> !HasFree(levels[j])
    ensures SmallestFree(levels, n) == k
  {
    hide HasFree;
    if k < n - 1 {
      SmallestFreeIs(levels, n - 1, k);
    }
  }

  lemma FlagSet(x: bv8, f: bv8, g: bv8)
    requires f in {A_USED, B_USED, A_SPLIT, B_SPLIT} && g in {A_USED, B_USED, A_SPLIT, B_SPLIT}
    ensures HasFlag(x | f, g) == (f == g || HasFlag(x, g))
    ensures HasFlag(x & !f, g) == (f != g && HasFlag(x, g))
  {
  }

  // ---------------------------------------------------------------- sizes

  /** `up2`: the least power of two that is not less, by smearing the highest bit; 0 where a word cannot hold it, and
      for 0. */
  method Up2(n0: bv32) returns (n: bv32)
    ensures if 0 < n0 <= 0x8000_0000 then n0 <= n && n & (n - 1) == 0 && n / 2 < n0 else n == 0
  {
    n := n0 - 1;
    n := n | (n >> 1);
    n := n | (n >> 2);
    n := n | (n >> 4);
    n := n | (n >> 8);
    n := n | (n >> 16);
    n := n + 1;
  }

  /** `log2`. */
  method Logarithm(n0: nat) returns (r: nat)
    ensures r == if n0 == 0 then 0 else Log2(n0)
  {
    var n := n0;
    r := 0;
    while n / 2 != 0
      invariant 0 < n || n0 == 0
      invariant n0 > 0 ==> r + Log2(n) == Log2(n0)
      invariant n0 == 0 ==> r == 0 && n == 0
    {
      n := n / 2;
      r := r + 1;
    }
  }

  /** `chunk_size` of level `k`. */
  function ChunkSize(k: nat): nat { Pow2(k) * MIN_CHUNK_SIZE }

  lemma Halved(k: nat)
    requires 0 < k
    ensures ChunkSize(k) == 2 * ChunkSize(k - 1)
  {
  }

  // ---------------------------------------------------------------- the partition

  /** The half at `m` has `size` bytes and covers `x`. */
  function Covers(m: int, size: nat, x: int): nat { if m <= x < m + size then 1 else 0 }

  /** How many of the halves of `c` that are not split cover `x`. */
  function CoverChunk(c: Chunk, size: nat, x: int): nat {
    (if c.a != NULL && !HasFlag(c.flags, A_SPLIT) then Covers(c.a, size, x) else 0)
    + if c.b != NULL && !HasFlag(c.flags, B_SPLIT) then Covers(c.b, size, x) else 0
  }

  function CoverLevel(l: seq<Chunk>, size: nat, x: int): nat {
    if l == [] then 0 else CoverLevel(l[..|l| - 1], size, x) + CoverChunk(l[|l| - 1], size, x)
  }

  /** Over all levels; the first is level `top`, and each is half the one before. */
  function Cover(levels: seq<seq<Chunk>>, top: nat, x: int): nat
    requires |levels| <= top + 1
  {
    if levels == [] then 0
    else Cover(levels[..|levels| - 1], top, x) + CoverLevel(levels[|levels| - 1], ChunkSize(top + 1 - |levels|), x)
  }

  lemma {:induction false} LevelUpdate(l: seq<Chunk>, i: nat, c: Chunk, size: nat, x: int)
    requires i < |l|
    ensures CoverLevel(l[i := c], size, x) + CoverChunk(l[i], size, x)
            == CoverLevel(l, size, x) + CoverChunk(c, size, x)
  {
    hide CoverChunk;
    var n := |l| - 1;
    if i < n {
      LevelUpdate(l[..n], i, c, size, x);
      assert l[i := c][..n] == l[..n][i := c];
    } else {
      assert l[i := c][..n] == l[..n];
    }
  }

  lemma LevelPush(l: seq<Chunk>, c: Chunk, size: nat, x: int)
    ensures CoverLevel(l + [c], size, x) == CoverLevel(l, size, x) + CoverChunk(c, size, x)
  {
    assert (l + [c])[..|l|] == l;
  }

  lemma {:induction false} CoverUpdate(levels: seq<seq<Chunk>>, j: nat, l: seq<Chunk>, top: nat, x: int)
    requires j < |levels| <= top + 1
    ensures Cover(levels[j := l], top, x) + CoverLevel(levels[j], ChunkSize(top - j), x)
         == Cover(levels, top, x) + CoverLevel(l, ChunkSize(top - j), x)
  {
    hide CoverLevel, ChunkSize;
    var n := |levels| - 1;
    if j < n {
      CoverUpdate(levels[..n], j, l, top, x);
      assert levels[j := l][..n] == levels[..n][j := l];
    } else {
      assert levels[j := l][..n] == levels[..n];
    }
  }

  /** The unsplit halves of all levels partition the heap of `ChunkSize(top)` bytes. */
  ghost predicate Partition(levels: seq<seq<Chunk>>, top: nat) {
    && |levels| <= top + 1
    && forall x :: Cover(levels, top, x) == if 0 <= x < ChunkSize(top) then 1 else 0
  }

  /** Every half lies at a multiple of its size. */
  ghost predicate Aligned(levels: seq<seq<Chunk>>, top: nat) {
    && |levels| <= top + 1
    && forall j, i :: 0 <= j < |levels| && 0 <= i < |levels[j]| ==> AlignedChunk(levels[j][i], ChunkSize(top - j))
  }

  ghost predicate AlignedChunk(c: Chunk, size: nat) {
    && 0 < size
    && (c.a != NULL ==> 0 <= c.a && c.a % size == 0)
    && (c.b != NULL ==> 0 <= c.b && c.b % size == 0)
  }

  ghost predicate Ok(levels: seq<seq<Chunk>>, top: nat) {
    && 1 <= |levels| <= top + 1 && (forall j :: 0 <= j < |levels| ==> levels[j] != [])
    && Partition(levels, top) && Aligned(levels, top)
  }

  /** The levels when the free half at `m` of item `i` of level `j` has been split. */
  function SplitLevels(levels: seq<seq<Chunk>>, top: nat, j: nat, i: nat): seq<seq<Chunk>>
    requires j < |levels| <= top + 1 && j < top && i < |levels[j]|
  {
    var c := levels[j][i];
    var m, flag := if AFree(c) then c.a else c.b, if AFree(c) then A_SPLIT else B_SPLIT;
    var halves := Chunk(m, m + ChunkSize(top - j - 1), 0);
    var marked := levels[j := levels[j][i := SetFlag(c, flag)]];
    if j + 1 < |levels| then marked[j + 1 := marked[j + 1] + [halves]] else marked + [[halves]]
  }

  /** The levels when the first free half of level `k` has been split, then that of the next, and so on down to
      level `n`. */
  function SplitDown(levels: seq<seq<Chunk>>, top: nat, k: nat, n: nat): seq<seq<Chunk>>
    requires k < |levels| <= top + 1 && n <= top
    decreases n - k
  {
    var i := FirstFree(levels[k]);
    if k >= n || i >= |levels[k]| then levels else SplitDown(SplitLevels(levels, top, k, i), top, k + 1, n)
  }

  lemma SplitDownEnds(levels: seq<seq<Chunk>>, top: nat, n: nat)
    requires n < |levels| <= top + 1
    ensures SplitDown(levels, top, n, n) == levels
  {
  }

  /** Where no level after `k` up to `n` has a free half, just one half is split on each level from `k` on: the first
      free one there, then the lower half of the item that came of it.  Every level down to `n` gets that one new item,
      at the same address; its halves on level `n` are free. */
  ghost predicate OneSplitEach(levels: seq<seq<Chunk>>, m: seq<seq<Chunk>>, top: nat, k: nat, n: nat)
    requires k < n <= top && k < |levels| && FirstFree(levels[k]) < |levels[k]|
  {
    var i := FirstFree(levels[k]);
    var c := levels[k][i];
    var (x, flag) := if AFree(c) then (c.a, A_SPLIT) else (c.b, B_SPLIT);
    && |m| == (if n < |levels| then |levels| else n + 1)
    && (forall j :: 0 <= j < |levels| && (j < k || j > n) ==> m[j] == levels[j])
    && m[k] == levels[k][i := SetFlag(c, flag)]
    && (forall j :: k < j <= n ==>
          m[j] == LevelOf(levels, j)
                  + [Chunk(x, x + ChunkSize(top - j), if j < n then A_SPLIT else 0)])
  }

  lemma FirstOfNew(l: seq<Chunk>, c: Chunk)
    requires !HasFree(l) && AFree(c)
    ensures FirstFree(l + [c]) == |l|
  {
    FirstFreeIs(l + [c], |l|);
  }

  /** The items of level `j`, if it is there. */
  function LevelOf(levels: seq<seq<Chunk>>, j: nat): seq<Chunk> { if j < |levels| then levels[j] else [] }

  /** What one split changes. */
  lemma SplitIs(levels: seq<seq<Chunk>>, top: nat, k: nat, i: nat)
    requires k < |levels| <= top + 1 && k < top && i < |levels[k]|
    ensures var m, c := SplitLevels(levels, top, k, i), levels[k][i];
            var (x, flag) := if AFree(c) then (c.a, A_SPLIT) else (c.b, B_SPLIT);
            && |m| == (if k + 1 < |levels| then |levels| else k + 2) && m[k] == levels[k][i := SetFlag(c, flag)]
            && m[k + 1] == LevelOf(levels, k + 1) + [Chunk(x, x + ChunkSize(top - k - 1), 0)]
            && forall j :: 0 <= j < |levels| && j != k && j != k + 1 ==> m[j] == levels[j]
  {
    hide HasFlag, ChunkSize;
  }

  lemma SplitOnce(levels: seq<seq<Chunk>>, top: nat, k: nat)
    requires k < |levels| <= top + 1 && k < top && FirstFree(levels[k]) < |levels[k]|
    ensures OneSplitEach(levels, SplitLevels(levels, top, k, FirstFree(levels[k])), top, k, k + 1)
  {
    SplitIs(levels, top, k, FirstFree(levels[k]));
    hide SplitLevels, HasFlag, ChunkSize;
  }

  /** One split more at the upper end. */
  lemma SplitBefore(levels: seq<seq<Chunk>>, next: seq<seq<Chunk>>, m: seq<seq<Chunk>>, top: nat, k: nat, n: nat)
    requires k < |levels| <= top + 1 && k + 1 < n <= top && FirstFree(levels[k]) < |levels[k]|
    requires next == SplitLevels(levels, top, k, FirstFree(levels[k])) && k + 1 < |next|
    requires FirstFree(next[k + 1]) == |LevelOf(levels, k + 1)| < |next[k + 1]|
    requires AFree(next[k + 1][FirstFree(next[k + 1])])
    requires OneSplitEach(next, m, top, k + 1, n)
    ensures OneSplitEach(levels, m, top, k, n)
  {
    SplitIs(levels, top, k, FirstFree(levels[k]));
    MarkedLower();
    hide SplitLevels, HasFlag, ChunkSize, AFree, BFree, FirstFree;
    var i := FirstFree(levels[k]);
    var c, l := levels[k][i], LevelOf(levels, k + 1);
    var x := if AFree(c) then c.a else c.b;
    var d := Chunk(x, x + ChunkSize(top - k - 1), 0);
    assert next[k + 1] == l + [d] && next[k + 1][|l|] == d;
    assert (l + [d])[|l| := SetFlag(d, A_SPLIT)] == l + [SetFlag(d, A_SPLIT)];
    forall j | k < j <= n
      ensures m[j] == LevelOf(levels, j) + [Chunk(x, x + ChunkSize(top - j), if j < n then A_SPLIT else 0)]
    {
      assert j > k + 1 ==> LevelOf(next, j) == LevelOf(levels, j);
    }
  }

  /** A split makes the item that is the first free one of the next level. */
  lemma SplitNext(levels: seq<seq<Chunk>>, top: nat, k: nat)
    requires k < |levels| <= top + 1 && k < top && FirstFree(levels[k]) < |levels[k]|
    requires !HasFree(LevelOf(levels, k + 1))
    ensures var next := SplitLevels(levels, top, k, FirstFree(levels[k]));
            && k + 1 < |next| && FirstFree(next[k + 1]) == |LevelOf(levels, k + 1)| == |next[k + 1]| - 1
            && AFree(next[k + 1][FirstFree(next[k + 1])])
  {
    SplitIs(levels, top, k, FirstFree(levels[k]));
    FirstFreeOf(levels[k]);
    Unmarked();
    hide HasFree, HasFlag, ChunkSize, SplitLevels;
    var next, l := SplitLevels(levels, top, k, FirstFree(levels[k])), LevelOf(levels, k + 1);
    assert next[k + 1] == l + [next[k + 1][|l|]];
    FirstOfNew(l, next[k + 1][|l|]);
  }

  lemma {:induction false} SplitDownIs(levels: seq<seq<Chunk>>, top: nat, k: nat, n: nat)
    requires k < |levels| <= top + 1 && k < n <= top && FirstFree(levels[k]) < |levels[k]|
    requires forall j :: k < j <= n && j < |levels| ==> !HasFree(levels[j])
    ensures OneSplitEach(levels, SplitDown(levels, top, k, n), top, k, n)
    decreases n - k
  {
    NoFreeInNone();
    SplitIs(levels, top, k, FirstFree(levels[k]));
    SplitNext(levels, top, k);
    hide HasFree, HasFlag, ChunkSize, OneSplitEach, SplitLevels;
    var next := SplitLevels(levels, top, k, FirstFree(levels[k]));
    if k + 1 < n {
      SplitDownIs(next, top, k + 1, n);
      SplitBefore(levels, next, SplitDown(next, top, k + 1, n), top, k, n);
    } else {
      SplitOnce(levels, top, k);
    }
  }

  /** What the scan of all larger levels ends with. */
  lemma SmallestIs(levels: seq<seq<Chunk>>, n: nat, k: nat)
    requires k < |levels| && HasFree(levels[k])
    requires forall j :: k < j < |levels| && (j == 0 || j < n) ==> !HasFree(levels[j])
    ensures k < n ==> SmallestFree(levels, n) == k
  {
    if k < n {
      SmallestFreeIs(levels, n, k);
    }
  }

  lemma NoFreeInNone()
    ensures !HasFree([])
  {
  }

  lemma MarkedLower()
    ensures 0 | A_SPLIT == A_SPLIT
  {
  }

  lemma SplitCover(c: Chunk, size: nat, x: int)
    requires 0 < size && (AFree(c) || BFree(c)) && (c.a != NULL ==> 0 <= c.a) && (c.b != NULL ==> 0 <= c.b)
    ensures var m := if AFree(c) then c.a else c.b;
            CoverChunk(SetFlag(c, if AFree(c) then A_SPLIT else B_SPLIT), 2 * size, x)
            + CoverChunk(Chunk(m, m + size, 0), size, x)
            == CoverChunk(c, 2 * size, x)
  {
    FlagSet(c.flags, A_SPLIT, A_SPLIT);
    FlagSet(c.flags, A_SPLIT, B_SPLIT);
    FlagSet(c.flags, B_SPLIT, A_SPLIT);
    FlagSet(c.flags, B_SPLIT, B_SPLIT);
    Unmarked();
    hide HasFlag;
  }

  lemma Unmarked()
    ensures forall f: bv8 :: !HasFlag(0, f)
  {
  }

  lemma HalfAligned(m: int, size: nat)
    requires 0 < size && 0 <= m && m % (2 * size) == 0
    ensures m % size == 0 && (m + size) % size == 0
  {
    var q := m / (2 * size);
    assert m == size * (2 * q);
    assert m + size == size * (2 * q + 1);
    MultipleMod(2 * q, size);
    MultipleMod(2 * q + 1, size);
  }

  lemma SplitCoverAt(levels: seq<seq<Chunk>>, top: nat, j: nat, i: nat, x: int)
    requires j < |levels| <= top + 1 && j < top && i < |levels[j]| && (AFree(levels[j][i]) || BFree(levels[j][i]))
    requires AlignedChunk(levels[j][i], ChunkSize(top - j))
    ensures Cover(SplitLevels(levels, top, j, i), top, x) == Cover(levels, top, x)
  {
    hide CoverChunk, CoverLevel, AFree, BFree, SetFlag, ChunkSize, Cover;
    var c := levels[j][i];
    var m, flag := if AFree(c) then c.a else c.b, if AFree(c) then A_SPLIT else B_SPLIT;
    var size := ChunkSize(top - j - 1);
    var halves := Chunk(m, m + size, 0);
    var l := levels[j][i := SetFlag(c, flag)];
    var marked := levels[j := l];
    Halved(top - j);
    SplitCover(c, size, x);
    LevelUpdate(levels[j], i, SetFlag(c, flag), ChunkSize(top - j), x);
    CoverUpdate(levels, j, l, top, x);
    if j + 1 < |levels| {
      LevelPush(marked[j + 1], halves, size, x);
      CoverUpdate(marked, j + 1, marked[j + 1] + [halves], top, x);
    } else {
      CoverPush(marked, [halves], top, x);
      assert [halves] == [] + [halves];
      LevelPush([], halves, size, x);
      NoCover(size, x);
    }
  }

  lemma CoverPush(levels: seq<seq<Chunk>>, l: seq<Chunk>, top: nat, x: int)
    requires |levels| <= top
    ensures Cover(levels + [l], top, x) == Cover(levels, top, x) + CoverLevel(l, ChunkSize(top - |levels|), x)
  {
    assert (levels + [l])[..|levels|] == levels;
  }

  /** Splitting a half keeps the partition. */
  lemma SplitPartition(levels: seq<seq<Chunk>>, top: nat, j: nat, i: nat)
    requires Ok(levels, top) && j < |levels| && j < top && i < |levels[j]|
             && (AFree(levels[j][i]) || BFree(levels[j][i]))
    ensures Partition(SplitLevels(levels, top, j, i), top)
  {
    hide Cover, AFree, BFree, ChunkSize, SplitLevels, AlignedChunk;
    assert AlignedChunk(levels[j][i], ChunkSize(top - j));
    SplitLength(levels, top, j, i);
    forall x ensures Cover(SplitLevels(levels, top, j, i), top, x) == Cover(levels, top, x) {
      SplitCoverAt(levels, top, j, i, x);
    }
  }

  lemma SplitLength(levels: seq<seq<Chunk>>, top: nat, j: nat, i: nat)
    requires j < |levels| <= top + 1 && j < top && i < |levels[j]|
    ensures |levels| <= |SplitLevels(levels, top, j, i)| <= top + 1
  {
  }

  lemma NoCover(size: nat, x: int)
    ensures CoverLevel([], size, x) == 0
  {
  }

  lemma SplitAligned(levels: seq<seq<Chunk>>, top: nat, j: nat, i: nat)
    requires Ok(levels, top) && j < |levels| && j < top && i < |levels[j]|
             && (AFree(levels[j][i]) || BFree(levels[j][i]))
    ensures Aligned(SplitLevels(levels, top, j, i), top)
  {
    var c := levels[j][i];
    var m := if AFree(c) then c.a else c.b;
    var size := ChunkSize(top - j - 1);
    Halved(top - j);
    assert AlignedChunk(c, ChunkSize(top - j));
    HalfAligned(m, size);
    hide ChunkSize, HasFlag;
  }

  lemma SplitOk(levels: seq<seq<Chunk>>, top: nat, j: nat, i: nat)
    requires Ok(levels, top) && j < |levels| && j < top && i < |levels[j]|
             && (AFree(levels[j][i]) || BFree(levels[j][i]))
    ensures Ok(SplitLevels(levels, top, j, i), top)
  {
    hide Partition, Aligned, AFree, BFree, ChunkSize;
    SplitPartition(levels, top, j, i);
    SplitAligned(levels, top, j, i);
  }

  // ---------------------------------------------------------------- powers of two in a machine word

  lemma HalfBit(n: bv32)
    requires 1 < n && n & (n - 1) == 0
    ensures var h := n / 2; 0 < h && h & (h - 1) == 0 && n == h + h && h < 0x8000_0000
  {
  }

  lemma SingleBit(h: bv32)
    requires 0 < h < 0x8000_0000 && h & (h - 1) == 0
    ensures h in {
      1, 2, 4, 8, 16, 32, 64, 128, 256, 512, 1024, 2048, 4096, 8192, 16384, 32768, 65536, 131072, 262144, 524288,
      1048576, 2097152, 4194304, 8388608, 16777216, 33554432, 67108864, 134217728, 268435456, 536870912, 1073741824}
  {
  }

  lemma Twice(h: bv32)
    requires h in {
      1, 2, 4, 8, 16, 32, 64, 128, 256, 512, 1024, 2048, 4096, 8192, 16384, 32768, 65536, 131072, 262144, 524288,
      1048576, 2097152, 4194304, 8388608, 16777216, 33554432, 67108864, 134217728, 268435456, 536870912, 1073741824}
    ensures (h + h) as int == 2 * (h as int)
  {
    match h
    case 1 =>
    case 2 =>
    case 4 =>
    case 8 =>
    case 16 =>
    case 32 =>
    case 64 =>
    case 128 =>
    case 256 =>
    case 512 =>
    case 1024 =>
    case 2048 =>
    case 4096 =>
    case 8192 =>
    case 16384 =>
    case 32768 =>
    case 65536 =>
    case 131072 =>
    case 262144 =>
    case 524288 =>
    case 1048576 =>
    case 2097152 =>
    case 4194304 =>
    case 8388608 =>
    case 16777216 =>
    case 33554432 =>
    case 67108864 =>
    case 134217728 =>
    case 268435456 =>
    case 536870912 =>
    case _ => assert h == 1073741824;
  }

  /** A word with a single bit set is a power of two. */
  lemma {:induction false} PowerIs(n: bv32) returns (k: nat)
    requires 0 < n && n & (n - 1) == 0
    ensures n as int == Pow2(k)
    decreases n as int
  {
    if n == 1 {
      k := 0;
    } else {
      HalfBit(n);
      SingleBit(n / 2);
      Twice(n / 2);
      k := PowerIs(n / 2);
      k := k + 1;
    }
  }

  lemma {:induction false} Log2Power(k: nat)
    ensures Log2(Pow2(k)) == k
  {
    if k > 0 {
      Log2Power(k - 1);
    }
  }

  /** The level of a root of `2^k` bytes. */
  lemma RootLevel(k: nat)
    ensures k >= 12 ==> Pow2(k) / MIN_CHUNK_SIZE == Pow2(k - 12) && ChunkSize(k - 12) == Pow2(k)
    ensures k < 12 ==> Pow2(k) / MIN_CHUNK_SIZE == 0 && Pow2(k) < ChunkSize(0)
  {
    assert Pow2(12) == 4096 by {
      assert Pow2(6) == 64;
      Pow2Sum(6, 6);
    }
    if k >= 12 {
      Pow2Sum(k - 12, 12);
    } else {
      Pow2Sum(k, 12 - k);
      assert Pow2(12 - k) >= 2;
    }
  }

  // ---------------------------------------------------------------- what a request leaves alone

  /** The item `d` is `c` later on: only a free half may have been split, and no mark of use has changed. */
  ghost predicate KeptChunk(c: Chunk, d: Chunk) {
    && d.a == c.a && d.b == c.b
    && HasFlag(d.flags, A_USED) == HasFlag(c.flags, A_USED) && HasFlag(d.flags, B_USED) == HasFlag(c.flags, B_USED)
    && (AFree(c) || HasFlag(d.flags, A_SPLIT) == HasFlag(c.flags, A_SPLIT))
    && (BFree(c) || HasFlag(d.flags, B_SPLIT) == HasFlag(c.flags, B_SPLIT))
  }

  ghost predicate Kept(l: seq<seq<Chunk>>, m: seq<seq<Chunk>>) {
    && |l| <= |m|
    && (forall j :: 0 <= j < |l| ==> |l[j]| <= |m[j]|)
    && (forall j, i :: 0 <= j < |l| && 0 <= i < |l[j]| ==> KeptChunk(l[j][i], m[j][i]))
  }

  lemma KeptTwice(l: seq<seq<Chunk>>, m: seq<seq<Chunk>>, n: seq<seq<Chunk>>)
    requires Kept(l, m) && Kept(m, n)
    ensures Kept(l, n)
  {
    hide HasFlag;
    forall j, i | 0 <= j < |l| && 0 <= i < |l[j]| ensures KeptChunk(l[j][i], n[j][i]) {
      assert KeptChunk(l[j][i], m[j][i]) && KeptChunk(m[j][i], n[j][i]);
    }
  }

  lemma KeptItself(l: seq<seq<Chunk>>)
    ensures Kept(l, l)
  {
  }

  lemma SplitMark(c: Chunk)
    requires AFree(c) || BFree(c)
    ensures KeptChunk(c, SetFlag(c, if AFree(c) then A_SPLIT else B_SPLIT))
  {
    var f := if AFree(c) then A_SPLIT else B_SPLIT;
    FlagSet(c.flags, f, A_USED);
    FlagSet(c.flags, f, B_USED);
    FlagSet(c.flags, f, A_SPLIT);
    FlagSet(c.flags, f, B_SPLIT);
    hide HasFlag;
  }

  lemma SplitKeeps(levels: seq<seq<Chunk>>, top: nat, j: nat, i: nat)
    requires j < |levels| <= top + 1 && j < top && i < |levels[j]| && (AFree(levels[j][i]) || BFree(levels[j][i]))
    ensures Kept(levels, SplitLevels(levels, top, j, i))
  {
    SplitMark(levels[j][i]);
    hide HasFlag, ChunkSize;
    var m := SplitLevels(levels, top, j, i);
    forall y, x | 0 <= y < |levels| && 0 <= x < |levels[y]| ensures KeptChunk(levels[y][x], m[y][x]) {
      if y != j || x != i {
        assert m[y][x] == levels[y][x];
      }
    }
  }

  /** Below the level that is split, only the new item is free. */
  lemma SplitFrees(levels: seq<seq<Chunk>>, top: nat, j: nat, i: nat)
    requires Ok(levels, top) && j < |levels| && j < top && i < |levels[j]|
             && (AFree(levels[j][i]) || BFree(levels[j][i]))
    ensures var m := SplitLevels(levels, top, j, i);
            && j + 1 < |m| && HasFree(m[j + 1])
            && forall y :: j + 1 < y < |m| ==> y < |levels| && m[y] == levels[y]
  {
    var m := SplitLevels(levels, top, j, i);
    var c := levels[j][i];
    Unmarked();
    assert AlignedChunk(c, ChunkSize(top - j));
    hide HasFlag, ChunkSize;
    var last := m[j + 1][|m[j + 1]| - 1];
    assert AFree(last);
  }

  lemma MarkCover(c: Chunk, d: Chunk, size: nat, x: int)
    requires d.a == c.a && d.b == c.b
    requires HasFlag(d.flags, A_SPLIT) == HasFlag(c.flags, A_SPLIT)
             && HasFlag(d.flags, B_SPLIT) == HasFlag(c.flags, B_SPLIT)
    ensures CoverChunk(d, size, x) == CoverChunk(c, size, x)
  {
  }

  /** Marks of use have no part in the partition. */
  lemma MarkOk(levels: seq<seq<Chunk>>, top: nat, j: nat, i: nat, d: Chunk)
    requires Ok(levels, top) && j < |levels| && i < |levels[j]|
    requires var c := levels[j][i];
             && d.a == c.a && d.b == c.b
             && HasFlag(d.flags, A_SPLIT) == HasFlag(c.flags, A_SPLIT)
                 && HasFlag(d.flags, B_SPLIT) == HasFlag(c.flags, B_SPLIT)
    ensures Ok(levels[j := levels[j][i := d]], top)
  {
    hide CoverChunk, CoverLevel, Cover, HasFlag, ChunkSize;
    var l := levels[j][i := d];
    var m := levels[j := l];
    forall x ensures Cover(m, top, x) == if 0 <= x < ChunkSize(top) then 1 else 0 {
      MarkCover(levels[j][i], d, ChunkSize(top - j), x);
      LevelUpdate(levels[j], i, d, ChunkSize(top - j), x);
      CoverUpdate(levels, j, l, top, x);
    }
    assert AlignedChunk(levels[j][i], ChunkSize(top - j));
    forall y, x | 0 <= y < |m| && 0 <= x < |m[y]| ensures AlignedChunk(m[y][x], ChunkSize(top - y)) {
      assert AlignedChunk(levels[y][x], ChunkSize(top - y));
    }
  }

  lemma RootOk(top: nat)
    ensures Ok([[Chunk(0, NULL, 0)]], top)
  {
    var l := [Chunk(0, NULL, 0)];
    Unmarked();
    assert 0 < ChunkSize(top);
    hide HasFlag, ChunkSize;
    var none: seq<seq<Chunk>> := [];
    assert [l][..0] == none && l[..0] == [];
    forall x ensures Cover([l], top, x) == if 0 <= x < ChunkSize(top) then 1 else 0 {
      var size := ChunkSize(top);
      assert CoverLevel(l, size, x) == CoverLevel([], size, x) + CoverChunk(l[0], size, x);
    }
  }

  // ---------------------------------------------------------------- the splitter

  /** Level `j` of `levels` is the one whose chunks have `ChunkSize(top - j)` bytes. */
  class Splitter {
    const top: nat
    /** The bytes obtained for the heap. */
    const size: nat
    var levels: seq<seq<Chunk>>

    ghost predicate Valid()
      reads this
    {
      Ok(levels, top)
    }

    /** `binit`. What it takes the heap to be is what it obtained exactly if more than 2048 and at most `2^31` bytes
        are asked for; otherwise the root chunk is larger than the memory behind it. */
    constructor (heapSize: bv32)
      ensures Valid() && levels == [[Chunk(0, NULL, 0)]]
      ensures ChunkSize(top) == size <==> 2048 < heapSize <= 0x8000_0000
      ensures size <= ChunkSize(top) && (size != ChunkSize(top) ==> top == 0)
      ensures 0 < heapSize <= 0x8000_0000 ==>
                size / 2 < heapSize as int <= size && exists k: nat :: size == Pow2(k)
      ensures heapSize == 0 || heapSize > 0x8000_0000 ==> size == 0
    {
      var n := Up2(heapSize);
      var root := Logarithm(n as int / MIN_CHUNK_SIZE);
      if n != 0 {
        ghost var k := PowerIs(n);
        RootLevel(k);
        Log2Power(k);
        if k >= 12 {
          Log2Power(k - 12);
        }
        WordOrder(heapSize, n);
        PowerOrder(k);
      }
      top, size, levels := root, n as int, [[Chunk(0, NULL, 0)]];
      RootOk(root);
    }

    /** `find_free_chunk`: the first item of level `j` with a free half, or the number of items. */
    method FindFree(j: nat) returns (i: nat)
      requires j < |levels|
      ensures i == FirstFree(levels[j]) <= |levels[j]| && (i < |levels[j]| <==> HasFree(levels[j]))
      ensures i < |levels[j]| ==> AFree(levels[j][i]) || BFree(levels[j][i])
    {
      hide HasFlag;
      i := 0;
      while i < |levels[j]|
        invariant 0 <= i <= |levels[j]|
        invariant forall x :: 0 <= x < i ==> !AFree(levels[j][x]) && !BFree(levels[j][x])
      {
        if AFree(levels[j][i]) || BFree(levels[j][i]) {
          break;
        }
        i := i + 1;
      }
      FirstFreeIs(levels[j], i);
    }

    /** `split_chunk_item`, into the next level, which it makes if there is none. */
    method Split(j: nat, i: nat)
      requires Valid() && j < |levels| && j < top && i < |levels[j]| && (AFree(levels[j][i]) || BFree(levels[j][i]))
      modifies this
      ensures Valid() && levels == SplitLevels(old(levels), top, j, i)
    {
      SplitOk(levels, top, j, i);
      hide Ok, HasFlag, ChunkSize;
      var c := levels[j][i];
      var n := ChunkSize(top - j) / 2;
      Halved(top - j);
      var memory, flag;
      if AFree(c) {
        memory, flag := c.a, A_SPLIT;
      } else {
        memory, flag := c.b, B_SPLIT;
      }
      var chunk := Chunk(memory, memory + n, 0);
      levels := levels[j := levels[j][i := SetFlag(c, flag)]];
      if j + 1 < |levels| {
        levels := levels[j + 1 := levels[j + 1] + [chunk]];
      } else {
        levels := levels + [[chunk]];
      }
    }

    /** A client takes half of an item, or gives it back. */
    method Mark(j: nat, i: nat, second: bool, used: bool)
      requires Valid() && j < |levels| && i < |levels[j]|
      modifies this
      ensures Valid()
      ensures var f := if second then B_USED else A_USED;
              var c := old(levels[j])[i];
              levels == old(levels)[j := old(levels[j])[i := if used then SetFlag(c, f) else ClearFlag(c, f)]]
    {
      var f := if second then B_USED else A_USED;
      var c := levels[j][i];
      FlagSet(c.flags, f, A_SPLIT);
      FlagSet(c.flags, f, B_SPLIT);
      hide HasFlag;
      var d := if used then SetFlag(c, f) else ClearFlag(c, f);
      MarkOk(levels, top, j, i, d);
      levels := levels[j := levels[j][i := d]];
    }

    /** The level a request for chunks of level `targetk` ends at: that one, or the root for a request that is
        larger. */
    function LevelFor(targetk: nat): nat { if targetk <= top then top - targetk else 0 }

    /** The scan of `request_chunk` for the smallest level above `targetk` with a free half, from the root down. */
    method Smallest(targetk: nat) returns (block: int, item: nat)
      requires Valid()
      ensures -1 <= block < |levels| && block <= LevelFor(targetk)
      ensures block >= 0 ==> item < |levels[block]| && (AFree(levels[block][item]) || BFree(levels[block][item]))
      ensures block >= 0 ==> HasFree(levels[block]) && item == FirstFree(levels[block])
      ensures forall j :: block < j < |levels| && (j == 0 || j < LevelFor(targetk)) ==> !HasFree(levels[j])
    {
      hide HasFree, HasFlag, Partition, Aligned;
      block, item := -1, 0;
      var ii := 0;
      while true
        invariant 0 <= ii < |levels| && (ii == 0 || ii < LevelFor(targetk))
        invariant -1 <= block < ii || (block == -1 && ii == 0)
        invariant block >= 0 ==> item < |levels[block]| && (AFree(levels[block][item]) || BFree(levels[block][item]))
        invariant block >= 0 ==> HasFree(levels[block]) && item == FirstFree(levels[block])
        invariant forall j :: block < j < ii ==> !HasFree(levels[j])
        decreases |levels| - ii
      {
        var i := FindFree(ii);
        if i < |levels[ii]| {
          block, item := ii, i;
        }
        if ii + 1 < |levels| && top - (ii + 1) > targetk {
          ii := ii + 1;
        } else {
          break;
        }
      }
    }

    /** One turn of the loop of `request_chunk` that splits: the first free half of `level`, with no other one from
        there to level `n`. */
    method Deepen(level: nat, ghost n: nat) returns (item: nat)
      requires Valid() && level < n <= top && level < |levels| && FirstFree(levels[level]) < |levels[level]|
      requires forall j :: level < j <= n && j < |levels| ==> !HasFree(levels[j])
      modifies this
      ensures Valid() && Kept(old(levels), levels) && level + 1 < |levels|
      ensures item == FirstFree(levels[level + 1]) == |levels[level + 1]| - 1
      ensures AFree(levels[level + 1][item]) || BFree(levels[level + 1][item])
      ensures SplitDown(levels, top, level + 1, n) == SplitDown(old(levels), top, level, n)
      ensures forall j :: level + 1 < j <= n && j < |levels| ==> !HasFree(levels[j])
    {
      FirstFreeOf(levels[level]);
      NoFreeInNone();
      SplitKeeps(levels, top, level, FirstFree(levels[level]));
      SplitFrees(levels, top, level, FirstFree(levels[level]));
      SplitNext(levels, top, level);
      hide Ok, HasFree, HasFlag, Kept, ChunkSize, SplitLevels, AFree, BFree;
      item := FindFree(level);
      Split(level, item);
      item := FindFree(level + 1);
    }

    /** The loop of `request_chunk` that splits the first free half of level `block`, and what comes of it, down to the
        level asked for. */
    method SplitUntil(block: nat, targetk: nat) returns (level: nat, item: nat)
      requires Valid() && block < |levels| && block <= LevelFor(targetk) && HasFree(levels[block])
      requires forall j :: block < j <= LevelFor(targetk) && j < |levels| ==> !HasFree(levels[j])
      modifies this
      ensures Valid() && Kept(old(levels), levels) && level == LevelFor(targetk) < |levels|
      ensures item < |levels[level]| && (AFree(levels[level][item]) || BFree(levels[level][item]))
      ensures FirstFree(old(levels)[block]) < |old(levels)[block]|
      ensures if block == level then levels == old(levels) && item == FirstFree(levels[level])
              else OneSplitEach(old(levels), levels, top, block, level) && item == |levels[level]| - 1
    {
      hide HasFree, HasFlag, Partition, Aligned, Kept, ChunkSize, OneSplitEach, AFree, BFree, SplitDown;
      ghost var n, before := LevelFor(targetk), levels;
      KeptItself(levels);
      FirstFreeOf(levels[block]);
      level := block;
      item := FindFree(block);
      while top - level > targetk
        invariant Valid() && block <= level < |levels| && level <= n && item < |levels[level]|
        invariant AFree(levels[level][item]) || BFree(levels[level][item])
        invariant item == FirstFree(levels[level]) && (level > block ==> item == |levels[level]| - 1)
        invariant Kept(before, levels) && (level == block ==> levels == before)
        invariant SplitDown(levels, top, level, n) == SplitDown(before, top, block, n)
        invariant forall j :: level < j <= n && j < |levels| ==> !HasFree(levels[j])
        decreases n - level
      {
        ghost var now := levels;
        item := Deepen(level, n);
        KeptTwice(before, now, levels);
        level := level + 1;
      }
      SplitDownEnds(levels, top, n);
      if block < n {
        SplitDownIs(before, top, block, n);
      }
    }

    /** `request_chunk`: an item with a free half; if the level asked for has none, it is split off from the smallest
        larger one, by one split on each level in between and no other. It finds one exactly if the level asked for or
        a larger one has a free half, and nothing in use changes. A request for more than the whole heap is not
        refused, though: it ends at the root. */
    method Request(targetk: nat) returns (found: bool, level: nat, item: nat)
      requires Valid()
      modifies this
      ensures Valid() && Kept(old(levels), levels)
      ensures found <==> exists j :: 0 <= j < |old(levels)| && j <= LevelFor(targetk) && HasFree(old(levels)[j])
      ensures found ==> level == LevelFor(targetk) < |levels| && item < |levels[level]|
      ensures found ==> AFree(levels[level][item]) || BFree(levels[level][item])
      ensures !found || targetk >= top ==> levels == old(levels)
      ensures var n := LevelFor(targetk);
              if n < |old(levels)| && HasFree(old(levels)[n]) then levels == old(levels) && item == FirstFree(levels[n])
              else if found then
                var k := SmallestFree(old(levels), n);
                && 0 <= k < n && k < |old(levels)| && FirstFree(old(levels)[k]) < |old(levels)[k]|
                && OneSplitEach(old(levels), levels, top, k, n) && item == |levels[n]| - 1
              else true
    {
      hide HasFree, HasFlag, Partition, Aligned, Kept, ChunkSize, OneSplitEach;
      found, level, item := false, 0, 0;
      KeptItself(levels);
      var info := 0;
      while info + 1 < |levels| && top - info > targetk
        invariant 0 <= info < |levels| && info <= LevelFor(targetk)
      {
        info := info + 1;
      }
      if top - info == targetk {
        var i := FindFree(info);
        if i < |levels[info]| {
          return true, info, i;
        }
      }
      var block;
      block, item := Smallest(targetk);
      if block == -1 {
        return;
      }
      found := true;
      ghost var n := LevelFor(targetk);
      SmallestIs(levels, n, block);
      level, item := SplitUntil(block, targetk);
    }
  }

  lemma WordOrder(h: bv32, n: bv32)
    requires 0 < h <= n && n / 2 < h && n & (n - 1) == 0
    ensures (n as int) / 2 < h as int <= n as int && (h > 2048 <==> n >= 4096)
  {
  }

  lemma PowerOrder(k: nat)
    ensures Pow2(k) >= 4096 <==> k >= 12
  {
    RootLevel(k);
  }

  lemma {:induction false} SizesRise(j: nat, k: nat)
    requires j < k
    ensures ChunkSize(j) < ChunkSize(k)
    decreases k
  {
    Halved(k);
    if j < k - 1 {
      SizesRise(j, k - 1);
    }
  }

  /** A request for chunks larger than the heap is served exactly if the root has a free half, and then with a chunk
      of the size of the heap, which is not what was asked for. */
  method RequestAboveTop(s: Splitter, targetk: nat) returns (found: bool, level: nat, item: nat)
    requires s.Valid() && s.top < targetk
    modifies s
    ensures s.Valid() && s.levels == old(s.levels) && |s.levels| > 0
    ensures found <==> HasFree(s.levels[0])
    ensures found ==> level == 0 && item < |s.levels[0]| && (AFree(s.levels[0][item]) || BFree(s.levels[0][item]))
    ensures ChunkSize(s.top) < ChunkSize(targetk)
  {
    hide HasFree, HasFlag, Partition, Aligned, Kept, ChunkSize;
    SizesRise(s.top, targetk);
    found, level, item := s.Request(targetk);
  }

  /** So a new splitter, asked for twice its heap, hands out the heap. */
  method LargerThanHeap(heapSize: bv32) returns (s: Splitter, found: bool, level: nat, item: nat)
    ensures found && level == 0 && item == 0 && s.levels == [[Chunk(0, NULL, 0)]] && AFree(s.levels[0][0])
    ensures ChunkSize(s.top) < ChunkSize(s.top + 1)
  {
    s := new Splitter(heapSize);
    Unmarked();
    hide Ok, HasFlag;
    assert AFree(s.levels[0][0]);
    found, level, item := RequestAboveTop(s, s.top + 1);
  }
}
