/** The directly mmapped chunks of dlmalloc 2.8.3: each lies in a system region of its own, at an offset that its
    `prev_foot` word records. */
module MappedChunks {
  import opened Common
  import opened Memory

  const CMFAIL := 0xffff_ffff_ffff_ffff
  const USER_MAX := 0x7fff_ffff_ffff_0000
  const MEM_OFFSET := 16
  const MIN_CHUNK_SIZE := 32
  const FOOT_PAD := 32
  const IS_MMAPPED_BIT := 1
  const CINUSE_BIT := 2
  const FENCEPOST_HEAD := 11

  /** What a region needs beyond the request: `SIX_SIZE_T_SIZES + CHUNK_ALIGN_MASK`. */
  const REGION_PADDING := 55

  /** A chunk `p` and the system region of `len` bytes from `base` it lies in. */
  datatype Mapped = Mapped(p: int, base: int, len: int) {
    function Offset(): int { p - base }

    function Size(): int { len - (p - base) - FOOT_PAD }
  }

  /** The chunk lies within its region, between its offset and the pad at the end, and its words say so. */
  ghost predicate WellMapped(m: Mem, c: Mapped) {
    && c.base % 8 == 0 && c.p % 8 == 0 && c.len % 8 == 0 && 0 < c.base <= c.p && c.base + c.len < USER_MAX
    && MEM_OFFSET <= c.Size()
    && Foot(m, c.p) == c.Offset() + IS_MMAPPED_BIT
    && Head(m, c.p) == c.Size() + CINUSE_BIT
    && Head(m, c.p + c.Size()) == FENCEPOST_HEAD && Head(m, c.p + c.Size() + 8) == 0
  }

  predicate Apart(c: Mapped, base: int, len: int) { c.base + c.len <= base || base + len <= c.base }

  function Total(s: seq<Mapped>): int { if s == [] then 0 else s[0].len + Total(s[1..]) }

  /** Every mmapped chunk is well mapped, and the regions are apart. */
  ghost predicate AllMapped(m: Mem, s: seq<Mapped>) {
    && (forall i :: 0 <= i < |s| ==> WellMapped(m, s[i]))
    && (forall i, j :: 0 <= i < j < |s| ==> Apart(s[i], s[j].base, s[j].len))
  }

  // ---------------------------------------------------------------- words

  /** `chunksize`. */
  function ChunkSize(m: Mem, p: int): int { Head(m, p) / 4 * 4 }

  /** The stored offset, `prev_foot & ~IS_MMAPPED_BIT`. */
  function StoredOffset(m: Mem, p: int): int { Foot(m, p) / 2 * 2 }

  /** `is_mmapped`. */
  predicate IsMmapped(m: Mem, p: int) { Head(m, p) % 2 == 0 && Foot(m, p) % 2 == 1 }

  lemma WordsRead(m: Mem, c: Mapped)
    requires WellMapped(m, c)
    ensures ChunkSize(m, c.p) == c.Size() && StoredOffset(m, c.p) == c.Offset() && IsMmapped(m, c.p)
  {
    hide Rd;
    Differences(c.p, c.base, c.len);
    LowBits(c.Size());
    LowBits(c.Offset());
  }

  lemma Differences(p: int, base: int, len: int)
    requires p % 8 == 0 && base % 8 == 0 && len % 8 == 0
    ensures (p - base) % 8 == 0 && (len - (p - base) - FOOT_PAD) % 8 == 0
  {
  }

  lemma LowBits(n: int)
    requires n % 8 == 0 && 0 <= n
    ensures (n + CINUSE_BIT) / 4 * 4 == n && (n + CINUSE_BIT) % 2 == 0
    ensures (n + IS_MMAPPED_BIT) / 2 * 2 == n && (n + IS_MMAPPED_BIT) % 2 == 1
  {
    var k := n / 8;
    assert n == 8 * k;
    Quotient(n + 2, 4, 2 * k, 2);
    Quotient(n + 2, 2, 4 * k + 1, 0);
    Quotient(n + 1, 2, 4 * k, 1);
    assert n + 2 == 2 * (4 * k + 1) && n + 1 == 2 * (4 * k) + 1;
  }

  /** Only words of `[base, base + len)` differ. */
  ghost predicate OnlyWithin(m: Mem, n: Mem, base: int, len: int) {
    forall a :: a < base || base + len <= a ==> Rd(n, a) == Rd(m, a)
  }

  lemma OthersKept(m: Mem, n: Mem, c: Mapped, base: int, len: int)
    requires WellMapped(m, c) && OnlyWithin(m, n, base, len) && Apart(c, base, len)
    ensures WellMapped(n, c)
  {
  }

  /** The stores that set up a chunk, but for `prev_foot`. */
  function Framed(m: Mem, p: int, psize: int): Mem {
    m[p + HEAD := psize % WORD_MAX + CINUSE_BIT][p + psize + HEAD := FENCEPOST_HEAD][p + psize + 8 + HEAD := 0]
  }

  lemma FramedReads(m: Mem, c: Mapped)
    requires 0 < c.base <= c.p && MEM_OFFSET <= c.Size() < WORD_MAX
    ensures var n := Framed(m, c.p, c.Size());
            && Foot(n, c.p) == Foot(m, c.p) && Head(n, c.p) == c.Size() + CINUSE_BIT
            && Head(n, c.p + c.Size()) == FENCEPOST_HEAD && Head(n, c.p + c.Size() + 8) == 0
            && OnlyWithin(m, n, c.base, c.len)
            && forall a :: c.p + MEM_OFFSET <= a < c.p + c.Size() + HEAD ==> Rd(n, a) == Rd(m, a)
  {
  }

  // ---------------------------------------------------------------- sizes

  /** `granularity_align` of this version: always above `s`. */
  function GranularityAlign(s: int, g: int): int
    requires 0 < g
  {
    (s + g) % WORD_MAX / g * g
  }

  function RegionSize(nb: int, g: int): int
    requires 0 < g
  {
    GranularityAlign((nb + REGION_PADDING) % WORD_MAX, g)
  }

  lemma AlignFacts(s: int, g: int)
    requires 0 < g && 0 <= s && s + g < WORD_MAX
    ensures s < GranularityAlign(s, g) <= s + g && GranularityAlign(s, g) % g == 0
  {
    var q := (s + g) / g;
    assert s + g == g * q + (s + g) % g && q * g == g * q;
    MultipleMod(q, g);
  }

  lemma EighthOf(n: int, g: int)
    requires 0 < g && g % 8 == 0 && 0 <= n && n % g == 0
    ensures n % 8 == 0
  {
    var q, k := n / g, g / 8;
    assert n == g * q && g == 8 * k;
    assert n == 8 * (k * q) by {
      assert 8 * k * q == 8 * (k * q);
    }
  }

  lemma WrapsSmall(nb: int, g: int)
    requires 0 < g <= 0x1_0000_0000 && 0 <= nb < WORD_MAX && nb + REGION_PADDING + g >= WORD_MAX
    ensures RegionSize(nb, g) <= nb
  {
    var t := (nb + REGION_PADDING) % WORD_MAX;
    var v := (t + g) % WORD_MAX;
    assert v <= nb;
    FloorBelow(v, g);
  }

  lemma FloorBelow(v: int, g: int)
    requires 0 < g && 0 <= v
    ensures v / g * g <= v
  {
  }

  /** A mapping for `nb` bytes is larger than `nb` exactly if the sum does not wrap around. */
  lemma WrapTest(nb: int, g: int)
    requires 0 < g <= 0x1_0000_0000 && g % 8 == 0 && 0 <= nb < WORD_MAX
    ensures RegionSize(nb, g) > nb <==> nb + REGION_PADDING + g < WORD_MAX
    ensures RegionSize(nb, g) > nb ==> RegionSize(nb, g) > nb + REGION_PADDING && RegionSize(nb, g) % 8 == 0
  {
    if nb + REGION_PADDING + g < WORD_MAX {
      FitsWord(nb, g);
    } else {
      WrapsSmall(nb, g);
    }
  }

  lemma FitsWord(nb: int, g: int)
    requires 0 < g && g % 8 == 0 && 0 <= nb && nb + REGION_PADDING + g < WORD_MAX
    ensures RegionSize(nb, g) > nb + REGION_PADDING && RegionSize(nb, g) % 8 == 0
  {
    hide GranularityAlign;
    AlignFacts(nb + REGION_PADDING, g);
    EighthOf(GranularityAlign(nb + REGION_PADDING, g), g);
  }

  // ---------------------------------------------------------------- the system

  /** The answer of the system to a call for `len` bytes. */
  predicate Granted(mm: int, len: int, s: seq<Mapped>) {
    && 0 < mm && mm % 4096 == 0 && mm + len < USER_MAX
    && forall i {:trigger s[i]} :: 0 <= i < |s| ==> Apart(s[i], mm, len)
  }

  /** The answer to `mremap`: the new place, and the store with the region's words there. */
  datatype Remap = Remap(cp: int, mem: Mem)

  ghost predicate Carried(m: Mem, n: Mem, base: int, len: int, cp: int, newLen: int) {
    && (forall a {:trigger Rd(n, a)} :: cp <= a < cp + newLen && a - cp < len ==> Rd(n, a) == Rd(m, base + (a - cp)))
    && (forall a :: (a < cp || cp + newLen <= a) && (a < base || base + len <= a) ==> Rd(n, a) == Rd(m, a))
  }

  function Without(s: seq<Mapped>, i: nat): seq<Mapped>
    requires i < |s|
  {
    s[..i] + s[i + 1..]
  }

  lemma {:induction false} TotalWithout(s: seq<Mapped>, i: nat)
    requires i < |s|
    ensures Total(Without(s, i)) == Total(s) - s[i].len
  {
    if i > 0 {
      TotalWithout(s[1..], i - 1);
      assert Without(s, i)[1..] == Without(s[1..], i - 1);
    } else {
      assert Without(s, i) == s[1..];
    }
  }

  lemma {:induction false} TotalUpdate(s: seq<Mapped>, i: nat, c: Mapped)
    requires i < |s|
    ensures Total(s[i := c]) == Total(s) - s[i].len + c.len
  {
    if i > 0 {
      TotalUpdate(s[1..], i - 1, c);
      assert s[i := c][1..] == s[1..][i - 1 := c];
    } else {
      assert s[i := c][1..] == s[1..];
    }
  }

  lemma TotalPush(s: seq<Mapped>, c: Mapped)
    ensures Total([c] + s) == c.len + Total(s)
  {
    assert ([c] + s)[1..] == s;
  }

  /** Stores within one region leave the other chunks alone. */
  lemma UpdateMapped(m: Mem, n: Mem, s: seq<Mapped>, i: nat, c: Mapped)
    requires AllMapped(m, s) && i < |s| && WellMapped(n, c) && c.base == s[i].base && c.len == s[i].len
    requires OnlyWithin(m, n, c.base, c.len)
    ensures AllMapped(n, s[i := c])
  {
    forall j | 0 <= j < |s| && j != i ensures WellMapped(n, s[j]) {
      OthersKept(m, n, s[j], c.base, c.len);
    }
  }

  lemma PushMapped(m: Mem, n: Mem, s: seq<Mapped>, c: Mapped)
    requires AllMapped(m, s) && WellMapped(n, c) && OnlyWithin(m, n, c.base, c.len)
    requires forall i {:trigger s[i]} :: 0 <= i < |s| ==> Apart(s[i], c.base, c.len)
    ensures AllMapped(n, [c] + s)
  {
    forall j | 0 <= j < |s| ensures WellMapped(n, s[j]) {
      OthersKept(m, n, s[j], c.base, c.len);
    }
    forall i, j | 0 <= i < j < |s| + 1 ensures Apart(([c] + s)[i], ([c] + s)[j].base, ([c] + s)[j].len) {
    }
  }

  lemma FewerMapped(m: Mem, s: seq<Mapped>, i: nat)
    requires AllMapped(m, s) && i < |s|
    ensures AllMapped(m, Without(s, i))
  {
    hide WellMapped, Apart;
    var t := Without(s, i);
    assert forall j :: 0 <= j < |t| ==> t[j] == s[if j < i then j else j + 1];
  }

  /** The first spot above `p` whose payload is aligned and that leaves a leader of at least the least size. */
  method AlignedSpot(p: int, alignment: int) returns (newp: int)
    requires p % 8 == 0 && 0 < p && MIN_CHUNK_SIZE <= alignment && alignment % 8 == 0
             && (p + MEM_OFFSET) % alignment != 0
    ensures (newp + MEM_OFFSET) % alignment == 0 && newp % 8 == 0
            && MIN_CHUNK_SIZE <= newp - p < alignment + MIN_CHUNK_SIZE
  {
    AlignedPlace(p, alignment);
    var br := (p + MEM_OFFSET + alignment - 1) / alignment * alignment - MEM_OFFSET;
    newp := if br - p >= MIN_CHUNK_SIZE then br else br + alignment;
  }

  /** The part of `malloc_state` that these chunks touch. */
  class MmapState {
    var mem: Mem
    var leastAddr: int
    var footprint: int
    var maxFootprint: int
    const granularity: int
    ghost var mapped: seq<Mapped>
    /** The footprint of everything else. */
    ghost var others: nat

    ghost predicate Valid()
      reads this
    {
      && 4096 <= granularity <= 0x1_0000_0000 && granularity % 4096 == 0
      && AllMapped(mem, mapped) && footprint == others + Total(mapped) <= maxFootprint
    }

    constructor (granularity: int)
      requires 4096 <= granularity <= 0x1_0000_0000 && granularity % 4096 == 0
      ensures Valid() && mapped == [] && this.granularity == granularity
    {
      mem, leastAddr, footprint, maxFootprint := map[], 0, 0, 0;
      this.granularity := granularity;
      mapped, others := [], 0;
    }

    /** `mmap_alloc`; `mm` is what the system answers. */
    method MmapAlloc(nb: int, mm: int) returns (r: int)
      requires Valid() && 0 <= nb < WORD_MAX
      requires mm != CMFAIL ==> Granted(mm, RegionSize(nb, granularity), mapped)
      modifies `mem, `leastAddr, `footprint, `maxFootprint, `mapped
      ensures Valid()
      ensures r == 0 <==> mm == CMFAIL || nb + REGION_PADDING + granularity >= WORD_MAX
      ensures r == 0 ==> unchanged(this)
      ensures r != 0 ==> leastAddr == (if mm < old(leastAddr) then mm else old(leastAddr))
                         && maxFootprint == if footprint > old(maxFootprint) then footprint else old(maxFootprint)
      ensures r != 0 ==> r == mm + MEM_OFFSET && r % 8 == 0
      ensures r != 0 ==> mapped == [Mapped(r - MEM_OFFSET, mm, RegionSize(nb, granularity))] + old(mapped)
      ensures r != 0 ==> nb + 8 <= mapped[0].Size() && footprint == old(footprint) + RegionSize(nb, granularity)
      ensures r != 0 ==> OnlyWithin(old(mem), mem, mm, RegionSize(nb, granularity))
    {
      hide AllMapped, Framed;
      r := 0;
      var mmsize := RegionSize(nb, granularity);
      EighthOf(granularity, 4096);
      WrapTest(nb, granularity);
      hide RegionSize;
      if mmsize > nb && mm != CMFAIL {
        var offset := if (mm + MEM_OFFSET) % 8 == 0 then 0 else (8 - (mm + MEM_OFFSET) % 8) % 8;
        Eight(mm);
        var psize := mmsize - offset - FOOT_PAD;
        var p := mm + offset;
        ghost var c := Mapped(p, mm, mmsize);
        ghost var m := mem;
        mem := mem[p + PREV_FOOT := offset + IS_MMAPPED_BIT];
        FramedReads(mem, c);
        mem := Framed(mem, p, psize);
        PushMapped(m, mem, mapped, c);
        TotalPush(mapped, c);
        mapped := [c] + mapped;
        if mm < leastAddr {
          leastAddr := mm;
        }
        footprint := footprint + mmsize;
        if footprint > maxFootprint {
          maxFootprint := footprint;
        }
        r := p + MEM_OFFSET;
      }
    }

    /** The mmapped branch of `dlfree`. What it hands to `munmap` is exactly the region, and if that succeeds the
        footprint is what it was without it. */
    method Free(r: int, ok: bool, ghost i: nat) returns (base: int, len: int)
      requires Valid() && i < |mapped| && mapped[i].p == r - MEM_OFFSET
      modifies `footprint, `mapped
      ensures Valid() && base == old(mapped)[i].base && len == old(mapped)[i].len
      ensures mapped == if ok then Without(old(mapped), i) else old(mapped)
      ensures footprint == old(footprint) - if ok then len else 0
    {
      hide WellMapped;
      var p := r - MEM_OFFSET;
      WordsRead(mem, mapped[i]);
      MappedPlace(mem, mapped[i]);
      var psize := ChunkSize(mem, p);
      if IsMmapped(mem, p) {
        var prevsize := StoredOffset(mem, p);
        base, len := p - prevsize, psize + prevsize + FOOT_PAD;
        FewerMapped(mem, mapped, i);
        TotalWithout(mapped, i);
        if ok {
          footprint := footprint - len;
          mapped := Without(mapped, i);
        }
      } else {
        assert false;
      }
    }

    /** The mmapped branch of `internal_memalign`: the chunk moves up in its region to the next aligned place that
        leaves a leader of at least the least size. */
    method AlignChunk(p: int, alignment: int, nb: int, ghost i: nat) returns (newp: int)
      requires Valid() && i < |mapped| && mapped[i].p == p && MIN_CHUNK_SIZE <= alignment && alignment % 8 == 0
      requires (p + MEM_OFFSET) % alignment != 0 && MIN_CHUNK_SIZE <= nb
               && nb + alignment + MIN_CHUNK_SIZE <= mapped[i].Size()
      modifies `mem, `mapped
      ensures Valid() && (newp + MEM_OFFSET) % alignment == 0 && MIN_CHUNK_SIZE <= newp - p < alignment + MIN_CHUNK_SIZE
      ensures mapped == old(mapped)[i := Mapped(newp, old(mapped)[i].base, old(mapped)[i].len)] && nb < mapped[i].Size()
      ensures Total(mapped) == old(Total(mapped))
      ensures forall a :: a != newp + PREV_FOOT && a != newp + HEAD ==> Rd(mem, a) == Rd(old(mem), a)
    {
      hide AllMapped, WellMapped, ChunkSize;
      ghost var c := mapped[i];
      EachMapped(mem, mapped, i);
      WordsRead(mem, c);
      MappedPlace(mem, c);
      newp := AlignedSpot(p, alignment);
      var leadsize := newp - p;
      var newsize := ChunkSize(mem, p) - leadsize;
      ghost var m := mem;
      mem := mem[newp + PREV_FOOT := Foot(mem, p) + leadsize];
      mem := mem[newp + HEAD := newsize + CINUSE_BIT];
      ghost var d := Mapped(newp, c.base, c.len);
      Realigned(m, mem, c, d);
      UpdateMapped(m, mem, mapped, i, d);
      TotalUpdate(mapped, i, d);
      mapped := mapped[i := d];
    }

    /** `mmap_resize`; null for a refusal. A chunk that has room for the request, and not much more, stays where it is;
        for any other that is not small the system is asked. The region that results is again exactly the chunk's if
        and only if the chunk's offset leaves room in it, and then what both regions hold of the payload is kept. */
    method MmapResize(oldp: int, nb: int, remap: Remap, ghost i: nat) returns (newp: int, ghost moved: bool)
      requires Valid() && i < |mapped| && mapped[i].p == oldp && 0 <= nb && nb + REGION_PADDING + granularity < WORD_MAX
      requires remap.cp != CMFAIL ==>
                 && Granted(remap.cp, RegionSize(nb, granularity), Without(mapped, i))
                 && Carried(mem, remap.mem, mapped[i].base, mapped[i].len, remap.cp, RegionSize(nb, granularity))
      modifies `mem, `leastAddr, `footprint, `maxFootprint, `mapped
      ensures !moved ==> unchanged(this) && newp == (if newp == 0 then 0 else oldp)
      ensures var fits := nb + 8 <= old(mapped)[i].Size() <= nb + 2 * granularity;
              && (newp != 0 && !moved <==> nb >= 256 && fits)
              && (newp == 0 <==> nb < 256 || (!fits && remap.cp == CMFAIL))
      ensures moved ==> leastAddr == (if remap.cp < old(leastAddr) then remap.cp else old(leastAddr))
                        && maxFootprint == if footprint > old(maxFootprint) then footprint else old(maxFootprint)
      ensures moved ==>
                var c := Mapped(newp, remap.cp, RegionSize(nb, granularity));
                && mapped == old(mapped)[i := c] && c.Offset() == old(mapped)[i].Offset()
                && footprint == old(footprint) + c.len - old(mapped)[i].len
                && (Valid() <==> c.Offset() + MEM_OFFSET + FOOT_PAD <= c.len)
                && (Valid() ==> PayloadKept(old(mem), mem, old(mapped)[i], c)
                                && OutsideKept(old(mem), mem, old(mapped)[i], c))
    {
      hide AllMapped, Framed, Carried, RegionSize, WellMapped, OutsideKept;
      ghost var c := mapped[i];
      EachMapped(mem, mapped, i);
      WordsRead(mem, c);
      MappedPlace(mem, c);
      var oldsize := ChunkSize(mem, oldp);
      newp, moved := 0, false;
      if nb / 8 < 32 {
        return;
      }
      if oldsize >= nb + 8 && oldsize - nb <= 2 * granularity {
        newp := oldp;
        return;
      }
      var offset := StoredOffset(mem, oldp);
      var oldmmsize := oldsize + offset + FOOT_PAD;
      var newmmsize := RegionSize(nb, granularity);
      EighthOf(granularity, 4096);
      WrapTest(nb, granularity);
      if remap.cp != CMFAIL {
        var cp := remap.cp;
        newp, moved := cp + offset, true;
        var psize := newmmsize - offset - FOOT_PAD;
        ghost var d := Mapped(newp, cp, newmmsize);
        Eight(cp);
        MovedChunk(mem, remap.mem, mapped, i, d);
        TotalUpdate(mapped, i, d);
        mem := Framed(remap.mem, newp, psize);
        mapped := mapped[i := d];
        if cp < leastAddr {
          leastAddr := cp;
        }
        footprint := footprint + (newmmsize - oldmmsize);
        if footprint > maxFootprint {
          maxFootprint := footprint;
        }
      }
    }
  }

  /** `mmap_resize` may leave a chunk that does not lie in its region. A block of 200000 bytes aligned to a megabyte
      is asked for; the system answers with memory at a multiple of a megabyte. When the block is to have 300000 bytes
      instead, the region shrinks in place, for the offset is not counted, and ends before the chunk begins. */
  method ResizedOutside() returns (s: MmapState, newp: int)
    ensures !s.Valid() && |s.mapped| == 1 && s.mapped[0].p == newp
    ensures s.mapped[0].base + s.mapped[0].len < newp
  {
    var mm, alignment := 0x1000_0000, 0x10_0000;
    s := new MmapState(4096);
    Sizes();
    Place(mm);
    hide MmapState.Valid, RegionSize, Granted, Carried, Without;
    var r := s.MmapAlloc(1248616, mm);
    ghost var c := Mapped(mm, mm, 1249280);
    assert s.mapped == [c];
    var p := s.AlignChunk(mm, alignment, 200008, 0);
    OnlySpot(mm, p);
    ghost var d := Mapped(p, mm, 1249280);
    assert s.mapped == [d];
    var remap := Remap(mm, s.mem);
    InPlace(s.mem, d);
    ghost var moved;
    newp, moved := s.MmapResize(p, 300008, remap, 0);
  }

  lemma Place(mm: int)
    requires mm == 0x1000_0000
    ensures Granted(mm, 1249280, []) && Granted(mm, 303104, []) && mm % 0x10_0000 == 0
    ensures (mm + MEM_OFFSET) % 0x10_0000 != 0
  {
  }

  lemma InPlace(m: Mem, d: Mapped)
    ensures Without([d], 0) == [] && Carried(m, m, d.base, 1249280, d.base, 303104)
  {
  }

  lemma Sizes()
    ensures RegionSize(1248616, 4096) == 1249280 && RegionSize(300008, 4096) == 303104
  {
  }

  lemma OnlySpot(base: int, p: int)
    requires base % 0x10_0000 == 0 && (p + MEM_OFFSET) % 0x10_0000 == 0 && 0 < p - base < 0x10_0000 + MIN_CHUNK_SIZE
    ensures p == base + 0x10_0000 - MEM_OFFSET
  {
  }

  /** The word `k` bytes into the chunk. */
  function WordAt(m: Mem, c: Mapped, k: int): int { Rd(m, c.p + k) }

  /** What both regions have room for of the payload is the same. */
  ghost predicate PayloadKept(m: Mem, n: Mem, c: Mapped, d: Mapped) {
    forall k :: MEM_OFFSET <= k < d.Size() + HEAD && k < c.Size() + HEAD ==> WordAt(n, d, k) == WordAt(m, c, k)
  }

  /** So is every word that lies in neither region. */
  ghost predicate OutsideKept(m: Mem, n: Mem, c: Mapped, d: Mapped) {
    forall a :: (a < c.base || c.base + c.len <= a) && (a < d.base || d.base + d.len <= a) ==> Rd(n, a) == Rd(m, a)
  }

  lemma OutsideOf(m: Mem, moved: Mem, n: Mem, c: Mapped, d: Mapped)
    requires Carried(m, moved, c.base, c.len, d.base, d.len) && OnlyWithin(moved, n, d.base, d.len)
    ensures OutsideKept(m, n, c, d)
  {
    hide Rd;
  }

  lemma MappedPlace(m: Mem, c: Mapped)
    requires WellMapped(m, c)
    ensures c.p == c.base + c.Offset() && c.Offset() % 8 == 0 && 0 < c.base <= c.p && c.p % 8 == 0 && 0 < c.len
  {
  }

  lemma NotMapped(m: Mem, s: seq<Mapped>, i: nat)
    requires i < |s| && s[i].Size() < MEM_OFFSET
    ensures !AllMapped(m, s)
  {
  }

  lemma MovedChunk(m: Mem, moved: Mem, s: seq<Mapped>, i: nat, d: Mapped)
    requires AllMapped(m, s) && i < |s| && Carried(m, moved, s[i].base, s[i].len, d.base, d.len)
    requires forall j {:trigger Without(s, i)[j]} :: 0 <= j < |Without(s, i)| ==> Apart(Without(s, i)[j], d.base, d.len)
    requires d.base % 8 == 0 && d.len % 8 == 0 && 0 < d.base && d.base + d.len < USER_MAX
    requires d.p == d.base + s[i].Offset()
    ensures var n := Framed(moved, d.p, d.Size());
            && (AllMapped(n, s[i := d]) <==> MEM_OFFSET <= d.Size())
            && (MEM_OFFSET <= d.Size() ==> PayloadKept(m, n, s[i], d) && OutsideKept(m, n, s[i], d))
  {
    hide AllMapped, Framed, Carried, WellMapped, PayloadKept, OutsideKept, Apart;
    EachMapped(m, s, i);
    MappedPlace(m, s[i]);
    if MEM_OFFSET <= d.Size() {
      var n := Framed(moved, d.p, d.Size());
      FramedReads(moved, d);
      Remapped(m, moved, n, s[i], d);
      OutsideOf(m, moved, n, s[i], d);
      MovedMapped(m, moved, n, s, i, d);
    } else {
      NotMapped(Framed(moved, d.p, d.Size()), s[i := d], i);
    }
  }

  lemma Eight(a: int)
    requires a % 4096 == 0
    ensures a % 8 == 0 && (a + MEM_OFFSET) % 8 == 0
  {
  }

  lemma EachMapped(m: Mem, s: seq<Mapped>, i: nat)
    requires AllMapped(m, s) && i < |s|
    ensures WellMapped(m, s[i])
  {
  }

  lemma AlignedPlace(p: int, a: int)
    requires p % 8 == 0 && a % 8 == 0 && MIN_CHUNK_SIZE <= a && (p + MEM_OFFSET) % a != 0 && 0 < p
    ensures var br := (p + MEM_OFFSET + a - 1) / a * a - MEM_OFFSET;
            var newp := if br - p >= MIN_CHUNK_SIZE then br else br + a;
            && p < br < p + a && (newp + MEM_OFFSET) % a == 0 && newp % 8 == 0
            && MIN_CHUNK_SIZE <= newp - p < a + MIN_CHUNK_SIZE
  {
    var x := p + MEM_OFFSET;
    var y := (x + a - 1) / a * a;
    RoundUp(x, a);
    EighthOf(y, a);
    Eighths(p, y, a);
  }

  lemma Eighths(p: int, y: int, a: int)
    requires p % 8 == 0 && y % 8 == 0 && a % 8 == 0
    ensures (y - MEM_OFFSET) % 8 == 0 && (y - MEM_OFFSET + a) % 8 == 0 && (y - MEM_OFFSET - p) % 8 == 0
  {
  }

  lemma Realigned(m: Mem, n: Mem, c: Mapped, d: Mapped)
    requires WellMapped(m, c) && d.base == c.base && d.len == c.len && d.p % 8 == 0
    requires c.p + MIN_CHUNK_SIZE <= d.p && MEM_OFFSET <= d.Size()
    requires n == m[d.p + PREV_FOOT := Foot(m, c.p) + (d.p - c.p)][d.p + HEAD := c.Size() - (d.p - c.p) + CINUSE_BIT]
    ensures WellMapped(n, d) && OnlyWithin(m, n, c.base, c.len)
  {
  }

  /** The region and its first words have moved. */
  lemma Remapped(m: Mem, moved: Mem, n: Mem, c: Mapped, d: Mapped)
    requires WellMapped(m, c) && Carried(m, moved, c.base, c.len, d.base, d.len)
    requires d.base % 8 == 0 && d.len % 8 == 0 && 0 < d.base && d.base + d.len < USER_MAX
    requires d.p == d.base + c.Offset() && MEM_OFFSET <= d.Size()
    requires Foot(n, d.p) == Foot(moved, d.p) && Head(n, d.p) == d.Size() + CINUSE_BIT
    requires Head(n, d.p + d.Size()) == FENCEPOST_HEAD && Head(n, d.p + d.Size() + 8) == 0
    requires forall a :: d.p + MEM_OFFSET <= a < d.p + d.Size() + HEAD ==> Rd(n, a) == Rd(moved, a)
    ensures WellMapped(n, d) && PayloadKept(m, n, c, d)
  {
    hide Rd, Carried;
    MovedWord(m, moved, c, d, 0);
    forall k | MEM_OFFSET <= k < d.Size() + HEAD && k < c.Size() + HEAD
      ensures WordAt(n, d, k) == WordAt(m, c, k)
    {
      assert Rd(n, d.p + k) == Rd(moved, d.p + k);
      MovedWord(m, moved, c, d, k);
    }
  }

  lemma MovedWord(m: Mem, moved: Mem, c: Mapped, d: Mapped, k: int)
    requires Carried(m, moved, c.base, c.len, d.base, d.len) && c.base <= c.p && d.p - d.base == c.p - c.base
    requires 0 <= k < d.Size() + FOOT_PAD && k < c.Size() + FOOT_PAD
    ensures WordAt(moved, d, k) == WordAt(m, c, k)
  {
    assert Rd(moved, d.p + k) == Rd(m, c.base + (d.p + k - d.base));
  }

  lemma MovedMapped(m: Mem, moved: Mem, n: Mem, s: seq<Mapped>, i: nat, d: Mapped)
    requires AllMapped(m, s) && i < |s| && WellMapped(n, d) && OnlyWithin(moved, n, d.base, d.len)
    requires Carried(m, moved, s[i].base, s[i].len, d.base, d.len)
    requires forall j {:trigger Without(s, i)[j]} :: 0 <= j < |Without(s, i)| ==> Apart(Without(s, i)[j], d.base, d.len)
    ensures AllMapped(n, s[i := d])
  {
    var t := s[i := d];
    forall j | 0 <= j < |s| && j != i ensures WellMapped(n, s[j]) && Apart(s[j], d.base, d.len) {
      assert Without(s, i)[if j < i then j else j - 1] == s[j];
      assert Apart(s[j], s[i].base, s[i].len);
      assert WellMapped(m, s[j]);
      BothApart(m, moved, n, s[j], s[i], d);
    }
    forall x, y | 0 <= x < y < |t| ensures Apart(t[x], t[y].base, t[y].len) {
    }
  }

  lemma BothApart(m: Mem, moved: Mem, n: Mem, c: Mapped, from: Mapped, to: Mapped)
    requires WellMapped(m, c) && Apart(c, from.base, from.len) && Apart(c, to.base, to.len)
    requires Carried(m, moved, from.base, from.len, to.base, to.len) && OnlyWithin(moved, n, to.base, to.len)
    ensures WellMapped(n, c)
  {
    assert forall a {:trigger Rd(n, a)} :: c.base <= a < c.base + c.len ==> Rd(n, a) == Rd(m, a);
  }
}
