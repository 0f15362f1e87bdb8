/** The arithmetic of requests: padding, alignment, and copying whole words. */
module Requests {
  import opened Common
  import opened Memory
  import opened TreeIndex
  import opened Bins
  import opened Heap
  import opened System

  const MAX_SMALL_REQUEST := 232
  const MIN_REQUEST := 23
  const MAX_REQUEST := 0xffff_ffff_ffff_ff80

  /** `chunk2mem` adds this to the address of a chunk. */
  const MEM_OFFSET := 16

  /** `pad_request`. */
  function PadRequest(req: int): int { (req + CHUNK_OVERHEAD + 15) / 16 * 16 }

  /** `request2size`. */
  function Request2Size(req: int): int { if req < MIN_REQUEST then MIN_CHUNK_SIZE else PadRequest(req) }

  /** The size that `malloc` looks for: one no system can grant where the request is too large. */
  function NeedOf(bytes: int): int { if bytes >= MAX_REQUEST then CMFAIL else Request2Size(bytes) }

  /** The padded size leaves room for the request and the chunk's own overhead, and wastes less than 32 bytes. */
  lemma RequestFits(req: int)
    requires 0 <= req < MAX_REQUEST
    ensures var s := Request2Size(req);
            && s % 16 == 0 && MIN_CHUNK_SIZE <= s < WORD_MAX && req + CHUNK_OVERHEAD <= s
            && (s > MIN_CHUNK_SIZE ==> s < req + CHUNK_OVERHEAD + 16)
            && (req <= MAX_SMALL_REQUEST ==> s <= 240) && (req > MAX_SMALL_REQUEST ==> s >= MIN_LARGE_SIZE)
  {
  }

  lemma NeedIs(bytes: int)
    requires 0 <= bytes < WORD_MAX
    ensures var nb := NeedOf(bytes);
            if bytes >= MAX_REQUEST then nb == CMFAIL else nb % 16 == 0 && MIN_CHUNK_SIZE <= nb < WORD_MAX
  {
    if bytes < MAX_REQUEST {
      RequestFits(bytes);
    }
  }

  /** Doubling `a` until it is at least `alignment`. */
  function RoundAlignment(alignment: int, a: int): (r: int)
    requires 0 < a
    ensures a <= r && alignment <= r
    decreases alignment - a
  {
    if alignment <= a then a else RoundAlignment(alignment, 2 * a)
  }

  /** The alignment that `internal_memalign` uses: `alignment` itself where that is a power of two it allows. */
  function EffectiveAlignment(alignment: int): int { RoundAlignment(alignment, MIN_CHUNK_SIZE) }

  /** `a` doubled `k` times. */
  function Doubled(a: int, k: nat): int
    decreases k
  {
    if k == 0 then a else Doubled(2 * a, k - 1)
  }

  lemma {:induction false} DoubledStays(a: int, k: nat)
    requires 0 < a
    decreases k
    ensures a <= Doubled(a, k) && RoundAlignment(Doubled(a, k), a) == Doubled(a, k)
  {
    if k > 0 {
      DoubledStays(2 * a, k - 1);
    }
  }

  lemma {:induction false} DoubledIs(a: int, k: nat)
    decreases k
    ensures Doubled(a, k) == a * Pow2(k)
  {
    if k > 0 {
      DoubledIs(2 * a, k - 1);
      assert Pow2(k) == 2 * Pow2(k - 1);
    }
  }

  /** The doubling in a 64-bit word reaches the alignment exactly if that is at most `2^63`. Above, the word becomes
      zero first and stays so. */
  lemma DoublingEnds(alignment: int)
    requires 0 <= alignment < WORD_MAX
    ensures alignment <= SIGN_BIT <==> exists k: nat :: alignment <= Doubled(MIN_CHUNK_SIZE, k) % WORD_MAX
  {
    forall k: nat
      ensures Doubled(MIN_CHUNK_SIZE, k) % WORD_MAX <= SIGN_BIT
      ensures k == 58 ==> Doubled(MIN_CHUNK_SIZE, k) % WORD_MAX == SIGN_BIT
    {
      DoubledWord(k);
    }
    assert Doubled(MIN_CHUNK_SIZE, 58) % WORD_MAX == SIGN_BIT;
  }

  lemma DoubledWord(k: nat)
    ensures Doubled(MIN_CHUNK_SIZE, k) % WORD_MAX <= SIGN_BIT
    ensures k == 58 ==> Doubled(MIN_CHUNK_SIZE, k) % WORD_MAX == SIGN_BIT
  {
    DoubledIs(MIN_CHUNK_SIZE, k);
    Pow2Sum(5, k);
    assert Pow2(5) == 32;
    Pow64();
    assert Pow2(64) == 2 * Pow2(63);
    hide Pow2, Doubled;
    if k <= 58 {
      Pow2Rises(5 + k, 63);
    } else {
      Pow2Sum(64, k - 59);
      MultipleMod(Pow2(k - 59), WORD_MAX);
    }
  }

  lemma {:induction false} RoundedMultiple(alignment: int, a: int)
    requires 0 < a && a % 16 == 0
    ensures RoundAlignment(alignment, a) % 16 == 0
    decreases alignment - a
  {
    if alignment > a {
      RoundedMultiple(alignment, 2 * a);
    }
  }

  /** The first multiple of `a` at or above `x`. */
  function RoundUpTo(x: int, a: int): int
    requires 0 < a
  {
    (x + a - 1) / a * a
  }

  lemma RoundUpFacts(x: int, a: int)
    requires 0 < a && a % 16 == 0 && 0 <= x && x % 16 == 0 && x % a != 0
    ensures var y := RoundUpTo(x, a); x < y < x + a && y % a == 0 && y % 16 == 0 && (y + a) % a == 0
  {
    RoundUp(x, a);
    MultipleOf16((x + a - 1) / a, a);
  }

  lemma MultipleOf16(q: int, a: int)
    requires a % 16 == 0
    ensures (q * a) % 16 == 0
  {
    var j := a / 16;
    assert q * a == 16 * (q * j);
  }

  /** `n` bytes in whole words. */
  function WordUp(n: int): int { (n + 7) / 8 * 8 }

  lemma WordUpIs(n: int, k: int)
    requires k % 8 == 0 && n <= k
    ensures n <= WordUp(n) <= k && (k < n + 8 ==> k == WordUp(n))
  {
  }

  lemma BelowWordUp(n: int, k: int)
    requires k % 8 == 0 && k < n
    ensures k + 8 <= WordUp(n)
  {
  }

  lemma WordUpFits(n: int, s: int)
    requires s % 16 == 0 && n + CHUNK_OVERHEAD <= s
    ensures WordUp(n) + CHUNK_OVERHEAD <= s
  {
    WordUpIs(n, s - CHUNK_OVERHEAD);
  }

  lemma SameWord(k: int, i: int)
    requires k % 8 == 0 && i % 8 == 0 && k <= i < k + 8
    ensures i == k
  {
  }

  /** The chunk that holds a spot to spare is exactly as large as was meant. */
  lemma PaddedTo16(k: int, req: int)
    requires k % 16 == 0 && 0 < k && req == k + MIN_CHUNK_SIZE - CHUNK_OVERHEAD
    ensures Request2Size(req) == k + MIN_CHUNK_SIZE
  {
  }

  /** The aligned spot, or the next one where the first leaves no room for a chunk before it. */
  lemma LeaderAligned(p: int, br: int, a: int, newp: int)
    requires p % 16 == 0 && a % 16 == 0 && MIN_CHUNK_SIZE <= a
    requires p < br < p + a && (br + MEM_OFFSET) % a == 0 && (br + MEM_OFFSET + a) % a == 0
             && (br + MEM_OFFSET) % 16 == 0
    requires newp == if br - p >= MIN_CHUNK_SIZE then br else br + a
    ensures (newp + MEM_OFFSET) % a == 0 && newp % 16 == 0 && (newp - p) % 16 == 0
    ensures MIN_CHUNK_SIZE <= newp - p <= a + 16
  {
    LeaderMod(p, br, a);
    assert newp == br || newp + MEM_OFFSET == br + MEM_OFFSET + a;
  }

  lemma LeaderMod(p: int, br: int, a: int)
    requires p % 16 == 0 && a % 16 == 0 && (br + MEM_OFFSET) % 16 == 0
    ensures br % 16 == 0 && (br + a) % 16 == 0 && (br - p) % 16 == 0 && (br + a - p) % 16 == 0
    ensures br < p + a ==> br + 16 <= p + a
    ensures p < br ==> p + 16 <= br
  {
    var i, j, k := p / 16, a / 16, (br + MEM_OFFSET) / 16 - 1;
    assert p == 16 * i && a == 16 * j && br == 16 * k;
    Sixteen(k);
    Sixteen(k + j);
    Sixteen(k - i);
    Sixteen(k + j - i);
  }

  lemma Sixteen(k: int)
    ensures 16 * k % 16 == 0
  {
  }
}
