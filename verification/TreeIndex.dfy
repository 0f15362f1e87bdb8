/** Which tree bin a chunk size belongs to, and the shifted size that steers a descent in that bin. */
module TreeIndex {
  import opened Common
  import opened Memory

  const NTREEBINS := 32
  const MIN_LARGE_SIZE := 256
  const WORD32 := 0x1_0000_0000

  /** Unsigned 32-bit subtraction. */
  function Sub32(a: int, b: int): int { (a - b) % WORD32 }

  function Shl32(a: int, k: nat): int { (a * Pow2(k)) % WORD32 }

  /** `v & bit` for a power of two `bit`. */
  function Mask(v: int, bit: int): int
    requires bit > 0
  {
    v / bit % 2 * bit
  }

  lemma {:induction false} PowPositive(n: nat)
    ensures Pow2(n) > 0
  {
    if n > 0 {
      PowPositive(n - 1);
    }
  }

  /** The portable branch of the source's macro: a four-step normalisation of the 16 bits above the low byte. */
  function ComputeTreeIndex(s: int): nat
    requires 0 <= s < WORD_MAX
  {
    var x := s / 256;
    if x == 0 then 0
    else if x > 0xFFFF then NTREEBINS - 1
    else
      var k := FloorLog(x);
      PowPositive(k + 7);
      2 * k + s / Pow2(k + 7) % 2
  }

  /** `((y - t) >> 16) & bit`: the sign of an unsigned difference, as a shift count. */
  function ShiftIfBelow(y: int, t: int, bit: int): int
    requires bit > 0
  {
    Mask(Sub32(y, t) / 0x1_0000, bit)
  }

  lemma NormaliseStep(y: int, t: int, bit: int)
    requires 0 < y < 0x1_0000 && (t, bit) in {(0x100, 8), (0x1000, 4), (0x4000, 2)}
    ensures ShiftIfBelow(y, t, bit) == if y < t then bit else 0
    ensures Shl32(y, ShiftIfBelow(y, t, bit)) == if y < t then y * Pow2(bit) else y
  {
    assert Sub32(y, t) == if y < t then y - t + WORD32 else y - t;
    assert Sub32(y, t) / 0x1_0000 == if y < t then 0xFFFF else 0;
    PowersTo16();
    assert y < t ==> y * Pow2(bit) < 0x1_0000;
  }

  /** The macro's search for the highest set bit, ending in `14 - N + (Y >> 15)`. */
  function FloorLog(x: int): (k: nat)
    requires 0 < x <= 0xFFFF
    ensures k <= 15
    ensures Pow2(k) <= x < 2 * Pow2(k)
  {
    hide Shl32, ShiftIfBelow, Pow2;
    NormaliseStep(x, 0x100, 8);
    var n1 := ShiftIfBelow(x, 0x100, 8);
    var y1 := Shl32(x, n1);
    PowersTo16();
    NormaliseStep(y1, 0x1000, 4);
    var n2 := ShiftIfBelow(y1, 0x1000, 4);
    var y2 := Shl32(y1, n2);
    NormaliseStep(y2, 0x4000, 2);
    var n3 := ShiftIfBelow(y2, 0x4000, 2);
    var y3 := Shl32(y2, n3);
    NormalisedLog(x, n1 + n2 + n3, y3);
    14 - (n1 + n2 + n3) + y3 / 0x8000
  }

  lemma NormalisedLog(x: int, n: int, y: int)
    requires n in {0, 2, 4, 6, 8, 10, 12, 14} && y == x * Pow2(n) && 0x4000 <= y < 0x1_0000
    ensures var k := 14 - n + y / 0x8000; 0 <= k <= 15 && Pow2(k) <= x < 2 * Pow2(k)
  {
    PowersTo16();
  }

  lemma PowersTo16()
    ensures Pow2(0) == 1 && Pow2(1) == 2 && Pow2(2) == 4 && Pow2(3) == 8 && Pow2(4) == 16 && Pow2(5) == 32
    ensures Pow2(6) == 64 && Pow2(7) == 128 && Pow2(8) == 256 && Pow2(9) == 512 && Pow2(10) == 1024
    ensures Pow2(11) == 2048 && Pow2(12) == 4096 && Pow2(13) == 8192 && Pow2(14) == 16384 && Pow2(15) == 32768
  {
  }

  /** The least size that belongs in tree bin `i`. */
  function MinSizeFor(i: nat): nat {
    Pow2(i / 2 + 8) + i % 2 * Pow2(i / 2 + 7)
  }

  lemma MinSizeForNext(i: nat)
    ensures MinSizeFor(i + 1) == MinSizeFor(i) + Pow2(i / 2 + 7)
  {
    if i % 2 == 0 {
      assert (i + 1) / 2 == i / 2 && (i + 1) % 2 == 1;
    } else {
      assert (i + 1) / 2 == i / 2 + 1 && (i + 1) % 2 == 0;
      assert Pow2(i / 2 + 9) == 2 * Pow2(i / 2 + 8) && Pow2(i / 2 + 8) == 2 * Pow2(i / 2 + 7);
    }
  }

  lemma {:induction false} MinSizeForMonotone(i: nat, j: nat)
    requires i <= j
    ensures MinSizeFor(i) <= MinSizeFor(j)
    decreases j
  {
    if i < j {
      MinSizeForMonotone(i, j - 1);
      MinSizeForNext(j - 1);
    }
  }

  /** Every large size falls in the range of the bin that the macro computes for it. */
  lemma TreeIndexRange(s: int)
    requires MIN_LARGE_SIZE <= s < WORD_MAX
    ensures var i := ComputeTreeIndex(s);
            && i < NTREEBINS
            && MinSizeFor(i) <= s
            && (i < NTREEBINS - 1 ==> s < MinSizeFor(i) + Pow2(i / 2 + 7))
  {
    hide FloorLog, MinSizeFor, Pow2;
    LastBinStart();
    var x := s / 256;
    if 0 < x <= 0xFFFF {
      MiddleBinRange(s, FloorLog(x));
    }
  }

  lemma LastBinStart()
    ensures MinSizeFor(NTREEBINS - 1) == 0xC0_0000
  {
    PowersTo16();
    Pow2Sum(15, 8);
    Pow2Sum(14, 8);
    assert MinSizeFor(31) == Pow2(23) + Pow2(22);
  }

  lemma MiddleBinRange(s: int, k: nat)
    requires Pow2(k) <= s / 256 < 2 * Pow2(k)
    ensures Pow2(k + 7) > 0
    ensures var i := 2 * k + s / Pow2(k + 7) % 2;
            i / 2 == k && MinSizeFor(i) <= s < MinSizeFor(i) + Pow2(i / 2 + 7)
  {
    var p := Pow2(k + 7);
    Pow2Sum(k, 7);
    PowersTo16();
    hide Pow2;
    assert p == 128 * Pow2(k);
    DoublePow(k + 7);
    assert Pow2(k + 8) == 2 * p;
    QuotientTwoOrThree(s, p);
    var i := 2 * k + s / p % 2;
    assert i / 2 == k && i % 2 == s / p % 2;
    assert MinSizeFor(i) == 2 * p + i % 2 * p;
  }

  lemma DoublePow(n: nat)
    ensures Pow2(n + 1) == 2 * Pow2(n)
  {
  }

  lemma QuotientTwoOrThree(s: int, p: nat)
    requires p > 0 && 2 * p <= s < 4 * p
    ensures s / p == if s < 3 * p then 2 else 3
  {
    if s < 3 * p {
      DivIs(s, p, 2);
    } else {
      DivIs(s, p, 3);
    }
  }

  lemma DivIs(s: int, p: nat, q: nat)
    requires p > 0 && q * p <= s < q * p + p
    ensures s / p == q
  {
    var d := s / p;
    assert s == d * p + s % p;
    assert d < q ==> (d + 1) * p <= q * p;
    assert d > q ==> (q + 1) * p <= d * p;
  }

  lemma TreeIndexMonotone(s: int, t: int)
    requires MIN_LARGE_SIZE <= s <= t < WORD_MAX
    ensures ComputeTreeIndex(s) <= ComputeTreeIndex(t)
  {
    hide ComputeTreeIndex, MinSizeFor, Pow2;
    TreeIndexRange(s);
    TreeIndexRange(t);
    var i, j := ComputeTreeIndex(s), ComputeTreeIndex(t);
    if j < i {
      MinSizeForNext(j);
      MinSizeForMonotone(j + 1, i);
    }
  }

  // ---------------------------------------------------------------- the steering word

  /** The sizes a descent in bin `i` tells apart: the bin's own range, or all sizes in the last bin. */
  function BinLo(i: nat): nat {
    if i == NTREEBINS - 1 then 0 else MinSizeFor(i)
  }

  function BinBits(i: nat): nat {
    if i == NTREEBINS - 1 then 64 else i / 2 + 7
  }

  function BinWidth(i: nat): nat {
    Pow2(BinBits(i))
  }

  /** `leftshift_for_tree_index`. */
  function LeftShiftFor(i: nat): nat
    requires i < NTREEBINS
  {
    if i == NTREEBINS - 1 then 0 else 57 - i / 2
  }

  /** `size << leftshift_for_tree_index(i)` in a 64-bit word. */
  function SteeringWord(s: int, i: nat): int
    requires i < NTREEBINS
  {
    s * Pow2(LeftShiftFor(i)) % WORD_MAX
  }

  /** The word `k` holds, left-aligned, the bits of `s` that the interval [lo, lo + w) leaves open. */
  ghost predicate Steers(k: int, s: int, lo: int, w: nat) {
    0 <= k < WORD_MAX && lo <= s < lo + w && k * w == (s - lo) * WORD_MAX
  }

  lemma InBinRange(s: int)
    requires MIN_LARGE_SIZE <= s < WORD_MAX
    ensures var i := ComputeTreeIndex(s); i < NTREEBINS && BinLo(i) <= s < BinLo(i) + BinWidth(i)
  {
    hide ComputeTreeIndex, MinSizeFor, Pow2;
    TreeIndexRange(s);
    Pow64();
  }

  lemma Pow64()
    ensures Pow2(64) == WORD_MAX
  {
    PowersTo16();
    Pow2Sum(8, 8);
    Pow2Sum(16, 16);
    Pow2Sum(32, 32);
  }

  lemma SteeringStart(s: int, i: nat)
    requires i < NTREEBINS && 0 <= s < WORD_MAX && BinLo(i) <= s < BinLo(i) + BinWidth(i)
    ensures Steers(SteeringWord(s, i), s, BinLo(i), BinWidth(i))
  {
    Pow64();
    if i < NTREEBINS - 1 {
      var p, q := Pow2(i / 2 + 7), Pow2(57 - i / 2);
      Pow2Sum(i / 2 + 7, 57 - i / 2);
      assert Pow2(i / 2 + 8) == 2 * p;
      ShiftOut(s, p, q, 2 + i % 2);
    } else {
      assert Pow2(0) == 1;
    }
  }

  /** The bits that the bin fixes leave the word at the top. */
  lemma ShiftOut(s: int, p: nat, q: nat, c: nat)
    requires p > 0 && q > 0 && p * q == WORD_MAX && c * p <= s < c * p + p
    ensures s * q % WORD_MAX * p == (s - c * p) * WORD_MAX
    ensures 0 <= s * q % WORD_MAX < WORD_MAX
  {
    var d := s - c * p;
    calc {
      s * q;
      (c * p + d) * q;
      c * (p * q) + d * q;
      c * WORD_MAX + d * q;
    }
    assert 0 <= d * q;
    assert d * q <= (p - 1) * q == WORD_MAX - q;
    ModIs(s * q, c, d * q);
    calc {
      d * q * p;
      d * (p * q);
    }
  }

  lemma ModIs(a: int, c: nat, r: int)
    requires a == c * WORD_MAX + r && 0 <= r < WORD_MAX
    ensures a % WORD_MAX == r
  {
  }

  /** The sign bit of the steering word says which half holds `s`, and shifting it left steers in that half. */
  lemma SteeringStep(k: int, s: int, lo: int, w: nat)
    requires Steers(k, s, lo, w) && w > 0 && w % 2 == 0
    ensures k >= SIGN_BIT <==> s >= lo + w / 2
    ensures Steers(k * 2 % WORD_MAX, s, if k >= SIGN_BIT then lo + w / 2 else lo, w / 2)
  {
    var h := w / 2;
    assert w == 2 * h;
    assert k * w == 2 * (k * h);
    if k >= SIGN_BIT {
      UpperHalf(k, h, s - lo);
    } else {
      LowerHalf(k, h, s - lo);
    }
  }

  lemma UpperHalf(k: int, h: nat, d: int)
    requires SIGN_BIT <= k < WORD_MAX && k * h == d * SIGN_BIT
    ensures d >= h && k * 2 % WORD_MAX == k * 2 - WORD_MAX && (k * 2 - WORD_MAX) * h == (d - h) * WORD_MAX
  {
    assert k * h >= SIGN_BIT * h;
    assert (k * 2 - WORD_MAX) * h == 2 * (k * h) - WORD_MAX * h;
  }

  lemma LowerHalf(k: int, h: nat, d: int)
    requires 0 <= k < SIGN_BIT && k * h == d * SIGN_BIT && 0 < h
    ensures d < h && k * 2 % WORD_MAX == k * 2 && k * 2 * h == d * WORD_MAX
  {
    Product(k, h);
    assert k * 2 % WORD_MAX == k * 2;
    assert k * 2 * h == 2 * (k * h);
  }

  lemma Product(k: int, h: nat)
    requires k < SIGN_BIT && 0 < h
    ensures k * h < SIGN_BIT * h
  {
    assert (SIGN_BIT - k) * h > 0;
  }
}
