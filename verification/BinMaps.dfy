/** The 32-bit maps of non-empty bins, and the bit tricks that find the lowest of them. */
module BinMaps {
  type BinIndex = i: nat | i < 32

  function And(m: bv32, x: bv32): bv32 { m & x }

  function Or(m: bv32, x: bv32): bv32 { m | x }

  function AndNot(m: bv32, x: bv32): bv32 { m & !x }

  function Idx2Bit(i: BinIndex): bv32 { (1 as bv32) << (i as bv6) }

  predicate Marked(m: bv32, i: BinIndex) { And(m, Idx2Bit(i)) != 0 }

  function MarkBit(m: bv32, i: BinIndex): bv32 { Or(m, Idx2Bit(i)) }

  function ClearBit(m: bv32, i: BinIndex): bv32 { AndNot(m, Idx2Bit(i)) }

  /** Isolates the lowest set bit. */
  function LeastBit(x: bv32): bv32 { x & (0 - x) }

  /** All bits to the left of the lowest set bit. */
  function LeftBits(x: bv32): bv32 { (x << 1) | (0 - (x << 1)) }

  /** The portable branch of `compute_bit2idx`. */
  function ComputeBit2Idx(x: bv32): bv32 {
    var y0 := x - 1;
    var k0 := (y0 >> 12) & 16;
    var y1 := y0 >> k0;
    var k1 := (y1 >> 5) & 8;
    var y2 := y1 >> k1;
    var k2 := (y2 >> 2) & 4;
    var y3 := y2 >> k2;
    var k3 := (y3 >> 1) & 2;
    var y4 := y3 >> k3;
    var k4 := y4 & 1;
    var y5 := y4 >> k4;
    k0 + k1 + k2 + k3 + k4 + y5
  }

  lemma BitsDiffer(i: BinIndex, j: BinIndex)
    ensures Idx2Bit(i) != 0
    ensures i != j ==> And(Idx2Bit(i), Idx2Bit(j)) == 0
  {
  }

  lemma RawDisjoint(m: bv32, x: bv32, y: bv32)
    requires x & y == 0
    ensures (m | x) & y == m & y && (m & !x) & y == m & y
  {
  }

  lemma DisjointBits(m: bv32, x: bv32, y: bv32)
    requires And(x, y) == 0
    ensures And(Or(m, x), y) == And(m, y)
    ensures And(AndNot(m, x), y) == And(m, y)
  {
    RawDisjoint(m, x, y);
  }

  lemma SameBit(m: bv32, x: bv32)
    requires x != 0
    ensures And(Or(m, x), x) != 0
    ensures And(AndNot(m, x), x) == 0
  {
  }

  /** Marking and clearing one bin leaves the marks of the others. */
  lemma MarkClear(m: bv32, i: BinIndex)
    ensures Marked(MarkBit(m, i), i) && !Marked(ClearBit(m, i), i)
    ensures forall j: BinIndex :: j != i ==> Marked(MarkBit(m, i), j) == Marked(m, j)
    ensures forall j: BinIndex :: j != i ==> Marked(ClearBit(m, i), j) == Marked(m, j)
  {
    hide Idx2Bit, And, Or, AndNot;
    BitsDiffer(i, i);
    SameBit(m, Idx2Bit(i));
    forall j: BinIndex | j != i
      ensures Marked(MarkBit(m, i), j) == Marked(m, j)
      ensures Marked(ClearBit(m, i), j) == Marked(m, j)
    {
      BitsDiffer(i, j);
      DisjointBits(m, Idx2Bit(i), Idx2Bit(j));
    }
  }

  lemma LeastNotBelow(m: bv32, i: BinIndex, j: BinIndex)
    requires LeastBit(m) == Idx2Bit(i) && j < i
    ensures !Marked(m, j)
  {
    RawLeastNotBelow(m, i, j);
    hide Idx2Bit;
  }

  lemma RawLeastNotBelow(m: bv32, i: BinIndex, j: BinIndex)
    requires m & (0 - m) == Idx2Bit(i) && j < i
    ensures m & Idx2Bit(j) == 0
  {
  }

  lemma LeastIsMember(m: bv32, i: BinIndex)
    requires LeastBit(m) == Idx2Bit(i)
    ensures Marked(m, i)
  {
    BitsDiffer(i, i);
    hide Idx2Bit;
  }

  lemma RawLeastIsPower(m: bv32)
    requires m != 0
    ensures ComputeBit2Idx(m & (0 - m)) < 32
    ensures m & (0 - m) == (1 as bv32) << (ComputeBit2Idx(m & (0 - m)) as bv6)
  {
  }

  lemma LeastIsPower(m: bv32)
    requires m != 0
    ensures ComputeBit2Idx(LeastBit(m)) < 32
    ensures LeastBit(m) == Idx2Bit(ComputeBit2Idx(LeastBit(m)) as nat)
  {
    RawLeastIsPower(m);
    hide ComputeBit2Idx;
  }

  /** The index that `least_bit` and `compute_bit2idx` find. */
  function LeastIndex(m: bv32): (i: BinIndex)
    requires m != 0
    ensures Marked(m, i)
    ensures forall j: BinIndex :: j < i ==> !Marked(m, j)
  {
    LeastIndexIsLeast(m);
    ComputeBit2Idx(LeastBit(m)) as nat
  }

  lemma LeastIndexIsLeast(m: bv32)
    requires m != 0
    ensures var i := ComputeBit2Idx(LeastBit(m)) as nat;
            i < 32 && Marked(m, i) && forall j: BinIndex :: j < i ==> !Marked(m, j)
  {
    LeastIsPower(m);
    hide ComputeBit2Idx, Idx2Bit, LeastBit, Marked;
    var i: BinIndex := ComputeBit2Idx(LeastBit(m)) as nat;
    LeastIsMember(m, i);
    forall j: BinIndex | j < i
      ensures !Marked(m, j)
    {
      LeastNotBelow(m, i, j);
    }
  }

  lemma RawLeftOf(s: bv6, t: bv6)
    requires s < 32 && t < 32
    ensures ((((1 as bv32) << s) << 1) | (0 - (((1 as bv32) << s) << 1))) & ((1 as bv32) << t)
         == if s < t then (1 as bv32) << t else 0
  {
  }

  lemma BitLeftOf(s: bv6, t: bv6)
    requires s < 32 && t < 32
    ensures s < t ==> And(LeftBits(Bit(s)), Bit(t)) == Bit(t)
    ensures s >= t ==> And(LeftBits(Bit(s)), Bit(t)) == 0
  {
    if s < t {
      RawLeftOf(s, t);
    } else {
      RawLeftOf(s, t);
    }
  }

  lemma LeftOf(i: BinIndex, j: BinIndex)
    ensures And(LeftBits(Idx2Bit(i)), Idx2Bit(j)) == if i < j then Idx2Bit(j) else 0
    ensures Idx2Bit(j) != 0
  {
    BitsDiffer(j, j);
    BitIs(i);
    BitIs(j);
    ShiftOrder(i, j);
    hide And, LeftBits, Bit, Idx2Bit;
    BitLeftOf(i as bv6, j as bv6);
  }

  lemma Regroup(l: bv32, m: bv32, b: bv32)
    ensures And(l, b) == 0 ==> And(And(l, m), b) == 0
    ensures And(l, b) == b ==> And(And(l, m), b) == And(m, b)
  {
  }

  /** Masking with `left_bits(idx2bit(i))` keeps exactly the bins above `i`. */
  lemma LeftBitsKeep(m: bv32, i: BinIndex)
    ensures forall j: BinIndex :: Marked(And(LeftBits(Idx2Bit(i)), m), j) <==> Marked(m, j) && i < j
  {
    hide Idx2Bit, LeftBits, And;
    forall j: BinIndex
      ensures Marked(And(LeftBits(Idx2Bit(i)), m), j) <==> Marked(m, j) && i < j
    {
      LeftOf(i, j);
      Regroup(LeftBits(Idx2Bit(i)), m, Idx2Bit(j));
    }
  }

  /** `left_bits(idx2bit(idx)) & treemap`. */
  function HigherBits(m: bv32, i: BinIndex): bv32 { And(LeftBits(Idx2Bit(i)), m) }

  lemma HigherBitsKeep(m: bv32, i: BinIndex)
    ensures forall j: BinIndex :: Marked(HigherBits(m, i), j) <==> Marked(m, j) && i < j
    ensures HigherBits(m, i) == 0 ==> forall j: BinIndex :: i < j ==> !Marked(m, j)
  {
    LeftBitsKeep(m, i);
    ZeroMeansNone(HigherBits(m, i));
    hide Marked, And, LeftBits, Idx2Bit;
  }

  /** A map is zero exactly when no bin is marked. */
  lemma ZeroMeansNone(m: bv32)
    ensures m == 0 <==> forall i: BinIndex :: !Marked(m, i)
  {
    if m != 0 {
      var i := LeastIndex(m);
    } else {
      ZeroAnd();
    }
  }

  lemma ZeroAnd()
    ensures forall x: bv32 :: And(0, x) == 0
  {
  }

  // ---------------------------------------------------------------- the small map seen from one bin

  /** `smallmap >> idx`. */
  function SmallBits(m: bv32, i: BinIndex): bv32 {
    ShiftAmount(i);
    Shr(m, i as bv6)
  }

  function Shr(m: bv32, s: bv6): bv32
    requires s < 32
  {
    m >> s
  }

  function Shl(m: bv32, s: bv6): bv32
    requires s < 32
  {
    m << s
  }

  function Bit(s: bv6): bv32
    requires s < 32
  {
    (1 as bv32) << s
  }

  /** The bits above `idx`: `(smallbits << idx) & left_bits(idx2bit(idx))`. */
  function BitsAbove(m: bv32, i: BinIndex): bv32 {
    ShiftAmount(i);
    And(Shl(SmallBits(m, i), i as bv6), LeftBits(Idx2Bit(i)))
  }

  /** The low two bits: the bin itself or the next. */
  predicate NearBits(x: bv32) { x & 3 != 0 }

  /** `~smallbits & 1`. */
  function EmptyBit(x: bv32): bv32 { !x & 1 }

  lemma LowBit(m: bv32, s: bv6)
    requires s < 32
    ensures EmptyBit(Shr(m, s)) == if m & Bit(s) != 0 then 0 else 1
  {
  }

  lemma ShrTwice(m: bv32, s: bv6)
    requires s < 31
    ensures Shr(Shr(m, s), 1) == Shr(m, s + 1)
  {
  }

  lemma TwoBits(x: bv32)
    ensures !NearBits(x) <==> EmptyBit(x) != 0 && EmptyBit(Shr(x, 1)) != 0
  {
  }

  lemma ShiftAmount(i: BinIndex)
    ensures (i as bv6) < 32
  {
  }

  lemma ShiftOrder(i: BinIndex, j: BinIndex)
    ensures (i as bv6) < (j as bv6) <==> i < j
  {
  }

  lemma ShiftNext(i: nat)
    requires i < 31
    ensures ((i + 1) as bv6) == (i as bv6) + 1 && (i as bv6) < 31
  {
    ShiftOrder(i, 31);
  }

  lemma BitIs(i: BinIndex)
    ensures (i as bv6) < 32 && Idx2Bit(i) == Bit(i as bv6)
  {
    ShiftAmount(i);
  }

  lemma Masked(m: bv32, x: bv32)
    ensures And(m, x) == m & x
  {
  }

  lemma OwnBit(m: bv32, i: BinIndex)
    ensures EmptyBit(SmallBits(m, i)) == if Marked(m, i) then 0 else 1
  {
    BitIs(i);
    Masked(m, Idx2Bit(i));
    hide EmptyBit, Shr, And, Idx2Bit, Bit;
    LowBit(m, i as bv6);
  }

  /** A remainderless fit is in the bin itself or the next one. */
  lemma NearBin(m: bv32, i: BinIndex)
    requires i < 31
    ensures NearBits(SmallBits(m, i)) <==> Marked(m, i) || Marked(m, i + 1)
    ensures EmptyBit(SmallBits(m, i)) == if Marked(m, i) then 0 else 1
  {
    hide Marked, EmptyBit, Shr, NearBits;
    ShiftNext(i);
    OwnBit(m, i);
    OwnBit(m, i + 1);
    ShrTwice(m, i as bv6);
    TwoBits(SmallBits(m, i));
  }

  lemma RawAbove(m: bv32, s: bv6, t: bv6)
    requires s < 32 && t < 32
    ensures (((m >> s) << s) & ((((1 as bv32) << s) << 1) | (0 - (((1 as bv32) << s) << 1)))) & ((1 as bv32) << t)
         == if s < t then m & ((1 as bv32) << t) else 0
  {
  }

  lemma BitsFrom(m: bv32, s: bv6, t: bv6)
    requires s < 32 && t < 32
    ensures s < t ==> And(And(Shl(Shr(m, s), s), LeftBits(Bit(s))), Bit(t)) == And(m, Bit(t))
    ensures s >= t ==> And(And(Shl(Shr(m, s), s), LeftBits(Bit(s))), Bit(t)) == 0
  {
    if s < t {
      RawAbove(m, s, t);
    } else {
      RawAbove(m, s, t);
    }
  }

  /** The bins above `i`, as the small map seen from `i` shows them. */
  lemma AboveBin(m: bv32, i: BinIndex)
    ensures forall j: BinIndex :: Marked(BitsAbove(m, i), j) <==> Marked(m, j) && i < j
  {
    hide And, LeftBits, Shl, Shr, Idx2Bit, Bit;
    forall j: BinIndex
      ensures Marked(BitsAbove(m, i), j) <==> Marked(m, j) && i < j
    {
      BitIs(i);
      BitIs(j);
      ShiftOrder(i, j);
      BitsFrom(m, i as bv6, j as bv6);
    }
  }

  lemma RawSome(m: bv32, s: bv6)
    requires s < 32 && Shr(m, s) != 0 && !NearBits(Shr(m, s))
    ensures And(Shl(Shr(m, s), s), LeftBits(Bit(s))) != 0
  {
  }

  lemma SomeAbove(m: bv32, i: BinIndex)
    requires SmallBits(m, i) != 0 && !NearBits(SmallBits(m, i))
    ensures BitsAbove(m, i) != 0
  {
    hide And, LeftBits, Shl, Shr, NearBits, Idx2Bit, Bit;
    BitIs(i);
    RawSome(m, i as bv6);
  }

  lemma ZeroShift(s: bv6)
    requires s < 32
    ensures Shl(0, s) == 0 && EmptyBit(0) == 1
  {
  }

  /** Where nothing is left after the shift, no bin from `i` on is marked. */
  lemma NoneFrom(m: bv32, i: BinIndex)
    requires SmallBits(m, i) == 0
    ensures forall j: BinIndex :: i <= j ==> !Marked(m, j)
  {
    hide And, Shl, Shr, EmptyBit, LeftBits, Idx2Bit;
    ShiftAmount(i);
    ZeroShift(i as bv6);
    OwnBit(m, i);
    AboveBin(m, i);
    ZeroAnd();
    forall j: BinIndex | i < j
      ensures !Marked(m, j)
    {
      assert !Marked(BitsAbove(m, i), j);
    }
  }
}
