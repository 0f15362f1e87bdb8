/** The Adler-32 checksum with reduction deferred over blocks. */
module Adler {
  const BASE := 65521
  const NMAX := 5552

  /** Where the program adds two of these, the sum must be one as well: nothing wraps around. */
  newtype UInt = x: int | 0 <= x < 0x1_0000_0000
  newtype UChar = x: int | 0 <= x < 256

  datatype Buffer = Null | Bytes(data: seq<UChar>)

  // ---------------------------------------------------------------- the definition

  /** The two sums, reduced after every byte. */
  function Fold(a: int, b: int, s: seq<UChar>): (int, int)
    decreases |s|
  {
    if s == [] then (a, b)
    else var a' := (a + s[0] as int) % BASE; Fold(a', (b + a') % BASE, s[1..])
  }

  /** The checksum of `s`, continued from `state`. */
  function Checksum(state: int, s: seq<UChar>): int {
    var (a, b) := Fold(state % 0x1_0000, state / 0x1_0000, s);
    b * 0x1_0000 + a
  }

  /** Both halves of the state are reduced. */
  predicate Reduced(state: int) { 0 <= state && state % 0x1_0000 < BASE && state / 0x1_0000 < BASE }

  function Sum(s: seq<UChar>): int { if s == [] then 0 else Sum(s[..|s| - 1]) + s[|s| - 1] as int }

  /** The sum of all values that the first sum takes. */
  function SumOfSums(s: seq<UChar>): int { if s == [] then 0 else SumOfSums(s[..|s| - 1]) + 1 + Sum(s) }

  lemma {:induction false} FoldConcat(a: int, b: int, x: seq<UChar>, y: seq<UChar>)
    ensures var (c, d) := Fold(a, b, x); Fold(a, b, x + y) == Fold(c, d, y)
    decreases |x|
  {
    if x == [] {
      assert x + y == y;
    } else {
      assert (x + y)[1..] == x[1..] + y;
      var a' := (a + x[0] as int) % BASE;
      FoldConcat(a', (b + a') % BASE, x[1..], y);
    }
  }

  lemma {:induction false} FoldReduced(a: int, b: int, s: seq<UChar>)
    requires 0 <= a < BASE && 0 <= b < BASE
    ensures var (c, d) := Fold(a, b, s); 0 <= c < BASE && 0 <= d < BASE
    decreases |s|
  {
    if s != [] {
      var a' := (a + s[0] as int) % BASE;
      FoldReduced(a', (b + a') % BASE, s[1..]);
    }
  }

  lemma Halves(a: int, b: int)
    requires 0 <= a < 0x1_0000 && 0 <= b
    ensures (b * 0x1_0000 + a) % 0x1_0000 == a && (b * 0x1_0000 + a) / 0x1_0000 == b
  {
  }

  /** Continuing with `y` after `x` is the checksum of both. */
  lemma ChecksumConcat(state: int, x: seq<UChar>, y: seq<UChar>)
    requires Reduced(state)
    ensures Reduced(Checksum(state, x)) && Checksum(Checksum(state, x), y) == Checksum(state, x + y)
  {
    var (c, d) := Fold(state % 0x1_0000, state / 0x1_0000, x);
    FoldReduced(state % 0x1_0000, state / 0x1_0000, x);
    Halves(c, d);
    FoldConcat(state % 0x1_0000, state / 0x1_0000, x, y);
  }

  lemma ModAdd(x: int, y: int)
    ensures (x % BASE + y) % BASE == (x + y) % BASE
  {
  }

  /** Section 2.2 of RFC 1950: from the state 1, the first sum is one plus the sum of the bytes, the second the sum of
      all values of the first, both modulo 65521. */
  lemma {:induction false} ChecksumIsRfc1950(s: seq<UChar>)
    ensures Fold(1, 0, s) == ((1 + Sum(s)) % BASE, SumOfSums(s) % BASE)
  {
    if s != [] {
      var x, y := s[..|s| - 1], [s[|s| - 1]];
      assert s == x + y;
      ChecksumIsRfc1950(x);
      FoldConcat(1, 0, x, y);
      assert y[1..] == [];
      ModAdd(1 + Sum(x), y[0] as int);
      ModAdd(SumOfSums(x), (1 + Sum(s)) % BASE);
      ModAdd(1 + Sum(s), SumOfSums(x));
    }
  }

  // ---------------------------------------------------------------- deferred reduction

  /** The two sums without reduction. */
  function Run(a: int, b: int, s: seq<UChar>): (int, int)
    decreases |s|
  {
    if s == [] then (a, b) else Run(a + s[0] as int, b + a + s[0] as int, s[1..])
  }

  lemma {:induction false} RunConcat(a: int, b: int, x: seq<UChar>, y: seq<UChar>)
    ensures var (c, d) := Run(a, b, x); Run(a, b, x + y) == Run(c, d, y)
    decreases |x|
  {
    if x == [] {
      assert x + y == y;
    } else {
      assert (x + y)[1..] == x[1..] + y;
      RunConcat(a + x[0] as int, b + a + x[0] as int, x[1..], y);
    }
  }

  /** Reducing at the end is reducing after every byte. */
  lemma {:induction false} RunIsFold(a: int, b: int, s: seq<UChar>)
    ensures var ((c, d), (e, f)) := (Run(a, b, s), Fold(a % BASE, b % BASE, s)); c % BASE == e && d % BASE == f
    decreases |s|
  {
    if s != [] {
      var x := s[0] as int;
      RunIsFold(a + x, b + a + x, s[1..]);
      ModAdd(a, x);
      ModAdd(b, (a + x) % BASE);
      ModAdd(a + x, b);
    }
  }

  /** How large the sums can get: `k` bytes on, if they started below `BASE`. */
  function Most(k: int): int { (k + 1) * (BASE - 1) + 255 * k * (k + 1) / 2 }

  predicate Within(a: int, b: int, k: int) { 0 <= k && 0 <= a <= BASE - 1 + 255 * k && 0 <= b <= Most(k) }

  lemma MostStep(k: int)
    requires 0 <= k
    ensures Most(k + 1) == Most(k) + (BASE - 1) + 255 * (k + 1)
  {
    assert 255 * (k + 1) * (k + 2) == 255 * k * (k + 1) + 2 * (255 * (k + 1));
  }

  lemma {:induction false} MostRises(k: int, n: int)
    requires 0 <= k <= n
    ensures Most(k) <= Most(n)
    decreases n - k
  {
    if k < n {
      MostStep(k);
      MostRises(k + 1, n);
    }
  }

  lemma Fits()
    ensures Most(NMAX) < 0x1_0000_0000 <= Most(NMAX + 1)
  {
  }

  /** No block of `n` bytes, from sums that are reduced, takes a sum past 32 bits. */
  ghost predicate NeverOverflows(n: nat) {
    forall a, b, s: seq<UChar> :: |s| == n && 0 <= a < BASE && 0 <= b < BASE ==>
      var (c, d) := Run(a, b, s); c < 0x1_0000_0000 && d < 0x1_0000_0000
  }

  lemma {:induction false} RunWithin(a: int, b: int, s: seq<UChar>, k: int)
    requires Within(a, b, k)
    ensures var (c, d) := Run(a, b, s); Within(c, d, k + |s|)
    decreases |s|
  {
    if s != [] {
      hide Most;
      MostStep(k);
      RunWithin(a + s[0] as int, b + a + s[0] as int, s[1..], k + 1);
    }
  }

  /** The sums get as large as they can. */
  lemma {:induction false} RunMost(s: seq<UChar>, k: int)
    requires 0 <= k && forall i :: 0 <= i < |s| ==> s[i] == 255
    ensures Run(BASE - 1 + 255 * k, Most(k), s) == (BASE - 1 + 255 * (k + |s|), Most(k + |s|))
    decreases |s|
  {
    if s != [] {
      hide Most;
      MostStep(k);
      RunMost(s[1..], k + 1);
    }
  }

  /** `NMAX` bytes are what fits, and no more. */
  lemma NmaxIsMost(n: nat)
    ensures NeverOverflows(n) <==> n <= NMAX
  {
    Fits();
    assert Most(0) == BASE - 1;
    hide Most, Run;
    if n <= NMAX {
      MostRises(n, NMAX);
      forall a, b, s: seq<UChar> | |s| == n && 0 <= a < BASE && 0 <= b < BASE
        ensures var (c, d) := Run(a, b, s); c < 0x1_0000_0000 && d < 0x1_0000_0000
      {
        RunWithin(a, b, s, 0);
      }
    } else {
      var s: seq<UChar> := seq(n, _ => 255 as UChar);
      MostRises(NMAX + 1, n);
      RunMost(s, 0);
      assert !(Run(BASE - 1, BASE - 1, s).1 < 0x1_0000_0000);
    }
  }

  /** `DO1`, at most `NMAX` bytes into a block. */
  method Do1(a0: UInt, b0: UInt, buf: seq<UChar>, i: nat, ghost k: nat) returns (a: UInt, b: UInt)
    requires i < |buf| && k < NMAX && Within(a0 as int, b0 as int, k)
    ensures Within(a as int, b as int, k + 1) && (a as int, b as int) == Run(a0 as int, b0 as int, buf[i..i + 1])
  {
    MostStep(k);
    MostRises(k + 1, NMAX);
    Fits();
    a := a0 + buf[i] as UInt;
    b := b0 + a;
    assert buf[i..i + 1] == [buf[i]] && [buf[i]][1..] == [];
  }

  lemma RunSlices(a: int, b: int, buf: seq<UChar>, i: nat, j: nat, k: nat)
    requires i <= j <= k <= |buf|
    ensures var (c, d) := Run(a, b, buf[i..j]); Run(c, d, buf[j..k]) == Run(a, b, buf[i..k])
  {
    RunConcat(a, b, buf[i..j], buf[j..k]);
    assert buf[i..k] == buf[i..j] + buf[j..k];
  }

  method Do2(a0: UInt, b0: UInt, buf: seq<UChar>, i: nat, ghost k: nat) returns (a: UInt, b: UInt)
    requires i + 2 <= |buf| && k + 2 <= NMAX && Within(a0 as int, b0 as int, k)
    ensures Within(a as int, b as int, k + 2) && (a as int, b as int) == Run(a0 as int, b0 as int, buf[i..i + 2])
  {
    hide Run, Within;
    a, b := Do1(a0, b0, buf, i, k);
    a, b := Do1(a, b, buf, i + 1, k + 1);
    RunSlices(a0 as int, b0 as int, buf, i, i + 1, i + 2);
  }

  method Do4(a0: UInt, b0: UInt, buf: seq<UChar>, i: nat, ghost k: nat) returns (a: UInt, b: UInt)
    requires i + 4 <= |buf| && k + 4 <= NMAX && Within(a0 as int, b0 as int, k)
    ensures Within(a as int, b as int, k + 4) && (a as int, b as int) == Run(a0 as int, b0 as int, buf[i..i + 4])
  {
    hide Run, Within;
    a, b := Do2(a0, b0, buf, i, k);
    a, b := Do2(a, b, buf, i + 2, k + 2);
    RunSlices(a0 as int, b0 as int, buf, i, i + 2, i + 4);
  }

  method Do8(a0: UInt, b0: UInt, buf: seq<UChar>, i: nat, ghost k: nat) returns (a: UInt, b: UInt)
    requires i + 8 <= |buf| && k + 8 <= NMAX && Within(a0 as int, b0 as int, k)
    ensures Within(a as int, b as int, k + 8) && (a as int, b as int) == Run(a0 as int, b0 as int, buf[i..i + 8])
  {
    hide Run, Within;
    a, b := Do4(a0, b0, buf, i, k);
    a, b := Do4(a, b, buf, i + 4, k + 4);
    RunSlices(a0 as int, b0 as int, buf, i, i + 4, i + 8);
  }

  method Do16(a0: UInt, b0: UInt, buf: seq<UChar>, i: nat, ghost k: nat) returns (a: UInt, b: UInt)
    requires i + 16 <= |buf| && k + 16 <= NMAX && Within(a0 as int, b0 as int, k)
    ensures Within(a as int, b as int, k + 16) && (a as int, b as int) == Run(a0 as int, b0 as int, buf[i..i + 16])
  {
    hide Run, Within;
    a, b := Do8(a0, b0, buf, i, k);
    a, b := Do8(a, b, buf, i + 8, k + 8);
    RunSlices(a0 as int, b0 as int, buf, i, i + 8, i + 16);
  }

  // ---------------------------------------------------------------- reduction by subtraction

  /** One line of `MOD`: `d` is a multiple of `BASE`, and the number is below twice that. */
  method Less(a0: UInt, d: UInt) returns (a: UInt)
    requires (d as int) % BASE == 0 && a0 as int < 2 * (d as int)
    ensures a < d && (a as int) % BASE == (a0 as int) % BASE
  {
    a := a0;
    if a >= d {
      a := a - d;
      MinusMultiple(a0 as int, d as int);
    }
  }

  lemma MinusMultiple(a: int, d: int)
    requires d % BASE == 0
    ensures (a - d) % BASE == a % BASE
  {
    var q := d / BASE;
    assert d == BASE * q;
  }

  /** `MOD`. */
  method Mod(a0: UInt) returns (a: UInt)
    ensures a as int == (a0 as int) % BASE
  {
    a := Less(a0, 65521 * 65536);
    a := Less(a, 65521 * 32768);
    a := Less(a, 65521 * 16384);
    a := Less(a, 65521 * 8192);
    a := Less(a, 65521 * 4096);
    a := Less(a, 65521 * 2048);
    a := Less(a, 65521 * 1024);
    a := Less(a, 65521 * 512);
    a := Less(a, 65521 * 256);
    a := Less(a, 65521 * 128);
    a := Less(a, 65521 * 64);
    a := Less(a, 65521 * 32);
    a := Mod4(a);
  }

  /** `MOD4`, for numbers below 32 times `BASE`. */
  method Mod4(a0: UInt) returns (a: UInt)
    requires a0 < 65521 * 32
    ensures a as int == (a0 as int) % BASE
  {
    a := Less(a0, 65521 * 16);
    a := Less(a, 65521 * 8);
    a := Less(a, 65521 * 4);
    a := Less(a, 65521 * 2);
    a := Less(a, 65521);
  }

  // ---------------------------------------------------------------- the checksum

  /** The sums so far, both reduced, are those of the first `i` bytes. */
  ghost predicate Summed(state: int, buf: seq<UChar>, i: nat, a: UInt, b: UInt) {
    && i <= |buf| && a < 65521 && b < 65521
    && (a as int, b as int) == Fold(state % 0x1_0000, state / 0x1_0000, buf[..i])
  }

  lemma SummedOn(state: int, buf: seq<UChar>, i: nat, j: nat, a: UInt, b: UInt, c: UInt, d: UInt, e: UInt, f: UInt)
    requires Summed(state, buf, i, a, b) && i <= j <= |buf|
    requires (c as int, d as int) == Run(a as int, b as int, buf[i..j])
    requires e as int == (c as int) % BASE && f as int == (d as int) % BASE
    ensures Summed(state, buf, j, e, f)
  {
    hide Fold, Run;
    RunIsFold(a as int, b as int, buf[i..j]);
    ModOnce(a as int);
    ModOnce(b as int);
    FoldConcat(state % 0x1_0000, state / 0x1_0000, buf[..i], buf[i..j]);
    assert buf[..j] == buf[..i] + buf[i..j];
  }

  lemma ModOnce(x: int)
    requires 0 <= x < 2 * BASE
    ensures x % BASE == if x >= BASE then x - BASE else x
  {
  }

  lemma FoldOne(a: int, b: int, s: seq<UChar>)
    requires |s| == 1
    ensures var c := (a + s[0] as int) % BASE; Fold(a, b, s) == (c, (b + c) % BASE)
  {
    assert s[1..] == [];
  }

  lemma RunNothing(a: int, b: int, buf: seq<UChar>, i: nat)
    requires i <= |buf|
    ensures Run(a, b, buf[i..i]) == (a, b)
  {
    assert buf[i..i] == [];
  }

  /** A block of `n` bytes from index `i`, in steps of 16. */
  method Block16(a0: UInt, b0: UInt, buf: seq<UChar>, i: nat, n: nat) returns (a: UInt, b: UInt)
    requires i + 16 * n <= |buf| && 16 * n <= NMAX && Within(a0 as int, b0 as int, 0)
    ensures Within(a as int, b as int, 16 * n) && (a as int, b as int) == Run(a0 as int, b0 as int, buf[i..i + 16 * n])
  {
    hide Run, Within;
    a, b := a0, b0;
    var left := n;
    RunNothing(a0 as int, b0 as int, buf, i);
    while left > 0
      invariant 0 <= left <= n && Within(a as int, b as int, 16 * (n - left))
      invariant (a as int, b as int) == Run(a0 as int, b0 as int, buf[i..i + 16 * (n - left)])
    {
      ghost var k := 16 * (n - left);
      a, b := Do16(a, b, buf, i + 16 * (n - left), k);
      RunSlices(a0 as int, b0 as int, buf, i, i + k, i + k + 16);
      left := left - 1;
    }
  }

  /** The bytes from index `i` up to `j`, one by one, `k` bytes into a block. */
  method ByByte(a0: UInt, b0: UInt, buf: seq<UChar>, i: nat, j: nat, ghost k: nat) returns (a: UInt, b: UInt)
    requires i <= j <= |buf| && k + (j - i) <= NMAX && Within(a0 as int, b0 as int, k)
    ensures Within(a as int, b as int, k + (j - i)) && (a as int, b as int) == Run(a0 as int, b0 as int, buf[i..j])
  {
    hide Run, Within;
    a, b := a0, b0;
    var x := i;
    RunNothing(a0 as int, b0 as int, buf, i);
    while x < j
      invariant i <= x <= j && Within(a as int, b as int, k + (x - i))
      invariant (a as int, b as int) == Run(a0 as int, b0 as int, buf[i..x])
    {
      a, b := Do1(a, b, buf, x, k + (x - i));
      RunSlices(a0 as int, b0 as int, buf, i, x, x + 1);
      x := x + 1;
    }
  }

  /** `adler32`: the checksum of the first `len` bytes, continued from `adler`; 1 for a null pointer. */
  method Adler32(adler0: UInt, buf: Buffer, len: UInt) returns (r: UInt)
    requires Reduced(adler0 as int)
    requires buf.Bytes? ==> len as int == |buf.data|
    requires len == 1 ==> buf.Bytes?
    ensures buf.Bytes? ==> r as int == Checksum(adler0 as int, buf.data)
    ensures buf.Null? ==> r == 1
  {
    var sum2, adler := adler0 / 0x1_0000, adler0 % 0x1_0000;
    if len == 1 {
      r := OneByte(adler0, adler, sum2, buf.data);
      return;
    }
    if buf.Null? {
      return 1;
    }
    var s := buf.data;
    ghost var state := adler0 as int;
    assert s[..0] == [];
    hide Fold, Run, Within, Reduced, Checksum;
    if |s| < 16 {
      r := FewBytes(adler0, adler, sum2, s);
      return;
    }
    var i := 0;
    hide Summed;
    assert Summed(state, s, 0, adler, sum2) by {
      SummedStart(state, s, adler, sum2);
    }
    while |s| - i >= NMAX
      invariant Summed(state, s, i, adler, sum2) && i <= |s|
    {
      adler, sum2 := Sums(state, adler, sum2, s, i, i + NMAX);
      i := i + NMAX;
    }
    if i < |s| {
      adler, sum2 := Sums(state, adler, sum2, s, i, |s|);
    }
    r := Joined(state, s, adler, sum2);
  }

  lemma SummedStart(state: int, s: seq<UChar>, a: UInt, b: UInt)
    requires Reduced(state) && a as int == state % 0x1_0000 && b as int == state / 0x1_0000
    ensures Summed(state, s, 0, a, b)
  {
    assert s[..0] == [];
  }

  /** The sums over the bytes from `i` up to `j`, at most a block, and their reduction. */
  method Sums(ghost state: int, a0: UInt, b0: UInt, s: seq<UChar>, i: nat, j: nat) returns (a: UInt, b: UInt)
    requires Summed(state, s, i, a0, b0) && i <= j <= |s| && j - i <= NMAX
    ensures Summed(state, s, j, a, b)
  {
    hide Run, Fold;
    var n := (j - i) / 16;
    a, b := Block16(a0, b0, s, i, n);
    a, b := ByByte(a, b, s, i + 16 * n, j, 16 * n);
    RunSlices(a0 as int, b0 as int, s, i, i + 16 * n, j);
    ghost var c, d := a, b;
    a := Mod(a);
    b := Mod(b);
    SummedOn(state, s, i, j, a0, b0, c, d, a, b);
  }

  method Joined(ghost state: int, s: seq<UChar>, a: UInt, b: UInt) returns (r: UInt)
    requires Summed(state, s, |s|, a, b)
    ensures r as int == Checksum(state, s)
  {
    assert s[..|s|] == s;
    r := a + b * 0x1_0000;
  }

  /** The case of one byte. */
  method OneByte(ghost adler0: UInt, adler: UInt, sum2: UInt, s: seq<UChar>) returns (r: UInt)
    requires Reduced(adler0 as int) && adler == adler0 % 0x1_0000 && sum2 == adler0 / 0x1_0000 && |s| == 1
    ensures r as int == Checksum(adler0 as int, s)
  {
    var a, b := adler + s[0] as UInt, sum2;
    if a >= 65521 {
      a := a - 65521;
    }
    b := b + a;
    if b >= 65521 {
      b := b - 65521;
    }
    ModOnce(adler as int + s[0] as int);
    ModOnce(sum2 as int + a as int);
    FoldOne(adler as int, sum2 as int, s);
    r := a + b * 0x1_0000;
  }

  /** The case of fewer than 16 bytes: one subtraction reduces the first sum, `MOD4` the second. */
  method FewBytes(ghost adler0: UInt, adler: UInt, sum2: UInt, s: seq<UChar>) returns (r: UInt)
    requires Reduced(adler0 as int) && adler == adler0 % 0x1_0000 && sum2 == adler0 / 0x1_0000 && |s| < 16
    ensures r as int == Checksum(adler0 as int, s)
  {
    hide Run, Fold;
    SummedStart(adler0 as int, s, adler, sum2);
    var a, b := ByByte(adler, sum2, s, 0, |s|, 0);
    MostRises(|s|, 15);
    ghost var c, d := a, b;
    if a >= 65521 {
      a := a - 65521;
    }
    b := Mod4(b);
    SummedOn(adler0 as int, s, 0, |s|, adler, sum2, c, d, a, b);
    r := Joined(adler0 as int, s, a, b);
  }
}
