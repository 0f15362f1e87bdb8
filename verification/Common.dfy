/** Notions that several parts share. */
module Common {
  function Min(a: int, b: int): int { if a <= b then a else b }

  /** No value occurs twice. */
  ghost predicate Distinct<T>(s: seq<T>) {
    forall i, j :: 0 <= i < j < |s| ==> s[i] != s[j]
  }

  // ---------------------------------------------------------------- powers and logarithms of two

  function Pow2(n: nat): (p: nat)
    ensures 0 < p
  {
    if n == 0 then 1 else 2 * Pow2(n - 1)
  }

  /** The number of the highest bit set: what `rm_log2` of rmalloc, `log2` of the buddy splitter and `VG_(log2)`
      compute. */
  function Log2(n: nat): nat
    requires 0 < n
  {
    if n == 1 then 0 else 1 + Log2(n / 2)
  }

  lemma {:induction false} Log2Bounds(n: nat)
    requires 0 < n
    ensures Pow2(Log2(n)) <= n < Pow2(Log2(n) + 1)
  {
    if n > 1 {
      Log2Bounds(n / 2);
    }
  }

  lemma {:induction false} Pow2Rises(i: nat, j: nat)
    requires i <= j
    ensures Pow2(i) <= Pow2(j)
  {
    if i < j {
      Pow2Rises(i, j - 1);
    }
  }

  lemma {:induction false} Pow2Sum(i: nat, j: nat)
    ensures Pow2(i + j) == Pow2(i) * Pow2(j)
  {
    if i > 0 {
      Pow2Sum(i - 1, j);
    }
  }

  lemma Log2Rises(m: nat, n: nat)
    requires 0 < m <= n
    ensures Log2(m) <= Log2(n)
  {
    hide Log2, Pow2;
    Log2Bounds(m);
    Log2Bounds(n);
    if Log2(m) > Log2(n) {
      Pow2Rises(Log2(n) + 1, Log2(m));
    }
  }

  // ---------------------------------------------------------------- multiples

  lemma Quotient(n: nat, d: nat, q: nat, r: nat)
    requires 0 < d && n == d * q + r && r < d
    ensures n / d == q
  {
    var p := n / d;
    if p < q {
      Multiples(d, p, q);
    } else if q < p {
      Multiples(d, q, p);
    }
  }

  lemma Multiples(d: nat, p: nat, q: nat)
    requires p < q
    ensures d * p + d <= d * q
  {
    assert d * (p + 1) == d * p + d;
    assert d * (p + 1) <= d * q;
  }

  lemma MultipleMod(q: int, d: nat)
    requires 0 < d && 0 <= q
    ensures d * q % d == 0
  {
    Quotient(d * q, d, q, 0);
  }

  /** Rounding up to a multiple of `a`, where `x` is none. */
  lemma RoundUp(x: int, a: nat)
    requires 0 < a && 0 <= x && x % a != 0
    ensures var y := (x + a - 1) / a * a; x < y < x + a && y % a == 0 && (y + a) % a == 0
  {
    var q := (x + a - 1) / a;
    assert x + a - 1 == a * q + (x + a - 1) % a;
    MultipleMod(q, a);
    MultipleMod(q + 1, a);
    assert a * (q + 1) == a * q + a && a * q == q * a;
  }
}
