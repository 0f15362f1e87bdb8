/** Cachegrind's simulation of set-associative caches with least-recently-used eviction. */
module CacheSim {
  import opened Common
  import opened Lru

  /** Moves the first `i` tags of the set at `base` back by one place. */
  method ShuffleDown(tags: array<int>, base: nat, i: nat)
    requires base + i < tags.Length
    modifies tags
    ensures forall k :: 0 <= k < tags.Length ==>
              tags[k] == if base < k <= base + i then old(tags[k - 1]) else old(tags[k])
  {
    var j := i;
    while j > 0
      invariant 0 <= j <= i
      invariant forall k :: 0 <= k < tags.Length ==>
                  tags[k] == if base + j < k <= base + i then old(tags[k - 1]) else old(tags[k])
    {
      tags[base + j] := tags[base + j - 1];
      j := j - 1;
    }
  }

  /** Puts `tag` first, over the tag of index `i`. */
  method ToFront(tags: array<int>, base: nat, assoc: nat, i: nat, tag: int)
    requires i < assoc && base + assoc <= tags.Length
    modifies tags
    ensures var s := old(tags[base..base + assoc]); tags[base..base + assoc] == [tag] + (s[..i] + s[i + 1..])
    ensures forall k :: 0 <= k < base || base + assoc <= k < tags.Length ==> tags[k] == old(tags[k])
  {
    ShuffleDown(tags, base, i);
    tags[base] := tag;
  }

  /** `cachesim_setref_is_miss`, for the set of `assoc` tags at `base`. */
  method SetRefIsMiss(tags: array<int>, base: nat, assoc: nat, tag: int) returns (miss: bool)
    requires 0 < assoc && base + assoc <= tags.Length
    modifies tags
    ensures tags[base..base + assoc] == old(Touch(tags[base..base + assoc], tag))
    ensures miss <==> tag !in old(tags[base..base + assoc])
    ensures forall k :: 0 <= k < base || base + assoc <= k < tags.Length ==> tags[k] == old(tags[k])
  {
    ghost var s := tags[base..base + assoc];
    if tag == tags[base] {
      FindIs(s, tag, 0);
      assert s[0] == tag && Touch(s, tag) == s;
      return false;
    }
    var i := 1;
    while i < assoc
      invariant 1 <= i <= assoc && tags[..] == old(tags[..])
      invariant forall k :: 0 <= k < i ==> s[k] != tag
    {
      if tag == tags[base + i] {
        FindIs(s, tag, i);
        assert s[i] == tag;
        ToFront(tags, base, assoc, i, tag);
        return false;
      }
      i := i + 1;
    }
    FindIs(s, tag, assoc);
    ToFront(tags, base, assoc, assoc - 1, tag);
    assert s[..assoc - 1] + s[assoc..] == s[..assoc - 1];
    return true;
  }

  // ---------------------------------------------------------------- traces of blocks

  /** The blocks of the trace that map to set `k`. */
  function Select(trace: seq<nat>, sets: nat, k: nat): seq<int>
    requires 0 < sets
  {
    if trace == [] then []
    else Select(trace[..|trace| - 1], sets, k) + if trace[|trace| - 1] % sets == k then [trace[|trace| - 1]] else []
  }

  lemma SelectStep(trace: seq<nat>, b: nat, sets: nat, k: nat)
    requires 0 < sets
    ensures b % sets == k ==> Select(trace + [b], sets, k) == Select(trace, sets, k) + [b]
    ensures b % sets != k ==> Select(trace + [b], sets, k) == Select(trace, sets, k)
  {
    assert (trace + [b])[..|trace|] == trace;
  }

  /** After the trace, block `b` is in a cache of `ways` ways: fewer than `ways` different other blocks of its set were
      referenced since it last was, the zeros at the start counting as a reference to block 0. */
  ghost predicate Hit(ways: nat, sets: nat, trace: seq<nat>, b: nat)
    requires 0 < sets
  {
    var f := [0] + Select(trace, sets, b % sets);
    b in f && |Since(f, b)| < ways
  }

  /** Some block of an access misses; all of them are referenced. */
  ghost predicate Misses(ways: nat, sets: nat, trace: seq<nat>, blocks: seq<nat>)
    requires 0 < sets
    decreases |blocks|
  {
    blocks != [] && (!Hit(ways, sets, trace, blocks[0]) || Misses(ways, sets, trace + [blocks[0]], blocks[1..]))
  }

  lemma MissesOne(ways: nat, sets: nat, trace: seq<nat>, b: nat)
    requires 0 < sets
    ensures Misses(ways, sets, trace, [b]) <==> !Hit(ways, sets, trace, b)
  {
    hide Hit;
    assert !Misses(ways, sets, trace + [b], [b][1..]);
  }

  lemma MissesTwo(ways: nat, sets: nat, trace: seq<nat>, b: nat, c: nat)
    requires 0 < sets
    ensures Misses(ways, sets, trace, [b, c]) <==> !Hit(ways, sets, trace, b) || !Hit(ways, sets, trace + [b], c)
  {
    hide Hit;
    MissesOne(ways, sets, trace + [b], c);
    assert [b, c][1..] == [c];
  }

  /** How many of the accesses miss. */
  ghost function MissCount(ways: nat, sets: nat, trace: seq<nat>, accesses: seq<seq<nat>>): nat
    requires 0 < sets
    decreases |accesses|
  {
    if accesses == [] then 0
    else
      var first := if Misses(ways, sets, trace, accesses[0]) then 1 else 0;
      first + MissCount(ways, sets, trace + accesses[0], accesses[1..])
  }

  lemma {:induction false} MissesFewer(few: nat, many: nat, sets: nat, trace: seq<nat>, blocks: seq<nat>)
    requires 0 < sets && few <= many && Misses(many, sets, trace, blocks)
    ensures Misses(few, sets, trace, blocks)
    decreases |blocks|
  {
    if Hit(few, sets, trace, blocks[0]) {
      MissesFewer(few, many, sets, trace + [blocks[0]], blocks[1..]);
    }
  }

  /** With the same sets, more ways never make more accesses miss, whatever the trace. */
  lemma {:induction false} MoreWays(few: nat, many: nat, sets: nat, trace: seq<nat>, accesses: seq<seq<nat>>)
    requires 0 < sets && few <= many
    ensures MissCount(many, sets, trace, accesses) <= MissCount(few, sets, trace, accesses)
    decreases |accesses|
  {
    if accesses != [] {
      if Misses(many, sets, trace, accesses[0]) {
        MissesFewer(few, many, sets, trace, accesses[0]);
      }
      MoreWays(few, many, sets, trace + accesses[0], accesses[1..]);
    }
  }

  /** The blocks of the accesses, in order. */
  function Flat(accesses: seq<seq<nat>>): seq<nat> {
    if accesses == [] then [] else accesses[0] + Flat(accesses[1..])
  }

  lemma {:induction false} OneMore(ways: nat, sets: nat, trace: seq<nat>, log: seq<seq<nat>>, x: seq<nat>)
    requires 0 < sets
    ensures Flat(log + [x]) == Flat(log) + x
    ensures MissCount(ways, sets, trace, log + [x])
         == MissCount(ways, sets, trace, log) + if Misses(ways, sets, trace + Flat(log), x) then 1 else 0
    decreases |log|
  {
    hide Misses;
    if log == [] {
      assert log + [x] == [x] && [x][1..] == [] && trace + Flat(log) == trace && x + [] == x;
      assert MissCount(ways, sets, trace + x, []) == 0;
    } else {
      assert (log + [x])[0] == log[0] && (log + [x])[1..] == log[1..] + [x];
      OneMore(ways, sets, trace + log[0], log[1..], x);
      assert trace + log[0] + Flat(log[1..]) == trace + Flat(log);
      assert log[0] + (Flat(log[1..]) + x) == log[0] + Flat(log[1..]) + x;
    }
  }

  /** The blocks of an access to `size` bytes at `a`, with lines of `line` bytes. */
  function BlocksOf(a: nat, size: nat, line: nat): seq<nat>
    requires 0 < size && 0 < line
  {
    var b := a / line;
    if (a + size - 1) / line == b then [b] else [b, b + 1]
  }

  lemma BlocksAre(a: nat, size: nat, line: nat)
    requires 0 < size && 0 < line
    ensures a / line <= (a + size - 1) / line
    ensures var b := a / line;
            BlocksOf(a, size, line) == if (a + size - 1) / line == b then [b] else [b, b + 1]
  {
    var c := a + size - 1;
    assert a == line * (a / line) + a % line && c == line * (c / line) + c % line;
    if c / line < a / line {
      Multiples(line, c / line, a / line);
    }
  }

  /** An access that is no longer than a line touches at most two. */
  lemma AtMostTwo(a: nat, size: nat, line: nat)
    requires 0 < size <= line
    ensures a / line <= (a + size - 1) / line <= a / line + 1
  {
    var q, r := a / line, a % line;
    assert a == line * q + r;
    if r + size - 1 < line {
      Quotient(a + size - 1, line, q, r + size - 1);
    } else {
      assert a + size - 1 == line * (q + 1) + (r + size - 1 - line) by {
        assert line * (q + 1) == line * q + line;
      }
      Quotient(a + size - 1, line, q + 1, r + size - 1 - line);
    }
  }

  // ---------------------------------------------------------------- caches

  /** Where set `k` begins. */
  function Offset(k: nat, ways: nat): nat { k * ways }

  lemma SetPlace(k: nat, sets: nat, ways: nat)
    requires k < sets
    ensures Offset(k, ways) + ways <= Offset(sets, ways)
  {
    Multiples(ways, k, sets);
  }

  function WaysOf(tags: seq<int>, k: nat, sets: nat, ways: nat): seq<int>
    requires |tags| == Offset(sets, ways) && k < sets
  {
    SetPlace(k, sets, ways);
    tags[Offset(k, ways)..Offset(k, ways) + ways]
  }

  /** Every set of the cache is what the trace makes of it. */
  ghost predicate Holds(tags: seq<int>, sets: nat, ways: nat, trace: seq<nat>) {
    && 0 < ways && 0 < sets && |tags| == Offset(sets, ways)
    && forall k :: 0 <= k < sets ==> WaysOf(tags, k, sets, ways) == SetAfter(ways, Select(trace, sets, k))
  }

  lemma HoldsAtFirst(tags: seq<int>, sets: nat, ways: nat)
    requires 0 < ways && 0 < sets && |tags| == Offset(sets, ways) && forall i :: 0 <= i < |tags| ==> tags[i] == 0
    ensures Holds(tags, sets, ways, [])
  {
    forall k | 0 <= k < sets ensures WaysOf(tags, k, sets, ways) == SetAfter(ways, Select([], sets, k)) {
      SetPlace(k, sets, ways);
      assert WaysOf(tags, k, sets, ways) == Zeros(ways);
    }
  }

  lemma TouchOne(ways: nat, h: seq<int>, t: int)
    requires 0 < ways
    ensures SetAfter(ways, h + [t]) == Touch(SetAfter(ways, h), t)
  {
    assert (h + [t])[..|h|] == h;
  }

  lemma HasSets(tags: seq<int>, sets: nat, ways: nat, trace: seq<nat>)
    requires Holds(tags, sets, ways, trace)
    ensures 0 < sets && 0 < ways
  {
  }

  /** A reference in the right set keeps every set what the trace makes of it. */
  lemma HoldsOn(tags: seq<int>, next: seq<int>, sets: nat, ways: nat, trace: seq<nat>, b: nat)
    requires Holds(tags, sets, ways, trace) && |next| == |tags|
    requires WaysOf(next, b % sets, sets, ways) == Touch(WaysOf(tags, b % sets, sets, ways), b)
    requires forall i :: 0 <= i < |tags| && !(Offset(b % sets, ways) <= i < Offset(b % sets, ways) + ways) ==>
              next[i] == tags[i]
    ensures Holds(next, sets, ways, trace + [b])
  {
    hide Offset, Touch, SetAfter, Select;
    forall k | 0 <= k < sets ensures WaysOf(next, k, sets, ways) == SetAfter(ways, Select(trace + [b], sets, k)) {
      SelectStep(trace, b, sets, k);
      SetPlace(k, sets, ways);
      if k == b % sets {
        TouchOne(ways, Select(trace, sets, k), b);
      } else {
        if k < b % sets {
          SetPlace(k, b % sets, ways);
        } else {
          SetPlace(b % sets, k, ways);
        }
        assert WaysOf(next, k, sets, ways) == WaysOf(tags, k, sets, ways);
      }
    }
  }

  /** `cache_t2`. */
  class Cache {
    const assoc: nat
    const sets: nat
    const lineSizeBits: nat
    const tags: array<int>
    /** The blocks referenced so far, the accesses they come from, and how many of these missed. */
    ghost var trace: seq<nat>
    ghost var log: seq<seq<nat>>
    ghost var missed: nat

    ghost predicate Valid()
      reads this, tags
    {
      Holds(tags[..], sets, assoc, trace)
    }

    /** The accesses account for the trace and for the misses. */
    ghost predicate Counted()
      reads this
    {
      0 < sets && trace == Flat(log) && missed == MissCount(assoc, sets, [], log)
    }

    /** Takes down one access that has been made. */
    ghost method Record(blocks: seq<nat>, miss: bool, before: seq<nat>)
      requires 0 < sets && before == Flat(log) && trace == before + blocks
      requires missed == MissCount(assoc, sets, [], log) && (miss <==> Misses(assoc, sets, before, blocks))
      modifies this`log, this`missed
      ensures Counted() && log == old(log) + [blocks] && missed == old(missed) + if miss then 1 else 0
    {
      hide Misses, MissCount, Flat;
      OneMore(assoc, sets, [], log, blocks);
      assert [] + Flat(log) == Flat(log);
      log, missed := log + [blocks], missed + if miss then 1 else 0;
    }

    /** `cachesim_initcache`, for a cache of `size` bytes; the numbers of sets and of bytes in a line are powers of
        two. */
    constructor (size: nat, assoc: nat, lineSizeBits: nat, setBits: nat)
      requires 0 < assoc && size / Pow2(lineSizeBits) / assoc == Pow2(setBits)
      ensures Valid() && Counted() && fresh(tags) && log == []
      ensures this.assoc == assoc && sets == Pow2(setBits) && this.lineSizeBits == lineSizeBits
    {
      hide Holds;
      var n := size / Pow2(lineSizeBits) / assoc;
      this.assoc, this.lineSizeBits, sets := assoc, lineSizeBits, n;
      tags := new int[Offset(n, assoc)];
      trace, log, missed := [], [], 0;
      new;
      var i := 0;
      while i < tags.Length
        invariant trace == [] && log == [] && missed == 0
        invariant 0 <= i <= tags.Length && forall j :: 0 <= j < i ==> tags[j] == 0
      {
        tags[i] := 0;
        i := i + 1;
      }
      HoldsAtFirst(tags[..], sets, assoc);
    }

    /** A reference to one block, in its set. */
    method Reference(b: nat) returns (miss: bool)
      requires Valid()
      modifies this`trace, tags
      ensures Valid() && trace == old(trace) + [b]
      ensures miss <==> !Hit(assoc, sets, old(trace), b)
    {
      hide Offset, Touch, SetAfter, Select, Since;
      var k := b % sets;
      SetPlace(k, sets, assoc);
      HitIff(assoc, Select(trace, sets, k), b);
      ghost var w := tags[..];
      assert tags[Offset(k, assoc)..Offset(k, assoc) + assoc] == WaysOf(w, k, sets, assoc);
      miss := SetRefIsMiss(tags, Offset(k, assoc), assoc, b);
      assert tags[Offset(k, assoc)..Offset(k, assoc) + assoc] == WaysOf(tags[..], k, sets, assoc);
      HoldsOn(w, tags[..], sets, assoc, trace, b);
      trace := trace + [b];
    }

    /** An access that lies in one line. */
    method RefOneLine(b: nat) returns (miss: bool)
      requires Valid() && Counted()
      modifies this, tags
      ensures Valid() && Counted() && log == old(log) + [[b]] && trace == old(trace) + [b]
      ensures miss <==> Misses(assoc, sets, old(trace), [b])
    {
      hide Hit, Holds, Misses;
      HasSets(tags[..], sets, assoc, trace);
      MissesOne(assoc, sets, trace, b);
      miss := Reference(b);
      Record([b], miss, old(trace));
    }

    /** An access that straddles two lines: both blocks are referenced, and one miss is enough. */
    method RefTwoLines(b: nat) returns (miss: bool)
      requires Valid() && Counted()
      modifies this, tags
      ensures Valid() && Counted() && log == old(log) + [[b, b + 1]] && trace == old(trace) + [b, b + 1]
      ensures miss <==> Misses(assoc, sets, old(trace), [b, b + 1])
    {
      hide Hit, Holds, Misses;
      HasSets(tags[..], sets, assoc, trace);
      MissesTwo(assoc, sets, trace, b, b + 1);
      assert trace + [b] + [b + 1] == trace + [b, b + 1];
      miss := Reference(b);
      if miss {
        var other := Reference(b + 1);
      } else {
        miss := Reference(b + 1);
      }
      Record([b, b + 1], miss, old(trace));
    }

    /** `cachesim_ref_is_miss`: an access to `size` bytes at `a`; it panics when they lie in more than two lines. */
    method RefIsMiss(a: nat, size: nat) returns (miss: bool, panic: bool)
      requires Valid() && Counted() && 0 < size
      modifies this, tags
      ensures Valid() && Counted()
      ensures panic <==> (a + size - 1) / Pow2(lineSizeBits) > a / Pow2(lineSizeBits) + 1
      ensures panic ==> log == old(log) && trace == old(trace)
      ensures !panic ==> log == old(log) + [BlocksOf(a, size, Pow2(lineSizeBits))]
      ensures !panic ==> trace == old(trace) + BlocksOf(a, size, Pow2(lineSizeBits))
      ensures !panic ==> (miss <==> Misses(assoc, sets, old(trace), BlocksOf(a, size, Pow2(lineSizeBits))))
    {
      hide Hit, Holds, Misses, Pow2, BlocksOf;
      HasSets(tags[..], sets, assoc, trace);
      var block1 := a / Pow2(lineSizeBits);
      var block2 := (a + size - 1) / Pow2(lineSizeBits);
      BlocksAre(a, size, Pow2(lineSizeBits));
      panic := false;
      if block1 == block2 {
        miss := RefOneLine(block1);
      } else if block1 + 1 == block2 {
        miss := RefTwoLines(block1);
      } else {
        miss, panic := true, true;
      }
    }
  }

  /** `cachesim_I1_doref_Gen`: an instruction fetch, in the first cache and if need be in the last; `m1` and `mL` count
      the misses. */
  method I1DorefGen(first: Cache, last: Cache, a: nat, size: nat, m1: nat, mL: nat) returns (n1: nat, nL: nat)
    requires first.Valid() && first.Counted() && last.Valid() && last.Counted()
    requires first != last && first.tags != last.tags
    requires 0 < size <= Pow2(first.lineSizeBits) && size <= Pow2(last.lineSizeBits)
    modifies first, first.tags, last, last.tags
    ensures first.Valid() && first.Counted() && last.Valid() && last.Counted()
    ensures first.trace == old(first.trace) + BlocksOf(a, size, Pow2(first.lineSizeBits))
    ensures var miss := Misses(first.assoc, first.sets, old(first.trace), BlocksOf(a, size, Pow2(first.lineSizeBits)));
            && n1 == m1 + (if miss then 1 else 0)
            && last.trace == old(last.trace) + (if miss then BlocksOf(a, size, Pow2(last.lineSizeBits)) else [])
            && nL == mL + if && miss
                             && Misses(last.assoc, last.sets, old(last.trace),
                                       BlocksOf(a, size, Pow2(last.lineSizeBits)))
                          then 1 else 0
  {
    hide Holds, Misses, BlocksOf, Pow2;
    n1, nL := m1, mL;
    HasSets(first.tags[..], first.sets, first.assoc, first.trace);
    HasSets(last.tags[..], last.sets, last.assoc, last.trace);
    AtMostTwo(a, size, Pow2(first.lineSizeBits));
    AtMostTwo(a, size, Pow2(last.lineSizeBits));
    var miss, panic := first.RefIsMiss(a, size);
    if miss {
      n1 := n1 + 1;
      var missL, panicL := last.RefIsMiss(a, size);
      if missL {
        nL := nL + 1;
      }
    }
  }

  /** `cachesim_I1_doref_NoX`, for fetches from one line where both caches have lines of one size; it does what the
      general case does. */
  method I1DorefNoX(first: Cache, last: Cache, a: nat, size: nat, m1: nat, mL: nat) returns (n1: nat, nL: nat)
    requires first.Valid() && first.Counted() && last.Valid() && last.Counted()
    requires first != last && first.tags != last.tags
    requires 0 < size && first.lineSizeBits == last.lineSizeBits
    requires a / Pow2(first.lineSizeBits) == (a + size - 1) / Pow2(first.lineSizeBits)
    modifies first, first.tags, last, last.tags
    ensures first.Valid() && first.Counted() && last.Valid() && last.Counted()
    ensures first.trace == old(first.trace) + BlocksOf(a, size, Pow2(first.lineSizeBits))
    ensures var miss := Misses(first.assoc, first.sets, old(first.trace), BlocksOf(a, size, Pow2(first.lineSizeBits)));
            && n1 == m1 + (if miss then 1 else 0)
            && last.trace == old(last.trace) + (if miss then BlocksOf(a, size, Pow2(last.lineSizeBits)) else [])
            && nL == mL + if && miss
                             && Misses(last.assoc, last.sets, old(last.trace),
                                       BlocksOf(a, size, Pow2(last.lineSizeBits)))
                          then 1 else 0
  {
    hide Holds, Hit, Misses, Pow2, BlocksOf;
    n1, nL := m1, mL;
    var block := a / Pow2(first.lineSizeBits);
    BlocksAre(a, size, Pow2(first.lineSizeBits));
    HasSets(first.tags[..], first.sets, first.assoc, first.trace);
    HasSets(last.tags[..], last.sets, last.assoc, last.trace);
    var miss := first.RefOneLine(block);
    if miss {
      n1 := n1 + 1;
      var missL := last.RefOneLine(block);
      if missL {
        nL := nL + 1;
      }
    }
  }

  /** Of two caches with the same sets that have seen the same accesses, the one with fewer ways holds in every set the
      first tags of the other, and has missed at least as often. */
  lemma FewerWays(small: Cache, big: Cache)
    requires small.Valid() && small.Counted() && big.Valid() && big.Counted()
    requires small.sets == big.sets && small.assoc <= big.assoc && small.log == big.log
    ensures forall k :: 0 <= k < small.sets ==>
              WaysOf(small.tags[..], k, small.sets, small.assoc)
                  == WaysOf(big.tags[..], k, big.sets, big.assoc)[..small.assoc]
    ensures big.missed <= small.missed
  {
    hide WaysOf, MissCount, Select, SetAfter, Flat;
    MoreWays(small.assoc, big.assoc, small.sets, [], small.log);
    forall k | 0 <= k < small.sets
      ensures WaysOf(small.tags[..], k, small.sets, small.assoc)
              == WaysOf(big.tags[..], k, big.sets, big.assoc)[..small.assoc]
    {
      Inclusion(small.assoc, big.assoc, Select(small.trace, small.sets, k));
    }
  }
}
