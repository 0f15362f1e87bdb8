/** The block headers of rmalloc and the merge sort of their linked list. */
module ListSort {
  import opened Common
  import opened Merging

  datatype Kind = Free | Unlocked | Locked | WeakLocked

  /** `rm_header_t`; a header without memory is unused. */
  class Header {
    var memory: int
    var size: int
    var kind: Kind
    var next: Header?

    constructor (memory: int, size: int, kind: Kind)
      ensures this.memory == memory && this.size == size && this.kind == kind && next == null
    {
      this.memory, this.size, this.kind, next := memory, size, kind, null;
    }
  }

  const UINTPTR_MAX := 0xffff_ffff_ffff_ffff

  /** What `rm_header__cmp` compares: unused headers sink to the end. */
  function SortKey(memory: int): int { if memory == 0 then UINTPTR_MAX else memory }

  /** `rm_header__cmp`. */
  method Compare(x: Header, y: Header) returns (c: int)
    ensures c <= 0 <==> SortKey(x.memory) <= SortKey(y.memory)
  {
    var a := if x.memory == 0 then UINTPTR_MAX else x.memory;
    var b := if y.memory == 0 then UINTPTR_MAX else y.memory;
    c := if a > b then 1 else 0;
  }

  function At(s: seq<Header>, i: int): Header? { if 0 <= i < |s| then s[i] else null }

  ghost predicate Within(s: seq<Header>, all: set<Header>) {
    forall i :: 0 <= i < |s| ==> s[i] in all
  }

  /** `p` starts the acyclic, null-terminated list of the headers `s`. */
  ghost predicate Chain(p: Header?, s: seq<Header>)
    reads s`next
  {
    && p == At(s, 0) && Distinct(s)
    && forall i :: 0 <= i < |s| ==> s[i].next == At(s, i + 1)
  }

  /** `key` is the sort key of every header of `s`. */
  ghost predicate Keyed(s: seq<Header>, key: Header -> int)
    reads s`memory
  {
    forall i :: 0 <= i < |s| ==> key(s[i]) == SortKey(s[i].memory)
  }

  /** The headers of `out` are linked in order up to `tail`, and none of them is among the rest. */
  ghost predicate Emitted(list: Header?, tail: Header?, out: seq<Header>)
    reads out`next
  {
    && list == At(out, 0) && tail == At(out, |out| - 1) && Distinct(out)
    && forall i :: 0 <= i < |out| - 1 ==> out[i].next == out[i + 1]
  }

  /** The headers of `cur` with an index in the first or the second range still have their links, and none of them
      has been emitted. */
  ghost predicate Waiting(cur: seq<Header>, out: seq<Header>, pi: int, pe: int, qi: int)
    reads cur`next
  {
    && (forall i :: 0 <= i < |cur| && (pi <= i < pe || qi <= i) ==> cur[i].next == At(cur, i + 1))
    && (forall k, i :: 0 <= k < |out| && 0 <= i < |cur| && (pi <= i < pe || qi <= i) ==> out[k] != cur[i])
    && (forall k :: 0 <= k < |out| ==> out[k] in cur)
  }

  /** Appends the waiting header `cur[x]`, the next of its run, to the merged list. */
  method Emit(list0: Header?, tail: Header?, e: Header, ghost out: seq<Header>, ghost cur: seq<Header>, ghost pi: nat,
              ghost pe: nat, ghost qi: nat, ghost x: nat, ghost all: set<Header>)
    returns (list: Header?)
    requires Within(cur, all)
    requires Emitted(list0, tail, out) && Waiting(cur, out, pi, pe, qi) && Distinct(cur)
    requires pi <= pe <= qi <= |cur| && (x == pi < pe || x == qi < |cur|) && e == cur[x]
    modifies all`next
    ensures Emitted(list, e, out + [e])
    ensures Waiting(cur, out + [e], if x == pi < pe then pi + 1 else pi, pe, if x == pi < pe then qi else qi + 1)
  {
    list := list0;
    if tail != null {
      assert out[|out| - 1] in cur;
      tail.next := e;
    } else {
      list := e;
    }
  }

  lemma WaitingNext(cur: seq<Header>, out: seq<Header>, pi: nat, pe: nat, qi: nat)
    requires Waiting(cur, out, pi, pe, qi)
    ensures pi < pe && pi < |cur| ==> cur[pi].next == At(cur, pi + 1)
    ensures qi < |cur| ==> cur[qi].next == At(cur, qi + 1)
  {
  }

  /** Steps `insize` places along from `p`, as far as the list goes. */
  method StepAlong(p: Header, insize: nat, ghost cur: seq<Header>, ghost out: seq<Header>, ghost j: nat)
    returns (q: Header?, psize: nat)
    requires 0 < insize && j < |cur| && p == cur[j] && Waiting(cur, out, j, j, j)
    ensures psize == Min(insize, |cur| - j) && q == At(cur, j + psize)
  {
    var h := p;
    psize := 1;
    q := h.next;
    while psize < insize && q != null
      invariant 1 <= psize <= insize && j + psize <= |cur| && q == At(cur, j + psize)
    {
      psize := psize + 1;
      q := q.next;
    }
  }

  /** Whether the next element of the merge comes from the first run. */
  method TakesFirst(p: Header?, q: Header?, psize: int, qsize: int, ghost cur: seq<Header>, ghost key: Header -> int,
                    ghost pi: nat, ghost a: nat, ghost qi: nat, ghost b: nat)
    returns (first: bool)
    requires pi <= a <= qi <= b <= |cur| && Keyed(cur, key) && psize == a - pi && (psize > 0 || qi < b)
    requires (qsize == 0 || q == null) <==> qi == b
    requires (pi < a ==> p == cur[pi]) && q == At(cur, qi)
    ensures first <==> pi < a && (qi == b || key(cur[pi]) <= key(cur[qi]))
  {
    if psize == 0 {
      first := false;
    } else if qsize == 0 || q == null {
      first := true;
    } else {
      var c := Compare(p, q);
      first := c <= 0;
    }
  }

  /** One merge of a pass: two runs of at most `insize` headers, the first from `p0` on. */
  method MergeRuns(list0: Header?, tail0: Header?, p0: Header, insize: nat, ghost cur: seq<Header>,
                   ghost key: Header -> int, ghost j0: nat, ghost out0: seq<Header>, ghost all: set<Header>)
    returns (list: Header?, tail: Header?, p: Header?, ghost out: seq<Header>)
    requires Within(cur, all)
    requires 0 < insize && j0 < |cur| && p0 == cur[j0] && Distinct(cur) && Keyed(cur, key)
    requires Emitted(list0, tail0, out0) && Waiting(cur, out0, j0, j0, j0)
    modifies all`next
    ensures var a, b := Min(j0 + insize, |cur|), Min(j0 + 2 * insize, |cur|);
            && p == At(cur, b) && Emitted(list, tail, out) && Waiting(cur, out, b, b, b)
            && out == out0 + Merge(cur[j0..a], cur[a..b], key) && tail != null
  {
    hide Emitted, Waiting, Distinct, Merge, Keyed;
    list, tail, p, out := list0, tail0, p0, out0;
    var q, psize := StepAlong(p0, insize, cur, out, j0);
    var qsize := insize;
    ghost var a, b := j0 + psize, Min(j0 + 2 * insize, |cur|);
    ghost var pi, qi, goal := j0, a, Merge(cur[j0..a], cur[a..b], key);
    WaitingSplit(cur, out, j0, a);
    while psize > 0 || (qsize > 0 && q != null)
      invariant j0 <= pi <= a <= qi <= b && psize == a - pi && qsize == insize - (qi - a)
      invariant pi < a ==> p == cur[pi]
      invariant q == At(cur, qi)
      invariant Emitted(list, tail, out) && Waiting(cur, out, pi, a, qi)
      invariant out + Merge(cur[pi..a], cur[qi..b], key) == out0 + goal
      invariant |out| == |out0| + (pi - j0) + (qi - a) && (|out| > |out0| ==> tail != null)
      decreases psize + (b - qi)
    {
      var fromP := TakesFirst(p, q, psize, qsize, cur, key, pi, a, qi, b);
      WaitingNext(cur, out, pi, a, qi);
      NextMerged(cur, key, pi, a, qi, b, fromP);
      ghost var x := if fromP then pi else qi;
      var e := if fromP then p else q;
      if fromP {
        p := p.next;
        psize := psize - 1;
      } else {
        q := q.next;
        qsize := qsize - 1;
      }
      list := Emit(list, tail, e, out, cur, pi, a, qi, x, all);
      tail := e;
      if fromP {
        pi := pi + 1;
      } else {
        qi := qi + 1;
      }
      MoveHead(out, e, Merge(cur[pi..a], cur[qi..b], key));
      out := out + [e];
    }
    p := q;
    WaitingSplit(cur, out, a, qi);
    assert cur[a..a] == [] && cur[b..b] == [];
    MergeNone(key);
  }

  lemma MoveHead(out: seq<Header>, e: Header, rest: seq<Header>)
    ensures out + ([e] + rest) == (out + [e]) + rest
  {
  }

  lemma MergeNone(key: Header -> int)
    ensures Merge<Header>([], [], key) == []
  {
  }

  lemma WaitingSplit(cur: seq<Header>, out: seq<Header>, j: nat, a: nat)
    requires j <= a
    ensures Waiting(cur, out, j, j, j) ==> Waiting(cur, out, j, a, a)
    ensures Waiting(cur, out, j, j, a) ==> Waiting(cur, out, a, a, a)
  {
  }

  /** The next header of a merge. */
  lemma NextMerged(cur: seq<Header>, key: Header -> int, pi: int, a: int, qi: int, b: int, takeP: bool)
    requires 0 <= pi <= a <= qi <= b <= |cur| && (pi < a || qi < b)
    requires takeP <==> pi < a && (qi == b || key(cur[pi]) <= key(cur[qi]))
    ensures Merge(cur[pi..a], cur[qi..b], key)
         == if takeP then [cur[pi]] + Merge(cur[pi + 1..a], cur[qi..b], key)
            else [cur[qi]] + Merge(cur[pi..a], cur[qi + 1..b], key)
  {
    if takeP {
      assert cur[pi..a][1..] == cur[pi + 1..a];
      if qi == b {
        assert cur[pi..a] == [cur[pi]] + cur[pi + 1..a];
      }
    } else {
      assert cur[qi..b][1..] == cur[qi + 1..b];
      if pi == a {
        assert cur[qi..b] == [cur[qi]] + cur[qi + 1..b];
      }
    }
  }

  /** In a pass that has merged the first `j` headers into `out`, ending with `tail`. */
  ghost predicate Passing(list: Header?, tail: Header?, cur: seq<Header>, out: seq<Header>, j: nat, key: Header -> int,
                          all: set<Header>)
    reads all
  {
    && Within(cur, all) && Within(out, all)
    && Distinct(cur) && Keyed(cur, key)
    && Emitted(list, tail, out) && Waiting(cur, out, j, j, j)
  }

  method NextRuns(list0: Header?, tail0: Header?, p0: Header, insize: nat, ghost cur: seq<Header>,
                  ghost key: Header -> int, ghost j: nat, ghost out0: seq<Header>, ghost all: set<Header>)
    returns (list: Header?, tail: Header?, p: Header?, ghost out: seq<Header>)
    requires 0 < insize && j < |cur| && p0 == cur[j] && Passing(list0, tail0, cur, out0, j, key, all)
    modifies all`next
    ensures var b := Min(j + 2 * insize, |cur|);
            && Passing(list, tail, cur, out, b, key, all) && tail != null && p == At(cur, b)
            && out + Pass(cur[b..], insize, key) == out0 + Pass(cur[j..], insize, key)
  {
    PassAt(cur, out0, j, insize, key);
    list, tail, p, out := MergeRuns(list0, tail0, p0, insize, cur, key, j, out0, all);
    hide Merge, Pass, Emitted;
  }

  /** One pass of `rm_header__sort` with runs of `insize` headers. */
  method OnePass(list0: Header?, insize: nat, ghost cur: seq<Header>, ghost key: Header -> int, ghost all: set<Header>)
    returns (list: Header?, nmerges: nat)
    requires Within(cur, all)
    requires 0 < insize && cur != [] && Chain(list0, cur) && Keyed(cur, key)
    modifies all`next
    ensures Chain(list, Pass(cur, insize, key))
    ensures nmerges <= 1 <==> |cur| <= 2 * insize
  {
    var p := list0;
    list := null;
    var tail: Header? := null;
    nmerges := 0;
    ghost var j, out := 0, [];
    assert cur[0..] == cur;
    PassStart(list0, cur);
    assert Passing(list, tail, cur, out, 0, key, all);
    hide Passing, Pass, Chain, Keyed, Merge;
    while p != null
      invariant 0 <= j <= |cur| && p == At(cur, j)
      invariant nmerges == 0 ==> j == 0
      invariant nmerges == 1 ==> j == Min(2 * insize, |cur|)
      invariant nmerges > 1 ==> 2 * insize < |cur|
      invariant Passing(list, tail, cur, out, j, key, all)
      invariant out + Pass(cur[j..], insize, key) == Pass(cur, insize, key)
      invariant j > 0 ==> tail != null
      decreases |cur| - j
    {
      nmerges := nmerges + 1;
      list, tail, p, out := NextRuns(list, tail, p, insize, cur, key, j, out, all);
      j := Min(j + 2 * insize, |cur|);
    }
    PassNone(cur, insize, key);
    assert j == |cur| && out + [] == out;
    EndChain(list, tail, cur, out, key, all);
  }

  lemma PassStart(list: Header?, cur: seq<Header>)
    requires Chain(list, cur)
    ensures Emitted(null, null, []) && Waiting(cur, [], 0, 0, 0)
  {
  }

  lemma PassAt(cur: seq<Header>, out: seq<Header>, j: nat, n: nat, key: Header -> int)
    requires 0 < n && j < |cur|
    ensures var a, b := Min(j + n, |cur|), Min(j + 2 * n, |cur|);
            out + Pass(cur[j..], n, key) == (out + Merge(cur[j..a], cur[a..b], key)) + Pass(cur[b..], n, key)
  {
    hide Merge, Pass;
    var a, b := Min(j + n, |cur|), Min(j + 2 * n, |cur|);
    var t := cur[j..];
    var p, q, rest := PassStep(t, n, key);
    SliceSlice(cur, j, a - j, b - j);
    assert t[..a - j] == p && t[a - j..b - j] == q && t[b - j..] == rest;
    ThreeParts(out, Merge(p, q, key), Pass(rest, n, key));
  }

  lemma SliceSlice(s: seq<Header>, j: nat, x: nat, y: nat)
    requires j + x <= j + y <= |s|
    ensures s[j..][..x] == s[j..j + x] && s[j..][x..y] == s[j + x..j + y] && s[j..][y..] == s[j + y..]
  {
  }

  lemma ThreeParts(a: seq<Header>, b: seq<Header>, c: seq<Header>)
    ensures a + (b + c) == (a + b) + c
  {
  }

  lemma PassNone(cur: seq<Header>, n: nat, key: Header -> int)
    requires 0 < n
    ensures Pass(cur[|cur|..], n, key) == []
  {
  }

  /** Terminates the merged list. */
  method EndChain(list: Header?, tail: Header, ghost cur: seq<Header>, ghost out: seq<Header>, ghost key: Header -> int,
                  ghost all: set<Header>)
    requires Passing(list, tail, cur, out, |cur|, key, all)
    modifies all`next
    ensures Chain(list, out)
  {
    assert out[|out| - 1] in cur;
    tail.next := null;
  }

  /** What `rm_header__sort` keeps from pass to pass. */
  ghost predicate Round(list: Header?, s: seq<Header>, key: Header -> int, all: set<Header>)
    reads all
  {
    Within(s, all) && s != [] && Chain(list, s) && Keyed(s, key)
  }

  method NextRound(list0: Header?, insize: nat, ghost s: seq<Header>, ghost key: Header -> int, ghost all: set<Header>)
    returns (list: Header?, nmerges: nat)
    requires 0 < insize && Round(list0, s, key, all)
    modifies all`next
    ensures Round(list, Pass(s, insize, key), key, all)
    ensures nmerges <= 1 <==> |s| <= 2 * insize
  {
    hide Pass, Merge, Chain;
    PassElements(s, insize, key);
    WithinSame(s, Pass(s, insize, key), all);
    KeyedSame(s, Pass(s, insize, key), key);
    list, nmerges := OnePass(list0, insize, s, key, all);
  }

  /** What the passes will come to. */
  lemma SortStart(list: Header?, l: seq<Header>, key: Header -> int, all: set<Header>)
    requires Chain(list, l) && Keyed(l, key) && Within(l, all) && list != null
    ensures Round(list, l, key, all) && |l| > 0
    ensures var r := Passes(l, 1, key);
            && Sorted(r, key) && multiset(r) == multiset(l)
            && forall v :: WithKey(r, v, key) == WithKey(l, v, key)
    ensures var c := PassCount(|l|, 1); |l| <= Pow2(c) && (c > 1 ==> Pow2(c - 1) < |l|)
  {
    hide Pass, Passes, PassCount, Pow2, Sorted, WithKey, RunsSorted;
    SinglesSorted(l, key);
    PassesSort(l, 1, key);
    PassCountIsLog(|l|, 1);
  }

  lemma EmptyList(list: Header?, l: seq<Header>, key: Header -> int)
    requires Chain(list, l)
    ensures list == null <==> l == []
    ensures l == [] ==> Sorted(l, key)
  {
  }

  /** `rm_header__sort` on a linear list. */
  method Sort(list0: Header?, ghost l: seq<Header>, ghost key: Header -> int, ghost all: set<Header>)
    returns (list: Header?, ghost s: seq<Header>, ghost passes: nat)
    requires Chain(list0, l) && Keyed(l, key) && Within(l, all)
    modifies all`next
    ensures Chain(list, s)
    ensures Sorted(s, key) && multiset(s) == multiset(l)
    ensures forall v :: WithKey(s, v, key) == WithKey(l, v, key)
    ensures l != [] ==> |l| <= Pow2(passes) && (passes > 1 ==> Pow2(passes - 1) < |l|)
  {
    hide Chain, Keyed, Within, Pass, Passes, PassCount, Pow2, Sorted, WithKey, RunsSorted, Round;
    list, s, passes := list0, l, 0;
    EmptyList(list, l, key);
    if list != null {
      SortStart(list, l, key, all);
      var insize := 1;
      ghost var goal := Passes(l, 1, key);
      var nmerges := 2;
      while nmerges > 1
        invariant 0 < insize && |s| == |l| && Round(list, s, key, all)
        invariant nmerges > 1 ==> Passes(s, insize, key) == goal && passes + PassCount(|l|, insize) == PassCount(|l|, 1)
        invariant nmerges <= 1 ==> s == goal && passes == PassCount(|l|, 1)
        decreases nmerges > 1, |l| - insize
      {
        PassesStep(s, insize, key);
        list, nmerges := NextRound(list, insize, s, key, all);
        s := Pass(s, insize, key);
        passes := passes + 1;
        insize := insize * 2;
      }
      RoundChain(list, s, key, all);
    }
  }

  lemma RoundChain(list: Header?, s: seq<Header>, key: Header -> int, all: set<Header>)
    requires Round(list, s, key, all)
    ensures Chain(list, s)
  {
  }

  lemma PassesStep(s: seq<Header>, n: nat, key: Header -> int)
    requires 0 < n
    ensures Passes(s, n, key) == if |s| <= 2 * n then Pass(s, n, key) else Passes(Pass(s, n, key), 2 * n, key)
    ensures PassCount(|s|, n) == if |s| <= 2 * n then 1 else 1 + PassCount(|s|, 2 * n)
  {
  }

  lemma WithinSame(s: seq<Header>, t: seq<Header>, all: set<Header>)
    requires Within(s, all) && multiset(s) == multiset(t)
    ensures Within(t, all)
  {
    forall i | 0 <= i < |t|
      ensures t[i] in all
    {
      assert t[i] in multiset(s);
    }
  }

  lemma KeyedSame(s: seq<Header>, t: seq<Header>, key: Header -> int)
    requires Keyed(s, key) && multiset(s) == multiset(t)
    ensures Keyed(t, key)
  {
    forall i | 0 <= i < |t|
      ensures key(t[i]) == SortKey(t[i].memory)
    {
      assert t[i] in multiset(s);
    }
  }
}
