/** The free-block slots of rmalloc: slot `k` lists free blocks of at least `2^k` and less than `2^(k+1)` bytes. */
module Slots {
  import opened ListSort
  import opened Blocks
  import opened Ranges
  import opened Layouts
  import opened Common

  /** `h` is a free block of the list `l`, and belongs into slot `k`. */
  ghost predicate Fits(h: Header, k: nat, l: seq<Header>)
    reads l`size, l`kind
  {
    h in l && h.kind == Free && MIN_BLOCK <= h.size && Log2(h.size) == k
  }

  /** Every slot lists free blocks of its sizes, none twice. */
  ghost predicate SlotsHold(s: seq<seq<Header>>, l: seq<Header>)
    reads l`size, l`kind
  {
    && (forall k :: 0 <= k < |s| ==> Distinct(s[k]))
    && (forall k, j :: 0 <= k < |s| && 0 <= j < |s[k]| ==> Fits(s[k][j], k, l))
  }

  /** The slots list `h`. */
  ghost predicate Listed(s: seq<seq<Header>>, h: Header) {
    exists k :: 0 <= k < |s| && h in s[k]
  }

  /** No listed block has `size` bytes. */
  ghost predicate NoneFits(s: seq<seq<Header>>, size: nat)
    reads set k, j | 0 <= k < |s| && 0 <= j < |s[k]| :: s[k][j]`size
  {
    forall k, j :: 0 <= k < |s| && 0 <= j < |s[k]| ==> s[k][j].size < size
  }

  /** `t` is `s` without the header at place `j` of slot `k`. */
  ghost predicate Taken(s: seq<seq<Header>>, t: seq<seq<Header>>, k: nat, j: nat) {
    k < |s| && j < |s[k]| && t == s[k := s[k][..j] + s[k][j + 1..]]
  }

  /** `t` is `s` with `h` first in the slot of its size. */
  ghost predicate PutFirst(s: seq<seq<Header>>, t: seq<seq<Header>>, h: Header)
    reads h`size
  {
    h.size > 0 && Log2(h.size) < |s| && t == s[Log2(h.size) := [h] + s[Log2(h.size)]]
  }

  lemma TakenHolds(s: seq<seq<Header>>, t: seq<seq<Header>>, k: nat, j: nat, l: seq<Header>)
    requires SlotsHold(s, l) && Taken(s, t, k, j)
    ensures SlotsHold(t, l) && Fits(s[k][j], k, l) && !Listed(t, s[k][j])
    ensures forall h :: h in l && Listed(s, h) && h != s[k][j] ==> Listed(t, h)
  {
    var h := s[k][j];
    var u := s[k][..j] + s[k][j + 1..];
    assert Distinct(u);
    forall x, y | 0 <= x < |t| && 0 <= y < |t[x]| ensures Fits(t[x][y], x, l) {
      if x == k {
        assert t[x][y] == s[k][if y < j then y else y + 1];
      } else {
        assert t[x][y] == s[x][y];
      }
    }
    forall x | 0 <= x < |t| ensures h !in t[x] {
    }
    forall g | g in l && Listed(s, g) && g != h ensures Listed(t, g) {
      var x :| 0 <= x < |s| && g in s[x];
      assert g in t[x] by {
        if x == k {
          var y :| 0 <= y < |s[x]| && s[x][y] == g;
          assert u[if y < j then y else y - 1] == g;
        }
      }
    }
  }

  lemma TakenListed(s: seq<seq<Header>>, t: seq<seq<Header>>, k: nat, j: nat)
    requires Taken(s, t, k, j)
    ensures Listed(s, s[k][j])
  {
  }

  /** The first block of a slot with room for `size` bytes, as an index. */
  ghost function FirstOf(l: seq<Header>, size: nat): (i: nat)
    reads l`size
    ensures i <= |l|
  {
    if l == [] || l[0].size >= size then 0 else 1 + FirstOf(l[1..], size)
  }

  lemma {:induction false} FirstOfIs(l: seq<Header>, size: nat, i: nat)
    requires i <= |l| && (i < |l| ==> l[i].size >= size) && forall x :: 0 <= x < i ==> l[x].size < size
    ensures FirstOf(l, size) == i
    decreases |l|
  {
    if l != [] && i > 0 {
      assert l[0].size < size;
      FirstOfIs(l[1..], size, i - 1);
    }
  }

  /** The first slot from `k` on that lists anything. */
  function FirstAbove(s: seq<seq<Header>>, k: nat): (i: nat)
    requires k <= |s|
    ensures k <= i <= |s| && (i < |s| ==> s[i] != []) && forall x :: k <= x < i ==> s[x] == []
    decreases |s| - k
  {
    if k == |s| || s[k] != [] then k else FirstAbove(s, k + 1)
  }

  /** The block that a search for `size` bytes takes: the first of the lowest slot above that of `size` that lists
      any, else the first that fits in the slot of `size`. */
  ghost function FirstFit(s: seq<seq<Header>>, size: nat): Header?
    requires 0 < size
    reads set k, j | 0 <= k < |s| && 0 <= j < |s[k]| :: s[k][j]`size
  {
    if |s| <= Log2(size) then null
    else
      var k, l := FirstAbove(s, Log2(size) + 1), s[Log2(size)];
      if k < |s| then s[k][0] else if FirstOf(l, size) < |l| then l[FirstOf(l, size)] else null
  }

  // ---------------------------------------------------------------- the slots as values

  /** The blocks that the slots list. */
  ghost function SnapAll(s: seq<seq<Header>>): (b: seq<seq<Block>>)
    reads set k, j | 0 <= k < |s| && 0 <= j < |s[k]| :: s[k][j]
    ensures |b| == |s|
  {
    if s == [] then [] else SnapAll(s[..|s| - 1]) + [Snap(s[|s| - 1])]
  }

  lemma {:induction false} SnapAllAre(s: seq<seq<Header>>)
    ensures forall k :: 0 <= k < |s| ==> SnapAll(s)[k] == Snap(s[k])
  {
    if s != [] {
      SnapAllAre(s[..|s| - 1]);
    }
  }

  twostate lemma SnapSame(l: seq<Header>)
    requires forall j :: 0 <= j < |l| ==> BlockOf(l[j]) == old(BlockOf(l[j]))
    ensures Snap(l) == old(Snap(l))
  {
    SnapAre(l);
    SnapWas(l);
  }

  twostate lemma {:induction false} SnapWas(l: seq<Header>)
    ensures forall i :: 0 <= i < |l| ==> old(Snap(l))[i] == old(BlockOf(l[i]))
  {
    if l != [] {
      SnapWas(l[1..]);
    }
  }

  twostate lemma {:induction false} SnapAllWas(s: seq<seq<Header>>)
    ensures forall k :: 0 <= k < |s| ==> old(SnapAll(s))[k] == old(Snap(s[k]))
  {
    if s != [] {
      SnapAllWas(s[..|s| - 1]);
    }
  }

  /** What the slots list stays the same where no listed block changes. */
  twostate lemma SnapAllSame(s: seq<seq<Header>>)
    requires forall k, j :: 0 <= k < |s| && 0 <= j < |s[k]| ==> BlockOf(s[k][j]) == old(BlockOf(s[k][j]))
    ensures SnapAll(s) == old(SnapAll(s))
  {
    SnapAllAre(s);
    SnapAllWas(s);
    forall k | 0 <= k < |s|
      ensures Snap(s[k]) == old(Snap(s[k]))
    {
      SnapSame(s[k]);
    }
  }

  lemma TakenSnap(s: seq<seq<Header>>, t: seq<seq<Header>>, k: nat, j: nat)
    requires Taken(s, t, k, j)
    ensures |SnapAll(s)[k]| == |s[k]| && SnapAll(s)[k][j] == BlockOf(s[k][j])
    ensures SnapAll(t) == Unlisting(SnapAll(s), k, j)
  {
    hide Snap, SnapAll;
    SnapAllAre(s);
    SnapAllAre(t);
    SnapSlice(s[k], 0, j);
    SnapSlice(s[k], j + 1, |s[k]|);
    SnapConcat(s[k][..j], s[k][j + 1..]);
    SnapAt(s[k], j);
    assert s[k][0..j] == s[k][..j] && s[k][j + 1..|s[k]|] == s[k][j + 1..];
    assert t[k] == s[k][..j] + s[k][j + 1..];
    assert SnapAll(t)[k] == Unlisting(SnapAll(s), k, j)[k];
  }

  lemma PutFirstSnap(s: seq<seq<Header>>, t: seq<seq<Header>>, h: Header)
    requires PutFirst(s, t, h)
    ensures SnapAll(t) == Listing(SnapAll(s), BlockOf(h))
  {
    hide Snap, SnapAll, Log2;
    SnapAllAre(s);
    SnapAllAre(t);
    SnapConcat([h], s[Log2(h.size)]);
    SnapAt([h], 0);
    assert Snap([h]) == [BlockOf(h)];
  }

  lemma {:induction false} FirstRoomIs(l: seq<Header>, size: nat)
    ensures FirstRoom(Snap(l), size) == FirstOf(l, size)
  {
    if l != [] {
      FirstRoomIs(l[1..], size);
      assert Snap(l)[1..] == Snap(l[1..]);
    }
  }

  lemma {:induction false} FirstListingIs(s: seq<seq<Header>>, k: nat)
    requires k <= |s|
    ensures FirstListing(SnapAll(s), k) == FirstAbove(s, k)
    decreases |s| - k
  {
    hide SnapAll;
    SnapAllAre(s);
    if k < |s| && s[k] == [] {
      FirstListingIs(s, k + 1);
    }
  }

  /** Where the first fit is listed. */
  lemma FitIsFirst(s: seq<seq<Header>>, size: nat)
    requires 0 < size
    ensures var f := FitFor(SnapAll(s), size);
            if f == NoFit then FirstFit(s, size) == null
            else f.k < |s| && f.j < |s[f.k]| && FirstFit(s, size) == s[f.k][f.j]
                 && SnapAll(s)[f.k][f.j] == BlockOf(s[f.k][f.j])
  {
    hide SnapAll, Log2;
    SnapAllAre(s);
    if Log2(size) < |s| {
      FirstListingIs(s, Log2(size) + 1);
      FirstRoomIs(s[Log2(size)], size);
    }
    var f := FitFor(SnapAll(s), size);
    if f != NoFit {
      SnapAt(s[f.k], f.j);
    }
  }

  lemma FitIsAt(s: seq<seq<Header>>, size: nat, at: nat, j: nat)
    requires 0 < size && Log2(size) < |s| && at < |s| && j < |s[at]|
    requires var k := FirstAbove(s, Log2(size) + 1);
             (at, j) == if k < |s| then (k, 0) else (Log2(size), FirstOf(s[Log2(size)], size))
    ensures FitFor(SnapAll(s), size) == Fit(at, j)
  {
    hide SnapAll, Log2;
    SnapAllAre(s);
    FirstListingIs(s, Log2(size) + 1);
    FirstRoomIs(s[Log2(size)], size);
  }

  lemma RelistedMore(l: seq<Header>, c: nat, n: nat)
    requires c < |l|
    ensures var s, x := Relisted(Snap(l)[..c], n), BlockOf(l[c]);
            Relisted(Snap(l)[..c + 1], n) == if x.kind == Free then Listing(s, x) else s
  {
    hide Snap, Listing;
    SnapAt(l, c);
    assert Snap(l)[..c + 1][..c] == Snap(l)[..c];
  }

  lemma SizeInSlot(s: seq<seq<Header>>, l: seq<Header>, k: nat, j: nat)
    requires SlotsHold(s, l) && k < |s| && j < |s[k]|
    ensures 0 < s[k][j].size && Pow2(k) <= s[k][j].size < Pow2(k + 1) && s[k][j] in l
  {
    assert Fits(s[k][j], k, l);
    Log2Bounds(s[k][j].size);
  }

  /** Every block of a slot above that of `size` has room for `size`. */
  lemma SlotAbove(s: seq<seq<Header>>, l: seq<Header>, k: nat, j: nat, size: nat)
    requires SlotsHold(s, l) && 0 < size && Log2(size) < k < |s| && j < |s[k]|
    ensures size < s[k][j].size
  {
    SizeInSlot(s, l, k, j);
    Log2Bounds(size);
    Pow2Rises(Log2(size) + 1, k);
  }

  lemma SlotBelow(s: seq<seq<Header>>, l: seq<Header>, k: nat, j: nat, size: nat)
    requires SlotsHold(s, l) && 0 < size && k < |s| && k < Log2(size) && j < |s[k]|
    ensures s[k][j].size < size
  {
    SizeInSlot(s, l, k, j);
    Log2Bounds(size);
    Pow2Rises(k + 1, Log2(size));
  }

  /** When the slot of `size` has no block of that size and the slots above are empty, no slot has one. */
  lemma NowhereElse(s: seq<seq<Header>>, l: seq<Header>, size: nat)
    requires SlotsHold(s, l) && 0 < size && Log2(size) < |s|
    requires forall k :: Log2(size) < k < |s| ==> s[k] == []
    requires forall j :: 0 <= j < |s[Log2(size)]| ==> s[Log2(size)][j].size < size
    ensures NoneFits(s, size)
  {
    hide SlotsHold, Log2;
    forall k, j | 0 <= k < |s| && 0 <= j < |s[k]| ensures s[k][j].size < size {
      if k < Log2(size) {
        SlotBelow(s, l, k, j, size);
      }
    }
  }

  lemma {:induction false} FirstOfFits(l: seq<Header>, size: nat)
    ensures var i := FirstOf(l, size);
            (i < |l| ==> l[i].size >= size) && forall x :: 0 <= x < i ==> l[x].size < size
    decreases |l|
  {
    if l != [] && l[0].size < size {
      FirstOfFits(l[1..], size);
    }
  }

  /** There is a first fit exactly if some slot lists a block that is large enough. */
  lemma FirstFitListed(s: seq<seq<Header>>, l: seq<Header>, size: nat)
    requires SlotsHold(s, l) && 0 < size && Log2(size) < |s|
    ensures var f := FirstFit(s, size);
            (f == null <==> NoneFits(s, size)) && (f != null ==> Listed(s, f) && size <= f.size && f in l)
  {
    hide SlotsHold, Log2;
    var k, i := FirstAbove(s, Log2(size) + 1), FirstOf(s[Log2(size)], size);
    FirstOfFits(s[Log2(size)], size);
    if k < |s| {
      SlotAbove(s, l, k, 0, size);
      SizeInSlot(s, l, k, 0);
    } else if i < |s[Log2(size)]| {
      SizeInSlot(s, l, Log2(size), i);
    } else {
      NowhereElse(s, l, size);
    }
  }

  /** Takes the first block of slot `k` that has `size` bytes out of it. */
  method ScanSlot(slots: array<seq<Header>>, k: nat, size: nat, ghost l: seq<Header>)
    returns (found: Header?, ghost j: nat)
    requires SlotsHold(slots[..], l) && k < slots.Length
    modifies slots
    ensures found == null ==> slots[..] == old(slots[..]) && forall i :: 0 <= i < |slots[k]| ==> slots[k][i].size < size
    ensures found != null ==> Taken(old(slots[..]), slots[..], k, j) && found == old(slots[k])[j] && size <= found.size
    ensures old(FirstOf(slots[k], size)) == if found != null then j else |old(slots[k])|
  {
    hide SlotsHold;
    var i := 0;
    found, j := null, 0;
    while i < |slots[k]|
      invariant 0 <= i <= |slots[k]| && slots[..] == old(slots[..])
      invariant forall x :: 0 <= x < i ==> slots[k][x].size < size
    {
      var block := slots[k][i];
      if block.size >= size {
        SizeInSlot(slots[..], l, k, i);
        if block.size > Pow2(k + 1) {
          assert false;
        } else {
          found, j := block, i;
          FirstOfIs(slots[k], size, i);
          ghost var s := slots[..];
          slots[k] := slots[k][..i] + slots[k][i + 1..];
          assert slots[..] == s[k := s[k][..i] + s[k][i + 1..]];
          return;
        }
      }
      i := i + 1;
    }
    FirstOfIs(slots[k], size, i);
  }

  /** The search of `freeblock_find`: takes a block with room for `size` bytes out of its slot, if any slot lists one.
      The branches that would move a misplaced block, and the one that would abort, are never taken. */
  method TakeFit(slots: array<seq<Header>>, size: nat, ghost l: seq<Header>)
    returns (found: Header?, ghost at: nat, ghost j: nat)
    requires SlotsHold(slots[..], l) && 0 < size && Log2(size) < slots.Length
    modifies slots
    ensures found == old(FirstFit(slots[..], size))
    ensures found == null <==> old(NoneFits(slots[..], size))
    ensures found == null ==> slots[..] == old(slots[..])
    ensures found != null ==> Taken(old(slots[..]), slots[..], at, j) && found == old(slots[..])[at][j]
                              && size <= found.size
    ensures found != null ==>
              var s := old(slots[..]);
              var k := FirstAbove(s, Log2(size) + 1);
              (at, j) == if k < |s| then (k, 0) else (Log2(size), old(FirstOf(slots[Log2(size)], size)))
  {
    hide SlotsHold, Log2;
    var k := Log2(size) + 1;
    ghost var s := slots[..];
    found, at, j := null, 0, 0;
    if k == slots.Length {
      k := k - 1;
      found, j := ScanSlot(slots, k, size, l);
      at := k;
      if found == null {
        NowhereElse(s, l, size);
      }
    } else {
      while k < slots.Length && slots[k] == []
        invariant Log2(size) < k <= slots.Length && slots[..] == s
        invariant forall i :: Log2(size) < i < k ==> slots[i] == []
      {
        k := k + 1;
      }
      if k < slots.Length {
        var block := slots[k][0];
        SizeInSlot(s, l, k, 0);
        SlotAbove(s, l, k, 0, size);
        slots[k] := slots[k][1..];
        at := k;
        assert s[k][..0] + s[k][1..] == s[k][1..];
        assert slots[..] == s[k := s[k][1..]];
        if block.size > Pow2(k + 1) {
          assert false;
        } else {
          if block.size < size {
            assert false;
          }
          found := block;
        }
      } else {
        k := Log2(size);
        found, j := ScanSlot(slots, k, size, l);
        at := k;
        if found == null {
          NowhereElse(s, l, size);
        }
      }
    }
  }

  /** `freeblock_insert`: lists a free block first in its slot. */
  method Insert(slots: array<seq<Header>>, h: Header, ghost l: seq<Header>)
    requires SlotsHold(slots[..], l) && h in l && h.kind == Free && MIN_BLOCK <= h.size && Log2(h.size) < slots.Length
    requires !Listed(slots[..], h)
    modifies slots
    ensures SlotsHold(slots[..], l) && PutFirst(old(slots[..]), slots[..], h)
    ensures forall g :: g in l ==> (Listed(slots[..], g) <==> g == h || Listed(old(slots[..]), g))
  {
    var k := Log2(h.size);
    ghost var s := slots[..];
    slots[k] := [h] + slots[k];
    Inserted(s, slots[..], k, h);
  }

  lemma Inserted(s: seq<seq<Header>>, t: seq<seq<Header>>, k: nat, h: Header)
    requires k < |s| && t == s[k := [h] + s[k]]
    ensures Listed(t, h) && forall x :: 0 <= x < |s| ==> forall y :: 0 <= y < |s[x]| ==> Listed(t, s[x][y])
    ensures forall x :: 0 <= x < |t| ==> forall y :: 0 <= y < |t[x]| ==> t[x][y] == h || Listed(s, t[x][y])
  {
    assert t[k][0] == h;
    forall x, y | 0 <= x < |s| && 0 <= y < |s[x]| ensures Listed(t, s[x][y]) {
      assert s[x][y] in t[x] by {
        if x == k {
          assert t[x][y + 1] == s[x][y];
        }
      }
    }
    forall x, y | 0 <= x < |t| && 0 <= y < |t[x]| ensures t[x][y] == h || Listed(s, t[x][y]) {
      if x == k && y > 0 {
        assert t[x][y] == s[x][y - 1] && s[x][y - 1] in s[x];
      } else if x != k {
        assert t[x][y] in s[x];
      }
    }
  }

  /** The blocks have memory, at least the least size, and a slot. */
  ghost predicate Slotted(l: seq<Header>, n: nat)
    reads l`memory, l`size
  {
    forall i :: 0 <= i < |l| ==> l[i].memory != 0 && MIN_BLOCK <= l[i].size && Log2(l[i].size) < n
  }

  lemma NotListed(s: seq<seq<Header>>, l: seq<Header>, c: nat)
    requires SlotsHold(s, l) && c < |l| && l[c].kind != Free
    ensures !Listed(s, l[c])
  {
    forall k | 0 <= k < |s| ensures l[c] !in s[k] {
      forall j | 0 <= j < |s[k]| ensures s[k][j] != l[c] {
        assert Fits(s[k][j], k, l);
      }
    }
  }

  lemma NothingListed(s: seq<seq<Header>>, b: seq<Block>)
    requires b == [] && forall k :: 0 <= k < |s| ==> s[k] == []
    ensures SnapAll(s) == Relisted(b, |s|)
  {
    hide SnapAll;
    SnapAllAre(s);
  }

  /** The slots list the free ones among the first `c` headers of `l`, as they come. */
  ghost predicate ListedSoFar(s: seq<seq<Header>>, l: seq<Header>, c: nat)
    requires c <= |l|
    reads l, set k, j | 0 <= k < |s| && 0 <= j < |s[k]| :: s[k][j]
  {
    && SlotsHold(s, l)
    && (forall i :: 0 <= i < c ==> (Listed(s, l[i]) <==> l[i].kind == Free))
    && (forall i :: c <= i < |l| ==> !Listed(s, l[i]))
    && SnapAll(s) == Relisted(Snap(l)[..c], |s|)
  }

  /** The loop body of `rebuild_free_block_slots`. */
  method ListOne(slots: array<seq<Header>>, h: Header, ghost l: seq<Header>, ghost c: nat)
    requires Distinct(l) && Slotted(l, slots.Length) && c < |l| && h == l[c] && ListedSoFar(slots[..], l, c)
    modifies slots
    ensures ListedSoFar(slots[..], l, c + 1)
  {
    hide Log2, PutFirst, Snap, SnapAll, Relisted, Listing;
    RelistedMore(l, c, slots.Length);
    if h.memory == 0 || h.kind != Free {
      NotListed(slots[..], l, c);
      return;
    }
    if h.size >= MIN_BLOCK {
      ghost var s := slots[..];
      Insert(slots, h, l);
      PutFirstSnap(s, slots[..], h);
    }
  }

  /** `rebuild_free_block_slots`: afterwards the slots list exactly the free blocks, each slot in the reverse of the
      order in which the list has them. */
  method Rebuild(slots: array<seq<Header>>, head: Header?, ghost l: seq<Header>)
    requires Linked(l, null) && Distinct(l) && head == At(l, 0) && Slotted(l, slots.Length)
    modifies slots
    ensures SlotsHold(slots[..], l)
    ensures forall i :: 0 <= i < |l| ==> (Listed(slots[..], l[i]) <==> l[i].kind == Free)
    ensures SnapAll(slots[..]) == Relisted(Snap(l), slots.Length)
  {
    hide ListedSoFar, SlotsHold, Snap, SnapAll, Relisted, Listed, Linked, Slotted, Distinct;
    forall k | 0 <= k < slots.Length {
      slots[k] := [];
    }
    NoneListed(slots[..], l);
    var h := head;
    ghost var c := 0;
    while h != null
      invariant 0 <= c <= |l| && h == At(l, c) && ListedSoFar(slots[..], l, c)
      decreases |l| - c
    {
      LinkedNext(l, c);
      ListOne(slots, h, l, c);
      h, c := h.next, c + 1;
    }
    AllListed(slots[..], l);
  }

  lemma NoneListed(s: seq<seq<Header>>, l: seq<Header>)
    requires forall k :: 0 <= k < |s| ==> s[k] == []
    ensures ListedSoFar(s, l, 0)
  {
    NothingListed(s, Snap(l)[..0]);
  }

  lemma AllListed(s: seq<seq<Header>>, l: seq<Header>)
    requires ListedSoFar(s, l, |l|)
    ensures SlotsHold(s, l) && SnapAll(s) == Relisted(Snap(l), |s|)
    ensures forall i :: 0 <= i < |l| ==> (Listed(s, l[i]) <==> l[i].kind == Free)
  {
    assert Snap(l)[..|l|] == Snap(l);
  }
}
