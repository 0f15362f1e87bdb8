/** The compacting handle allocator rmalloc. Addresses are offsets from the start of the heap, which begins with the
    slots; headers grow down from its end. */
module HandleHeap {
  import opened Common
  import opened ListSort
  import opened Blocks
  import opened Choices
  import opened Layouts
  import opened Ranges
  import opened Rounds
  import opened Survival
  import opened Slots
  import opened Merging
  import C = Compaction

  /** The headers `order` are those of the list, by address, and their blocks tile the heap. */
  ghost predicate Arranged(list: seq<Header>, order: seq<Header>, lo: int, hi: int)
    reads order`memory, order`size, order`kind
  {
    Distinct(list) && multiset(order) == multiset(list) && Tiles(Snap(order), lo, hi)
  }

  ghost function HandlesOf(list: seq<Header>): set<Header>
    reads list`kind
  {
    set i | 0 <= i < |list| && list[i].kind != Free :: list[i]
  }

  lemma InBoth(list: seq<Header>, order: seq<Header>, h: Header)
    requires multiset(order) == multiset(list)
    ensures h in list <==> h in order
  {
    assert h in list <==> h in multiset(list);
    assert h in order <==> h in multiset(order);
  }

  /** Where the block of a listed header lies. */
  lemma BlockPlace(list: seq<Header>, order: seq<Header>, lo: int, hi: int, h: Header)
    requires Arranged(list, order, lo, hi) && h in list
    ensures lo <= h.memory && MIN_BLOCK <= h.size && h.memory + h.size <= hi
  {
    hide Snap, Tiles;
    InBoth(list, order, h);
    var i :| 0 <= i < |order| && order[i] == h;
    SnapAt(order, i);
    TilesAt(Snap(order), lo, hi, i);
  }

  /** No two listed blocks overlap. */
  lemma BlocksApart(list: seq<Header>, order: seq<Header>, lo: int, hi: int, g: Header, h: Header)
    requires Arranged(list, order, lo, hi) && g in list && h in list && g != h
    ensures g.memory + g.size <= h.memory || h.memory + h.size <= g.memory
  {
    hide Snap, Tiles;
    InBoth(list, order, g);
    InBoth(list, order, h);
    var i :| 0 <= i < |order| && order[i] == g;
    var j :| 0 <= j < |order| && order[j] == h;
    SnapAt(order, i);
    SnapAt(order, j);
    TilesOrdered(Snap(order), lo, hi, if i < j then i else j, if i < j then j else i);
  }

  /** A new block on top. */
  lemma ArrangedOnTop(list: seq<Header>, order: seq<Header>, lo: int, hi: int, h: Header)
    requires Distinct(list) && h !in list && multiset(order) == multiset(list) && Tiles(Snap(order), lo, hi)
    requires h.memory == hi && MIN_BLOCK <= h.size
    ensures Arranged([h] + list, order + [h], lo, hi + h.size)
  {
    hide Snap, Tiles;
    SnapConcat(order, [h]);
    SnapAre([h]);
    OneTile(Snap([h])[0], hi);
    assert Snap([h]) == [Snap([h])[0]];
    TilesConcat(Snap(order), Snap([h]), lo, hi, hi + h.size);
  }

  lemma SnapMore(l: seq<Header>, h: Header)
    ensures Snap(l + [h]) == Snap(l) + [BlockOf(h)]
  {
    hide Snap;
    SnapConcat(l, [h]);
    SnapAt([h], 0);
    assert Snap([h]) == [BlockOf(h)];
  }

  lemma SplitTiles(b: seq<Block>, i: nat, d: int, lo: int, hi: int)
    requires Tiles(b, lo, hi) && i < |b| && MIN_BLOCK <= d && d + MIN_BLOCK <= b[i].size
    ensures Tiles(SplitBlocks(b, i, d), lo, hi)
  {
    var x, z := b[..i], b[i + 1..];
    assert b == x + ([b[i]] + z);
    TilesSplit(x, [b[i]] + z, lo, hi);
    TilesSplit([b[i]], z, lo + Sum(x), hi);
    assert [b[i]][1..] == [];
    var p := lo + Sum(x);
    OneTile(Block(p, d, Free), p);
    OneTile(Block(p + d, b[i].size - d, b[i].kind), p + d);
    TilesConcat(x, [Block(p, d, Free)], lo, p, p + d);
    TilesConcat(x + [Block(p, d, Free)], [Block(p + d, b[i].size - d, b[i].kind)], lo, p + d, p + b[i].size);
    TilesConcat(x + [Block(p, d, Free)] + [Block(p + d, b[i].size - d, b[i].kind)], z, lo, p + b[i].size, hi);
  }

  lemma SnapInserted(x: seq<Header>, y: seq<Header>, h: Header)
    ensures Snap(x + [h] + y) == Snap(x) + [BlockOf(h)] + Snap(y)
  {
    hide Snap;
    SnapMore(x, h);
    SnapConcat(x + [h], y);
  }

  lemma WithOneMore<T>(x: seq<T>, h: T, y: seq<T>)
    ensures multiset(x + [h] + y) == multiset([h]) + multiset(x + y)
  {
  }

  /** The lower part of the block of index `i` put in front of what is left of it. */
  lemma SplitFrom(b: seq<Block>, i: nat, d: int, x: seq<Block>, y: seq<Block>)
    requires i < |b| && |x| == i && x + y == b[i := Block(b[i].addr + d, b[i].size - d, b[i].kind)]
    ensures x + [Block(b[i].addr, d, Free)] + y == SplitBlocks(b, i, d)
  {
    var z := Block(b[i].addr + d, b[i].size - d, b[i].kind);
    assert x == (x + y)[..i] && y == (x + y)[i..];
    assert x == b[..i] && y == [z] + b[i + 1..];
  }

  /** A block split in two: `rest` is the header of its lower part. */
  lemma ArrangedSplit(list: seq<Header>, order: seq<Header>, b: seq<Block>, lo: int, hi: int, i: nat, rest: Header,
                      d: int)
    requires Distinct(list) && rest !in list && multiset(order) == multiset(list) && Tiles(b, lo, hi)
    requires |b| == |order| && i < |b| && MIN_BLOCK <= d && d + MIN_BLOCK <= b[i].size
    requires Snap(order) == b[i := Block(b[i].addr + d, b[i].size - d, b[i].kind)]
    requires rest.memory == b[i].addr && rest.size == d && rest.kind == Free
    ensures Arranged([rest] + list, order[..i] + [rest] + order[i..], lo, hi)
    ensures Snap(order[..i] + [rest] + order[i..]) == SplitBlocks(b, i, d)
  {
    hide Snap, Tiles, SplitBlocks;
    var x, y := order[..i], order[i..];
    assert order == x + y;
    WithOneMore(x, rest, y);
    SnapConcat(x, y);
    SnapInserted(x, y, rest);
    SplitFrom(b, i, d, Snap(x), Snap(y));
    SplitTiles(b, i, d, lo, hi);
    assert multiset([rest] + list) == multiset([rest]) + multiset(list);
  }

  lemma SlotsHoldMore(s: seq<seq<Header>>, l: seq<Header>, h: Header)
    requires SlotsHold(s, l)
    ensures SlotsHold(s, [h] + l)
  {
    forall k, j | 0 <= k < |s| && 0 <= j < |s[k]| ensures Fits(s[k][j], k, [h] + l) {
      assert Fits(s[k][j], k, l);
    }
  }

  lemma NotListedMore(s: seq<seq<Header>>, l: seq<Header>, h: Header)
    requires SlotsHold(s, l) && (h !in l || h.kind != Free)
    ensures !Listed(s, h)
  {
    forall k, j | 0 <= k < |s| && 0 <= j < |s[k]| ensures s[k][j] != h {
      assert Fits(s[k][j], k, l);
    }
  }

  lemma LinkedMore(l: seq<Header>, h: Header)
    requires Linked(l, null) && Distinct(l) && h !in l && h.next == At(l, 0)
    ensures Linked([h] + l, null) && Distinct([h] + l)
  {
  }

  ghost function IndexOf(list: seq<Header>, order: seq<Header>, h: Header): (i: nat)
    requires h in list && multiset(order) == multiset(list)
    ensures i < |order| && order[i] == h
  {
    InBoth(list, order, h);
    var i :| 0 <= i < |order| && order[i] == h;
    i
  }

  lemma OneOf(l: seq<Header>, p: nat)
    requires Distinct(l) && p < |l|
    ensures multiset(l)[l[p]] == 1
  {
    var h := l[p];
    assert l == l[..p] + [h] + l[p + 1..];
    assert h !in l[..p] && h !in l[p + 1..];
    assert multiset(l) == multiset(l[..p]) + multiset{h} + multiset(l[p + 1..]);
  }

  /** A permutation of a list without repetitions has none. */
  lemma PermutationOnce(l: seq<Header>, k: seq<Header>)
    requires Distinct(l) && multiset(k) == multiset(l)
    ensures Distinct(k)
  {
    forall i, j | 0 <= i < j < |k| ensures k[i] != k[j] {
      if k[i] == k[j] {
        var h := k[i];
        assert k == k[..i] + [h] + (k[i + 1..j] + [h] + k[j + 1..]);
        assert multiset(k)
            == multiset(k[..i]) + multiset{h} + multiset(k[i + 1..j]) + multiset{h} + multiset(k[j + 1..]);
        assert h in multiset(l);
        var p :| 0 <= p < |l| && l[p] == h;
        OneOf(l, p);
        assert false;
      }
    }
  }

  lemma AtOnce(list: seq<Header>, order: seq<Header>, i: nat, h: Header)
    requires Distinct(list) && multiset(order) == multiset(list) && i < |order| && h !in list
    ensures forall x :: 0 <= x < |order| && x != i ==> order[x] != order[i]
    ensures h !in order && h !in HandlesOf(list) && HandlesOf(list) + {h} - {h} == HandlesOf(list)
  {
    PermutationOnce(list, order);
    InBoth(list, order, h);
  }

  /** The writes of `freeblock_shrink_with_header`. */
  method Cut(found: Header, rest: Header, size: nat, ghost list: seq<Header>, ghost order: seq<Header>,
             ghost b: seq<Block>, ghost i: nat, ghost s: seq<seq<Header>>)
    requires b == Snap(order) && i < |order| && order[i] == found && Distinct(list)
    requires rest !in order && found != rest && size <= found.size && found.kind == Free
    requires forall x :: 0 <= x < |order| && x != i ==> order[x] != found
    requires SlotsHold(s, list) && !Listed(s, found) && !Listed(s, rest)
    requires rest.kind != Free && rest in list
    modifies found`memory, found`size, rest`memory, rest`size, rest`kind
    ensures Snap(order) == b[i := Block(b[i].addr + (b[i].size - size), size, b[i].kind)]
    ensures found.size == size && found.memory == b[i].addr + (b[i].size - size)
    ensures rest.kind == Free && rest.size == b[i].size - size && rest.memory == b[i].addr
    ensures SlotsHold(s, list)
    ensures HandlesOf(list) == old(HandlesOf(list)) - {rest} && SnapAll(s) == old(SnapAll(s))
  {
    hide Snap, SnapAll;
    SnapAre(order);
    var diff := found.size - size;
    rest.kind := Free;
    rest.memory := found.memory;
    rest.size := diff;
    found.memory := found.memory + diff;
    found.size := size;
    SnapAre(order);
    assert Snap(order) == b[i := Block(b[i].addr + diff, size, b[i].kind)];
    SnapAllSame(s);
    forall k, j | 0 <= k < |s| && 0 <= j < |s[k]| ensures Fits(s[k][j], k, list) {
      assert old(Fits(s[k][j], k, list));
      assert s[k][j] in s[k];
    }
  }

  /** The block of a header is found by its address, and no other header has it. */
  lemma AtIndex(list: seq<Header>, order: seq<Header>, i: nat, h: Header, lo: int, hi: int)
    requires Arranged(list, order, lo, hi) && i < |order| && order[i] == h
    ensures PlaceOf(Snap(order), h.memory) == i && Snap(order)[i] == BlockOf(h)
    ensures forall x :: 0 <= x < |order| && x != i ==> order[x] != h
  {
    hide Snap, Tiles;
    PermutationOnce(list, order);
    SnapAt(order, i);
    PlaceIs(Snap(order), lo, hi, i);
  }

  /** A change of the kind of a block that no slot lists. */
  method KindsHold(h: Header, kind: Kind, ghost list: seq<Header>, ghost s: seq<seq<Header>>, ghost order: seq<Header>,
                   ghost lo: int, ghost hi: int)
    requires h in list && !Listed(s, h) && SlotsHold(s, list) && Arranged(list, order, lo, hi)
    modifies h`kind
    ensures h.kind == kind && SlotsHold(s, list) && Arranged(list, order, lo, hi)
    ensures Snap(order) == WithKind(old(Snap(order)), h.memory, kind) && SnapAll(s) == old(SnapAll(s))
    ensures HandlesOf(list) == if kind == Free then old(HandlesOf(list)) - {h} else old(HandlesOf(list)) + {h}
  {
    hide Snap, Tiles, Distinct, SnapAll;
    ghost var b := Snap(order);
    ghost var i := IndexOf(list, order, h);
    AtIndex(list, order, i, h, lo, hi);
    SnapAre(order);
    h.kind := kind;
    SnapAre(order);
    assert Snap(order) == b[i := b[i].(kind := kind)];
    TilesKinds(b, Snap(order), lo, hi);
    SnapAllSame(s);
    forall k, j | 0 <= k < |s| && 0 <= j < |s[k]| ensures Fits(s[k][j], k, list) {
      assert old(Fits(s[k][j], k, list));
      assert s[k][j] in s[k];
    }
  }

  lemma {:induction false} TilesKinds(b: seq<Block>, d: seq<Block>, lo: int, hi: int)
    requires Tiles(b, lo, hi) && |d| == |b|
    requires forall i :: 0 <= i < |b| ==> d[i].addr == b[i].addr && d[i].size == b[i].size
    ensures Tiles(d, lo, hi)
  {
    if b != [] {
      TilesKinds(b[1..], d[1..], lo + b[0].size, hi);
    }
  }

  // ---------------------------------------------------------------- around the compaction loop

  /** The search of `rm_compact` for the highest address in use, and the header of the block that ends there. */
  method HighestUsed(head: Header?, bottom: int, ghost l: seq<Header>, ghost hi: int)
    returns (highest: int, largest: Header?, ghost c: nat)
    requires InOrder(head, l, bottom, hi) && 0 < bottom
    ensures UnusedFrom(Snap(l), c) && highest == bottom + Sum(Snap(l)[..c])
    ensures largest == if c > 0 then l[c - 1] else head
  {
    hide Snap, Tiles, Sum, Distinct, Linked;
    ghost var b := Snap(l);
    highest, largest, c := bottom, head, 0;
    var h := head;
    ghost var i := 0;
    assert b[..0] == [];
    EmptySum(b[..0]);
    while h != null
      invariant 0 <= c <= i <= |l| && h == At(l, i) && highest == bottom + Sum(b[..c])
      invariant (forall k :: c <= k < i ==> b[k].kind == Free) && (c > 0 ==> b[c - 1].kind != Free)
      invariant largest == if c > 0 then l[c - 1] else head
      decreases |l| - i
    {
      LinkedNext(l, i);
      SnapAt(l, i);
      EndOf(b, i, c, bottom, hi);
      if h.memory != 0 && h.kind != Free {
        if h.memory + h.size > highest {
          highest := h.memory + h.size;
          largest := h;
          c := i + 1;
        }
      }
      h, i := h.next, i + 1;
    }
  }

  lemma EndOf(b: seq<Block>, i: nat, c: nat, lo: int, hi: int)
    requires Tiles(b, lo, hi) && c <= i < |b|
    ensures lo <= b[i].addr && b[i].addr + b[i].size == lo + Sum(b[..i + 1]) > lo + Sum(b[..c])
  {
    hide Tiles, Sum;
    TilesAt(b, lo, hi, i);
    SumStep(b, 0, i);
    assert b[0..i + 1] == b[..i + 1] && b[0..i] == b[..i];
    SumMore(b, c, i, lo, hi);
  }

  lemma SumMore(b: seq<Block>, c: nat, i: nat, lo: int, hi: int)
    requires Tiles(b, lo, hi) && c <= i <= |b|
    ensures Sum(b[..c]) <= Sum(b[..i])
  {
    hide Tiles, Sum;
    assert b == b[..i] + b[i..];
    TilesSplit(b[..i], b[i..], lo, hi);
    assert b[..i] == b[..c] + b[c..i];
    SumConcat(b[..c], b[c..i]);
    TilesSplit(b[..c], b[c..i], lo, lo + Sum(b[..i]));
    TilesSum(b[c..i], lo + Sum(b[..c]), lo + Sum(b[..i]));
  }

  /** What is cut off at the end of the list was free. */
  lemma KeptCut(l: seq<Header>, b: seq<Block>, m: seq<int>, k: seq<Header>, d: seq<Block>, n: seq<int>, c: nat)
    requires Kept(l, b, m, k, d, n) && UnusedFrom(d, c)
    ensures Kept(l, b, m, k[..c], d[..c], n) && Live(k[..c], d[..c]) == Live(k, d)
  {
    hide Survives, LiveSet, Live;
    assert k == k[..c] + k[c..] && d == d[..c] + d[c..];
    LiveSetConcat(k[..c], d[..c], k[c..], d[c..]);
    LiveSetNone(k[c..], d[c..]);
    LiveConcat(k[..c], d[..c], k[c..], d[c..]);
    LiveNone(k[c..], d[c..]);
  }

  lemma CutTiles(b: seq<Block>, c: nat, lo: int, hi: int)
    requires Tiles(b, lo, hi) && c <= |b|
    ensures Tiles(b[..c], lo, lo + Sum(b[..c])) && lo <= lo + Sum(b[..c]) <= hi
  {
    hide Tiles, Sum;
    assert b == b[..c] + b[c..];
    TilesSplit(b[..c], b[c..], lo, hi);
    TilesSum(b[..c], lo, lo + Sum(b[..c]));
    TilesSum(b[c..], lo + Sum(b[..c]), hi);
  }

  lemma SameFirst(s: seq<Header>, o: seq<Header>, key: Header -> int)
    requires multiset(s) == multiset(o) && Sorted(s, key) && o != []
    requires forall i, j :: 0 <= i < j < |o| ==> key(o[i]) < key(o[j])
    ensures s != [] && s[0] == o[0]
  {
    assert |s| == |multiset(s)| && |o| == |multiset(o)|;
    assert s[0] in multiset(o) && o[0] in multiset(s);
    var p :| 0 <= p < |o| && o[p] == s[0];
    var q :| 0 <= q < |s| && s[q] == o[0];
    assert p == 0;
  }

  lemma RestsSame(s: seq<Header>, o: seq<Header>)
    requires multiset(s) == multiset(o) && s != [] && o != [] && s[0] == o[0]
    ensures multiset(s[1..]) == multiset(o[1..])
  {
    assert s == [s[0]] + s[1..] && o == [o[0]] + o[1..];
    assert multiset(s[1..]) == multiset(s) - multiset{s[0]};
  }

  /** Sorting by distinct keys can have only one result. */
  lemma {:induction false} SortedUnique(s: seq<Header>, o: seq<Header>, key: Header -> int)
    requires multiset(s) == multiset(o) && Sorted(s, key)
    requires forall i, j :: 0 <= i < j < |o| ==> key(o[i]) < key(o[j])
    ensures s == o
  {
    if o == [] {
      assert |s| == |multiset(s)| == 0;
    } else {
      SameFirst(s, o, key);
      RestsSame(s, o);
      SortedUnique(s[1..], o[1..], key);
      assert s == [s[0]] + s[1..] && o == [o[0]] + o[1..];
    }
  }

  lemma OrderRises(o: seq<Header>, lo: int, hi: int, key: Header -> int)
    requires Tiles(Snap(o), lo, hi) && 0 < lo
    requires forall i :: 0 <= i < |o| ==> key(o[i]) == SortKey(o[i].memory)
    ensures forall i, j :: 0 <= i < j < |o| ==> key(o[i]) < key(o[j])
  {
    hide Snap, Tiles;
    SnapAre(o);
    forall i, j | 0 <= i < j < |o| ensures key(o[i]) < key(o[j]) {
      TilesOrdered(Snap(o), lo, hi, i, j);
      TilesAt(Snap(o), lo, hi, i);
    }
  }

  function KeyOf(keys: map<Header, int>): Header -> int {
    h => if h in keys then keys[h] else 0
  }

  lemma KeysAre(list: seq<Header>, keys: map<Header, int>, order: seq<Header>)
    requires forall i :: 0 <= i < |list| ==> list[i] in keys && keys[list[i]] == SortKey(list[i].memory)
    requires multiset(order) == multiset(list)
    ensures Keyed(list, KeyOf(keys)) && Keyed(order, KeyOf(keys))
  {
    forall i | 0 <= i < |order| ensures KeyOf(keys)(order[i]) == SortKey(order[i].memory) {
      InBoth(list, order, order[i]);
      var j :| 0 <= j < |list| && list[j] == order[i];
    }
  }

  lemma ChainIsLinked(head: Header?, l: seq<Header>)
    ensures Chain(head, l) <==> head == At(l, 0) && Distinct(l) && Linked(l, null)
  {
    hide Distinct;
    assert forall i :: 0 <= i < |l| ==> After(l, i, null) == At(l, i + 1);
  }

  lemma KeyedRises(order: seq<Header>, key: Header -> int, lo: int, hi: int)
    requires Tiles(Snap(order), lo, hi) && 0 < lo && Keyed(order, key)
    ensures forall i, j :: 0 <= i < j < |order| ==> key(order[i]) < key(order[j])
  {
    hide Tiles, Snap;
    OrderRises(order, lo, hi, key);
  }

  /** `rm_header_sort_all` puts the list into the order of the addresses. */
  method SortAll(head: Header?, ghost list: seq<Header>, ghost order: seq<Header>, ghost lo: int, ghost hi: int)
    returns (newHead: Header?)
    requires head == At(list, 0) && Linked(list, null) && Arranged(list, order, lo, hi) && 0 < lo
    modifies list`next
    ensures InOrder(newHead, order, lo, hi)
  {
    hide Snap, Tiles, KeyOf, Keyed, Chain, Linked, Distinct, Sorted, At, WithKey;
    ghost var keys := map i | 0 <= i < |list| :: list[i] := SortKey(list[i].memory);
    ghost var key := KeyOf(keys);
    ghost var all := set i | 0 <= i < |list| :: list[i];
    KeysAre(list, keys, order);
    ChainIsLinked(head, list);
    KeyedRises(order, key, lo, hi);
    ghost var s, passes;
    newHead, s, passes := Sort(head, list, key, all);
    SortedUnique(s, order, key);
    ChainIsLinked(newHead, s);
  }

  /** The end of `rm_compact`: the list now ends with the highest block in use. */
  method CutList(head: Header?, largest: Header?, none: bool, ghost l: seq<Header>, ghost c: nat, ghost lo: int,
                 ghost hi: int)
    returns (newHead: Header?)
    requires InOrder(head, l, lo, hi) && c <= |l| && largest == (if c > 0 then l[c - 1] else head) && none == (c == 0)
    modifies l`next
    ensures newHead == At(l[..c], 0) && Linked(l[..c], null) && Distinct(l[..c]) && Snap(l[..c]) == old(Snap(l)[..c])
  {
    hide Snap, Tiles, Linked, Distinct, Nexts;
    LinkedNexts(l);
    NextsAre(l);
    SliceOnce(l, 0, c);
    SnapSlice(l, 0, c);
    assert l[0..c] == l[..c];
    ghost var n := Nexts(l);
    if largest != null {
      SetNext(largest, null, l, if c > 0 then c - 1 else 0);
    }
    newHead := if none then null else head;
    NextsAre(l);
    LinkedSlice(l, 0, c, null);
    SnapSlice(l, 0, c);
    assert Snap(l)[0..c] == Snap(l)[..c];
  }

  lemma SlottedAre(l: seq<Header>, lo: int, hi: int, n: nat)
    requires Tiles(Snap(l), lo, hi) && 0 < lo && hi <= n && 0 < n
    ensures Slotted(l, Log2(n) + 1)
  {
    hide Tiles, Snap, Log2;
    SnapAre(l);
    forall i | 0 <= i < |l| ensures l[i].memory != 0 && MIN_BLOCK <= l[i].size && Log2(l[i].size) < Log2(n) + 1 {
      TilesAt(Snap(l), lo, hi, i);
      Log2Rises(l[i].size, n);
    }
  }

  lemma SameHandles(list: seq<Header>, order: seq<Header>)
    requires multiset(list) == multiset(order)
    ensures HandlesOf(list) == LiveSet(order, Snap(order))
  {
    hide Snap;
    SnapAre(order);
    forall h | h in HandlesOf(list) ensures h in LiveSet(order, Snap(order)) {
      InBoth(list, order, h);
      var i :| 0 <= i < |order| && order[i] == h;
    }
    forall h | h in LiveSet(order, Snap(order)) ensures h in HandlesOf(list) {
      InBoth(list, order, h);
      var i :| 0 <= i < |list| && list[i] == h;
    }
  }

  lemma OrderIn(list: seq<Header>, order: seq<Header>)
    requires multiset(list) == multiset(order)
    ensures forall i :: 0 <= i < |order| ==> order[i] in list
  {
    forall i | 0 <= i < |order| ensures order[i] in list {
      InBoth(list, order, order[i]);
    }
  }

  /** What is true of the list once it is cut. */
  lemma CutFacts(l: seq<Header>, b: seq<Block>, m: seq<int>, k: seq<Header>, d: seq<Block>, n: seq<int>,
                 c: nat, f: nat, full: bool)
    requires UnusedFrom(d, c) && Kept(l, b, m, k, d, n)
    requires full ==> C.FreeAtEnd(d, f) && Live(k, d) == Live(l, b)
    ensures |l| == |b| && c <= |k| == |d|
    ensures Kept(l, b, m, k[..c], d[..c], n) && LiveSet(k[..c], d[..c]) == LiveSet(l, b)
    ensures c > 0 ==> d[..c][c - 1].kind != Free
    ensures full ==> Live(k[..c], d[..c]) == Live(l, b) && forall i :: 0 <= i < c ==> d[..c][i].kind != Free
  {
    hide Live, Carried, LiveSet;
    KeptCut(l, b, m, k, d, n, c);
    if full {
      AllUsed(d, f, c);
    }
  }

  lemma ShortFacts(head: Header?, k: seq<Header>, d: seq<Block>, lo: int, hi: int, c: nat)
    requires InOrder(head, k, lo, hi) && d == Snap(k) && UnusedFrom(d, c)
    ensures c <= |k| == |d| && Tiles(d[..c], lo, lo + Sum(d[..c])) && lo <= lo + Sum(d[..c]) <= hi
    ensures lo + Sum(d[..c]) == lo <==> c == 0
  {
    hide Tiles, Sum, Snap;
    CutTiles(d, c, lo, hi);
    TilesSum(d[..c], lo, lo + Sum(d[..c]));
    if c == 0 {
      EmptySum(d[..c]);
    }
  }

  lemma RanClosed(b: seq<Block>, patience: nat, rounds: nat, c: nat)
    requires Ran(b, false, patience, rounds) && c <= |RoundsFrom(b, 0, rounds).0|
    ensures Closed(RoundsFrom(b, 0, rounds).0[..c], c)
  {
    ClosedBelow(RoundsFrom(b, 0, rounds).0, c);
  }

  lemma LastUsed(k: seq<Header>, d: seq<Block>)
    requires d == Snap(k)
    ensures forall i :: 0 <= i < |k| ==> k[i].kind == d[i].kind
  {
    SnapAre(k);
  }

  lemma AllUsed(b: seq<Block>, f: nat, c: nat)
    requires C.FreeAtEnd(b, f) && UnusedFrom(b, c)
    ensures f == c && forall i :: 0 <= i < c ==> b[i].kind != Free
  {
    assert c < |b| ==> b[c].kind == Free;
    assert f > 0 ==> b[f - 1].kind != Free;
  }

  class Rmalloc {
    const bytes: array<int>
    const slots: array<seq<Header>>
    const memoryBottom: int
    var memoryTop: int
    var headerBottom: int
    var headerRoot: Header?
    ghost var list: seq<Header>
    ghost var order: seq<Header>

    /** The headers of the blocks in use. */
    ghost function Handles(): set<Header>
      reads this, list
    {
      HandlesOf(list)
    }

    /** The bounds of the heap: slots, blocks, a gap, headers. */
    ghost predicate Bounded()
      reads this
    {
      && 0 < bytes.Length && slots.Length == Log2(bytes.Length) + 1
      && 0 < memoryBottom <= memoryTop < headerBottom <= bytes.Length
    }

    /** The heap as a value. */
    ghost function Shape(): Layout
      reads this, slots, order, set k, j | 0 <= k < slots.Length && 0 <= j < |slots[k]| :: slots[k][j]
    {
      Layout(Snap(order), SnapAll(slots[..]), memoryTop, headerBottom, bytes.Length)
    }

    ghost predicate Valid()
      reads this, slots, list, order
    {
      && Bounded()
      && headerRoot == At(list, 0) && Linked(list, null)
      && Arranged(list, order, memoryBottom, memoryTop)
      && SlotsHold(slots[..], list)
    }

    /** `rm_init`; the root header that is not in use yet is no header here. */
    constructor (size: nat)
      requires 0 < size && SLOT_BYTES * (Log2(size) + 1) < size - 2 * HEADER
      ensures Valid() && Handles() == {} && fresh(bytes) && fresh(slots) && bytes.Length == size && list == []
      ensures memoryTop == memoryBottom == SLOT_BYTES * slots.Length && headerBottom == size - 2 * HEADER
      ensures forall k :: 0 <= k < slots.Length ==> slots[k] == []
      ensures Shape() == NewHeap(size)
    {
      var n := Log2(size) + 1;
      bytes := new int[size](_ => 0);
      slots := new seq<Header>[n](_ => []);
      memoryBottom, memoryTop := SLOT_BYTES * n, SLOT_BYTES * n;
      headerBottom := size - 2 * HEADER;
      headerRoot, list, order := null, [], [];
      new;
      NothingListed(slots[..], []);
    }

    /** `header_new(true)`: a header, put in front of the list. `recycled` tells whether an unused one is at hand. */
    method NewHeader(recycled: bool) returns (h: Header?)
      requires Bounded() && headerRoot == At(list, 0) && Linked(list, null) && Distinct(list)
      modifies this`headerBottom, this`headerRoot, this`list
      ensures Bounded() && headerRoot == At(list, 0) && Linked(list, null) && Distinct(list)
      ensures h == null <==> !recycled && old(headerBottom) - 2 * HEADER <= memoryTop
      ensures h == null ==> headerBottom == old(headerBottom) && list == old(list)
      ensures h != null ==> fresh(h) && list == [h] + old(list) && h.kind == Unlocked
      ensures headerBottom == old(headerBottom) - if h != null && !recycled then HEADER else 0
    {
      if !recycled {
        if headerBottom - 2 * HEADER > memoryTop {
          headerBottom := headerBottom - HEADER;
        } else {
          return null;
        }
      }
      h := new Header(0, 0, Unlocked);
      h.next := headerRoot;
      LinkedMore(list, h);
      headerRoot := h;
      list := [h] + list;
    }

    /** The first branch of `block_new`: off the top of the heap. */
    method BlockFromTop(size: nat, recycled: bool) returns (h: Header?)
      requires Valid() && MIN_BLOCK <= size && memoryTop + size + HEADER < headerBottom
      modifies this
      ensures Valid() && memoryBottom <= old(memoryTop)
      ensures h == null ==> Handles() == old(Handles()) && memoryTop == old(memoryTop)
      ensures h == null <==> !recycled && old(headerBottom) - 2 * HEADER <= old(memoryTop)
      ensures h != null ==> fresh(h) && h !in old(Handles())
      ensures h != null ==> Handles() == old(Handles()) + {h} && memoryTop == old(memoryTop) + size
      ensures h != null ==> h.kind == Unlocked && h.size == size && h.memory == old(memoryTop)
      ensures list == if h == null then old(list) else [h] + old(list)
      ensures order == if h == null then old(order) else old(order) + [h]
      ensures headerBottom == old(headerBottom) - if h == null || recycled then 0 else HEADER
    {
      hide Linked, Snap, Tiles, SlotsHold, Distinct, Arranged, HandlesOf;
      ghost var list0, order0 := list, order;
      ArrangedParts(list, order, memoryBottom, memoryTop);
      h := NewHeader(recycled);
      if h == null {
        return;
      }
      h.size := size;
      h.memory := memoryTop;
      h.kind := Unlocked;
      if h.memory < memoryBottom {
        assert false;
      }
      ArrangedOnTop(list0, order0, memoryBottom, memoryTop, h);
      order := order + [h];
      memoryTop := memoryTop + size;
      SlotsHoldMore(slots[..], list0, h);
      HandlesMore(list0, h);
      NotAHandle(list0, h);
    }

    /** `freeblock_shrink_with_header`: cuts the lower part off a block that the slots do not list, unless what is cut
        off is too small for a free block or there is no header for it. */
    method Shrink(found: Header, size: nat, recycled: bool) returns (rest: Header?)
      requires Valid() && found in list && found.kind == Free && !Listed(slots[..], found)
      requires MIN_BLOCK <= size <= found.size
      modifies this`headerBottom, this`headerRoot, this`list, this`order, found`memory, found`size
      ensures Valid() && Handles() == old(Handles())
      ensures found in list && !Listed(slots[..], found)
      ensures rest == null ==> unchanged(found)
      ensures rest == null <==>
                old(found.size) - size < MIN_BLOCK || (!recycled && old(headerBottom) - 2 * HEADER <= memoryTop)
      ensures rest != null ==> fresh(rest) && rest in list && rest.kind == Free && !Listed(slots[..], rest)
      ensures rest != null ==> found.size == size && rest.size == old(found.size) - size >= MIN_BLOCK
      ensures rest != null ==> rest.memory == old(found.memory) && found.memory == rest.memory + rest.size
      ensures list == if rest == null then old(list) else [rest] + old(list)
      ensures var sp, i := old(Shape()), PlaceOf(old(Snap(order)), old(found.memory));
              && i < |sp.blocks| && sp.blocks[i] == old(BlockOf(found))
              && Shape() == if rest == null then sp
                            else sp.(blocks := SplitBlocks(sp.blocks, i, old(found.size) - size),
                                     bottom := HeadersAfter(sp, recycled))
    {
      hide Linked, Snap, Tiles, SlotsHold, Distinct, Arranged, HandlesOf, Listed, SnapAll, SplitBlocks;
      ghost var list0, order0 := list, order;
      ArrangedParts(list, order, memoryBottom, memoryTop);
      ghost var i := IndexOf(list0, order0, found);
      AtIndex(list0, order0, i, found, memoryBottom, memoryTop);
      var diff := found.size - size;
      if diff < MIN_BLOCK {
        return null;
      }
      rest := NewHeader(recycled);
      if rest == null {
        return;
      }
      if size > found.size {
        assert false;
      }
      if rest == found {
        assert false;
      }
      ghost var b := Snap(order0);
      SnapAt(order0, i);
      SlotsHoldMore(slots[..], list0, rest);
      NotListedMore(slots[..], list0, rest);
      HandlesMore(list0, rest);
      AtOnce(list0, order0, i, rest);
      Cut(found, rest, size, list, order0, b, i, slots[..]);
      if found.size != size {
        assert false;
      }
      ArrangedSplit(list0, order0, b, memoryBottom, memoryTop, i, rest, diff);
      order := order0[..i] + [rest] + order0[i..];
    }

    /** `freeblock_insert`; it never aborts. */
    method InsertBlock(h: Header)
      requires Valid() && h in list && h.kind == Free && !Listed(slots[..], h)
      modifies slots
      ensures Valid() && PutFirst(old(slots[..]), slots[..], h)
      ensures Shape() == old(Shape()).(listed := Listing(old(Shape()).listed, BlockOf(h)))
      ensures forall g :: g in list ==> (Listed(slots[..], g) <==> g == h || Listed(old(slots[..]), g))
    {
      hide Linked, Snap, Tiles, SlotsHold, Distinct, Arranged, Listed, Log2, PutFirst, SnapAll, Listing;
      BlockPlace(list, order, memoryBottom, memoryTop, h);
      if h.size + h.memory >= headerBottom {
        assert false;
      }
      Log2Rises(h.size, bytes.Length);
      ghost var s := slots[..];
      Slots.Insert(slots, h, list);
      PutFirstSnap(s, slots[..], h);
    }

    /** The end of `freeblock_find`: the block that was found is cut down, and what is over is listed. */
    method CutFound(found: Header, size: nat, recycled: bool) returns (h: Header?)
      requires Valid() && found in list && found.kind == Free && !Listed(slots[..], found)
      requires MIN_BLOCK <= size <= found.size
      modifies this`headerBottom, this`headerRoot, this`list, this`order, slots, found`memory, found`size
      ensures Valid() && Handles() == old(Handles()) && found in list && !Listed(slots[..], found)
      ensures h == if old(found.size) < size + MIN_BLOCK || (!recycled && old(headerBottom) - 2 * HEADER <= memoryTop)
                   then null else found
      ensures var sp, i := old(Shape()), PlaceOf(old(Snap(order)), old(found.memory));
              && i < |sp.blocks|
              && Shape() == if h == null then sp
                            else var rest := Block(old(found.memory), old(found.size) - size, Free);
                                 sp.(blocks := SplitBlocks(sp.blocks, i, rest.size),
                                     listed := Listing(sp.listed, rest), bottom := HeadersAfter(sp, recycled))
      ensures if h == null then unchanged(found) && list == old(list)
              else found.size == size && found.memory == old(found.memory) + (old(found.size) - size)
      ensures h != null ==> |list| == |old(list)| + 1 && list[1..] == old(list) && fresh(list[0])
    {
      hide Linked, Snap, Tiles, SlotsHold, Distinct, Arranged, HandlesOf, Listed, Log2, SnapAll, Listing, SplitBlocks,
        PutFirst;
      h := null;
      var rest := Shrink(found, size, recycled);
      if rest != null {
        InsertBlock(rest);
        h := found;
      }
    }

    /** `freeblock_find`: takes a listed block with room for `size` bytes, if there is one, and cuts it down. Whether
        or not that succeeds, the block that was `found` is no longer listed: one that fits exactly, or leaves less
        over than a free block needs, is dropped from its slot unused. */
    method FreeblockFind(size: nat, recycled: bool) returns (h: Header?, ghost found: Header?)
      requires Valid() && MIN_BLOCK <= size <= bytes.Length
      modifies this`headerBottom, this`headerRoot, this`list, this`order, slots, list`memory, list`size
      ensures Valid() && Handles() == old(Handles())
      ensures found == old(FirstFit(slots[..], size)) && (found == null <==> old(NoneFits(slots[..], size)))
      ensures found == null ==> slots[..] == old(slots[..]) && list == old(list)
      ensures found != null ==> found in old(list) && size <= old(found.size)
      ensures found != null ==> old(Listed(slots[..], found)) && !Listed(slots[..], found)
      ensures h != null <==>
                && found != null && old(found.size) >= size + MIN_BLOCK
                && (recycled || old(headerBottom) - 2 * HEADER > memoryTop)
      ensures h != null ==> h == found
      ensures Shape() == AfterFind(old(Shape()), size, recycled)
      ensures h != null ==> h.memory == FoundAt(old(Shape()), size)
      ensures found == null <==> FitFor(old(Shape()).listed, size) == NoFit
      ensures found != null ==>
                var f := FitFor(old(Shape()).listed, size); old(Shape()).listed[f.k][f.j].size == old(found.size)
      ensures h != null ==> h in old(list) && h in list && h.kind == Free && h.size == size && memoryBottom < h.memory
      ensures h != null ==> !Listed(slots[..], h)
      ensures forall i :: 0 <= i < |old(list)| && (h == null || old(list[i].kind) != Free)
                ==> old(list)[i].memory == old(list[i].memory) && old(list)[i].size == old(list[i].size)
      ensures h == null ==> list == old(list)
      ensures forall i :: 0 <= i < |list| ==> list[i] in old(list) || fresh(list[i])
      ensures forall g :: g in old(list) ==> g in list
    {
      hide Linked, Snap, Tiles, SlotsHold, Distinct, Arranged, HandlesOf, Listed, Log2, NoneFits, Taken, SnapAll,
        Listing, Unlisting, SplitBlocks, FitFor;
      Log2Rises(size, bytes.Length);
      ghost var s := slots[..];
      FitIsFirst(s, size);
      ghost var at, j;
      h, at, j := TakeFit(slots, size, list);
      found := h;
      if h == null {
        return;
      }
      FitIsAt(s, size, at, j);
      TakenSnap(s, slots[..], at, j);
      TakenHolds(s, slots[..], at, j, list);
      TakenListed(s, slots[..], at, j);
      NotAHandle(list, h);
      BlockPlace(list, order, memoryBottom, memoryTop, h);
      h := CutFound(h, size, recycled);
    }

    /** Whether the gap above the blocks has room for `size` bytes. */
    predicate TopHasRoom(size: nat)
      reads this
    {
      memoryTop + size + HEADER < headerBottom
    }

    /** `block_new`, and with it `rm_malloc`: a block of at least `size0` bytes, from the top of the heap as long as
        there is room, else from the slots. Nothing aborts, and no other block in use changes. Where the top has no
        room, the first fit is no longer listed afterwards, whether or not it could be used. */
    method Malloc(size0: nat, recycled: bool) returns (h: Header?)
      requires Valid() && size0 <= bytes.Length && MIN_BLOCK <= bytes.Length
      modifies this, slots, list`memory, list`size, list`kind
      ensures Valid()
      ensures h != null <==> Serves(old(Shape()), Padded(size0), recycled)
      ensures Shape() == AfterMalloc(old(Shape()), Padded(size0), recycled)
      ensures h == null ==> Handles() == old(Handles()) && memoryTop == old(memoryTop)
      ensures h != null ==> h !in old(Handles()) && Handles() == old(Handles()) + {h}
      ensures h != null ==> h.kind == Unlocked && h.size == Padded(size0)
      ensures old(TopHasRoom(Padded(size0))) ==> slots[..] == old(slots[..])
      ensures h != null && old(TopHasRoom(Padded(size0))) ==>
                h.memory == old(memoryTop) && memoryTop == old(memoryTop) + h.size
      ensures !old(TopHasRoom(Padded(size0))) ==>
                var f := old(FirstFit(slots[..], Padded(size0)));
                && (f != null ==> f in old(list) && !Listed(slots[..], f)) && (h != null ==> h == f)
                && (h == null && f == null ==> slots[..] == old(slots[..]))
      ensures h != null && !old(TopHasRoom(Padded(size0))) ==> h.memory == FoundAt(old(Shape()), Padded(size0))
      ensures forall i :: 0 <= i < |old(list)| && (h == null || old(list[i].kind) != Free)
                ==> old(list)[i].memory == old(list[i].memory) && old(list)[i].size == old(list[i].size)
                    && old(list)[i].kind == old(list[i].kind)
      ensures h == null ==> list == old(list)
      ensures forall i :: 0 <= i < |list| ==> list[i] in old(list) || fresh(list[i])
      ensures forall g :: g in old(list) ==> g in list
    {
      hide Linked, Snap, Tiles, SlotsHold, Distinct, Arranged, HandlesOf, Listed, Log2, FirstFit,
        SnapAll, FitFor, AfterFind, WithKind;
      var size := Padded(size0);
      if memoryTop + size + HEADER < headerBottom {
        ghost var o := order;
        h := BlockFromTop(size, recycled);
        if h != null {
          SnapMore(o, h);
        }
      } else {
        ghost var found;
        h, found := FreeblockFind(size, recycled);
        if h == null {
          return;
        }
        if h.memory <= memoryBottom {
          assert false;
        }
        NotAHandle(list, h);
        SetKind(h, Unlocked);
      }
    }

    /** The headers taken from the header area during compaction. */
    method TakeHeaders(spares: nat)
      requires Bounded()
      modifies this`headerBottom
      ensures Bounded() && headerBottom == WithMore(old(headerBottom), memoryTop, spares)
    {
      var i := 0;
      while i < spares && headerBottom - 2 * HEADER > memoryTop
        invariant i <= spares && memoryTop < headerBottom <= old(headerBottom)
        invariant WithMore(headerBottom, memoryTop, spares - i) == WithMore(old(headerBottom), memoryTop, spares)
      {
        headerBottom, i := headerBottom - HEADER, i + 1;
      }
    }

    /** The unused headers at the bottom of the header area are given up. */
    method DropHeaders(released: nat)
      requires Bounded()
      modifies this`headerBottom
      ensures Bounded() && headerBottom == WithFewer(old(headerBottom), bytes.Length, released)
    {
      var i := 0;
      while i < released && headerBottom + HEADER <= bytes.Length
        invariant i <= released && old(headerBottom) <= headerBottom <= bytes.Length
        invariant WithFewer(headerBottom, bytes.Length, released - i) ==
                  WithFewer(old(headerBottom), bytes.Length, released)
      {
        headerBottom, i := headerBottom + HEADER, i + 1;
      }
    }

    /** The end of `rm_compact`: `k` is the list now, and the heap ends at `highest`. */
    method Adopt(highest: int, released: nat, ghost k: seq<Header>)
      requires Bounded() && headerRoot == At(k, 0) && Linked(k, null) && Distinct(k)
      requires Tiles(Snap(k), memoryBottom, highest) && memoryBottom <= highest <= memoryTop
      modifies this`list, this`order, this`headerBottom, this`memoryTop, slots
      ensures Valid() && list == order == k && memoryTop == highest && Handles() == LiveSet(k, Snap(k))
      ensures headerBottom == WithFewer(old(headerBottom), bytes.Length, released)
      ensures SnapAll(slots[..]) == Relisted(Snap(k), slots.Length)
      ensures forall i :: 0 <= i < |k| ==> (Listed(slots[..], k[i]) <==> k[i].kind == Free)
    {
      hide Linked, Snap, Tiles, SlotsHold, Distinct, HandlesOf, Listed, Log2, Slotted, LiveSet, SnapAll, Relisted;
      DropHeaders(released);
      SlottedAre(k, memoryBottom, highest, bytes.Length);
      list, order := k, k;
      Rebuild(slots, headerRoot, k);
      memoryTop := highest;
      SameHandles(k, k);
    }

    /** What `rm_compact` does after its main loop. */
    method Shorten(head: Header?, released: nat, ghost k: seq<Header>) returns (ghost c: nat)
      requires Bounded() && InOrder(head, k, memoryBottom, memoryTop)
      modifies this, slots, k
      ensures Valid() && UnusedFrom(old(Snap(k)), c) && list == order == k[..c] && Snap(order) == old(Snap(k))[..c]
      ensures memoryTop == memoryBottom + Sum(old(Snap(k))[..c]) && memoryTop <= old(memoryTop)
      ensures headerBottom == WithFewer(old(headerBottom), bytes.Length, released)
      ensures SnapAll(slots[..]) == Relisted(Snap(order), slots.Length)
      ensures Handles() == LiveSet(order, Snap(order))
      ensures forall i :: 0 <= i < c ==> (Listed(slots[..], k[i]) <==> k[i].kind == Free)
    {
      hide Linked, Snap, Tiles, SlotsHold, Distinct, Arranged, HandlesOf, Listed, Sum, InOrder, UnusedFrom, LiveSet,
        SnapAll, Relisted;
      ghost var d := Snap(k);
      var highest, largest;
      highest, largest, c := HighestUsed(head, memoryBottom, k, memoryTop);
      ShortFacts(head, k, d, memoryBottom, memoryTop, c);
      headerRoot := CutList(head, largest, highest == memoryBottom, k, c, memoryBottom, memoryTop);
      Adopt(highest, released, k[..c]);
    }

    /** Sorting the list, and the main loop of `rm_compact`. */
    method Slide(limited: bool, patience: nat)
      returns (head: Header?, ghost k: seq<Header>, ghost f: nat, ghost rounds: nat)
      requires Valid()
      modifies this`headerBottom, bytes, list
      ensures Bounded() && InOrder(head, k, memoryBottom, memoryTop)
      ensures forall i :: 0 <= i < |k| ==> k[i] in list || fresh(k[i])
      ensures Kept(order, old(Snap(order)), old(bytes[..]), k, Snap(k), bytes[..])
      ensures Ran(old(Snap(order)), limited, patience, rounds) && Snap(k) == RoundsFrom(old(Snap(order)), 0, rounds).0
      ensures headerBottom == WithMore(old(headerBottom), memoryTop, SparesFrom(old(Snap(order)), 0, rounds))
      ensures !limited && C.AllLoose(old(Snap(order))) ==>
                C.FreeAtEnd(Snap(k), f) && Live(k, Snap(k)) == Live(order, old(Snap(order)))
    {
      hide Linked, Snap, Tiles, SlotsHold, Distinct, Arranged, HandlesOf, Listed, Log2, Sum, InOrder, Live, Kept,
        C.FreeAtEnd, C.AllLoose, Ran, RoundsFrom;
      ArrangedParts(list, order, memoryBottom, memoryTop);
      OrderIn(list, order);
      head := SortAll(headerRoot, list, order, memoryBottom, memoryTop);
      var spares;
      head, spares, k, f, rounds := C.Compact(bytes, head, limited, patience, order, memoryBottom, memoryTop);
      TakeHeaders(spares);
    }

    /** `rm_compact`. The clock stops it after `patience` rounds when there is a time limit; `released` unused headers
        lie at the bottom of the header area in the end. Where there is no room for the header of a left-over block,
        one is taken all the same. Its rounds move what they are to move and no more, until there is nothing left to
        move or the time is up; then the free blocks above the last block in use are given up. */
    method Compact(limited: bool, patience: nat, released: nat) returns (ghost rounds: nat)
      requires Valid()
      modifies this, bytes, slots, list
      ensures Valid() && Handles() == old(Handles()) && list == order && memoryTop <= old(memoryTop)
      ensures forall i :: 0 <= i < |list| ==> list[i] in old(list) || fresh(list[i])
      ensures Kept(old(order), old(Snap(order)), old(bytes[..]), order, Snap(order), bytes[..])
      ensures forall i :: 0 <= i < |list| ==> (Listed(slots[..], list[i]) <==> list[i].kind == Free)
      ensures list != [] ==> list[|list| - 1].kind != Free
      ensures Compacts(old(Shape()), Shape(), limited, patience, released, rounds)
      ensures memoryTop == memoryBottom + Sum(Snap(order)) && (!limited ==> Closed(Snap(order), |order|))
      ensures !limited && C.AllLoose(old(Snap(order))) ==>
                && (forall i :: 0 <= i < |order| ==> order[i].kind != Free)
                && Live(order, Snap(order)) == Live(old(order), old(Snap(order)))
    {
      hide Linked, Snap, Tiles, SlotsHold, Distinct, Arranged, HandlesOf, Listed, Log2, Sum, InOrder, Live, Kept,
        UnusedFrom, C.FreeAtEnd, C.AllLoose, Slotted, LiveSet, Ran, RoundsFrom, Closed, SnapAll,
        Relisted;
      ghost var b, m, l := Snap(order), bytes[..], order;
      ArrangedParts(list, order, memoryBottom, memoryTop);
      SameHandles(list, order);
      TilesSum(b, memoryBottom, memoryTop);
      var head;
      ghost var k, f;
      head, k, f, rounds := Slide(limited, patience);
      ghost var d, n := Snap(k), bytes[..];
      ghost var c := Shorten(head, released, k);
      CutFacts(l, b, m, k, d, n, c, f, !limited && C.AllLoose(b));
      LastUsed(list, Snap(list));
      if !limited {
        RanClosed(b, patience, rounds, c);
      }
    }

    /** Changes the kind of a block that no slot lists. */
    method SetKind(h: Header, kind: Kind)
      requires Valid() && h in list && !Listed(slots[..], h)
      modifies h`kind
      ensures Valid() && h.kind == kind && Shape() == AfterKind(old(Shape()), h.memory, kind)
      ensures Handles() == if kind == Free then old(Handles()) - {h} else old(Handles()) + {h}
    {
      hide Linked, Tiles, Snap, Listed, Distinct, SnapAll, WithKind;
      KindsHold(h, kind, list, slots[..], order, memoryBottom, memoryTop);
    }

    /** `rm_free`: gives a block back; nothing happens to a block that is free already. */
    method Release(h: Header?)
      requires Valid() && (h != null ==> h in list)
      modifies slots, list`kind
      ensures Valid() && Handles() == old(Handles()) - (if h == null then {} else {h})
      ensures h != null && old(h.kind) != Free ==> h.kind == Free
      ensures h != null && old(h.kind) != Free ==>
                forall g :: g in list ==> (Listed(slots[..], g) <==> g == h || Listed(old(slots[..]), g))
      ensures h != null && old(h.kind) != Free ==> PutFirst(old(slots[..]), slots[..], h)
      ensures Shape() == if h == null || old(h.kind) == Free then old(Shape()) else AfterFree(old(Shape()), h.memory)
      ensures h == null || old(h.kind) == Free ==> slots[..] == old(slots[..])
      ensures forall i :: 0 <= i < |list| && list[i] != h ==> list[i].kind == old(list[i].kind)
    {
      hide Linked, Snap, Tiles, SlotsHold, Distinct, Arranged, HandlesOf, Listed, Log2, PutFirst, SnapAll, WithKind,
        Listing;
      if h == null {
        return;
      }
      if h.kind == Free {
        NotAHandle(list, h);
        return;
      }
      NotListedMore(slots[..], list, h);
      ArrangedParts(list, order, memoryBottom, memoryTop);
      AtIndex(list, order, IndexOf(list, order, h), h, memoryBottom, memoryTop);
      SetKind(h, Free);
      BlockPlace(list, order, memoryBottom, memoryTop, h);
      if h.size + h.memory >= headerBottom {
        assert false;
      }
      InsertBlock(h);
    }

    /** `rm_lock`. */
    method Lock(h: Header) returns (memory: int)
      requires Valid() && h in Handles()
      modifies h`kind
      ensures Valid() && Handles() == old(Handles()) && h.kind == Locked && memory == h.memory
      ensures Shape() == AfterKind(old(Shape()), h.memory, Locked)
    {
      SetKind(h, Locked);
      memory := h.memory;
    }

    /** `rm_weaklock`. */
    method WeakLock(h: Header) returns (memory: int)
      requires Valid() && h in Handles()
      modifies h`kind
      ensures Valid() && Handles() == old(Handles()) && h.kind == WeakLocked && memory == h.memory
      ensures Shape() == AfterKind(old(Shape()), h.memory, WeakLocked)
    {
      SetKind(h, WeakLocked);
      memory := h.memory;
    }

    /** `rm_unlock`. */
    method Unlock(h: Header)
      requires Valid() && h in Handles()
      modifies h`kind
      ensures Valid() && Handles() == old(Handles()) && h.kind == Unlocked
      ensures Shape() == AfterKind(old(Shape()), h.memory, Unlocked)
    {
      SetKind(h, Unlocked);
    }
  }

  lemma ArrangedParts(list: seq<Header>, order: seq<Header>, lo: int, hi: int)
    requires Arranged(list, order, lo, hi)
    ensures Distinct(list) && multiset(order) == multiset(list) && Tiles(Snap(order), lo, hi)
  {
  }

  lemma NotAHandle(l: seq<Header>, h: Header)
    requires h.kind == Free || h !in l
    ensures h !in HandlesOf(l)
  {
  }

  lemma HandlesMore(l: seq<Header>, h: Header)
    ensures HandlesOf([h] + l) == HandlesOf(l) + if h.kind != Free then {h} else {}
  {
    var k := [h] + l;
    assert forall i :: 0 <= i < |l| ==> k[i + 1] == l[i];
    if h.kind != Free {
      assert k[0] == h;
    }
  }

  /** At any time, two handles lead to blocks of the heap that do not overlap. */
  lemma HandlesApart(r: Rmalloc, g: Header, h: Header)
    requires r.Valid() && g in r.Handles() && h in r.Handles() && g != h
    ensures r.memoryBottom <= g.memory && g.memory + g.size <= r.memoryTop
    ensures g.memory + g.size <= h.memory || h.memory + h.size <= g.memory
  {
    hide Arranged, SlotsHold;
    BlockPlace(r.list, r.order, r.memoryBottom, r.memoryTop, g);
    BlocksApart(r.list, r.order, r.memoryBottom, r.memoryTop, g, h);
  }

  lemma Log2Of1000()
    ensures Log2(1000) == 9 && Log2(800) == 9
  {
    assert Log2(6) == 2 && Log2(7) == 2;
    assert Log2(25) == 4 && Log2(31) == 4;
    assert Log2(100) == 6 && Log2(125) == 6;
    assert Log2(400) == 8 && Log2(500) == 8;
  }

  /** What becomes of a heap of 1000 bytes of which 800 are taken and given back, when 800 are asked for again. */
  lemma ExactFitRun()
    ensures var none: seq<seq<Block>> := seq(10, k => []);
            var s0 := Layout([], none, 80, 942, 1000);
            var s1 := AfterMalloc(s0, 800, true);
            var s2 := AfterFree(s1, 80);
            && Serves(s0, 800, true) && HasTop(s0, 800) && !Serves(s2, 800, true)
            && AfterMalloc(s2, 800, true).listed == none
  {
    var none: seq<seq<Block>> := seq(10, k => []);
    var s0 := Layout([], none, 80, 942, 1000);
    var s1 := AfterMalloc(s0, 800, true);
    assert s1 == Layout([Block(80, 800, Unlocked)], none, 880, 942, 1000);
    var s2 := AfterFree(s1, 80);
    Log2Of1000();
    hide Log2;
    var x := Block(80, 800, Free);
    assert [x] + none[9] == [x] && PlaceOf(s1.blocks, 80) == 0;
    assert s2.listed == none[9 := [Block(80, 800, Free)]];
    assert FitFor(s2.listed, 800) == Fit(9, 0);
    assert Unlisting(s2.listed, 9, 0)[9] == [];
    assert Unlisting(s2.listed, 9, 0) == none;
  }

  lemma NowhereListed(s: seq<seq<Header>>, h: Header)
    requires forall k :: 0 <= k < |SnapAll(s)| ==> SnapAll(s)[k] == []
    ensures !Listed(s, h)
  {
    hide SnapAll;
    SnapAllAre(s);
  }

  lemma HandleListed(list: seq<Header>, h: Header)
    requires h in HandlesOf(list)
    ensures h in list
  {
  }

  /** Of a heap of 1000 bytes, a client takes 800 and gives them back. */
  method TakenAndGivenBack() returns (r: Rmalloc, h: Header)
    ensures fresh(r) && fresh(r.slots) && forall i :: 0 <= i < |r.list| ==> fresh(r.list[i])
    ensures r.Valid() && r.Handles() == {} && h in r.list && h.kind == Free && h.size == 800 && r.bytes.Length == 1000
    ensures r.Shape() == AfterFree(AfterMalloc(NewHeap(1000), 800, true), 80)
  {
    hide Linked, Tiles, SlotsHold, Distinct, Arranged, HandlesOf, Log2, FirstFit, NoneFits, Listed, Serves, AfterMalloc,
      AfterFree, SnapAll, Snap;
    Log2Of1000();
    ExactFitRun();
    r := new Rmalloc(1000);
    var taken := r.Malloc(800, true);
    h := taken;
    HandleListed(r.list, h);
    assert forall i :: 0 <= i < |r.list| ==> fresh(r.list[i]);
    r.Release(h);
    assert r.Handles() == {};
  }

  /** A free block that fits exactly is not used: the client cannot have the 800 bytes again, nor does any slot list
      them any more. */
  method ExactFitDropped() returns (r: Rmalloc, h: Header, again: Header?)
    ensures r.Valid() && r.Handles() == {} && h in r.list && h.kind == Free && h.size == 800
    ensures again == null && !Listed(r.slots[..], h)
  {
    hide Linked, Tiles, SlotsHold, Distinct, Arranged, HandlesOf, Log2, FirstFit, NoneFits, Listed, Serves, AfterMalloc,
      AfterFree, SnapAll, Snap;
    Log2Of1000();
    ExactFitRun();
    r, h := TakenAndGivenBack();
    again := r.Malloc(800, true);
    NowhereListed(r.slots[..], h);
  }
}
