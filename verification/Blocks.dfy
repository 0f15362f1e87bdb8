/** The blocks of rmalloc as values: how they tile the heap, and what one round of compaction makes of them. */
module Blocks {
  import opened ListSort

  datatype Block = Block(addr: int, size: int, kind: Kind)

  /** `sizeof(free_memory_block_t)`: every block can hold the record of a free block. */
  const MIN_BLOCK := 16

  /** The blocks lie one after the other from `lo` to `hi`. */
  ghost predicate Tiles(b: seq<Block>, lo: int, hi: int) {
    if b == [] then lo == hi
    else b[0].addr == lo && MIN_BLOCK <= b[0].size && Tiles(b[1..], lo + b[0].size, hi)
  }

  function Sum(b: seq<Block>): int { if b == [] then 0 else b[0].size + Sum(b[1..]) }

  lemma {:induction false} TilesSum(b: seq<Block>, lo: int, hi: int)
    requires Tiles(b, lo, hi)
    ensures hi == lo + Sum(b) && Sum(b) >= MIN_BLOCK * |b|
  {
    if b != [] {
      TilesSum(b[1..], lo + b[0].size, hi);
    }
  }

  lemma {:induction false} TilesConcat(x: seq<Block>, y: seq<Block>, lo: int, mid: int, hi: int)
    requires Tiles(x, lo, mid) && Tiles(y, mid, hi)
    ensures Tiles(x + y, lo, hi)
  {
    if x == [] {
      assert x + y == y;
    } else {
      assert (x + y)[1..] == x[1..] + y;
      TilesConcat(x[1..], y, lo + x[0].size, mid, hi);
    }
  }

  lemma {:induction false} TilesSplit(x: seq<Block>, y: seq<Block>, lo: int, hi: int)
    requires Tiles(x + y, lo, hi)
    ensures Tiles(x, lo, lo + Sum(x)) && Tiles(y, lo + Sum(x), hi)
  {
    if x == [] {
      assert x + y == y;
    } else {
      assert (x + y)[1..] == x[1..] + y;
      TilesSplit(x[1..], y, lo + x[0].size, hi);
    }
  }

  lemma {:induction false} SumConcat(x: seq<Block>, y: seq<Block>)
    ensures Sum(x + y) == Sum(x) + Sum(y)
  {
    if x == [] {
      assert x + y == y;
    } else {
      assert (x + y)[1..] == x[1..] + y;
      SumConcat(x[1..], y);
    }
  }

  lemma SumStep(b: seq<Block>, i: nat, j: nat)
    requires i <= j < |b|
    ensures Sum(b[i..j + 1]) == Sum(b[i..j]) + b[j].size
  {
    assert b[i..j + 1] == b[i..j] + [b[j]];
    SumConcat(b[i..j], [b[j]]);
    assert [b[j]][1..] == [];
  }

  /** Where the blocks of a tiling lie. */
  lemma {:induction false} TilesAt(b: seq<Block>, lo: int, hi: int, i: nat)
    requires Tiles(b, lo, hi) && i < |b|
    ensures lo <= b[i].addr && b[i].addr + b[i].size <= hi && MIN_BLOCK <= b[i].size
    ensures b[i].addr == lo + Sum(b[..i])
  {
    TilesSum(b, lo, hi);
    if i > 0 {
      TilesAt(b[1..], lo + b[0].size, hi, i - 1);
      assert b[..i][1..] == b[1..][..i - 1];
    }
    TilesSum(b[1..], lo + b[0].size, hi);
  }

  lemma TilesOrdered(b: seq<Block>, lo: int, hi: int, i: nat, j: nat)
    requires Tiles(b, lo, hi) && i < j < |b|
    ensures b[i].addr + b[i].size <= b[j].addr
  {
    assert b == b[..j] + b[j..];
    TilesSplit(b[..j], b[j..], lo, hi);
    TilesAt(b[..j], lo, lo + Sum(b[..j]), i);
  }

  /** The blocks moved down by `d` bytes. */
  function Shift(b: seq<Block>, d: int): (r: seq<Block>)
    ensures |r| == |b| && forall i :: 0 <= i < |b| ==> r[i] == b[i].(addr := b[i].addr - d)
  {
    if b == [] then [] else [b[0].(addr := b[0].addr - d)] + Shift(b[1..], d)
  }

  lemma {:induction false} ShiftTiles(b: seq<Block>, d: int, lo: int, hi: int)
    requires Tiles(b, lo, hi)
    ensures Tiles(Shift(b, d), lo - d, hi - d) && Sum(Shift(b, d)) == Sum(b)
  {
    if b != [] {
      ShiftTiles(b[1..], d, lo + b[0].size, hi);
    }
  }

  /** The last block grown by `d` bytes. */
  function Stretch(b: seq<Block>, d: int): (r: seq<Block>)
    requires b != []
  {
    b[..|b| - 1] + [b[|b| - 1].(size := b[|b| - 1].size + d)]
  }

  lemma StretchTiles(b: seq<Block>, d: int, lo: int, hi: int)
    requires Tiles(b, lo, hi) && b != [] && 0 <= d
    ensures Tiles(Stretch(b, d), lo, hi + d)
  {
    var x, y := b[..|b| - 1], b[|b| - 1..];
    assert b == x + y;
    TilesSplit(x, y, lo, hi);
    TilesSum(b, lo, hi);
    SumConcat(x, y);
    var z := [y[0].(size := y[0].size + d)];
    assert Tiles(z, lo + Sum(x), hi + d) by {
      assert z[1..] == [] && y[1..] == [];
    }
    TilesConcat(x, z, lo, lo + Sum(x), hi + d);
  }

  /** What one round of compaction makes of the blocks `a`, free blocks `f`, other blocks `c`, unlocked blocks `u`
      and the rest `z`. */
  function Compacted(a: seq<Block>, f: seq<Block>, c: seq<Block>, u: seq<Block>, z: seq<Block>): seq<Block>
    requires f != [] && u != []
  {
    var start, free, used, moved := f[0].addr, Sum(f), Sum(u), Shift(u, u[0].addr - f[0].addr);
    if c == [] then a + moved + [Block(start + used, free, Free)] + z
    else if free >= used + MIN_BLOCK then
      a + moved + [Block(start + used, free - used, Free)] + c + [Block(u[0].addr, used, Free)] + z
    else a + Stretch(moved, free - used) + c + [Block(u[0].addr, used, Free)] + z
  }

  lemma OneTile(b: Block, lo: int)
    requires b.addr == lo && MIN_BLOCK <= b.size
    ensures Tiles([b], lo, lo + b.size)
  {
    assert [b][1..] == [];
  }

  /** The five parts of the list tile adjoining ranges. */
  lemma PartsTile(a: seq<Block>, f: seq<Block>, c: seq<Block>, u: seq<Block>, z: seq<Block>, lo: int, hi: int)
    requires Tiles(a + f + c + u + z, lo, hi)
    ensures var p := lo + Sum(a);
            var q := p + Sum(f);
            var w := q + Sum(c);
            var e := w + Sum(u);
            Tiles(a, lo, p) && Tiles(f, p, q) && Tiles(c, q, w) && Tiles(u, w, e) && Tiles(z, e, hi)
  {
    hide Tiles, Sum;
    TilesSplit(a + f + c + u, z, lo, hi);
    TilesSplit(a + f + c, u, lo, lo + Sum(a + f + c + u));
    TilesSplit(a + f, c, lo, lo + Sum(a + f + c));
    TilesSplit(a, f, lo, lo + Sum(a + f));
    SumConcat(a + f + c, u);
    SumConcat(a + f, c);
    SumConcat(a, f);
  }

  lemma FirstAt(b: seq<Block>, lo: int, hi: int)
    requires Tiles(b, lo, hi) && b != []
    ensures b[0].addr == lo
  {
  }

  lemma ThreeTile(a: seq<Block>, b: seq<Block>, c: seq<Block>, lo: int, p: int, q: int, hi: int)
    requires Tiles(a, lo, p) && Tiles(b, p, q) && Tiles(c, q, hi)
    ensures Tiles(a + b + c, lo, hi)
  {
    hide Tiles;
    TilesConcat(a, b, lo, p, q);
    TilesConcat(a + b, c, lo, q, hi);
  }

  /** A round keeps the heap tiled over the same range. */
  lemma CompactedTiles(a: seq<Block>, f: seq<Block>, c: seq<Block>, u: seq<Block>, z: seq<Block>, lo: int, hi: int)
    requires f != [] && u != [] && Tiles(a + f + c + u + z, lo, hi)
    requires c != [] ==> Sum(u) <= Sum(f)
    ensures Tiles(Compacted(a, f, c, u, z), lo, hi)
    ensures f[0].addr == lo + Sum(a) && u[0].addr == lo + Sum(a) + Sum(f) + Sum(c)
  {
    hide Tiles, Sum, Shift, Stretch;
    PartsTile(a, f, c, u, z, lo, hi);
    var p, free, used := lo + Sum(a), Sum(f), Sum(u);
    var q := p + free;
    var w := q + Sum(c);
    var e := w + used;
    TilesSum(f, p, q);
    TilesSum(u, w, e);
    FirstAt(f, p, q);
    FirstAt(u, w, e);
    ShiftTiles(u, w - p, w, e);
    var moved := Shift(u, w - p);
    if c == [] {
      EmptySum(c);
      OneTile(Block(p + used, free, Free), p + used);
      ThreeTile(a, moved, [Block(p + used, free, Free)], lo, p, p + used, e);
      TilesConcat(a + moved + [Block(p + used, free, Free)], z, lo, e, hi);
    } else {
      var freed := [Block(w, used, Free)];
      OneTile(freed[0], w);
      var kept := if free >= used + MIN_BLOCK then moved + [Block(p + used, free - used, Free)]
                  else Stretch(moved, free - used);
      if free >= used + MIN_BLOCK {
        OneTile(Block(p + used, free - used, Free), p + used);
        TilesConcat(moved, [Block(p + used, free - used, Free)], p, p + used, q);
      } else {
        StretchTiles(moved, free - used, p, p + used);
      }
      ThreeTile(a, kept, c, lo, p, q, w);
      ThreeTile(a + kept + c, freed, z, lo, w, e, hi);
      assert a + (moved + [Block(p + used, free - used, Free)]) == a + moved + [Block(p + used, free - used, Free)];
    }
  }

  lemma EmptySum(b: seq<Block>)
    requires b == []
    ensures Sum(b) == 0
  {
  }
}
