/** The word-addressed store that dlmalloc lays its chunks, links and bins in.

    An address is an integer; a word is eight bytes wide, and every access the allocator makes to its own
    bookkeeping is to the start of a word.  A chunk `p` is an address, and its fields are the words at the
    offsets of `struct malloc_tree_chunk`.  Nothing separates the fields of one chunk from those of another,
    or from the caller's payload, except the layout that the allocator maintains. */
module Memory {
  type Mem = map<int, int>

  const PREV_FOOT := 0
  const HEAD := 8
  const FD := 16
  const BK := 24
  const CHILD0 := 32
  const CHILD1 := 40
  const PARENT := 48
  const INDEX := 56

  const WORD_MAX := 0x1_0000_0000_0000_0000
  const SIGN_BIT := 0x8000_0000_0000_0000

  /** The word at `a`; a word never written reads as zero. */
  function Rd(m: Mem, a: int): int {
    if a in m then m[a] else 0
  }

  function Foot(m: Mem, p: int): int { Rd(m, p + PREV_FOOT) }

  function Head(m: Mem, p: int): int { Rd(m, p + HEAD) }

  function Fd(m: Mem, p: int): int { Rd(m, p + FD) }

  function Bk(m: Mem, p: int): int { Rd(m, p + BK) }

  function Child(m: Mem, p: int, right: bool): int {
    Rd(m, p + if right then CHILD1 else CHILD0)
  }

  function Parent(m: Mem, p: int): int { Rd(m, p + PARENT) }

  function Index(m: Mem, p: int): int { Rd(m, p + INDEX) }

  /** Two stores agree on every link word (`fd` to `index`) of the chunk `p`. */
  ghost predicate SameLinks(m: Mem, n: Mem, p: int) {
    && Fd(m, p) == Fd(n, p)
    && Bk(m, p) == Bk(n, p)
    && Child(m, p, false) == Child(n, p, false)
    && Child(m, p, true) == Child(n, p, true)
    && Parent(m, p) == Parent(n, p)
    && Index(m, p) == Index(n, p)
  }
}
