/** The geometry of a buddy heap. Block `i` of order `k` is the `2^k` bytes at address `i * 2^k`;
    memory is counted in words of `2^MIN_ORDER` bytes. */
module BuddyBlocks {

  const MIN_ORDER: nat := 3
  const ORDER: nat := 32

  datatype Block = Block(order: nat, index: nat)

  predicate Sized(b: Block) {
    MIN_ORDER <= b.order < ORDER
  }

  function Pow2(n: nat): (r: nat)
    ensures r > 0
  {
    if n == 0 then 1 else 2 * Pow2(n - 1)
  }

  /** `i` halved `n` times. */
  function Up(i: nat, n: nat): nat
    decreases n
  {
    if n == 0 then i else Up(i / 2, n - 1)
  }

  /** `i` doubled `n` times. */
  function Down(i: nat, n: nat): nat
    decreases n
  {
    if n == 0 then i else Down(2 * i, n - 1)
  }

  /** Word `u` belongs to block `b`. */
  predicate Covers(b: Block, u: nat) {
    MIN_ORDER <= b.order && Up(u, b.order - MIN_ORDER) == b.index
  }

  /** `a` is `b` or a part of it. */
  predicate Inside(a: Block, b: Block) {
    a.order <= b.order && Up(a.index, b.order - a.order) == b.index
  }

  function Left(b: Block): Block
    requires b.order > 0
  {
    Block(b.order - 1, 2 * b.index)
  }

  function Right(b: Block): Block
    requires b.order > 0
  {
    Block(b.order - 1, 2 * b.index + 1)
  }

  /** The other half of the block of the next order: the address with bit `order` flipped. */
  function Buddy(b: Block): Block {
    Block(b.order, if b.index % 2 == 0 then b.index + 1 else b.index - 1)
  }

  function Merged(b: Block): Block {
    Block(b.order + 1, b.index / 2)
  }

  // ---- Nesting ----

  lemma {:induction false} UpSplit(i: nat, m: nat, n: nat)
    ensures Up(i, m + n) == Up(Up(i, m), n)
    decreases m
  {
    if m > 0 {
      UpSplit(i / 2, m - 1, n);
    }
  }

  lemma {:induction false} UpDown(i: nat, n: nat)
    ensures Up(Down(i, n), n) == i
    decreases n
  {
    if n > 0 {
      UpDown(2 * i, n - 1);
      UpSplit(Down(2 * i, n - 1), n - 1, 1);
      assert Up(2 * i, 1) == Up(i, 0);
    }
  }

  lemma {:induction false} UpRange(u: nat, n: nat, i: nat)
    ensures Up(u, n) == i <==> i * Pow2(n) <= u < i * Pow2(n) + Pow2(n)
    decreases n
  {
    if n > 0 {
      UpRange(u / 2, n - 1, i);
      var p := Pow2(n - 1);
      assert i * Pow2(n) == 2 * (i * p);
    }
  }

  /** A block covers the words between its ends. */
  lemma CoversRange(b: Block, u: nat)
    requires MIN_ORDER <= b.order
    ensures var size := Pow2(b.order - MIN_ORDER); Covers(b, u) <==> b.index * size <= u < b.index * size + size
  {
    UpRange(u, b.order - MIN_ORDER, b.index);
  }

  lemma InsideTrans(a: Block, b: Block, c: Block)
    requires Inside(a, b) && Inside(b, c)
    ensures Inside(a, c)
  {
    UpSplit(a.index, b.order - a.order, c.order - b.order);
  }

  lemma InsideCovers(a: Block, b: Block, u: nat)
    requires Inside(a, b) && Covers(a, u)
    ensures Covers(b, u)
  {
    UpSplit(u, a.order - MIN_ORDER, b.order - a.order);
  }

  /** Blocks that share a word are nested. */
  lemma OverlapNests(a: Block, b: Block, u: nat)
    requires Covers(a, u) && Covers(b, u) && a.order <= b.order
    ensures Inside(a, b)
  {
    UpSplit(u, a.order - MIN_ORDER, b.order - a.order);
  }

  lemma HasWord(b: Block) returns (u: nat)
    requires MIN_ORDER <= b.order
    ensures Covers(b, u)
  {
    u := Down(b.index, b.order - MIN_ORDER);
    UpDown(b.index, b.order - MIN_ORDER);
  }

  lemma HalvesInside(b: Block)
    requires b.order > 0
    ensures Inside(Left(b), b) && Inside(Right(b), b)
  {
  }

  /** What lies inside a block is the block, or lies inside one of its halves. */
  lemma InsideHalf(a: Block, b: Block)
    requires Inside(a, b) && a.order < b.order
    ensures Inside(a, Left(b)) || Inside(a, Right(b))
  {
    UpSplit(a.index, b.order - a.order - 1, 1);
    var half := Up(a.index, b.order - a.order - 1);
    assert Up(half, 1) == Up(half / 2, 0);
  }

  /** What holds a half and is bigger holds the whole. */
  lemma HalfGrows(h: Block, b: Block, c: Block)
    requires b.order > 0 && (h == Left(b) || h == Right(b)) && Inside(h, c) && h != c
    ensures Inside(b, c)
  {
  }

  lemma BuddyHalves(b: Block)
    ensures {b, Buddy(b)} == {Left(Merged(b)), Right(Merged(b))} && Buddy(b) != b && Buddy(Buddy(b)) == b
  {
  }

  // ---- Families of blocks ----

  /** No block of `f` lies inside another. */
  predicate Apart(f: set<Block>) {
    forall a, b | a in f && b in f && Inside(a, b) :: a == b
  }

  predicate AllSized(f: set<Block>) {
    forall b | b in f :: Sized(b)
  }

  predicate Covered(f: set<Block>, u: nat) {
    exists b | b in f :: Covers(b, u)
  }

  /** No block lies free beside its free buddy. */
  predicate Coalesced(f: set<Block>) {
    forall b | b in f && b.order + 1 < ORDER :: Buddy(b) !in f
  }

  function SplitOne(f: set<Block>, b: Block): set<Block>
    requires b.order > 0
  {
    f - {b} + {Left(b), Right(b)}
  }

  lemma SplitApart(f: set<Block>, b: Block)
    requires Apart(f) && b in f && b.order > 0
    ensures Apart(SplitOne(f, b))
  {
    HalvesInside(b);
    forall x, y | x in SplitOne(f, b) && y in SplitOne(f, b) && Inside(x, y) ensures x == y {
      if y == Left(b) || y == Right(b) {
        if x in f - {b} {
          InsideTrans(x, y, b);
        }
      } else if x == Left(b) || x == Right(b) {
        HalfGrows(x, b, y);
      }
    }
  }

  lemma SplitCovers(f: set<Block>, b: Block, u: nat)
    requires b in f && b.order > MIN_ORDER
    ensures Covered(SplitOne(f, b), u) == Covered(f, u)
  {
    HalvesInside(b);
    if Covered(f, u) {
      var c :| c in f && Covers(c, u);
      if c == b {
        UpSplit(u, b.order - MIN_ORDER - 1, 1);
        var h := Up(u, b.order - MIN_ORDER - 1);
        assert Up(h, 1) == Up(h / 2, 0);
        assert Covers(Left(b), u) || Covers(Right(b), u);
      } else {
        assert c in SplitOne(f, b);
      }
    }
    if Covered(SplitOne(f, b), u) {
      var c :| c in SplitOne(f, b) && Covers(c, u);
      if c !in f {
        InsideCovers(c, b, u);
      }
    }
  }

  function MergeOne(f: set<Block>, b: Block): set<Block> {
    f - {b, Buddy(b)} + {Merged(b)}
  }

  lemma MergeApart(f: set<Block>, b: Block)
    requires Apart(f) && b in f && Buddy(b) in f
    ensures Apart(MergeOne(f, b)) && Merged(b) !in f
  {
    var m := Merged(b);
    HalvesInside(m);
    BuddyHalves(b);
    forall x, y | x in MergeOne(f, b) && y in MergeOne(f, b) && Inside(x, y) ensures x == y {
      if y == m && x != m {
        if x.order < m.order {
          InsideHalf(x, m);
        }
      } else if x == m && y != m {
        InsideTrans(b, m, y);
      }
    }
  }

  lemma MergeCovers(f: set<Block>, b: Block, u: nat)
    requires b in f && Buddy(b) in f && Merged(b) !in f && MIN_ORDER <= b.order
    ensures Covered(MergeOne(f, b), u) == Covered(f, u)
  {
    BuddyHalves(b);
    SplitCovers(MergeOne(f, b), Merged(b), u);
    assert SplitOne(MergeOne(f, b), Merged(b)) == f;
  }

  // ---- Coalescing leaves no hole unused ----

  /** If every word of a block is covered by coalesced blocks, one of them holds the whole block. */
  lemma {:induction false} HoleHasHolder(f: set<Block>, hole: Block)
    requires Coalesced(f) && Sized(hole)
    requires forall u | Covers(hole, u) :: Covered(f, u)
    ensures exists b | b in f :: Inside(hole, b)
    decreases hole.order
  {
    if hole.order == MIN_ORDER {
      assert Covers(hole, hole.index);
      var b :| b in f && Covers(b, hole.index);
      OverlapNests(hole, b, hole.index) by { assert Up(hole.index, 0) == hole.index; }
    } else {
      var l, r := Left(hole), Right(hole);
      HalvesInside(hole);
      forall u | Covers(l, u) ensures Covered(f, u) { InsideCovers(l, hole, u); }
      forall u | Covers(r, u) ensures Covered(f, u) { InsideCovers(r, hole, u); }
      HoleHasHolder(f, l);
      HoleHasHolder(f, r);
      assert Buddy(l) == r;
      var b :| b in f && Inside(l, b);
      var c :| c in f && Inside(r, c);
      if b != l {
        HalfGrows(l, hole, b);
      } else if c != r {
        HalfGrows(r, hole, c);
      } else {
        assert false;
      }
    }
  }

  /** Coalesced blocks are determined by the words they cover: how the heap got there, and in which
      order blocks were taken and given back, cannot matter. */
  lemma CoalescedUnique(f: set<Block>, g: set<Block>)
    requires Coalesced(f) && Apart(f) && AllSized(f)
    requires Coalesced(g) && Apart(g) && AllSized(g)
    requires forall u :: Covered(f, u) == Covered(g, u)
    ensures f == g
  {
    forall b | b in f ensures b in g { HolderIsSame(f, g, b); }
    forall b | b in g ensures b in f { HolderIsSame(g, f, b); }
  }

  lemma HolderIsSame(f: set<Block>, g: set<Block>, b: Block)
    requires Coalesced(f) && Apart(f) && AllSized(f) && Coalesced(g) && AllSized(g)
    requires forall u :: Covered(f, u) == Covered(g, u)
    requires b in f
    ensures b in g
  {
    HoleHasHolder(g, b);
    var c :| c in g && Inside(b, c);
    HoleHasHolder(f, c);
    var d :| d in f && Inside(c, d);
    InsideTrans(b, c, d);
    assert d == b;
  }
}
