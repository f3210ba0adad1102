/** The buddy heap: free lists per order, splitting on allocation, coalescing on release. */
module BuddyHeap {
  import opened Common
  import opened BuddyBlocks

  const DOUBLE_LINK_ORDER: nat := 4

  // ---- Who has which word ----

  /** Free and live blocks lie apart and together cover the heap's words, no more and no less. */
  ghost predicate Partition(free: set<Block>, live: set<Block>, lo: nat, hi: nat) {
    && free !! live
    && AllSized(free + live)
    && Apart(free + live)
    && forall u: nat :: Covered(free + live, u) <==> lo <= u < hi
  }

  lemma SplitPartition(free: set<Block>, live: set<Block>, lo: nat, hi: nat, b: Block)
    requires Partition(free, live, lo, hi) && b in free && b.order > MIN_ORDER
    ensures Partition(SplitOne(free, b), live, lo, hi)
  {
    var all := free + live;
    assert SplitOne(free, b) + live == SplitOne(all, b);
    SplitApart(all, b);
    HalvesInside(b);
    forall u: nat ensures Covered(SplitOne(all, b), u) <==> lo <= u < hi { SplitCovers(all, b, u); }
  }

  lemma MergePartition(free: set<Block>, live: set<Block>, lo: nat, hi: nat, b: Block)
    requires Partition(free, live, lo, hi) && b in free && Buddy(b) in free && b.order + 1 < ORDER
    ensures Partition(MergeOne(free, b), live, lo, hi) && Merged(b) !in free
  {
    var all := free + live;
    assert MergeOne(free, b) + live == MergeOne(all, b);
    MergeApart(all, b);
    forall u: nat ensures Covered(MergeOne(all, b), u) <==> lo <= u < hi { MergeCovers(all, b, u); }
  }

  lemma MovePartition(free: set<Block>, live: set<Block>, free': set<Block>, live': set<Block>, lo: nat, hi: nat)
    requires Partition(free, live, lo, hi) && free' !! live' && free' + live' == free + live
    ensures Partition(free', live', lo, hi)
  {
  }

  /** A block of the heap none of whose words is in a live block. */
  ghost predicate Hole(live: set<Block>, lo: nat, hi: nat, b: Block) {
    Sized(b) && forall u: nat | Covers(b, u) :: lo <= u < hi && !Covered(live, u)
  }

  lemma FreeCovers(free: set<Block>, live: set<Block>, lo: nat, hi: nat, u: nat)
    requires Partition(free, live, lo, hi)
    ensures Covered(free, u) <==> lo <= u < hi && !Covered(live, u)
  {
    if Covered(free, u) {
      var b :| b in free && Covers(b, u);
      assert b in free + live;
      assert Covered(free + live, u);
      if Covered(live, u) {
        var c :| c in live && Covers(c, u);
        assert c in free + live && b != c;
        if b.order <= c.order { OverlapNests(b, c, u); } else { OverlapNests(c, b, u); }
        assert false;
      }
    } else if lo <= u < hi {
      assert Covered(free + live, u);
      var b :| b in free + live && Covers(b, u);
      assert b in live;
    }
  }

  ghost predicate CanServe(free: set<Block>, order: nat) {
    exists b | b in free :: b.order >= order
  }

  ghost predicate HasHole(live: set<Block>, lo: nat, hi: nat, order: nat) {
    exists i: nat :: Hole(live, lo, hi, Block(order, i))
  }

  /** Some list can serve an order exactly if the live blocks leave room for one aligned block of it.
      Fragmentation of the free lists never costs an allocation. */
  lemma ServesExactly(free: set<Block>, live: set<Block>, lo: nat, hi: nat, order: nat)
    requires Partition(free, live, lo, hi) && Coalesced(free) && MIN_ORDER <= order < ORDER
    ensures CanServe(free, order) <==> HasHole(live, lo, hi, order)
  {
    if CanServe(free, order) {
      var b :| b in free && b.order >= order;
      var part := Block(order, Down(b.index, b.order - order));
      UpDown(b.index, b.order - order);
      forall u: nat | Covers(part, u) ensures lo <= u < hi && !Covered(live, u) {
        InsideCovers(part, b, u);
        FreeCovers(free, live, lo, hi, u);
      }
      assert Hole(live, lo, hi, part);
    }
    if HasHole(live, lo, hi, order) {
      var i: nat :| Hole(live, lo, hi, Block(order, i));
      var hole := Block(order, i);
      forall u: nat | Covers(hole, u) ensures Covered(free, u) { FreeCovers(free, live, lo, hi, u); }
      HoleHasHolder(free, hole);
    }
  }

  /** The free blocks depend on nothing but which blocks are live. In particular, once everything has
      been given back, the heap is as it was when new. */
  lemma FreeIsDetermined(free: set<Block>, free': set<Block>, live: set<Block>, lo: nat, hi: nat)
    requires Partition(free, live, lo, hi) && Coalesced(free)
    requires Partition(free', live, lo, hi) && Coalesced(free')
    ensures free == free'
  {
    forall u: nat ensures Covered(free, u) == Covered(free', u) {
      FreeCovers(free, live, lo, hi, u);
      FreeCovers(free', live, lo, hi, u);
    }
    SubsetApart(free, live);
    SubsetApart(free', live);
    CoalescedUnique(free, free');
  }

  lemma SubsetApart(free: set<Block>, live: set<Block>)
    requires Apart(free + live) && AllSized(free + live)
    ensures Apart(free) && AllSized(free)
  {
  }

  // ---- Coalescing, step by step ----

  lemma LessIsCoalesced(f: set<Block>, g: set<Block>)
    requires Coalesced(f) && g <= f
    ensures Coalesced(g)
  {
  }

  /** After a split only the half about to be taken has its buddy beside it. */
  lemma SplitCoalesced(f: set<Block>, b: Block)
    requires Apart(f) && b in f && b.order > 0 && Coalesced(f - {b})
    ensures Coalesced(SplitOne(f, b) - {Right(b)})
  {
  }

  /** Merging stops when the merged block has no free buddy, and then nothing has. */
  lemma MergeStops(f: set<Block>, b: Block)
    requires Coalesced(f - {b}) && b in f && (b.order + 1 >= ORDER || Buddy(b) !in f)
    ensures Coalesced(f)
  {
  }

  lemma MergeCoalesced(f: set<Block>, b: Block)
    requires Coalesced(f - {b}) && Merged(b) !in f
    ensures Coalesced(MergeOne(f, b) - {Merged(b)})
  {
  }

  // ---- Byte counts ----

  /** Room in words: an aligned run of the length of the block, inside the heap, that meets no live block. */
  lemma RoomMeans(live: set<Block>, lo: nat, hi: nat, order: nat)
    requires MIN_ORDER <= order < ORDER && AllSized(live)
    ensures HasHole(live, lo, hi, order) <==> exists i: nat :: FreeRun(live, lo, hi, order, i)
  {
    forall i: nat ensures Hole(live, lo, hi, Block(order, i)) <==> FreeRun(live, lo, hi, order, i) {
      HoleMeans(live, lo, hi, order, i);
    }
  }

  /** The words of the `i`-th run of that order are in the heap and in no live block. */
  ghost predicate FreeRun(live: set<Block>, lo: nat, hi: nat, order: nat, i: nat)
    requires MIN_ORDER <= order
  {
    forall u: nat | RunStart(order, i) <= u < RunStart(order, i) + Pow2(order - MIN_ORDER) :: FreeWord(live, lo, hi, u)
  }

  ghost predicate FreeWord(live: set<Block>, lo: nat, hi: nat, u: nat) {
    lo <= u < hi && !InLive(live, u)
  }

  function RunStart(order: nat, i: nat): nat
    requires MIN_ORDER <= order
  {
    i * Pow2(order - MIN_ORDER)
  }

  lemma RunCovered(order: nat, i: nat, u: nat)
    requires MIN_ORDER <= order
    ensures Covers(Block(order, i), u) <==> RunStart(order, i) <= u < RunStart(order, i) + Pow2(order - MIN_ORDER)
  {
    CoversRange(Block(order, i), u);
  }

  ghost predicate InLive(live: set<Block>, u: nat) {
    exists b | b in live :: MIN_ORDER <= b.order && b.index * Pow2(b.order - MIN_ORDER) <= u < (b.index + 1) * Pow2(b.order - MIN_ORDER)
  }

  lemma HoleMeans(live: set<Block>, lo: nat, hi: nat, order: nat, i: nat)
    requires MIN_ORDER <= order < ORDER && AllSized(live)
    ensures Hole(live, lo, hi, Block(order, i)) <==> FreeRun(live, lo, hi, order, i)
  {
    hide Covers, Covered, InLive, RunStart;
    var b := Block(order, i);
    if Hole(live, lo, hi, b) {
      forall u: nat | RunStart(order, i) <= u < RunStart(order, i) + Pow2(order - MIN_ORDER) ensures FreeWord(live, lo, hi, u) {
        RunCovered(order, i, u);
        LiveMeans(live, u);
      }
    }
    if FreeRun(live, lo, hi, order, i) {
      forall u: nat | Covers(b, u) ensures lo <= u < hi && !Covered(live, u) {
        RunCovered(order, i, u);
        LiveMeans(live, u);
        assert FreeWord(live, lo, hi, u);
      }
    }
  }

  lemma LiveMeans(live: set<Block>, u: nat)
    requires AllSized(live)
    ensures Covered(live, u) <==> InLive(live, u)
  {
    hide Covers;
    forall b | b in live
      ensures Covers(b, u) <==> b.index * Pow2(b.order - MIN_ORDER) <= u < (b.index + 1) * Pow2(b.order - MIN_ORDER)
    {
      CoversRange(b, u);
      NextStart(b.index, Pow2(b.order - MIN_ORDER));
    }
  }

  lemma NextStart(i: nat, size: nat)
    ensures (i + 1) * size == i * size + size
  {
  }

  ghost function Bytes(s: set<Block>): nat {
    if s == {} then 0 else
      var b :| b in s;
      Pow2(b.order) + Bytes(s - {b})
  }

  lemma {:induction false} BytesAdd(s: set<Block>, b: Block)
    requires b !in s
    ensures Bytes(s + {b}) == Bytes(s) + Pow2(b.order)
    decreases s
  {
    var t := s + {b};
    var c :| c in t && Bytes(t) == Pow2(c.order) + Bytes(t - {c});
    if c == b {
      assert t - {c} == s;
    } else {
      assert t - {c} == (s - {c}) + {b};
      BytesAdd(s - {c}, b);
      assert s == (s - {c}) + {c};
      BytesAdd(s - {c}, c);
    }
  }

  // ---- Free lists and the membership bitmap ----

  /** The lists hold the free blocks, each once; the bitmap marks those of at least 16 bytes. */
  ghost predicate Listed(lists: seq<seq<nat>>, bits: set<Block>, free: set<Block>) {
    && |lists| == ORDER
    && (forall k | 0 <= k < ORDER :: NoRepeats(lists[k]))
    && (forall b: Block :: b in free <==> b.order < ORDER && b.index in lists[b.order])
    && (forall b: Block :: b in bits <==> b in free && b.order >= DOUBLE_LINK_ORDER)
  }

  function WithBit(bits: set<Block>, b: Block): set<Block> {
    if b.order >= DOUBLE_LINK_ORDER then bits + {b} else bits
  }

  function WithoutBit(bits: set<Block>, b: Block): set<Block> {
    if b.order >= DOUBLE_LINK_ORDER then bits - {b} else bits
  }

  /** Bits used by the orders from 4 below `order`. */
  function BitBase(heapSize: nat, order: nat): nat {
    if order <= DOUBLE_LINK_ORDER then 0
    else BitBase(heapSize, order - 1) + Quotient(heapSize + Pow2(order - 1) - 1, Pow2(order - 1)) + 1
  }

  /** The bit of a block in the bitmap of the heap at address `heapStart`. */
  function BitIndex(heapStart: nat, heapSize: nat, b: Block): nat
    requires heapStart <= b.index * Pow2(b.order)
  {
    BitBase(heapSize, b.order) + Quotient(b.index * Pow2(b.order) - heapStart, Pow2(b.order))
  }

  /** No two blocks of a heap share a bit, so the bitmap is a set of blocks. */
  lemma BitsDiffer(heapStart: nat, heapSize: nat, a: Block, b: Block)
    requires heapStart <= a.index * Pow2(a.order) < heapStart + heapSize
    requires heapStart <= b.index * Pow2(b.order) < heapStart + heapSize
    requires DOUBLE_LINK_ORDER <= a.order && DOUBLE_LINK_ORDER <= b.order && a != b
    ensures BitIndex(heapStart, heapSize, a) != BitIndex(heapStart, heapSize, b)
  {
    hide Quotient, Pow2;
    BitRange(heapStart, heapSize, a);
    BitRange(heapStart, heapSize, b);
    if a.order < b.order {
      BaseGrows(heapSize, a.order + 1, b.order);
    } else if b.order < a.order {
      BaseGrows(heapSize, b.order + 1, a.order);
    } else {
      QuotientsDiffer(if a.index < b.index then a.index else b.index, if a.index < b.index then b.index else a.index, heapStart, Pow2(a.order));
    }
  }

  lemma BitRange(heapStart: nat, heapSize: nat, b: Block)
    requires heapStart <= b.index * Pow2(b.order) < heapStart + heapSize && DOUBLE_LINK_ORDER <= b.order
    ensures BitBase(heapSize, b.order) <= BitIndex(heapStart, heapSize, b) < BitBase(heapSize, b.order + 1)
  {
    hide Quotient, Pow2;
    var p := Pow2(b.order);
    var x := b.index * p - heapStart;
    QuotientGrows(x, heapSize + p - 1, p);
  }

  lemma {:induction false} BaseGrows(heapSize: nat, a: nat, b: nat)
    requires a <= b
    ensures BitBase(heapSize, a) <= BitBase(heapSize, b)
    decreases b
  {
    if a < b { BaseGrows(heapSize, a, b - 1); }
  }

  lemma MulGrows(p: nat, a: nat, b: nat)
    requires a <= b
    ensures p * a <= p * b
  {
  }

  lemma MulSucc(i: nat, p: nat)
    ensures (i + 1) * p == i * p + p
  {
  }

  function Quotient(x: nat, p: nat): nat
    requires p > 0
  {
    x / p
  }

  lemma QuotientGrows(x: nat, y: nat, p: nat)
    requires p > 0
    ensures x <= y ==> Quotient(x, p) <= Quotient(y, p)
    ensures x + p <= y ==> Quotient(x, p) < Quotient(y, p)
  {
    if x / p > y / p { MulGrows(p, y / p + 1, x / p); }
    if x / p >= y / p { MulGrows(p, y / p, x / p); }
  }

  lemma QuotientsDiffer(i: nat, j: nat, s: nat, p: nat)
    requires i < j && p > 0 && s <= i * p
    ensures i * p <= j * p && Quotient(i * p - s, p) < Quotient(j * p - s, p)
  {
    MulSucc(i, p);
    MulGrows(p, i + 1, j);
    QuotientGrows(i * p - s, j * p - s, p);
  }

  lemma PushListed(lists: seq<seq<nat>>, bits: set<Block>, free: set<Block>, b: Block)
    requires Listed(lists, bits, free) && b.order < ORDER && b !in free
    ensures b !in bits
    ensures Listed(lists[b.order := [b.index] + lists[b.order]], WithBit(bits, b), free + {b})
  {
  }

  /** `q` without its entry at `at`. */
  function Cut(q: seq<nat>, at: nat): seq<nat>
    requires at < |q|
  {
    q[..at] + q[at + 1..]
  }

  lemma CutListed(lists: seq<seq<nat>>, bits: set<Block>, free: set<Block>, order: nat, at: nat)
    requires Listed(lists, bits, free) && order < ORDER && at < |lists[order]|
    ensures var b := Block(order, lists[order][at]);
      b in free && (order >= DOUBLE_LINK_ORDER ==> b in bits) &&
      Listed(lists[order := Cut(lists[order], at)], WithoutBit(bits, b), free - {b})
  {
  }

  // ---- Laying out a new heap ----

  function Words(b: Block): nat
    requires MIN_ORDER <= b.order
  {
    Pow2(b.order - MIN_ORDER)
  }

  function Start(b: Block): nat
    requires MIN_ORDER <= b.order
  {
    b.index * Words(b)
  }

  /** `b` could not be a block of the next order: it is a right half, or the heap ends too soon. */
  predicate Biggest(b: Block, hi: nat)
    requires MIN_ORDER <= b.order
  {
    b.index % 2 == 1 || Start(b) + 2 * Words(b) > hi
  }

  predicate AllBiggest(f: set<Block>, hi: nat)
    requires AllSized(f)
  {
    forall b | b in f :: Biggest(b, hi)
  }

  lemma PieceApart(f: set<Block>, lo: nat, b: Block)
    requires Sized(b) && Partition(f, {}, lo, Start(b))
    ensures b !in f && Apart(f + {b})
  {
    forall x | x in f ensures !Inside(x, b) && !Inside(b, x) {
      assert x in f + {};
      if Inside(x, b) {
        var u := HasWord(x);
        InsideCovers(x, b, u);
        CoversRange(b, u);
        assert Covered(f + {}, u);
        assert false;
      }
      if Inside(b, x) {
        var u := HasWord(b);
        InsideCovers(b, x, u);
        CoversRange(b, u);
        assert Covered(f + {}, u);
        assert false;
      }
    }
    assert Inside(b, b);
    forall x, y | x in f + {b} && y in f + {b} && Inside(x, y) ensures x == y {
      assert x in f ==> x in f + {};
      assert y in f ==> y in f + {};
    }
  }

  lemma PiecePartition(f: set<Block>, lo: nat, b: Block)
    requires Sized(b) && Partition(f, {}, lo, Start(b)) && lo <= Start(b)
    ensures b !in f && Partition(f + {b}, {}, lo, Start(b) + Words(b))
  {
    PieceApart(f, lo, b);
    assert f + {b} + {} == f + {b} && f + {} == f;
    forall u: nat ensures Covered(f + {b}, u) <==> lo <= u < Start(b) + Words(b) {
      CoversRange(b, u);
      if Covered(f, u) {
        var x :| x in f && Covers(x, u);
        assert x in f + {b};
      }
      if Covers(b, u) {
        assert b in f + {b};
      }
    }
  }

  lemma CoversMeans(f: set<Block>, b: Block, u: nat)
    requires Covers(b, u)
    ensures b in f ==> Covered(f, u)
  {
  }

  lemma BuddyIsNotThere(f: set<Block>, lo: nat, hi: nat, b: Block)
    requires Sized(b) && Partition(f, {}, lo, Start(b)) && Start(b) + Words(b) <= hi
    requires AllSized(f) && AllBiggest(f, hi)
    ensures Buddy(b) !in f
  {
    hide Apart, Pow2, Covered, Covers;
    var c := Buddy(b);
    assert f + {} == f;
    if b.index % 2 == 1 {
      MulSucc(c.index, Words(b));
      assert !Biggest(c, hi);
    } else {
      MulSucc(b.index, Words(b));
      CoversRange(c, Start(c));
      CoversMeans(f, c, Start(c));
      assert !Covered(f, Start(c));
    }
  }

  lemma PieceCoalesced(f: set<Block>, b: Block)
    requires Coalesced(f) && Buddy(b) !in f
    ensures Coalesced(f + {b})
  {
  }

  lemma {:induction false} Pow2Grows(a: nat, b: nat)
    requires Pow2(a) < Pow2(b)
    ensures a < b
    decreases a
  {
    if a > 0 && b > 0 { Pow2Grows(a - 1, b - 1); }
  }

  // ---- The heap ----

  class Heap {
    var lists: seq<seq<nat>>
    var bits: set<Block>
    var reserved: nat
    ghost var free: set<Block>
    ghost var live: set<Block>
    ghost const lo: nat
    ghost const hi: nat

    ghost predicate Shape()
      reads this
    {
      |lists| == ORDER && Listed(lists, bits, free) && Partition(free, live, lo, hi) && reserved == Bytes(live)
    }

    ghost predicate Valid()
      reads this
    {
      Shape() && Coalesced(free)
    }

    /** A new heap over the words `lo..hi`, cut into the biggest aligned blocks from left to right. */
    constructor (lo: nat, hi: nat)
      requires lo <= hi && hi - lo < Pow2(ORDER - MIN_ORDER)
      ensures Valid() && live == {} && this.lo == lo && this.hi == hi
    {
      lists, bits, reserved := seq(ORDER, _ => []), {}, 0;
      free, live := {}, {};
      this.lo, this.hi := lo, hi;
      new;
      hide Partition, Listed, Coalesced, Pow2;
      assert Listed(lists, bits, free) by { EmptyListed(); }
      EmptyHeap(lo);
      var current := lo;
      while current < hi
        invariant lo <= current <= hi && live == {} && reserved == Bytes({}) && |lists| == ORDER
        invariant Listed(lists, bits, free) && Partition(free, {}, lo, current)
        invariant Coalesced(free) && AllSized(free) && AllBiggest(free, hi)
      {
        var b := BiggestAt(current, lo, hi);
        PiecePartition(free, lo, b);
        BuddyIsNotThere(free, lo, hi, b);
        PieceCoalesced(free, b);
        PushFree(b);
        current := current + Words(b);
      }
    }

    /** The biggest aligned block at a word that fits below `hi`. */
    static method BiggestAt(current: nat, lo: nat, hi: nat) returns (b: Block)
      requires lo <= current < hi && hi - lo < Pow2(ORDER - MIN_ORDER)
      ensures Sized(b) && Start(b) == current && current + Words(b) <= hi && Biggest(b, hi)
    {
      b := Block(MIN_ORDER, current);
      while b.index % 2 == 0 && current + 2 * Words(b) <= hi
        invariant Sized(b) && Start(b) == current && current + Words(b) <= hi
        decreases hi - Words(b)
      {
        Pow2Grows(b.order + 1 - MIN_ORDER, ORDER - MIN_ORDER);
        HalfIndex(b);
        b := Merged(b);
      }
    }

    method PushFree(b: Block)
      requires Listed(lists, bits, free) && b.order < ORDER && b !in free
      modifies this`lists, this`bits, this`free
      ensures |lists| == ORDER && Listed(lists, bits, free) && free == old(free) + {b}
      ensures lists[b.order] == [b.index] + old(lists)[b.order]
    {
      hide Listed;
      PushListed(lists, bits, free, b);
      assert |lists| == ORDER by { ListCount(lists, bits, free); }
      lists := lists[b.order := [b.index] + lists[b.order]];
      bits := WithBit(bits, b);
      free := free + {b};
    }

    method CutFree(order: nat, at: nat) returns (b: Block)
      requires Listed(lists, bits, free) && order < ORDER && at < |lists[order]|
      modifies this`lists, this`bits, this`free
      ensures b == Block(order, old(lists)[order][at]) && b in old(free)
      ensures |lists| == ORDER && Listed(lists, bits, free) && free == old(free) - {b}
    {
      hide Listed;
      assert |lists| == ORDER by { ListCount(lists, bits, free); }
      CutListed(lists, bits, free, order, at);
      b := Block(order, lists[order][at]);
      lists := lists[order := Cut(lists[order], at)];
      bits := WithoutBit(bits, b);
      free := free - {b};
    }

    method RemoveFree(b: Block)
      requires Listed(lists, bits, free) && b in free
      modifies this`lists, this`bits, this`free
      ensures |lists| == ORDER && Listed(lists, bits, free) && free == old(free) - {b}
    {
      var at := 0;
      while lists[b.order][at] != b.index
        modifies {}
        invariant at < |lists[b.order]| && b.index in lists[b.order][at..]
        decreases |lists[b.order]| - at
      {
        assert lists[b.order][at..] == [lists[b.order][at]] + lists[b.order][at + 1..];
        at := at + 1;
      }
      var gone := CutFree(b.order, at);
    }

    /** Splits the first block of list `source` down to `order` and takes the last half. */
    method TakeFrom(source: nat, order: nat) returns (b: Block)
      requires Valid() && MIN_ORDER <= order <= source < ORDER && lists[source] != []
      modifies this
      ensures Valid() && b.order == order && b !in old(live) && live == old(live) + {b}
    {
      hide Partition, Listed, Bytes, Coalesced, Apart;
      var s := source;
      ghost var cur := Block(s, lists[s][0]);
      assert cur in free by { HeadIsFree(lists, bits, free, s); }
      assert Coalesced(free - {cur}) by { LessIsCoalesced(free, free - {cur}); }
      while s > order
        invariant order <= s < ORDER && Shape() && live == old(live)
        invariant lists[s] != [] && cur == Block(s, lists[s][0]) && cur in free && Coalesced(free - {cur})
      {
        SplitPartition(free, live, lo, hi, cur);
        assert Apart(free) && Left(cur) !in free && Right(cur) !in free by { HalvesAreNew(free, live, lo, hi, cur); }
        SplitCoalesced(free, cur);
        ghost var free0 := free;
        var block := CutFree(s, 0);
        PushFree(Left(block));
        PushFree(Right(block));
        assert free == SplitOne(free0, cur);
        s := s - 1;
        cur := Right(block);
      }
      FreeIsNotLive(free, live, lo, hi, cur);
      MovePartition(free, live, free - {cur}, live + {cur}, lo, hi);
      b := CutFree(s, 0);
      BytesAdd(live, b);
      live := live + {b};
      reserved := reserved + Pow2(order);
    }
  
    /** Takes a block of the order if the live blocks leave room for one, and fails only otherwise. */
    method AllocOrder(order: nat) returns (r: Option<Block>)
      requires Valid()
      modifies this
      ensures Valid()
      ensures r.Some? <==> MIN_ORDER <= order < ORDER && HasHole(old(live), lo, hi, order)
      ensures r.Some? ==> r.value.order == order && r.value !in old(live) && live == old(live) + {r.value}
      ensures r.None? ==> live == old(live) && free == old(free)
    {
      hide Partition, Bytes, Coalesced, HasHole, CanServe;
      if order < MIN_ORDER || order >= ORDER {
        return None;
      }
      ServesExactly(free, live, lo, hi, order);
      var source := order;
      while source < ORDER && lists[source] == []
        modifies {}
        invariant order <= source <= ORDER && forall k | order <= k < source :: lists[k] == []
      {
        source := source + 1;
      }
      if source == ORDER {
        EmptyCannotServe(lists, bits, free, order);
        return None;
      }
      ListServes(lists, bits, free, source, order);
      var b := TakeFrom(source, order);
      r := Some(b);
    }

    /** Gives a block back and merges it with its buddy as long as that is free. */
    method DeallocOrder(b: Block)
      requires Valid() && b in live
      modifies this
      ensures Valid() && live == old(live) - {b}
    {
      hide Partition, Listed, Bytes, Coalesced, Apart;
      LiveIsNotFree(free, live, lo, hi, b);
      MovePartition(free, live, free + {b}, live - {b}, lo, hi);
      BytesAdd(live - {b}, b);
      assert live - {b} + {b} == live;
      assert free + {b} - {b} == free;
      PushFree(b);
      live := live - {b};
      reserved := reserved - Pow2(b.order);
      Coalesce(b);
    }

    /** Merges `b` with its buddy, and the result with its buddy, as long as the buddy is free. */
    method Coalesce(b: Block)
      requires Shape() && b in free && Sized(b) && Coalesced(free - {b})
      modifies this`lists, this`bits, this`free
      ensures Valid()
    {
      hide Partition, Listed, Bytes, Coalesced, Buddy, Merged, MergeOne;
      var cur := b;
      while cur.order + 1 < ORDER
        invariant Shape() && Sized(cur) && cur in free && Coalesced(free - {cur})
        decreases ORDER - cur.order
      {
        var buddy := Buddy(cur);
        SameOrder(cur);
        ListMeans(lists, bits, free, buddy);
        if !(if cur.order >= DOUBLE_LINK_ORDER then buddy in bits else buddy.index in lists[cur.order]) {
          break;
        }
        MergePartition(free, live, lo, hi, cur);
        MergeCoalesced(free, cur);
        MergeSets(free, cur);
        RemoveFree(cur);
        RemoveFree(buddy);
        PushFree(Merged(cur));
        cur := Merged(cur);
      }
      MergeStops(free, cur);
    }
  }

  lemma HalfIndex(b: Block)
    requires MIN_ORDER <= b.order && b.index % 2 == 0
    ensures Words(Merged(b)) == 2 * Words(b) && Start(Merged(b)) == Start(b)
  {
  }

  lemma EmptyListed()
    ensures Listed(seq(ORDER, _ => []), {}, {})
  {
  }

  lemma EmptyHeap(lo: nat)
    ensures Partition({}, {}, lo, lo) && Coalesced({})
  {
  }

  lemma SameOrder(b: Block)
    ensures Buddy(b).order == b.order && Merged(b).order == b.order + 1 && Buddy(b) != b
  {
  }

  lemma MergeSets(f: set<Block>, b: Block)
    ensures f - {b} - {Buddy(b)} + {Merged(b)} == MergeOne(f, b)
  {
  }

  lemma ListMeans(lists: seq<seq<nat>>, bits: set<Block>, free: set<Block>, b: Block)
    requires Listed(lists, bits, free) && b.order < ORDER
    ensures b in free <==> b.index in lists[b.order]
    ensures b.order >= DOUBLE_LINK_ORDER ==> (b in bits <==> b in free)
  {
  }

  lemma ListServes(lists: seq<seq<nat>>, bits: set<Block>, free: set<Block>, source: nat, order: nat)
    requires Listed(lists, bits, free) && order <= source < ORDER && lists[source] != []
    ensures CanServe(free, order)
  {
    assert Block(source, lists[source][0]) in free;
  }

  lemma EmptyCannotServe(lists: seq<seq<nat>>, bits: set<Block>, free: set<Block>, order: nat)
    requires Listed(lists, bits, free) && forall k | order <= k < ORDER :: lists[k] == []
    ensures !CanServe(free, order)
  {
  }

  lemma LiveIsNotFree(free: set<Block>, live: set<Block>, lo: nat, hi: nat, b: Block)
    requires Partition(free, live, lo, hi) && b in live
    ensures Sized(b) && b !in free && free + {b} !! live - {b} && free + {b} + (live - {b}) == free + live
  {
  }

  lemma ListCount(lists: seq<seq<nat>>, bits: set<Block>, free: set<Block>)
    requires Listed(lists, bits, free)
    ensures |lists| == ORDER
  {
  }

  lemma HeadIsFree(lists: seq<seq<nat>>, bits: set<Block>, free: set<Block>, s: nat)
    requires Listed(lists, bits, free) && s < ORDER && lists[s] != []
    ensures Block(s, lists[s][0]) in free
  {
  }

  lemma HalvesAreNew(free: set<Block>, live: set<Block>, lo: nat, hi: nat, b: Block)
    requires Partition(free, live, lo, hi) && b in free && b.order > 0
    ensures Apart(free) && Left(b) !in free && Right(b) !in free
  {
    SubsetApart(free, live);
    HalvesInside(b);
  }

  lemma FreeIsNotLive(free: set<Block>, live: set<Block>, lo: nat, hi: nat, b: Block)
    requires Partition(free, live, lo, hi) && b in free
    ensures b !in live && free - {b} !! live + {b} && free - {b} + (live + {b}) == free + live
  {
  }
}
