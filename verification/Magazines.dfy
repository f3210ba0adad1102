/** The kernel heap: per-hart magazines of small blocks in front of the buddy heap. */
module Magazines {
  import opened BuddyBlocks
  import opened BuddyHeap
  import opened Common

  const MAGAZINE_MAX_ORDER: nat := 8
  const CLASSES: nat := 6
  const MAGAZINE_CLASS_CAPACITY: nat := 64
  const MAGAZINE_REFILL_BATCH: nat := 16
  const USIZE_BITS: nat := 64

  // ---- Layouts ----

  /** A request for `size` bytes at a multiple of `2^alignOrder`. */
  datatype Layout = Layout(size: nat, alignOrder: nat)

  function MaxOf(a: nat, b: nat): nat {
    if a <= b then b else a
  }

  /** The least `k` from `from` on with `size <= 2^k`. */
  function LogUp(size: nat, from: nat): (k: nat)
    ensures from <= k && size <= Pow2(k)
    ensures forall j | from <= j < k :: Pow2(j) < size
    decreases size - Pow2(from)
  {
    if size <= Pow2(from) then from else LogUp(size, from + 1)
  }

  function LayoutOrder(l: Layout): Option<nat> {
    var requested := LogUp(MaxOf(l.size, 1), 0);
    if requested >= USIZE_BITS then None else Some(MaxOf(requested, MaxOf(l.alignOrder, MIN_ORDER)))
  }

  function MagazineOrder(l: Layout): Option<nat> {
    var requested := LogUp(MaxOf(l.size, 1), 0);
    if requested >= USIZE_BITS || l.alignOrder > MaxOf(requested, MIN_ORDER) then None
    else if LayoutOrder(l).value <= MAGAZINE_MAX_ORDER then LayoutOrder(l) else None
  }

  /** The order of a layout is the least whose blocks are long and aligned enough. */
  lemma LayoutFits(l: Layout, k: nat)
    requires LayoutOrder(l).Some?
    ensures LayoutOrder(l).value <= k <==> l.size <= Pow2(k) && l.alignOrder <= k && MIN_ORDER <= k
  {
    var requested := LogUp(MaxOf(l.size, 1), 0);
    if requested <= k {
      Pow2Monotone(requested, k);
    }
  }

  /** A layout has an order exactly if its size is at most 2^63. */
  lemma LayoutServed(l: Layout)
    ensures LayoutOrder(l).Some? <==> l.size <= Pow2(63)
  {
    var requested := LogUp(MaxOf(l.size, 1), 0);
    PowMonotone(requested, 63);
    PowMonotone(63, requested);
    PowMonotone(0, 63);
  }

  lemma {:induction false} PowMonotone(a: nat, b: nat)
    ensures a <= b ==> Pow2(a) <= Pow2(b)
    ensures a < b ==> Pow2(a) < Pow2(b)
    decreases b
  {
    if a < b { PowMonotone(a, b - 1); }
  }

  /** The magazines serve layouts of at most 256 bytes that ask for no more alignment than their blocks
      have. */
  lemma MagazineServes(l: Layout)
    ensures MagazineOrder(l).Some? <==> l.size <= 256 && (l.alignOrder <= 3 || Pow2(l.alignOrder - 1) < MaxOf(l.size, 1))
    ensures MagazineOrder(l).Some? ==> MagazineOrder(l) == LayoutOrder(l)
  {
    var size := MaxOf(l.size, 1);
    var requested := LogUp(size, 0);
    assert Pow2(8) == 256 by { Pow8(); }
    PowMonotone(requested, 8);
    PowMonotone(8, requested);
    if l.alignOrder > 0 {
      PowMonotone(l.alignOrder - 1, requested);
      PowMonotone(requested, l.alignOrder - 1);
    }
  }

  lemma Pow8()
    ensures Pow2(8) == 256
  {
    assert Pow2(4) == 16;
    assert Pow2(6) == 4 * Pow2(4);
    assert Pow2(8) == 4 * Pow2(6);
  }

  lemma {:induction false} Pow2Monotone(a: nat, b: nat)
    requires a <= b
    ensures Pow2(a) <= Pow2(b)
    decreases b
  {
    if a < b { Pow2Monotone(a, b - 1); }
  }

  // ---- Magazines ----

  /** One hart's stacks of blocks, one for each order from 3 to 8, and the bytes in them. */
  datatype Magazine = Magazine(blocks: seq<seq<nat>>, cachedBytes: nat)

  function ClassBytes(blocks: seq<seq<nat>>, n: nat): nat
    requires n <= |blocks|
  {
    if n == 0 then 0 else ClassBytes(blocks, n - 1) + |blocks[n - 1]| * Pow2(n - 1 + MIN_ORDER)
  }

  lemma {:induction false} ClassBytesUpdate(blocks: seq<seq<nat>>, n: nat, c: nat, q: seq<nat>)
    requires c < |blocks| && n <= |blocks|
    ensures ClassBytes(blocks[c := q], n) == ClassBytes(blocks, n) + if c < n then (|q| - |blocks[c]|) * Pow2(c + MIN_ORDER) else 0
  {
    if n > 0 {
      ClassBytesUpdate(blocks, n - 1, c, q);
      if c == n - 1 {
        var p := Pow2(c + MIN_ORDER);
        assert |q| * p == |blocks[c]| * p + (|q| - |blocks[c]|) * p;
      }
    }
  }

  predicate MagazineOk(m: Magazine) {
    && |m.blocks| == CLASSES
    && (forall c | 0 <= c < CLASSES :: |m.blocks[c]| <= MAGAZINE_CLASS_CAPACITY && NoRepeats(m.blocks[c]))
    && m.cachedBytes == ClassBytes(m.blocks, CLASSES)
  }

  predicate Holds(m: Magazine, b: Block)
    requires |m.blocks| == CLASSES
  {
    MIN_ORDER <= b.order <= MAGAZINE_MAX_ORDER && b.index in m.blocks[b.order - MIN_ORDER]
  }

  function Pushed(m: Magazine, b: Block): Magazine
    requires |m.blocks| == CLASSES && MIN_ORDER <= b.order <= MAGAZINE_MAX_ORDER
  {
    var c := b.order - MIN_ORDER;
    Magazine(m.blocks[c := [b.index] + m.blocks[c]], m.cachedBytes + Pow2(b.order))
  }

  lemma PushedOk(m: Magazine, b: Block)
    requires MagazineOk(m) && MIN_ORDER <= b.order <= MAGAZINE_MAX_ORDER && !Holds(m, b)
    requires |m.blocks[b.order - MIN_ORDER]| < MAGAZINE_CLASS_CAPACITY
    ensures MagazineOk(Pushed(m, b))
    ensures forall x: Block :: Holds(Pushed(m, b), x) <==> x == b || Holds(m, x)
  {
    hide ClassBytes, Pow2;
    var c := b.order - MIN_ORDER;
    ClassBytesUpdate(m.blocks, CLASSES, c, [b.index] + m.blocks[c]);
  }

  /** A magazine without the block on top of a stack. */
  function Popped(m: Magazine, order: nat): Magazine
    requires MagazineOk(m) && MIN_ORDER <= order <= MAGAZINE_MAX_ORDER && m.blocks[order - MIN_ORDER] != []
  {
    var c := order - MIN_ORDER;
    EnoughCached(m, order);
    Magazine(m.blocks[c := m.blocks[c][1..]], m.cachedBytes - Pow2(order))
  }

  lemma EnoughCached(m: Magazine, order: nat)
    requires MagazineOk(m) && MIN_ORDER <= order <= MAGAZINE_MAX_ORDER && m.blocks[order - MIN_ORDER] != []
    ensures m.cachedBytes - Pow2(order) == ClassBytes(m.blocks[order - MIN_ORDER := m.blocks[order - MIN_ORDER][1..]], CLASSES)
  {
    hide ClassBytes, Pow2;
    var c := order - MIN_ORDER;
    ClassBytesUpdate(m.blocks, CLASSES, c, m.blocks[c][1..]);
  }

  lemma PoppedOk(m: Magazine, order: nat)
    requires MagazineOk(m) && MIN_ORDER <= order <= MAGAZINE_MAX_ORDER && m.blocks[order - MIN_ORDER] != []
    ensures MagazineOk(Popped(m, order))
    ensures forall x: Block :: Holds(Popped(m, order), x) <==> x != Block(order, m.blocks[order - MIN_ORDER][0]) && Holds(m, x)
  {
    hide ClassBytes, Pow2;
    EnoughCached(m, order);
    var q := m.blocks[order - MIN_ORDER];
    assert q == [q[0]] + q[1..];
    assert q[0] !in q[1..];
  }

  // ---- Who owns which block ----

  /** Every cached block is in the magazine of its owner and nowhere else. */
  ghost predicate Owned(mags: seq<Magazine>, owner: map<Block, nat>) {
    && (forall h | 0 <= h < |mags| :: MagazineOk(mags[h]))
    && (forall b | b in owner :: owner[b] < |mags|)
    && (forall h, b | 0 <= h < |mags| :: Holds(mags[h], b) <==> b in owner && owner[b] == h)
  }

  lemma PushOwned(mags: seq<Magazine>, owner: map<Block, nat>, h: nat, b: Block)
    requires Owned(mags, owner) && h < |mags| && b !in owner && MIN_ORDER <= b.order <= MAGAZINE_MAX_ORDER
    requires |mags[h].blocks| == CLASSES && |mags[h].blocks[b.order - MIN_ORDER]| < MAGAZINE_CLASS_CAPACITY
    ensures Owned(mags[h := Pushed(mags[h], b)], owner[b := h])
  {
    hide MagazineOk, Pushed;
    PushedOk(mags[h], b);
  }

  lemma PopOwned(mags: seq<Magazine>, owner: map<Block, nat>, h: nat, order: nat)
    requires Owned(mags, owner) && h < |mags| && MIN_ORDER <= order <= MAGAZINE_MAX_ORDER
    requires MagazineOk(mags[h]) && mags[h].blocks[order - MIN_ORDER] != []
    ensures var b := Block(order, mags[h].blocks[order - MIN_ORDER][0]);
      b in owner && Owned(mags[h := Popped(mags[h], order)], owner - {b})
  {
    hide Popped;
    var b := Block(order, mags[h].blocks[order - MIN_ORDER][0]);
    assert Holds(mags[h], b);
    PoppedOk(mags[h], order);
  }

  // ---- Room ----

  lemma FewerLiveMoreRoom(live: set<Block>, users: set<Block>, lo: nat, hi: nat, order: nat)
    requires users <= live && HasHole(live, lo, hi, order)
    ensures HasHole(users, lo, hi, order)
  {
  }

  /** A live block the users do not own is room for them. */
  lemma CachedIsRoom(free: set<Block>, live: set<Block>, users: set<Block>, lo: nat, hi: nat, b: Block)
    requires Partition(free, live, lo, hi) && b in live && users <= live - {b}
    ensures HasHole(users, lo, hi, b.order)
  {
    assert b in free + live;
    forall u: nat | Covers(b, u) ensures lo <= u < hi && !Covered(users, u) {
      assert Covered(free + live, u);
      if Covered(users, u) {
        var c :| c in users && Covers(c, u);
        assert c in free + live;
        if b.order <= c.order { OverlapNests(b, c, u); } else { OverlapNests(c, b, u); }
        assert false;
      }
    }
    assert Hole(users, lo, hi, Block(b.order, b.index));
  }

  /** No word belongs to two users. */
  lemma UsersApart(free: set<Block>, live: set<Block>, users: set<Block>, lo: nat, hi: nat, a: Block, b: Block, u: nat)
    requires Partition(free, live, lo, hi) && users <= live && a in users && b in users && Covers(a, u) && Covers(b, u)
    ensures a == b
  {
    assert a in free + live && b in free + live;
    if a.order <= b.order { OverlapNests(a, b, u); } else { OverlapNests(b, a, u); }
  }

  // ---- The kernel heap ----

  class KernelHeap {
    const heap: Heap
    var mags: seq<Magazine>
    ghost var owner: map<Block, nat>
    ghost var users: set<Block>

    /** Every block the buddy heap has given out belongs to a user or is in one hart's magazine. */
    ghost predicate Valid()
      reads this, heap
    {
      && heap.Valid()
      && Owned(mags, owner)
      && users !! owner.Keys
      && heap.live == users + owner.Keys
    }

    /** A hart's stack for an order. */
    function Stack(h: nat, order: nat): seq<nat>
      requires h < |mags|
      reads this
    {
      var c := order - MIN_ORDER;
      if 0 <= c < |mags[h].blocks| then mags[h].blocks[c] else []
    }

    constructor (heap: Heap, harts: nat)
      requires heap.Valid() && heap.live == {}
      ensures Valid() && this.heap == heap && |mags| == harts && users == {} && owner == map[]
    {
      this.heap := heap;
      mags := seq(harts, _ => Magazine([[], [], [], [], [], []], 0));
      owner, users := map[], {};
    }

    /** Puts a block nobody owns on a hart's stack. */
    method Push(h: nat, b: Block)
      requires heap.Valid() && Owned(mags, owner) && h < |mags| && b !in owner && MIN_ORDER <= b.order <= MAGAZINE_MAX_ORDER
      requires MagazineOk(mags[h]) && |mags[h].blocks[b.order - MIN_ORDER]| < MAGAZINE_CLASS_CAPACITY
      modifies this`mags, this`owner
      ensures Owned(mags, owner) && owner == old(owner)[b := h] && mags == old(mags)[h := Pushed(old(mags)[h], b)]
    {
      hide Owned, Pushed;
      PushOwned(mags, owner, h, b);
      mags := mags[h := Pushed(mags[h], b)];
      owner := owner[b := h];
    }

    /** Takes the block on top of a hart's stack. */
    method Pop(h: nat, order: nat) returns (b: Block)
      requires Owned(mags, owner) && h < |mags| && MIN_ORDER <= order <= MAGAZINE_MAX_ORDER
      requires MagazineOk(mags[h]) && mags[h].blocks[order - MIN_ORDER] != []
      modifies this`mags, this`owner
      ensures b == Block(order, old(mags)[h].blocks[order - MIN_ORDER][0]) && b in old(owner)
      ensures Owned(mags, owner) && owner == old(owner) - {b}
      ensures mags == old(mags)[h := Popped(old(mags)[h], order)]
    {
      hide Owned, Popped;
      PopOwned(mags, owner, h, order);
      b := Block(order, mags[h].blocks[order - MIN_ORDER][0]);
      mags := mags[h := Popped(mags[h], order)];
      owner := owner - {b};
    }
  
    /** Gives every block of one of a hart's stacks back to the buddy heap. */
    method DrainClass(h: nat, order: nat) returns (n: nat)
      requires Valid() && h < |mags| && MIN_ORDER <= order <= MAGAZINE_MAX_ORDER
      modifies this`mags, this`owner, heap
      ensures Valid() && users == old(users) && |mags| == |old(mags)| && Shrunk(old(owner), owner)
      ensures n == 0 ==> owner == old(owner) && unchanged(heap)
      ensures forall b | b in owner && owner[b] == h :: b.order != order
    {
      hide Owned, Popped, Partition, Listed, Coalesced, Bytes;
      n := 0;
      OwnedOk(mags, owner, h);
      while mags[h].blocks[order - MIN_ORDER] != []
        invariant Valid() && users == old(users) && |mags| == |old(mags)| && Shrunk(old(owner), owner)
        invariant MagazineOk(mags[h])
        invariant n == 0 ==> owner == old(owner) && unchanged(heap)
        decreases |mags[h].blocks[order - MIN_ORDER]|
      {
        PopShortens(mags[h], order);
        var b := Pop(h, order);
        heap.DeallocOrder(b);
        OwnedOk(mags, owner, h);
        n := n + 1;
      }
      EmptyStack(mags, owner, h, order);
    }

    /** Gives every cached block back to the buddy heap, hart by hart. */
    method DrainMagazines() returns (drained: nat)
      requires Valid()
      modifies this`mags, this`owner, heap
      ensures Valid() && users == old(users) && |mags| == |old(mags)| && owner == map[]
      ensures drained == 0 ==> old(owner) == map[] && unchanged(heap)
    {
      hide Owned, Partition, Listed, Coalesced, Bytes;
      drained := 0;
      for h := 0 to |mags|
        invariant Valid() && users == old(users) && |mags| == |old(mags)|
        invariant drained == 0 ==> owner == old(owner) && unchanged(heap)
        invariant forall b | b in owner :: owner[b] >= h
      {
        OwnedOrders(mags, owner);
        for order := MIN_ORDER to MAGAZINE_MAX_ORDER + 1
          invariant Valid() && users == old(users) && |mags| == |old(mags)|
          invariant drained == 0 ==> owner == old(owner) && unchanged(heap)
          invariant forall b | b in owner :: owner[b] >= h && (owner[b] == h ==> b.order >= order)
        {
          var n := DrainClass(h, order);
          drained := drained + n;
        }
        OwnedOrders(mags, owner);
      }
      OwnedOrders(mags, owner);
    }
  
    /** Fills a hart's stack up to fifteen blocks while the buddy heap has any. */
    method Refill(h: nat, order: nat)
      requires Valid() && h < |mags| && MIN_ORDER <= order <= MAGAZINE_MAX_ORDER
      modifies this`mags, this`owner, heap
      ensures Valid() && users == old(users) && |mags| == |old(mags)| && MagazineOk(mags[h])
      ensures |mags[h].blocks[order - MIN_ORDER]| >= MAGAZINE_REFILL_BATCH - 1 || !HasHole(heap.live, heap.lo, heap.hi, order)
    {
      hide Owned, Pushed, Partition, Listed, Coalesced, Bytes, HasHole;
      OwnedOk(mags, owner, h);
      while |mags[h].blocks[order - MIN_ORDER]| < MAGAZINE_REFILL_BATCH - 1
        invariant Valid() && users == old(users) && |mags| == |old(mags)| && MagazineOk(mags[h])
        decreases MAGAZINE_REFILL_BATCH - |mags[h].blocks[order - MIN_ORDER]|
      {
        var extra := heap.AllocOrder(order);
        if extra.None? {
          break;
        }
        PushLengthens(mags[h], extra.value);
        Push(h, extra.value);
        OwnedOk(mags, owner, h);
      }
    }

    /** Serves a request from the buddy heap, emptying the magazines into it and trying again if it
        cannot. */
    method AllocFromHeap(order: nat) returns (r: Option<Block>, atOnce: bool)
      requires Valid()
      modifies this, heap
      ensures Valid() && |mags| == |old(mags)|
      ensures r.Some? <==> MIN_ORDER <= order < ORDER && HasHole(old(users), heap.lo, heap.hi, order)
      ensures r.Some? ==> r.value.order == order && r.value !in old(users) && users == old(users) + {r.value}
      ensures r.None? ==> users == old(users) && owner == map[]
      ensures atOnce ==> r.Some?
    {
      hide Owned, Partition, Listed, Coalesced, Bytes, HasHole;
      r := heap.AllocOrder(order);
      atOnce := r.Some?;
      if r.Some? {
        FewerLiveMoreRoom(old(heap.live), users, heap.lo, heap.hi, order);
      } else {
        var reclaimed := DrainMagazines();
        assert heap.live == users;
        if reclaimed != 0 {
          r := heap.AllocOrder(order);
        }
      }
      if r.Some? {
        users := users + {r.value};
      }
    }

    /** Serves a request on a hart. It fails exactly if the blocks the users own leave no room: what
        sits in magazines, on any hart, never makes it fail. */
    method Alloc(h: nat, l: Layout) returns (r: Option<Block>)
      requires Valid() && h < |mags|
      modifies this, heap
      ensures Valid() && |mags| == |old(mags)|
      ensures r.Some? <==> LayoutOrder(l).Some? && LayoutOrder(l).value < ORDER && HasHole(old(users), heap.lo, heap.hi, LayoutOrder(l).value)
      ensures r.Some? ==> Some(r.value.order) == LayoutOrder(l) && r.value !in old(users) && users == old(users) + {r.value}
      ensures r.None? ==> users == old(users) && owner == map[]
      ensures MagazineOrder(l).Some? && old(Stack(h, MagazineOrder(l).value)) != [] ==>
        unchanged(heap) && r == Some(Block(MagazineOrder(l).value, old(Stack(h, MagazineOrder(l).value))[0])) && owner == old(owner) - {r.value}
    {
      hide Owned, Partition, Listed, Coalesced, Bytes, HasHole, LogUp, Popped;
      if MagazineOrder(l).Some? {
        var order := MagazineOrder(l).value;
        OwnedOk(mags, owner, h);
        if mags[h].blocks[order - MIN_ORDER] != [] {
          var b := Pop(h, order);
          CachedIsRoom(heap.free, heap.live, users, heap.lo, heap.hi, b);
          users := users + {b};
          return Some(b);
        }
        var atOnce;
        r, atOnce := AllocFromHeap(order);
        if atOnce {
          Refill(h, order);
        }
      } else if LayoutOrder(l).Some? {
        var atOnce;
        r, atOnce := AllocFromHeap(LayoutOrder(l).value);
      } else {
        var reclaimed := DrainMagazines();
        r := None;
      }
    }

    /** Takes a block back on any hart. */
    method Dealloc(h: nat, b: Block, l: Layout)
      requires Valid() && h < |mags| && b in users && LayoutOrder(l) == Some(b.order)
      modifies this, heap
      ensures Valid() && |mags| == |old(mags)| && users == old(users) - {b}
      ensures if MagazineOrder(l).Some? && |old(Stack(h, b.order))| < MAGAZINE_CLASS_CAPACITY
              then unchanged(heap) && owner == old(owner)[b := h]
              else owner == old(owner) && heap.live == old(heap.live) - {b}
    {
      hide Owned, Partition, Listed, Coalesced, Bytes, LogUp, Pushed;
      users := users - {b};
      if MagazineOrder(l).Some? {
        OwnedOk(mags, owner, h);
        if |mags[h].blocks[b.order - MIN_ORDER]| < MAGAZINE_CLASS_CAPACITY {
          Push(h, b);
          return;
        }
      }
      heap.DeallocOrder(b);
    }
  }

  lemma PushLengthens(m: Magazine, b: Block)
    requires MagazineOk(m) && MIN_ORDER <= b.order <= MAGAZINE_MAX_ORDER
    ensures |Pushed(m, b).blocks| == CLASSES && |Pushed(m, b).blocks[b.order - MIN_ORDER]| == |m.blocks[b.order - MIN_ORDER]| + 1
  {
  }

  predicate Shrunk(before: map<Block, nat>, after: map<Block, nat>) {
    forall b | b in after :: b in before && before[b] == after[b]
  }

  lemma OwnedOk(mags: seq<Magazine>, owner: map<Block, nat>, h: nat)
    requires Owned(mags, owner) && h < |mags|
    ensures MagazineOk(mags[h])
  {
  }

  lemma PopShortens(m: Magazine, order: nat)
    requires MagazineOk(m) && MIN_ORDER <= order <= MAGAZINE_MAX_ORDER && m.blocks[order - MIN_ORDER] != []
    ensures |Popped(m, order).blocks| == CLASSES && |Popped(m, order).blocks[order - MIN_ORDER]| < |m.blocks[order - MIN_ORDER]|
  {
  }

  lemma EmptyStack(mags: seq<Magazine>, owner: map<Block, nat>, h: nat, order: nat)
    requires Owned(mags, owner) && h < |mags| && MIN_ORDER <= order <= MAGAZINE_MAX_ORDER
    requires MagazineOk(mags[h]) && mags[h].blocks[order - MIN_ORDER] == []
    ensures forall b | b in owner && owner[b] == h :: b.order != order
  {
  }

  lemma OwnedOrders(mags: seq<Magazine>, owner: map<Block, nat>)
    requires Owned(mags, owner)
    ensures forall b | b in owner :: owner[b] < |mags| && MIN_ORDER <= b.order <= MAGAZINE_MAX_ORDER
  {
    forall b | b in owner ensures owner[b] < |mags| && MIN_ORDER <= b.order <= MAGAZINE_MAX_ORDER {
      assert Holds(mags[owner[b]], b);
    }
  }
}
