/** What popping the LRU queue does, entry by entry, and which pages it can ever take. */
module Reclaim {
  import opened Bytes
  import opened PageStore
  import opened Accounting

  /** The part of the system that reclaim works on. */
  datatype Pool = Pool(caches: seq<Cache>, lru: seq<LruEntry>, pageCount: nat, nextGen: nat)

  predicate PoolOk(s: Pool, dirtyCount: nat) {
    Booked(s.caches, s.lru, s.pageCount, dirtyCount, s.nextGen)
  }

  predicate Resident(s: Pool, k: nat, p: nat) {
    k < |s.caches| && p in s.caches[k].pages
  }

  /** Nothing speaks against evicting a page: it is clean, no mapping has its frame and nobody holds
      it. */
  predicate Evictable(page: Page, k: nat, p: nat, hk: nat, held: set<nat>) {
    !page.dirty && !page.mapped && p !in HeldIn(k, hk, held)
  }

  /** The pool after the oldest entry was popped and the page it names was examined. */
  function Pop(s: Pool, hk: nat, held: set<nat>): Pool {
    if s.lru == [] then s else
    var e, rest := s.lru[0], s.lru[1..];
    if !Resident(s, e.cache, e.page) then s.(lru := rest)
    else
      var page := s.caches[e.cache].pages[e.page];
      if page.generation == e.generation && Evictable(page, e.cache, e.page, hk, held)
      then Pool(DropPage(s.caches, e.cache, e.page), rest, if s.pageCount == 0 then 0 else s.pageCount - 1, s.nextGen)
      else Pool(PutPage(s.caches, e.cache, e.page, Touched(page, s.nextGen)),
                rest + [LruEntry(e.cache, e.page, s.nextGen)], s.pageCount, s.nextGen + 1)
  }

  function Pops(s: Pool, n: nat, hk: nat, held: set<nat>): Pool
    decreases n
  {
    if n == 0 then s else Pop(Pops(s, n - 1, hk, held), hk, held)
  }

  /** A pop keeps the books and evicts only what may go. */
  lemma PopKeeps(s: Pool, dc: nat, hk: nat, held: set<nat>)
    requires PoolOk(s, dc)
    ensures PoolOk(Pop(s, hk, held), dc) && AllEvict(s.caches, Pop(s, hk, held).caches, hk, held)
  {
    hide Booked, AllEvict, Counted, AllTracked;
    EvictNothing(s.caches);
    if s.lru != [] {
      var e := s.lru[0];
      if !Resident(s, e.cache, e.page) {
        PopStale(s.caches, s.lru, s.pageCount, dc, s.nextGen);
      } else {
        var page := s.caches[e.cache].pages[e.page];
        if page.generation == e.generation && Evictable(page, e.cache, e.page, hk, held) {
          PopAndDrop(s.caches, s.lru, s.pageCount, dc, s.nextGen, hk, held);
        } else {
          PopAndKeep(s.caches, s.lru, s.pageCount, dc, s.nextGen, hk, held);
        }
      }
    }
  }

  /** A pop takes at most one page: the one its entry names, and exactly if that entry is current and
      nothing speaks against it. No page comes. */
  lemma PopTakes(s: Pool, hk: nat, held: set<nat>, k: nat, p: nat)
    ensures Resident(Pop(s, hk, held), k, p) <==>
      Resident(s, k, p) &&
      !(s.lru != [] && s.lru[0] == LruEntry(k, p, s.caches[k].pages[p].generation) &&
        !s.caches[k].pages[p].dirty && !s.caches[k].pages[p].mapped && !(k == hk && p in held))
  {
  }

  // ---- Pages named once go, pages named twice stay ----

  /** Entry `i` is the only one that names page `p` of cache `k`. */
  predicate OnlyAt(lru: seq<LruEntry>, k: nat, p: nat, i: nat) {
    i < |lru| && Names(lru[i], k, p) && forall j | 0 <= j < |lru| && j != i :: !Names(lru[j], k, p)
  }

  predicate NamedTwice(lru: seq<LruEntry>, k: nat, p: nat) {
    exists i, j | 0 <= i < j < |lru| :: Names(lru[i], k, p) && Names(lru[j], k, p)
  }

  lemma NamedOnceOrTwice(lru: seq<LruEntry>, k: nat, p: nat) returns (i: nat)
    requires HasEntry(lru, k, p) && !NamedTwice(lru, k, p)
    ensures OnlyAt(lru, k, p, i)
  {
    i :| i < |lru| && Names(lru[i], k, p);
  }

  lemma PopPastOther(s: Pool, hk: nat, held: set<nat>, k: nat, p: nat, i: nat)
    requires Resident(s, k, p) && OnlyAt(s.lru, k, p, i) && 0 < i
    ensures var t := Pop(s, hk, held);
      Resident(t, k, p) && t.caches[k].pages[p] == s.caches[k].pages[p] && OnlyAt(t.lru, k, p, i - 1) && |t.lru| <= |s.lru|
  {
  }

  lemma {:induction false} PopsPastOthers(s: Pool, hk: nat, held: set<nat>, k: nat, p: nat, i: nat, n: nat)
    requires Resident(s, k, p) && OnlyAt(s.lru, k, p, i) && n <= i
    ensures var t := Pops(s, n, hk, held);
      Resident(t, k, p) && t.caches[k].pages[p] == s.caches[k].pages[p] && OnlyAt(t.lru, k, p, i - n) && |t.lru| <= |s.lru|
    decreases n
  {
    hide Resident, OnlyAt, Pop;
    if n > 0 {
      PopsPastOthers(s, hk, held, k, p, i, n - 1);
      PopPastOther(Pops(s, n - 1, hk, held), hk, held, k, p, i - (n - 1));
    }
  }

  lemma PopAtEntry(s: Pool, hk: nat, held: set<nat>, k: nat, p: nat)
    requires Resident(s, k, p) && OnlyAt(s.lru, k, p, 0) && Evictable(s.caches[k].pages[p], k, p, hk, held)
    ensures var t := Pop(s, hk, held);
      if s.caches[k].pages[p].generation == s.lru[0].generation then !Resident(t, k, p)
      else
        && Resident(t, k, p) && OnlyAt(t.lru, k, p, |s.lru| - 1) && |t.lru| == |s.lru|
        && Evictable(t.caches[k].pages[p], k, p, hk, held) && t.caches[k].pages[p].generation == t.lru[|s.lru| - 1].generation
  {
  }

  lemma {:induction false} PopsSplit(s: Pool, m: nat, n: nat, hk: nat, held: set<nat>)
    ensures Pops(s, m + n, hk, held) == Pops(Pops(s, m, hk, held), n, hk, held)
    decreases n
  {
    hide Pop;
    if n > 0 { PopsSplit(s, m, n - 1, hk, held); }
  }

  lemma {:induction false} GoneStaysGone(s: Pool, hk: nat, held: set<nat>, k: nat, p: nat, n: nat)
    requires !Resident(s, k, p)
    ensures !Resident(Pops(s, n, hk, held), k, p)
    decreases n
  {
    if n > 0 {
      GoneStaysGone(s, hk, held, k, p, n - 1);
      PopTakes(Pops(s, n - 1, hk, held), hk, held, k, p);
    }
  }

  /** A page whose only entry is current goes when that entry is popped. */
  lemma CurrentGoes(s: Pool, hk: nat, held: set<nat>, k: nat, p: nat, i: nat)
    requires Resident(s, k, p) && OnlyAt(s.lru, k, p, i) && Evictable(s.caches[k].pages[p], k, p, hk, held)
    requires s.caches[k].pages[p].generation == s.lru[i].generation
    ensures !Resident(Pops(s, i + 1, hk, held), k, p)
  {
    PopsPastOthers(s, hk, held, k, p, i, i);
    EntryReachesFront(s, hk, held, i, i);
    PopAtEntry(Pops(s, i, hk, held), hk, held, k, p);
  }

  lemma {:induction false} EntryReachesFront(s: Pool, hk: nat, held: set<nat>, i: nat, n: nat)
    requires n <= i < |s.lru|
    ensures var t := Pops(s, n, hk, held); i - n < |t.lru| && t.lru[i - n] == s.lru[i]
    decreases n
  {
    if n > 0 { EntryReachesFront(s, hk, held, i, n - 1); }
  }

  /** A page named once that nothing speaks against goes when its entry is popped for the first or,
      if it was used since it was queued, for the second time. */
  lemma NamedOnceGoes(s: Pool, hk: nat, held: set<nat>, k: nat, p: nat, i: nat)
    requires Resident(s, k, p) && OnlyAt(s.lru, k, p, i) && Evictable(s.caches[k].pages[p], k, p, hk, held)
    ensures s.caches[k].pages[p].generation == s.lru[i].generation ==> !Resident(Pops(s, i + 1, hk, held), k, p)
    ensures !Resident(Pops(s, i + 1 + |s.lru|, hk, held), k, p)
  {
    hide Pop, Evictable;
    PopsPastOthers(s, hk, held, k, p, i, i);
    EntryReachesFront(s, hk, held, i, i);
    var t := Pops(s, i, hk, held);
    PopAtEntry(t, hk, held, k, p);
    var u := Pops(s, i + 1, hk, held);
    PopsSplit(s, i + 1, |s.lru|, hk, held);
    if !Resident(u, k, p) {
      GoneStaysGone(u, hk, held, k, p, |s.lru|);
    } else {
      var last := |u.lru| - 1;
      CurrentGoes(u, hk, held, k, p, last);
      PopsSplit(u, last + 1, |s.lru| - last - 1, hk, held);
      GoneStaysGone(Pops(u, last + 1, hk, held), hk, held, k, p, |s.lru| - last - 1);
    }
  }

  lemma PopKeepsPinned(s: Pool, dc: nat, hk: nat, held: set<nat>, k: nat, p: nat)
    requires PoolOk(s, dc) && Resident(s, k, p) && NamedTwice(s.lru, k, p)
    ensures Resident(Pop(s, hk, held), k, p) && NamedTwice(Pop(s, hk, held).lru, k, p)
  {
    hide Counted;
    var t := Pop(s, hk, held);
    var i, j :| 0 <= i < j < |s.lru| && Names(s.lru[i], k, p) && Names(s.lru[j], k, p);
    assert InQueue(s.caches, s.lru, s.nextGen, 0, {}, k, p);
    assert t.lru[j - 1] == s.lru[j];
    if i > 0 {
      assert t.lru[i - 1] == s.lru[i];
    } else {
      assert s.lru[0].generation < s.lru[j].generation <= s.caches[k].pages[p].generation;
      assert Names(t.lru[|s.lru| - 1], k, p);
    }
  }

  /** A page named twice stays, however many entries are popped. */
  lemma {:induction false} NamedTwiceStays(s: Pool, dc: nat, hk: nat, held: set<nat>, k: nat, p: nat, n: nat)
    requires PoolOk(s, dc) && Resident(s, k, p) && NamedTwice(s.lru, k, p)
    ensures var t := Pops(s, n, hk, held);
      PoolOk(t, dc) && AllEvict(s.caches, t.caches, hk, held) && Resident(t, k, p) && NamedTwice(t.lru, k, p)
    decreases n
  {
    hide PoolOk, Resident, NamedTwice, Pop, AllEvict;
    EvictNothing(s.caches);
    if n > 0 {
      NamedTwiceStays(s, dc, hk, held, k, p, n - 1);
      var t := Pops(s, n - 1, hk, held);
      PopKeeps(t, dc, hk, held);
      PopKeepsPinned(t, dc, hk, held, k, p);
      EvictTransitive(s.caches, t.caches, Pop(t, hk, held).caches, hk, held);
    }
  }

  /** A page that is used survives a whole round of the queue, whatever else is in it. */
  lemma {:induction false} UsedSurvivesRound(s: Pool, hk: nat, held: set<nat>, k: nat, p: nat, n: nat)
    requires k < |s.caches| && p in s.caches[k].pages && Ordered(s.lru, s.nextGen) && n <= |s.lru|
    ensures var used := s.(caches := PutPage(s.caches, k, p, Touched(s.caches[k].pages[p], s.nextGen)), nextGen := s.nextGen + 1);
      var t := Pops(used, n, hk, held); k < |t.caches| && p in t.caches[k].pages && s.nextGen <= t.caches[k].pages[p].generation < t.nextGen
    decreases n
  {
    hide Pop, Ordered;
    var used := s.(caches := PutPage(s.caches, k, p, Touched(s.caches[k].pages[p], s.nextGen)), nextGen := s.nextGen + 1);
    if n > 0 {
      UsedSurvivesRound(s, hk, held, k, p, n - 1);
      EntryReachesFront(used, hk, held, n - 1, n - 1);
      var t := Pops(used, n - 1, hk, held);
      assert t.lru[0] == s.lru[n - 1] && s.lru[n - 1].generation < s.nextGen by { OlderThan(s.lru, s.nextGen, n - 1); }
      PopSparesNewer(t, hk, held, k, p, s.nextGen);
    }
  }

  lemma OlderThan(lru: seq<LruEntry>, g: nat, i: nat)
    requires Ordered(lru, g) && i < |lru|
    ensures lru[i].generation < g
  {
  }

  lemma PopSparesNewer(t: Pool, hk: nat, held: set<nat>, k: nat, p: nat, g: nat)
    requires k < |t.caches| && p in t.caches[k].pages && g <= t.caches[k].pages[p].generation < t.nextGen
    requires t.lru != [] && t.lru[0].generation < g
    ensures var u := Pop(t, hk, held); k < |u.caches| && p in u.caches[k].pages && g <= u.caches[k].pages[p].generation < u.nextGen
  {
  }

  // ---- Pages that reclaim cannot take ----

  predicate Pinned(s: Pool, k: nat, p: nat) {
    Resident(s, k, p) && NamedTwice(s.lru, k, p)
  }

  /** Page `p` lies whole in the advised range; a range that is open or reaches the end of the file
      takes the last page along. */
  predicate InAdvice(p: nat, offset: nat, len: nat, size: nat) {
    offset <= p * PAGE_SIZE &&
    if len == 0 || offset + len >= size then p * PAGE_SIZE < size else (p + 1) * PAGE_SIZE <= offset + len
  }

  /** In bytes: every byte of the page that lies in the file is in the advised range, and there is one. */
  lemma AdviceMeans(p: nat, offset: nat, len: nat, size: nat)
    ensures InAdvice(p, offset, len, size) <==>
      p * 4096 < size &&
      forall i: nat {:trigger i / 4096} | i / 4096 == p && i < size :: offset <= i && (len == 0 || i < offset + len)
  {
    var first, last := p * PAGE_SIZE, Min((p + 1) * PAGE_SIZE, size) - 1;
    if first < size {
      assert first / 4096 == p && last / 4096 == p && last < size;
    }
  }

  /** What an operation takes away from a cache on purpose: all pages from byte `n` on, those that a
      hole covers, or those that advice names. */
  datatype Cut =
    | Nothing
    | From(cache: nat, n: nat)
    | Hole(cache: nat, start: nat, end: nat)
    | Advice(cache: nat, offset: nat, len: nat, size: nat)

  predicate Spared(cut: Cut, k: nat, p: nat) {
    cut.Nothing? || k != cut.cache ||
    match cut
    case Nothing => true
    case From(_, n) => p * PAGE_SIZE < n
    case Hole(_, start, end) => !Covered(p, start, end)
    case Advice(_, offset, len, size) => !InAdvice(p, offset, len, size)
  }

  /** Pinned pages that were not taken away on purpose are still pinned. */
  ghost predicate KeepsPinned(s: Pool, t: Pool, cut: Cut) {
    forall k: nat, p: nat | Pinned(s, k, p) && Spared(cut, k, p) :: Pinned(t, k, p)
  }

  lemma PinnedTwice(s: Pool, t: Pool, u: Pool, cut: Cut)
    requires (KeepsPinned(s, t, cut) && KeepsPinned(t, u, Nothing)) || (KeepsPinned(s, t, Nothing) && KeepsPinned(t, u, cut))
    ensures KeepsPinned(s, u, cut)
  {
  }

  /** Every cache has all the pages it had. */
  ghost predicate MorePages(c: seq<Cache>, d: seq<Cache>) {
    |c| <= |d| && forall k: nat | k < |c| :: c[k].pages.Keys <= d[k].pages.Keys
  }

  lemma SameIsMore(c: seq<Cache>)
    ensures MorePages(c, c)
  {
  }

  lemma MoreTwice(c: seq<Cache>, d: seq<Cache>, e: seq<Cache>)
    requires MorePages(c, d) && MorePages(d, e)
    ensures MorePages(c, e)
  {
  }

  lemma PutIsMore(c: seq<Cache>, d: seq<Cache>, k: nat, p: nat, page: Page)
    requires MorePages(c, d) && k < |d|
    ensures MorePages(c, PutPage(d, k, p, page))
  {
  }

  lemma MoreIsPinned(s: Pool, t: Pool)
    requires MorePages(s.caches, t.caches) && s.lru <= t.lru
    ensures KeepsPinned(s, t, Nothing)
  {
    forall k: nat, p: nat | Pinned(s, k, p) ensures Pinned(t, k, p) {
      var i, j :| 0 <= i < j < |s.lru| && Names(s.lru[i], k, p) && Names(s.lru[j], k, p);
      assert Names(t.lru[i], k, p) && Names(t.lru[j], k, p);
    }
  }

  /** Cache `k` alone has lost pages, and none that is spared. */
  lemma CutKeepsPinned(s: Pool, t: Pool, k: nat, cut: Cut)
    requires k < |s.caches| == |t.caches| && t.lru == s.lru && t.caches == s.caches[k := t.caches[k]]
    requires forall p | p in s.caches[k].pages && Spared(cut, k, p) :: p in t.caches[k].pages
    ensures KeepsPinned(s, t, cut)
  {
    hide NamedTwice;
  }

  lemma RetainedTwice(lru: seq<LruEntry>, g: nat, k: nat, j: nat, p: nat)
    requires Ordered(lru, g) && NamedTwice(lru, j, p) && j != k
    ensures NamedTwice(Retain(lru, k), j, p)
  {
    hide Retain;
    var a, b :| 0 <= a < b < |lru| && Names(lru[a], j, p) && Names(lru[b], j, p);
    var rest := Retain(lru, k);
    RetainMembers(lru, k);
    assert lru[a] in rest && lru[b] in rest;
    var c :| 0 <= c < |rest| && rest[c] == lru[a];
    var d :| 0 <= d < |rest| && rest[d] == lru[b];
    assert Names(rest[if c < d then c else d], j, p) && Names(rest[if c < d then d else c], j, p);
  }

  /** Dropping a cache takes nothing from the others. */
  lemma DropKeepsPinned(s: Pool, dc: nat, t: Pool, k: nat)
    requires PoolOk(s, dc) && k < |s.caches| && t.caches == s.caches[k := Dropped(s.caches[k])] && t.lru == Retain(s.lru, k)
    ensures KeepsPinned(s, t, From(k, 0))
  {
    hide Counted, Retain, NamedTwice, Ordered;
    forall j: nat, p: nat | Pinned(s, j, p) && j != k ensures Pinned(t, j, p) {
      RetainedTwice(s.lru, s.nextGen, k, j, p);
    }
  }

  lemma PopsKeepPinned(s: Pool, dc: nat, hk: nat, held: set<nat>, n: nat)
    requires PoolOk(s, dc)
    ensures KeepsPinned(s, Pops(s, n, hk, held), Nothing)
  {
    forall k: nat, p: nat | Pinned(s, k, p) ensures Pinned(Pops(s, n, hk, held), k, p) {
      NamedTwiceStays(s, dc, hk, held, k, p, n);
    }
  }

  /** A page that nothing speaks against is reclaimed by enough pops exactly if the queue does not name
      it twice, and then two rounds of the queue are enough. */
  lemma ReclaimableExactly(s: Pool, dc: nat, hk: nat, held: set<nat>, k: nat, p: nat)
    requires PoolOk(s, dc) && k < |s.caches| && p in s.caches[k].pages
    requires !s.caches[k].pages[p].dirty && !s.caches[k].pages[p].mapped && !(k == hk && p in held)
    ensures (exists n: nat :: !Resident(Pops(s, n, hk, held), k, p)) <==> !NamedTwice(s.lru, k, p)
    ensures !NamedTwice(s.lru, k, p) ==> !Resident(Pops(s, 2 * |s.lru|, hk, held), k, p)
  {
    hide Pop, Pops;
    if NamedTwice(s.lru, k, p) {
      forall n: nat ensures Resident(Pops(s, n, hk, held), k, p) { NamedTwiceStays(s, dc, hk, held, k, p, n); }
    } else {
      assert InQueue(s.caches, s.lru, s.nextGen, 0, {}, k, p);
      var i := NamedOnceOrTwice(s.lru, k, p);
      NamedOnceGoes(s, hk, held, k, p, i);
      PopsSplit(s, i + 1 + |s.lru|, |s.lru| - i - 1, hk, held);
      GoneStaysGone(Pops(s, i + 1 + |s.lru|, hk, held), hk, held, k, p, |s.lru| - i - 1);
    }
  }

  /** A page whose entry outlived an eviction is named twice once it is loaded again. */
  lemma ReloadNamesTwice(lru: seq<LruEntry>, page: Page, k: nat, p: nat, g: nat)
    requires HasEntry(lru, k, p) && !page.queued
    ensures NamedTwice(Requeue(lru, page, k, p, g), k, p)
  {
    var i :| 0 <= i < |lru| && Names(lru[i], k, p);
    var lru' := Requeue(lru, page, k, p, g);
    assert Names(lru'[i], k, p) && Names(lru'[|lru|], k, p);
  }
}
