/** The counters and the global LRU queue shared by all page caches. */
module Accounting {
  import opened Bytes
  import opened PageStore

  datatype LruEntry = LruEntry(cache: nat, page: nat, generation: nat)

  function DirtySet(pages: map<nat, Page>): set<nat> {
    set p | p in pages && pages[p].dirty
  }

  /** What one cache contributes to the global page counter or the global dirty counter. */
  function Weight(c: Cache, dirty: bool): nat {
    if dirty then |DirtySet(c.pages)| else |c.pages|
  }

  function Sum(caches: seq<Cache>, dirty: bool): nat {
    if caches == [] then 0 else Weight(caches[0], dirty) + Sum(caches[1..], dirty)
  }

  lemma {:induction false} SumUpdate(caches: seq<Cache>, k: nat, c: Cache, dirty: bool)
    requires k < |caches|
    ensures Sum(caches[k := c], dirty) == Sum(caches, dirty) - Weight(caches[k], dirty) + Weight(c, dirty)
    ensures Weight(caches[k], dirty) <= Sum(caches, dirty)
  {
    if k == 0 {
      assert caches[k := c][1..] == caches[1..];
    } else {
      SumUpdate(caches[1..], k - 1, c, dirty);
      assert caches[k := c][1..] == caches[1..][k - 1 := c];
    }
  }

  lemma {:induction false} SumAppend(caches: seq<Cache>, c: Cache, dirty: bool)
    ensures Sum(caches + [c], dirty) == Sum(caches, dirty) + Weight(c, dirty)
  {
    if caches == [] {
      assert caches + [c] == [c];
    } else {
      SumAppend(caches[1..], c, dirty);
      assert (caches + [c])[1..] == caches[1..] + [c];
    }
  }

  /** Replacing or adding page `p`. */
  lemma PutWeight(c: Cache, p: nat, page: Page)
    ensures Weight(c.(pages := c.pages[p := page]), false) == Weight(c, false) + (if p in c.pages then 0 else 1)
    ensures Weight(c.(pages := c.pages[p := page]), true) + (if p in c.pages && c.pages[p].dirty then 1 else 0)
         == Weight(c, true) + (if page.dirty then 1 else 0)
  {
    hide DirtySet;
    PutSize(c.pages, p, page);
    DirtyOther(c.pages, p);
    DirtyOther(c.pages[p := page], p);
    DirtyElsewhere(c.pages, p, page);
  }

  lemma PutSize(pages: map<nat, Page>, p: nat, page: Page)
    ensures |pages[p := page]| == |pages| + if p in pages then 0 else 1
  {
    assert pages[p := page].Keys == pages.Keys + {p};
  }

  lemma DirtyElsewhere(pages: map<nat, Page>, p: nat, page: Page)
    ensures DirtySet(pages[p := page]) - {p} == DirtySet(pages) - {p}
  {
  }

  lemma DirtyOther(pages: map<nat, Page>, p: nat)
    ensures |DirtySet(pages)| == |DirtySet(pages) - {p}| + if p in pages && pages[p].dirty then 1 else 0
  {
  }

  /** Removing resident page `p`. */
  lemma DropWeight(c: Cache, p: nat)
    requires p in c.pages
    ensures Weight(c.(pages := c.pages - {p}), false) == Weight(c, false) - 1
    ensures Weight(c.(pages := c.pages - {p}), true) + (if c.pages[p].dirty then 1 else 0) == Weight(c, true)
  {
    var d := c.(pages := c.pages - {p});
    assert d.pages.Keys == c.pages.Keys - {p};
    assert DirtySet(d.pages) == DirtySet(c.pages) - {p};
  }

  // ---- The LRU queue ----

  predicate Names(e: LruEntry, k: nat, p: nat) {
    e.cache == k && e.page == p
  }

  /** Some queue entry names page `p` of cache `k`, so a reclaim pass will come by. */
  predicate HasEntry(lru: seq<LruEntry>, k: nat, p: nat) {
    exists j | 0 <= j < |lru| :: Names(lru[j], k, p)
  }

  /** Queue entries carry distinct, increasing generations, all already handed out. */
  predicate Ordered(lru: seq<LruEntry>, nextGen: nat) {
    && (forall j | 0 <= j < |lru| :: lru[j].generation < nextGen)
    && (forall i, j | 0 <= i < j < |lru| :: lru[i].generation < lru[j].generation)
  }

  /** Page `p` of cache `k` is queued, is named by an entry, and is at least as recent as every
      entry that names it, stale ones included. */
  predicate Tracked(page: Page, lru: seq<LruEntry>, nextGen: nat, k: nat, p: nat) {
    && page.queued && HasEntry(lru, k, p)
    && Recent(page, lru, nextGen, k, p)
  }

  predicate Recent(page: Page, lru: seq<LruEntry>, nextGen: nat, k: nat, p: nat) {
    && page.generation < nextGen
    && (forall j | 0 <= j < |lru| :: Names(lru[j], k, p) ==> lru[j].generation <= page.generation)
  }

  /** Every resident page is tracked, except the pages `unseen` of cache `fk`, just inserted. */
  predicate AllTracked(caches: seq<Cache>, lru: seq<LruEntry>, nextGen: nat, fk: nat, unseen: set<nat>) {
    && Ordered(lru, nextGen)
    && (forall k: nat, p: nat | k < |caches| && p in caches[k].pages :: InQueue(caches, lru, nextGen, fk, unseen, k, p))
  }

  predicate InQueue(caches: seq<Cache>, lru: seq<LruEntry>, nextGen: nat, fk: nat, unseen: set<nat>, k: nat, p: nat)
    requires k < |caches| && p in caches[k].pages
  {
    if k == fk && p in unseen then !caches[k].pages[p].queued
    else Tracked(caches[k].pages[p], lru, nextGen, k, p)
  }

  /** The queue after touching a page at generation `g`. */
  function Requeue(lru: seq<LruEntry>, page: Page, k: nat, p: nat, g: nat): seq<LruEntry> {
    if page.queued then lru else lru + [LruEntry(k, p, g)]
  }

  function Touched(page: Page, g: nat): Page {
    page.(generation := g, queued := true)
  }

  function PutPage(caches: seq<Cache>, k: nat, p: nat, page: Page): seq<Cache>
    requires k < |caches|
  {
    caches[k := caches[k].(pages := caches[k].pages[p := page])]
  }

  lemma TouchTracks(caches: seq<Cache>, lru: seq<LruEntry>, g: nat, fk: nat, unseen: set<nat>, k: nat, p: nat)
    requires k < |caches| && p in caches[k].pages
    requires AllTracked(caches, lru, g, fk, unseen)
    ensures var page := caches[k].pages[p];
      AllTracked(PutPage(caches, k, p, Touched(page, g)), Requeue(lru, page, k, p, g), g + 1,
                 fk, if k == fk then unseen - {p} else unseen)
  {
    var page := caches[k].pages[p];
    var lru' := Requeue(lru, page, k, p, g);
    var caches' := PutPage(caches, k, p, Touched(page, g));
    var unseen' := if k == fk then unseen - {p} else unseen;
    assert InQueue(caches, lru, g, fk, unseen, k, p);
    TouchedTracks(page, lru, g, k, p);
    forall k1: nat, p1: nat | k1 < |caches'| && p1 in caches'[k1].pages
      ensures InQueue(caches', lru', g + 1, fk, unseen', k1, p1)
    {
      if !(k1 == k && p1 == p) {
        assert InQueue(caches, lru, g, fk, unseen, k1, p1);
        if !(k1 == fk && p1 in unseen) {
          AppendTracks(caches[k1].pages[p1], lru, g, k1, p1, lru', k, p);
        }
      }
    }
  }

  lemma AppendTracks(page: Page, lru: seq<LruEntry>, g: nat, k: nat, p: nat, lru': seq<LruEntry>, k1: nat, p1: nat)
    requires Tracked(page, lru, g, k, p)
    requires lru' == lru || lru' == lru + [LruEntry(k1, p1, g)]
    requires !(k1 == k && p1 == p)
    ensures Tracked(page, lru', g + 1, k, p)
  {
    var j :| 0 <= j < |lru| && Names(lru[j], k, p);
    assert Names(lru'[j], k, p);
  }

  lemma TouchedTracks(page: Page, lru: seq<LruEntry>, g: nat, k: nat, p: nat)
    requires Ordered(lru, g)
    requires page.queued ==> HasEntry(lru, k, p)
    ensures Ordered(Requeue(lru, page, k, p, g), g + 1)
    ensures Tracked(Touched(page, g), Requeue(lru, page, k, p, g), g + 1, k, p)
  {
    var lru' := Requeue(lru, page, k, p, g);
    if page.queued {
      var j :| 0 <= j < |lru| && Names(lru[j], k, p);
      assert Names(lru'[j], k, p);
    } else {
      assert Names(lru'[|lru|], k, p);
    }
  }

  /** `d` keeps a subset of the pages of `c`, in each cache, with their queue marks unchanged. */
  predicate SameMarks(c: seq<Cache>, d: seq<Cache>) {
    |c| == |d| &&
    forall k: nat, p: nat | k < |d| && p in d[k].pages ::
      p in c[k].pages && c[k].pages[p].generation == d[k].pages[p].generation && c[k].pages[p].queued == d[k].pages[p].queued
  }

  lemma MarksTrack(c: seq<Cache>, d: seq<Cache>, lru: seq<LruEntry>, g: nat, fk: nat, unseen: set<nat>)
    requires AllTracked(c, lru, g, fk, unseen) && SameMarks(c, d)
    ensures AllTracked(d, lru, g, fk, unseen)
  {
  }

  /** Handing out generations changes nothing. */
  lemma NextGenerations(c: seq<Cache>, lru: seq<LruEntry>, g: nat, h: nat, fk: nat, unseen: set<nat>)
    requires AllTracked(c, lru, g, fk, unseen) && g <= h
    ensures AllTracked(c, lru, h, fk, unseen)
  {
  }

  /** Inserting an unqueued page leaves just that page to be touched. */
  lemma InsertTracks(c: seq<Cache>, lru: seq<LruEntry>, g: nat, k: nat, unseen: set<nat>, p: nat, page: Page)
    requires AllTracked(c, lru, g, k, unseen) && k < |c| && p !in c[k].pages && !page.queued
    ensures AllTracked(PutPage(c, k, p, page), lru, g, k, unseen + {p})
  {
  }

  /** Popping the front entry leaves at most the page it names without one. */
  lemma PopTracks(c: seq<Cache>, lru: seq<LruEntry>, g: nat)
    requires AllTracked(c, lru, g, 0, {}) && lru != []
    ensures var e := lru[0];
      if e.cache < |c| && e.page in c[e.cache].pages
      then AllTracked(PutPage(c, e.cache, e.page, c[e.cache].pages[e.page].(queued := false)), lru[1..], g, e.cache, {e.page})
      else AllTracked(c, lru[1..], g, 0, {})
  {
    var e := lru[0];
    var named := e.cache < |c| && e.page in c[e.cache].pages;
    var d := if named then PutPage(c, e.cache, e.page, c[e.cache].pages[e.page].(queued := false)) else c;
    var fk := if named then e.cache else 0;
    var unseen := if named then {e.page} else {};
    forall k: nat, p: nat | k < |d| && p in d[k].pages ensures InQueue(d, lru[1..], g, fk, unseen, k, p) {
      if !Names(e, k, p) {
        assert InQueue(c, lru, g, 0, {}, k, p);
        TailTracks(c[k].pages[p], lru, g, k, p);
      }
    }
  }

  lemma TailTracks(page: Page, lru: seq<LruEntry>, g: nat, k: nat, p: nat)
    requires Tracked(page, lru, g, k, p) && lru != [] && !Names(lru[0], k, p)
    ensures Tracked(page, lru[1..], g, k, p)
  {
  }

  lemma NoneUnseen(c: seq<Cache>, lru: seq<LruEntry>, g: nat, a: nat, b: nat)
    requires AllTracked(c, lru, g, a, {})
    ensures AllTracked(c, lru, g, b, {})
  {
  }

  // ---- The counters ----

  /** A cache's own dirty counter is right, and a dropped cache holds no pages. */
  predicate CacheCounted(c: Cache) {
    c.dirtyPages == |DirtySet(c.pages)| && (!c.live ==> c.pages == map[])
  }

  /** The global counters are the sums over all caches. */
  predicate Counted(caches: seq<Cache>, pageCount: nat, dirtyCount: nat) {
    && pageCount == Sum(caches, false)
    && dirtyCount == Sum(caches, true)
    && (forall k: nat | k < |caches| :: CacheCounted(caches[k]))
  }

  /** Replacing one cache moves the global counters by the change in that cache. */
  lemma CountedUpdate(caches: seq<Cache>, pc: nat, dc: nat, k: nat, c: Cache)
    requires Counted(caches, pc, dc) && k < |caches| && CacheCounted(c)
    ensures Weight(caches[k], false) <= pc && Weight(caches[k], true) <= dc
    ensures Counted(caches[k := c], pc - Weight(caches[k], false) + Weight(c, false),
                    dc - Weight(caches[k], true) + Weight(c, true))
  {
    SumUpdate(caches, k, c, false);
    SumUpdate(caches, k, c, true);
  }

  // ---- Eviction across all caches ----

  function HeldIn(k: nat, hk: nat, held: set<nat>): set<nat> {
    if k == hk then held else {}
  }

  /** In every cache only clean, unmapped pages that nobody holds were evicted. */
  predicate AllEvict(c: seq<Cache>, d: seq<Cache>, hk: nat, held: set<nat>) {
    |c| == |d| && forall k: nat | k < |c| :: Evicts(c[k], d[k], HeldIn(k, hk, held))
  }

  lemma EvictTransitive(a: seq<Cache>, b: seq<Cache>, c: seq<Cache>, hk: nat, held: set<nat>)
    requires AllEvict(a, b, hk, held) && AllEvict(b, c, hk, held)
    ensures AllEvict(a, c, hk, held)
  {
  }

  lemma PutTwice(c: seq<Cache>, k: nat, p: nat, a: Page, b: Page)
    requires k < |c|
    ensures PutPage(PutPage(c, k, p, a), k, p, b) == PutPage(c, k, p, b)
  {
    assert c[k].pages[p := a][p := b] == c[k].pages[p := b];
  }

  /** Changing only the queue marks of a resident page is no eviction and moves no counter. */
  lemma RemarkCounts(c: seq<Cache>, pc: nat, dc: nat, k: nat, p: nat, page: Page)
    requires Counted(c, pc, dc) && k < |c| && p in c[k].pages && SameData(c[k].pages[p], page)
    ensures Counted(PutPage(c, k, p, page), pc, dc)
  {
    PutWeight(c[k], p, page);
    CountedUpdate(c, pc, dc, k, PutPage(c, k, p, page)[k]);
  }

  lemma RemarkEvicts(c: seq<Cache>, k: nat, p: nat, page: Page, hk: nat, held: set<nat>)
    requires k < |c| && p in c[k].pages && SameData(c[k].pages[p], page)
    ensures AllEvict(c, PutPage(c, k, p, page), hk, held)
  {
  }

  function DropPage(c: seq<Cache>, k: nat, p: nat): seq<Cache>
    requires k < |c|
  {
    c[k := c[k].(pages := c[k].pages - {p})]
  }

  function IsDirty(c: Cache, p: nat): nat {
    if p in c.pages && c.pages[p].dirty then 1 else 0
  }

  /** Removing a page, dirty or not, takes it off exactly the counters it was on. */
  lemma RemoveCounts(c: seq<Cache>, pc: nat, dc: nat, k: nat, p: nat)
    requires Counted(c, pc, dc) && k < |c| && p in c[k].pages
    ensures 0 < pc && IsDirty(c[k], p) <= dc && IsDirty(c[k], p) <= c[k].dirtyPages
    ensures Counted(c[k := c[k].(pages := c[k].pages - {p}, dirtyPages := c[k].dirtyPages - IsDirty(c[k], p))],
                    pc - 1, dc - IsDirty(c[k], p))
  {
    DropWeight(c[k], p);
    CountedUpdate(c, pc, dc, k, c[k].(pages := c[k].pages - {p}, dirtyPages := c[k].dirtyPages - IsDirty(c[k], p)));
  }

  lemma DropCounts(c: seq<Cache>, pc: nat, dc: nat, k: nat, p: nat)
    requires Counted(c, pc, dc) && k < |c| && p in c[k].pages && !c[k].pages[p].dirty
    ensures 0 < pc && Counted(DropPage(c, k, p), pc - 1, dc)
  {
    hide Counted;
    RemoveCounts(c, pc, dc, k, p);
    assert c[k].(pages := c[k].pages - {p}, dirtyPages := c[k].dirtyPages - 0) == c[k].(pages := c[k].pages - {p});
  }

  lemma DropEvicts(c: seq<Cache>, k: nat, p: nat, hk: nat, held: set<nat>)
    requires k < |c| && p in c[k].pages && !c[k].pages[p].dirty && !c[k].pages[p].mapped
    requires p !in HeldIn(k, hk, held)
    ensures AllEvict(c, DropPage(c, k, p), hk, held)
  {
  }

  /** The page a popped entry named is gone, so no page lost its entry. */
  lemma PopAndDropTracks(c: seq<Cache>, lru: seq<LruEntry>, g: nat)
    requires AllTracked(c, lru, g, 0, {}) && lru != []
    requires lru[0].cache < |c| && lru[0].page in c[lru[0].cache].pages
    ensures AllTracked(DropPage(c, lru[0].cache, lru[0].page), lru[1..], g, 0, {})
  {
  }

  /** All the bookkeeping about the page caches. */
  predicate Booked(c: seq<Cache>, lru: seq<LruEntry>, pc: nat, dc: nat, g: nat) {
    Counted(c, pc, dc) && AllTracked(c, lru, g, 0, {})
  }

  /** An entry that names no resident page is simply dropped. */
  lemma PopStale(c: seq<Cache>, lru: seq<LruEntry>, pc: nat, dc: nat, g: nat)
    requires Booked(c, lru, pc, dc, g) && lru != []
    requires !(lru[0].cache < |c| && lru[0].page in c[lru[0].cache].pages)
    ensures Booked(c, lru[1..], pc, dc, g)
    ensures forall hk, held :: AllEvict(c, c, hk, held)
  {
    PopTracks(c, lru, g);
    EvictNothing(c);
  }

  lemma EvictNothing(c: seq<Cache>)
    ensures forall hk, held :: AllEvict(c, c, hk, held)
  {
  }

  /** A page that must stay is touched and goes to the back of the queue. */
  lemma PopAndKeep(c: seq<Cache>, lru: seq<LruEntry>, pc: nat, dc: nat, g: nat, hk: nat, held: set<nat>)
    requires Booked(c, lru, pc, dc, g) && lru != []
    requires lru[0].cache < |c| && lru[0].page in c[lru[0].cache].pages
    ensures var e := lru[0]; var d := PutPage(c, e.cache, e.page, Touched(c[e.cache].pages[e.page], g));
      Booked(d, lru[1..] + [LruEntry(e.cache, e.page, g)], pc, dc, g + 1) && AllEvict(c, d, hk, held)
  {
    hide Counted, AllTracked, AllEvict;
    var e := lru[0];
    var page := c[e.cache].pages[e.page];
    var off := page.(queued := false);
    PopTracks(c, lru, g);
    var c1 := PutPage(c, e.cache, e.page, off);
    TouchTracks(c1, lru[1..], g, e.cache, {e.page}, e.cache, e.page);
    PutTwice(c, e.cache, e.page, off, Touched(page, g));
    assert {e.page} - {e.page} == {};
    NoneUnseen(PutPage(c, e.cache, e.page, Touched(page, g)), lru[1..] + [LruEntry(e.cache, e.page, g)], g + 1, e.cache, 0);
    RemarkCounts(c, pc, dc, e.cache, e.page, Touched(page, g));
    RemarkEvicts(c, e.cache, e.page, Touched(page, g), hk, held);
  }

  /** A clean, unmapped page that nobody holds is evicted. */
  lemma PopAndDrop(c: seq<Cache>, lru: seq<LruEntry>, pc: nat, dc: nat, g: nat, hk: nat, held: set<nat>)
    requires Booked(c, lru, pc, dc, g) && lru != []
    requires lru[0].cache < |c| && lru[0].page in c[lru[0].cache].pages
    requires var page := c[lru[0].cache].pages[lru[0].page]; !page.dirty && !page.mapped
    requires lru[0].page !in HeldIn(lru[0].cache, hk, held)
    ensures 0 < pc
    ensures var d := DropPage(c, lru[0].cache, lru[0].page); Booked(d, lru[1..], pc - 1, dc, g) && AllEvict(c, d, hk, held)
  {
    PopAndDropTracks(c, lru, g);
    DropCounts(c, pc, dc, lru[0].cache, lru[0].page);
    DropEvicts(c, lru[0].cache, lru[0].page, hk, held);
  }

  // ---- What readers notice, across all caches ----

  ghost predicate AllContent(c: seq<Cache>) {
    forall k: nat | k < |c| :: Content(c[k])
  }

  ghost predicate AllTransparent(c: seq<Cache>, d: seq<Cache>) {
    |c| == |d| && forall k: nat | k < |c| :: Transparent(c[k], d[k])
  }

  lemma TransparentTransitive(a: seq<Cache>, b: seq<Cache>, c: seq<Cache>)
    requires AllTransparent(a, b) && AllTransparent(b, c)
    ensures AllTransparent(a, c)
  {
  }

  lemma AllEvictIsTransparent(c: seq<Cache>, d: seq<Cache>, hk: nat, held: set<nat>)
    requires AllContent(c) && AllEvict(c, d, hk, held)
    ensures AllContent(d) && AllTransparent(c, d)
  {
  }

  lemma RemarkIsTransparent(c: seq<Cache>, k: nat, p: nat, page: Page)
    requires AllContent(c) && k < |c| && p in c[k].pages && SameData(c[k].pages[p], page)
    ensures AllContent(PutPage(c, k, p, page)) && AllTransparent(c, PutPage(c, k, p, page))
  {
  }

  /** Publishing one freshly loaded page. */
  lemma InsertKeeps(c: seq<Cache>, lru: seq<LruEntry>, pc: nat, dc: nat, g: nat, k: nat, unseen: set<nat>, p: nat, page: Page)
    requires Counted(c, pc, dc) && AllTracked(c, lru, g, k, unseen) && AllContent(c)
    requires k < |c| && c[k].live && p !in c[k].pages
    requires !page.queued && !page.dirty && page.bytes == LowerPage(c[k].lower, p)
    ensures Counted(PutPage(c, k, p, page), pc + 1, dc)
    ensures AllTracked(PutPage(c, k, p, page), lru, g, k, unseen + {p})
    ensures AllContent(PutPage(c, k, p, page)) && AllTransparent(c, PutPage(c, k, p, page))
  {
    InsertTracks(c, lru, g, k, unseen, p, page);
    PutWeight(c[k], p, page);
    CountedUpdate(c, pc, dc, k, PutPage(c, k, p, page)[k]);
    LoadIsTransparent(c[k], p, page);
  }

  function ToSet(s: seq<nat>): set<nat> {
    set p | p in s
  }

  /** The pages `p .. p + n`. */
  function Run(p: nat, n: nat): (run: set<nat>)
    ensures forall q :: q in run <==> p <= q < p + n
  {
    if n == 0 then {} else Run(p, n - 1) + {p + n - 1}
  }

  // ---- Writing into a page ----

  ghost predicate OthersTransparent(c: seq<Cache>, d: seq<Cache>, k: nat) {
    |c| == |d| && forall j: nat | j < |c| && j != k :: Transparent(c[j], d[j])
  }

  ghost predicate OthersContent(c: seq<Cache>, k: nat) {
    forall j: nat | j < |c| && j != k :: Content(c[j])
  }

  function WithoutPage(c: Cache, p: nat): Cache {
    c.(pages := c.pages - {p})
  }

  /** A zeroed page inserted over a page that was not resident: the bookkeeping stays right. */
  lemma InsertRawKeeps(c: seq<Cache>, lru: seq<LruEntry>, pc: nat, dc: nat, g0: nat, g: nat, k: nat, p: nat, page: Page)
    requires Booked(c, lru, pc, dc, g0) && g0 <= g
    requires k < |c| && c[k].live && p !in c[k].pages && !page.queued && !page.dirty
    ensures Booked(PutPage(c, k, p, Touched(page, g)), Requeue(lru, page, k, p, g), pc + 1, dc, g + 1)
  {
    var d := PutPage(c, k, p, page);
    NextGenerations(c, lru, g0, g, 0, {});
    NoneUnseen(c, lru, g, 0, k);
    InsertTracks(c, lru, g, k, {}, p, page);
    PutWeight(c[k], p, page);
    CountedUpdate(c, pc, dc, k, d[k]);
    assert {} + {p} - {p} == {};
    TouchTracks(d, lru, g, k, {} + {p}, k, p);
    PutTwice(c, k, p, page, Touched(page, g));
    RemarkCounts(d, pc + 1, dc, k, p, Touched(page, g));
    NoneUnseen(PutPage(c, k, p, Touched(page, g)), Requeue(lru, page, k, p, g), g + 1, k, 0);
  }

  /** The cache under a held raw page survives eviction unchanged in view. */
  lemma RawSurvives(c: seq<Cache>, mid: seq<Cache>, d: seq<Cache>, k: nat, p: nat, page: Page)
    requires AllContent(c) && k < |c| && p !in c[k].pages
    requires mid == PutPage(c, k, p, page) && AllEvict(mid, d, k, {p})
    ensures p in d[k].pages && SameData(page, d[k].pages[p])
    ensures Content(WithoutPage(d[k], p)) && Transparent(c[k], WithoutPage(d[k], p))
    ensures OthersContent(d, k) && OthersTransparent(c, d, k)
  {
    assert Evicts(mid[k], d[k], HeldIn(k, k, {p}));
    EvictionKeepsView(c[k], WithoutPage(d[k], p), {}, {});
    forall j: nat | j < |c| && j != k ensures Content(d[j]) && Transparent(c[j], d[j]) {
      EvictionKeepsView(mid[j], d[j], HeldIn(j, k, {p}), {});
    }
  }

  /** Storing new bytes in a resident page, making it dirty. */
  lemma StoreKeeps(c: seq<Cache>, lru: seq<LruEntry>, pc: nat, dc: nat, g: nat, k: nat, p: nat, page: Page, d: Cache)
    requires Booked(c, lru, pc, dc, g) && k < |c| && p in c[k].pages && c[k].live
    requires page.dirty && page.generation == c[k].pages[p].generation && page.queued == c[k].pages[p].queued
    requires Stored(c[k], d, p, page) && d.dirtyPages == c[k].dirtyPages + (if c[k].pages[p].dirty then 0 else 1)
    ensures Booked(c[k := d], lru, pc, dc + (if c[k].pages[p].dirty then 0 else 1), g)
  {
    hide AllTracked, DirtySet;
    PutWeight(c[k], p, page);
    assert CacheCounted(c[k]);
    CountedUpdate(c, pc, dc, k, d);
    MarksTrack(c, c[k := d], lru, g, 0, {});
  }

  /** Changing a cache's size or lower file alone moves no counter and no queue mark. */
  lemma SamePagesBooked(c: seq<Cache>, lru: seq<LruEntry>, pc: nat, dc: nat, g: nat, k: nat, d: Cache)
    requires Booked(c, lru, pc, dc, g) && k < |c|
    requires d.pages == c[k].pages && d.dirtyPages == c[k].dirtyPages && d.live == c[k].live
    ensures Booked(c[k := d], lru, pc, dc, g)
  {
    CountedUpdate(c, pc, dc, k, d);
    MarksTrack(c, c[k := d], lru, g, 0, {});
  }

  /** Retagging pages moves no counter and no queue mark. */
  lemma RetagBooked(c: seq<Cache>, lru: seq<LruEntry>, pc: nat, dc: nat, g: nat, k: nat, d: Cache)
    requires Booked(c, lru, pc, dc, g) && k < |c| && Retagged(c[k], d)
    ensures Booked(c[k := d], lru, pc, dc, g)
  {
    assert DirtySet(d.pages) == DirtySet(c[k].pages);
    assert |d.pages.Keys| == |d.pages| && |c[k].pages.Keys| == |c[k].pages|;
    CountedUpdate(c, pc, dc, k, d);
    MarksTrack(c, c[k := d], lru, g, 0, {});
  }

  /** Cleaning a dirty page takes one off both dirty counters, which are positive. */
  lemma CleanBooked(c: seq<Cache>, lru: seq<LruEntry>, pc: nat, dc: nat, g: nat, k: nat, p: nat, page: Page, d: Cache)
    requires Booked(c, lru, pc, dc, g) && k < |c| && p in c[k].pages && c[k].pages[p].dirty && !page.dirty
    requires page.generation == c[k].pages[p].generation && page.queued == c[k].pages[p].queued
    requires Stored(c[k], d, p, page) && (0 < c[k].dirtyPages ==> d.dirtyPages == c[k].dirtyPages - 1)
    ensures 0 < c[k].dirtyPages && 0 < dc
    ensures Booked(c[k := d], lru, pc, dc - 1, g)
  {
    hide AllTracked, DirtySet;
    PutWeight(c[k], p, page);
    assert CacheCounted(c[k]);
    CountedUpdate(c, pc, dc, k, d);
    MarksTrack(c, c[k := d], lru, g, 0, {});
  }

  /** A cache that lost pages, or changed the bytes of some, keeps the rest in the queue. */
  lemma FewerPagesBooked(c: seq<Cache>, d: seq<Cache>, lru: seq<LruEntry>, pc: nat, dc: nat, g: nat, pc0: nat, dc0: nat)
    requires Booked(c, lru, pc0, dc0, g) && Counted(d, pc, dc) && SameMarks(c, d)
    ensures Booked(d, lru, pc, dc, g)
  {
  }

  /** Changing bytes and versions of pages, but not which are dirty, moves no counter. */
  lemma SameDirtyCounted(c: seq<Cache>, pc: nat, dc: nat, k: nat, d: Cache)
    requires Counted(c, pc, dc) && k < |c| && d.live == c[k].live && d.dirtyPages == c[k].dirtyPages
    requires d.pages.Keys == c[k].pages.Keys && forall p | p in d.pages :: d.pages[p].dirty == c[k].pages[p].dirty
    ensures Counted(c[k := d], pc, dc)
  {
    assert DirtySet(d.pages) == DirtySet(c[k].pages);
    assert |d.pages.Keys| == |d.pages| && |c[k].pages.Keys| == |c[k].pages|;
    CountedUpdate(c, pc, dc, k, d);
  }

  // ---- Dropping a cache ----

  /** The queue without the entries of cache `k`. */
  function Retain(lru: seq<LruEntry>, k: nat): seq<LruEntry> {
    if lru == [] then [] else (if lru[0].cache == k then [] else [lru[0]]) + Retain(lru[1..], k)
  }

  lemma {:induction false} RetainMembers(lru: seq<LruEntry>, k: nat)
    ensures forall e :: e in Retain(lru, k) <==> e in lru && e.cache != k
  {
    if lru != [] {
      RetainMembers(lru[1..], k);
      assert lru == [lru[0]] + lru[1..];
    }
  }

  lemma {:induction false} RetainOrdered(lru: seq<LruEntry>, k: nat, g: nat)
    requires Ordered(lru, g)
    ensures Ordered(Retain(lru, k), g)
  {
    hide Ordered;
    if lru != [] {
      OrderedTail(lru, g);
      RetainOrdered(lru[1..], k, g);
      var rest := Retain(lru[1..], k);
      forall j | 0 <= j < |rest| ensures rest[j] in lru[1..] { RetainFrom(lru[1..], k, j); }
      OrderedCons(lru, rest, g);
      assert [] + rest == rest;
    }
  }

  lemma OrderedTail(lru: seq<LruEntry>, g: nat)
    requires Ordered(lru, g) && lru != []
    ensures Ordered(lru[1..], g)
  {
  }

  lemma OrderedCons(lru: seq<LruEntry>, rest: seq<LruEntry>, g: nat)
    requires Ordered(lru, g) && lru != [] && Ordered(rest, g) && forall j | 0 <= j < |rest| :: rest[j] in lru[1..]
    ensures Ordered([lru[0]] + rest, g)
  {
  }

  lemma RetainFrom(lru: seq<LruEntry>, k: nat, j: nat)
    requires j < |Retain(lru, k)|
    ensures Retain(lru, k)[j] in lru
  {
    RetainMembers(lru, k);
  }

  lemma RetainTracked(page: Page, lru: seq<LruEntry>, k: nat, g: nat, k1: nat, p: nat)
    requires Tracked(page, lru, g, k1, p) && k1 != k
    ensures Tracked(page, Retain(lru, k), g, k1, p)
  {
    RetainMembers(lru, k);
    var j :| 0 <= j < |lru| && Names(lru[j], k1, p);
    assert lru[j] in Retain(lru, k);
    var i :| 0 <= i < |Retain(lru, k)| && Retain(lru, k)[i] == lru[j];
    assert Names(Retain(lru, k)[i], k1, p);
    forall i | 0 <= i < |Retain(lru, k)| && Names(Retain(lru, k)[i], k1, p)
      ensures Retain(lru, k)[i].generation <= page.generation
    {
      assert Retain(lru, k)[i] in lru;
    }
  }

  function Dropped(c: Cache): Cache {
    c.(pages := map[], dirtyPages := 0, live := false)
  }

  /** Dropping a cache takes all its pages off both counters and all its entries off the queue. */
  lemma DropCacheBooked(c: seq<Cache>, lru: seq<LruEntry>, pc: nat, dc: nat, g: nat, k: nat)
    requires Booked(c, lru, pc, dc, g) && k < |c|
    ensures |c[k].pages| <= pc && c[k].dirtyPages <= dc
    ensures Booked(c[k := Dropped(c[k])], Retain(lru, k), pc - |c[k].pages|, dc - c[k].dirtyPages, g)
  {
    var d := c[k := Dropped(c[k])];
    CountedUpdate(c, pc, dc, k, Dropped(c[k]));
    RetainOrdered(lru, k, g);
    forall k1: nat, p: nat | k1 < |d| && p in d[k1].pages ensures InQueue(d, Retain(lru, k), g, 0, {}, k1, p) {
      assert InQueue(c, lru, g, 0, {}, k1, p);
      RetainTracked(c[k1].pages[p], lru, k, g, k1, p);
    }
  }

  lemma NewCacheBooked(c: seq<Cache>, lru: seq<LruEntry>, pc: nat, dc: nat, g: nat, d: Cache)
    requires Booked(c, lru, pc, dc, g) && d.pages == map[] && d.dirtyPages == 0
    ensures Booked(c + [d], lru, pc, dc, g)
  {
    SumAppend(c, d, false);
    SumAppend(c, d, true);
    forall k: nat, p: nat | k < |c + [d]| && p in (c + [d])[k].pages ensures InQueue(c + [d], lru, g, 0, {}, k, p) {
      assert InQueue(c, lru, g, 0, {}, k, p);
    }
  }
}
