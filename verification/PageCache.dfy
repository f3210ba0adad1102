/** The page caches of all open inodes with the counters and the LRU queue they share. */
module PageCaches {
  import opened Bytes
  import opened PageStore
  import opened Accounting
  import opened Reclaim

  const PAGE_CACHE_GLOBAL_MAX_PAGES: nat := 128 * 1024
  const MAX_READ_AHEAD_PAGES: nat := 32

  datatype Errno = EIO | ENOMEM | EINVAL
  datatype Result<T> = Ok(value: T) | Err(error: Errno)

  /** A page as loading makes it: clean, not queued yet, holding the lower bytes. */
  predicate FreshPage(page: Page, lower: seq<byte>, p: nat) {
    !page.queued && !page.dirty && !page.mapped && page.bytes == LowerPage(lower, p)
  }

  /** A page nobody has written or mapped. */
  predicate Untouched(page: Page) {
    !page.dirty && !page.mapped
  }

  class PageCacheSystem {
    var caches: seq<Cache>
    var lru: seq<LruEntry>
    var pageCount: nat
    var dirtyCount: nat
    var nextGen: nat
    /** Lower files and the frame allocator of a healthy system never fail. */
    const healthy: bool

    /** Counters are exact and every resident page is queued. */
    ghost predicate Book()
      reads this
    {
      Booked(caches, lru, pageCount, dirtyCount, nextGen)
    }

    ghost predicate Valid()
      reads this
    {
      Book() && AllContent(caches)
    }

    ghost function Model(): Pool
      reads this
    {
      Pool(caches, lru, pageCount, nextGen)
    }

    constructor (healthy: bool)
      ensures Valid() && caches == [] && lru == [] && this.healthy == healthy
    {
      this.healthy := healthy;
      caches, lru, pageCount, dirtyCount, nextGen := [], [], 0, 0, 1;
    }

    /** Marks a page recently used; queues it unless it is queued already. */
    method TouchPage(k: nat, p: nat, ghost fk: nat, ghost unseen: set<nat>)
      requires k < |caches| && p in caches[k].pages
      requires AllTracked(caches, lru, nextGen, fk, unseen)
      modifies this`caches, this`lru, this`nextGen
      ensures caches == PutPage(old(caches), k, p, Touched(old(caches)[k].pages[p], old(nextGen)))
      ensures lru == Requeue(old(lru), old(caches)[k].pages[p], k, p, old(nextGen)) && nextGen == old(nextGen) + 1
      ensures AllTracked(caches, lru, nextGen, fk, if k == fk then unseen - {p} else unseen)
    {
      TouchTracks(caches, lru, nextGen, fk, unseen, k, p);
      var page := caches[k].pages[p];
      lru := Requeue(lru, page, k, p, nextGen);
      caches := PutPage(caches, k, p, Touched(page, nextGen));
      nextGen := nextGen + 1;
    }

    /** Pops the oldest queue entry and evicts the page it names if nothing speaks against it. */
    method ReclaimFront(hk: nat, held: set<nat>)
      requires Book() && lru != []
      modifies this`caches, this`lru, this`pageCount, this`nextGen
      ensures Book() && Model() == Pop(old(Model()), hk, held)
      ensures AllEvict(old(caches), caches, hk, held)
    {
      hide Booked, AllEvict;
      PopKeeps(Model(), dirtyCount, hk, held);
      var e := lru[0];
      lru := lru[1..];
      if e.cache >= |caches| || e.page !in caches[e.cache].pages {
        return;
      }
      var page := caches[e.cache].pages[e.page];
      if page.generation != e.generation || page.dirty || page.mapped || e.page in HeldIn(e.cache, hk, held) {
        caches := PutPage(caches, e.cache, e.page, Touched(page, nextGen));
        lru := lru + [LruEntry(e.cache, e.page, nextGen)];
        nextGen := nextGen + 1;
      } else {
        caches := DropPage(caches, e.cache, e.page);
        pageCount := if pageCount == 0 then 0 else pageCount - 1;
      }
    }

    /** One pressure pass. It pops entries from the front while there are too many pages, and stops
        at the latest when it has popped as many as were queued at its start. */
    method ReclaimGlobal(hk: nat, held: set<nat>) returns (scanned: nat)
      requires Book()
      modifies this`caches, this`lru, this`pageCount, this`nextGen
      ensures Book() && Model() == Pops(old(Model()), scanned, hk, held)
      ensures AllEvict(old(caches), caches, hk, held)
      ensures scanned <= |old(lru)| && (scanned == |old(lru)| || pageCount <= PAGE_CACHE_GLOBAL_MAX_PAGES)
      ensures forall n: nat | n < scanned :: Pops(old(Model()), n, hk, held).pageCount > PAGE_CACHE_GLOBAL_MAX_PAGES
      ensures KeepsPinned(old(Model()), Model(), Nothing)
    {
      hide Booked, AllEvict, Pop, Resident, NamedTwice;
      var limit := |lru|;
      scanned := 0;
      EvictNothing(caches);
      while scanned < limit && pageCount > PAGE_CACHE_GLOBAL_MAX_PAGES
        invariant Book() && scanned <= limit && Model() == Pops(old(Model()), scanned, hk, held)
        invariant AllEvict(old(caches), caches, hk, held)
        invariant forall n: nat | n < scanned :: Pops(old(Model()), n, hk, held).pageCount > PAGE_CACHE_GLOBAL_MAX_PAGES
      {
        EntryReachesFront(old(Model()), hk, held, scanned, scanned);
        ghost var before := caches;
        ReclaimFront(hk, held);
        EvictTransitive(old(caches), before, caches, hk, held);
        scanned := scanned + 1;
      }
      PopsKeepPinned(old(Model()), dirtyCount, hk, held, scanned);
    }

    /** Publishes a run of freshly loaded pages and counts them. */
    method PublishRun(k: nat, p: nat, candidates: seq<Page>)
      requires Valid() && k < |caches| && caches[k].live
      requires forall q | p <= q < p + |candidates| :: q !in caches[k].pages
      requires forall i | 0 <= i < |candidates| :: FreshPage(candidates[i], caches[k].lower, p + i)
      modifies this`caches, this`pageCount
      ensures Counted(caches, pageCount, dirtyCount)
      ensures AllTracked(caches, lru, nextGen, k, Run(p, |candidates|))
      ensures AllContent(caches) && AllTransparent(old(caches), caches)
      ensures Run(p, |candidates|) <= caches[k].pages.Keys
      ensures forall q | q in Run(p, |candidates|) :: Untouched(caches[k].pages[q])
      ensures MorePages(old(caches), caches)
    {
      hide Counted, AllTracked, AllContent, Content, AllTransparent;
      var inserted := 0;
      ghost var start := caches;
      NoneUnseen(caches, lru, nextGen, 0, k);
      assert AllTransparent(start, caches) by { AllTransparentRefl(caches); }
      while inserted < |candidates|
        invariant inserted <= |candidates| && |caches| == |start|
        invariant Counted(caches, pageCount + inserted, dirtyCount)
        invariant AllTracked(caches, lru, nextGen, k, Run(p, inserted))
        invariant AllContent(caches) && AllTransparent(start, caches) && MorePages(start, caches)
        invariant caches[k].live && caches[k].lower == start[k].lower
        invariant Run(p, inserted) <= caches[k].pages.Keys
        invariant forall q | q in Run(p, inserted) :: Untouched(caches[k].pages[q])
        invariant forall q | p + inserted <= q < p + |candidates| :: q !in caches[k].pages
      {
        InsertKeeps(caches, lru, pageCount + inserted, dirtyCount, nextGen, k, Run(p, inserted), p + inserted, candidates[inserted]);
        TransparentTransitive(start, caches, PutPage(caches, k, p + inserted, candidates[inserted]));
        caches := PutPage(caches, k, p + inserted, candidates[inserted]);
        inserted := inserted + 1;
      }
      pageCount := pageCount + inserted;
    }

    /** Touches the pages of a freshly published run, which queues them. */
    method TouchRun(k: nat, p: nat, n: nat)
      requires Counted(caches, pageCount, dirtyCount) && AllContent(caches)
      requires AllTracked(caches, lru, nextGen, k, Run(p, n))
      requires k < |caches| && Run(p, n) <= caches[k].pages.Keys
      modifies this`caches, this`lru, this`nextGen
      ensures Valid() && AllTransparent(old(caches), caches)
      ensures RunTouched(old(caches)[k], old(lru), caches[k], lru, k, p, n)
      ensures MorePages(old(caches), caches) && old(lru) <= lru
    {
      hide Counted, AllTracked, AllContent, Content, RunTouched, MorePages;
      var i := 0;
      NothingTouched(caches[k], lru, k, p);
      SameIsMore(caches);
      while i < n
        invariant i <= n && |caches| == |old(caches)| && RunTouched(old(caches)[k], old(lru), caches[k], lru, k, p, i)
        invariant Counted(caches, pageCount, dirtyCount) && AllContent(caches)
        invariant AllTracked(caches, lru, nextGen, k, Run(p + i, n - i))
        invariant AllTransparent(old(caches), caches)
        invariant MorePages(old(caches), caches) && old(lru) <= lru
      {
        ghost var before := caches;
        var q := p + i;
        RunTouchedKeys(old(caches)[k], old(lru), caches[k], lru, k, p, i);
        assert q in Run(p, n);
        RemarkCounts(caches, pageCount, dirtyCount, k, q, Touched(caches[k].pages[q], nextGen));
        RemarkIsTransparent(caches, k, q, Touched(caches[k].pages[q], nextGen));
        QueuedOnce(caches, lru, nextGen, k, q, Run(q, n - i));
        OneMoreTouched(old(caches)[k], old(lru), caches[k], lru, k, p, i, nextGen);
        PutIsMore(old(caches), caches, k, q, Touched(caches[k].pages[q], nextGen));
        TouchPage(k, q, k, Run(q, n - i));
        TransparentTransitive(old(caches), before, caches);
        assert Run(q, n - i) - {q} == Run(q + 1, n - i - 1);
        i := i + 1;
      }
      NoneUnseen(caches, lru, nextGen, k, 0);
    }

    /** The read-ahead window: it stays inside the file and stops before a cached page. */
    method LoadWindow(k: nat, p: nat, readAhead: nat) returns (n: nat)
      requires k < |caches| && p !in caches[k].pages
      ensures 1 <= n <= MAX_READ_AHEAD_PAGES && n <= Max(1, readAhead)
      ensures n == 1 || (p + n - 1) * PAGE_SIZE < caches[k].size
      ensures forall q | p <= q < p + n :: q !in caches[k].pages
      ensures n == 32 || readAhead <= n || caches[k].size <= (p + n) * PAGE_SIZE || p + n in caches[k].pages
    {
      var size := caches[k].size;
      if p * PAGE_SIZE >= size {
        return 1;
      }
      var limit := Min(Max(1, Min(readAhead, MAX_READ_AHEAD_PAGES)), PagesFor(size) - p);
      n := 1;
      while n < limit && p + n !in caches[k].pages
        invariant 1 <= n <= limit
        invariant forall q | p <= q < p + n :: q !in caches[k].pages
      {
        n := n + 1;
      }
    }

    /** Touches one page of a valid system. */
    method Access(k: nat, p: nat)
      requires Valid() && k < |caches| && p in caches[k].pages
      modifies this`caches, this`lru, this`nextGen
      ensures Valid() && AllTransparent(old(caches), caches)
      ensures caches == PutPage(old(caches), k, p, Touched(old(caches)[k].pages[p], old(nextGen))) && lru == old(lru)
      ensures caches[k].pages[p].generation + 1 == nextGen
      ensures KeepsPinned(old(Model()), Model(), Nothing)
    {
      hide Counted, AllTracked, AllContent, Content;
      QueuedStays(caches, lru, nextGen, k, p);
      RemarkCounts(caches, pageCount, dirtyCount, k, p, Touched(caches[k].pages[p], nextGen));
      RemarkIsTransparent(caches, k, p, Touched(caches[k].pages[p], nextGen));
      TouchPage(k, p, 0, {});
      assert {} - {p} == {};
      MoreIsPinned(old(Model()), Model());
    }

    /** Makes page `p` of cache `k` resident, loading a read-ahead run if it is missing. Nothing a
        reader can see changes, also when loading fails. */
    method GetOrLoad(k: nat, p: nat, readAhead: nat, markAccessed: bool) returns (r: Result<()>)
      requires Valid() && k < |caches| && caches[k].live
      modifies this`caches, this`lru, this`pageCount, this`nextGen
      ensures Valid() && AllTransparent(old(caches), caches)
      ensures r.Ok? ==> p in caches[k].pages
      ensures healthy ==> r.Ok?
      ensures r.Ok? && p !in old(caches)[k].pages ==> Untouched(caches[k].pages[p])
      ensures r.Ok? && markAccessed ==> caches[k].pages[p].generation + 1 == nextGen
      ensures r.Ok? && p !in old(caches)[k].pages && HasEntry(old(lru), k, p) ==> NamedTwice(lru, k, p)
      ensures KeepsPinned(old(Model()), Model(), Nothing)
    {
      hide Counted, AllTracked, AllContent, Content, AllEvict, NamedTwice, HasEntry, Pops, MorePages;
      if p in caches[k].pages {
        if markAccessed {
          Access(k, p);
        }
        return Ok(());
      }
      var n := LoadWindow(k, p, readAhead);
      assert |caches[k].lower| <= caches[k].size by { LowerNotLonger(caches, k); }
      var loaded := LoadCandidates(healthy, caches[k].lower, p, n, caches[k].size, nextGen);
      if loaded.Err? {
        return Err(loaded.error);
      }
      NextGenerations(caches, lru, nextGen, nextGen + n, 0, {});
      nextGen := nextGen + n;
      ghost var c0 := caches;
      PublishRun(k, p, loaded.value);
      ghost var c1 := caches;
      TouchRun(k, p, n);
      ghost var c2, s2 := caches, Model();
      MoreTwice(c0, c1, c2);
      MoreIsPinned(old(Model()), s2);
      assert HasEntry(old(lru), k, p) ==> Pinned(s2, k, p);
      TransparentTransitive(c0, c1, c2);
      var _ := ReclaimGlobal(k, Run(p, n));
      AllEvictIsTransparent(c2, caches, k, Run(p, n));
      TransparentTransitive(c0, c2, caches);
      HeldStays(c2, caches, k, Run(p, n), p);
      PinnedTwice(old(Model()), s2, Model(), Nothing);
      assert HasEntry(old(lru), k, p) ==> Pinned(Model(), k, p);
      if markAccessed {
        ghost var c3, s3 := caches, Model();
        Access(k, p);
        TransparentTransitive(c0, c3, caches);
        PinnedTwice(old(Model()), s3, Model(), Nothing);
      }
      return Ok(());
    }

    /** A read copies what a flat file would return and leaves every cache's view alone. */
    method ReadAtAdvised(k: nat, offset: nat, len: nat, readAhead: nat, markAccessed: bool) returns (r: Result<seq<byte>>)
      requires Valid() && k < |caches| && caches[k].live
      modifies this`caches, this`lru, this`pageCount, this`nextGen
      ensures Valid() && AllTransparent(old(caches), caches)
      ensures r.Ok? ==> r.value == FlatRead(View(old(caches)[k]), offset, len)
      ensures healthy ==> r.Ok?
      ensures KeepsPinned(old(Model()), Model(), Nothing)
    {
      hide Book, Booked, AllContent, Content, Pinned;
      var size := caches[k].size;
      var buf := [];
      var start := Min(offset, size);
      var pos := start;
      var end := Min(size, offset + len);
      ghost var c0 := caches;
      while pos < end
        invariant Valid() && AllTransparent(c0, caches) && KeepsPinned(old(Model()), Model(), Nothing)
        invariant start <= pos <= end
        invariant buf == ViewSlice(c0[k], start, pos - start)
      {
        var p, off := pos / PAGE_SIZE, pos % PAGE_SIZE;
        var n := Min(end - pos, PAGE_SIZE - off);
        ghost var before, mid := caches, Model();
        var got := GetOrLoad(k, p, readAhead, markAccessed);
        TransparentTransitive(c0, before, caches);
        PinnedTwice(old(Model()), mid, Model(), Nothing);
        if got.Err? {
          return Err(got.error);
        }
        assert pos == p * PAGE_SIZE + off;
        SliceIsView(c0[k], caches[k], p, off, n);
        SliceAppend(c0[k], start, pos - start, n);
        buf := buf + caches[k].pages[p].bytes[off..off + n];
        pos := pos + n;
      }
      SliceIsRead(c0[k], offset, len);
      return Ok(buf);
    }

    /** Puts a zeroed page in place of a page that is not resident; the caller holds it, so the
        reclaim pass that may follow cannot take it away. */
    method InsertZeroPage(k: nat, p: nat)
      requires Valid() && k < |caches| && caches[k].live && p !in caches[k].pages
      modifies this`caches, this`lru, this`pageCount, this`nextGen
      ensures Book() && |caches| == |old(caches)|
      ensures p in caches[k].pages && caches[k].pages[p].bytes == ZeroFrame() && !caches[k].pages[p].dirty
      ensures Content(WithoutPage(caches[k], p)) && Transparent(old(caches)[k], WithoutPage(caches[k], p))
      ensures OthersContent(caches, k) && OthersTransparent(old(caches), caches, k)
      ensures KeepsPinned(old(Model()), Model(), Nothing)
    {
      hide Booked, AllContent, Content, AllEvict, OthersContent, Pinned;
      var page := Page(ZeroFrame(), false, 0, NotWriting, nextGen, false, false);
      ghost var c0 := caches;
      InsertRawKeeps(caches, lru, pageCount, dirtyCount, nextGen, nextGen + 1, k, p, page);
      lru := Requeue(lru, page, k, p, nextGen + 1);
      caches := PutPage(caches, k, p, Touched(page, nextGen + 1));
      pageCount, nextGen := pageCount + 1, nextGen + 2;
      ghost var mid, s1 := caches, Model();
      MoreIsPinned(old(Model()), s1);
      var _ := ReclaimGlobal(k, {p});
      PinnedTwice(old(Model()), s1, Model(), Nothing);
      RawSurvives(c0, mid, caches, k, p, mid[k].pages[p]);
    }

    /** Copies `chunk` into resident page `p` at `off` and marks the page dirty. `b` is the cache as
        readers saw it before the page was prepared. */
    method StoreChunk(k: nat, p: nat, off: nat, chunk: seq<byte>, ghost b: Cache)
      requires Book() && k < |caches| && caches[k].live && p in caches[k].pages
      requires Content(b) && OthersContent(caches, k) && WithoutPage(caches[k], p) == WithoutPage(b, p)
      requires 0 < |chunk| && off + |chunk| <= PAGE_SIZE && p * PAGE_SIZE + off + |chunk| <= b.size
      requires GoodBase(b, p, off, |chunk|, caches[k].pages[p].bytes)
      modifies this`caches, this`dirtyCount
      ensures Valid() && |caches| == |old(caches)| && forall j: nat | j < |caches| && j != k :: caches[j] == old(caches)[j]
      ensures ChunkWritten(b, caches[k], p * PAGE_SIZE + off, chunk)
      ensures caches[k].size == b.size && caches[k].lower == b.lower && caches[k].sizeVersion == b.sizeVersion && caches[k].live
      ensures MorePages(old(caches), caches)
    {
      hide Booked, Content, GoodBase;
      var c := caches[k];
      var page := c.pages[p];
      var newlyDirty := if page.dirty then 0 else 1;
      var written := page.(bytes := Overlay(page.bytes, off, chunk), dirty := true, version := page.version + 1);
      var d := c.(pages := c.pages[p := written], dirtyPages := c.dirtyPages + newlyDirty);
      StoreKeeps(caches, lru, pageCount, dirtyCount, nextGen, k, p, written, d);
      assert Stored(b, d, p, written) by { SameRest(c, b, p, written); }
      ChunkLands(b, d, p, off, chunk, page.bytes, written);
      caches := caches[k := d];
      dirtyCount := dirtyCount + newlyDirty;
    }

    /** Writes the part of a buffer that falls into one page. */
    method WriteChunk(k: nat, pos: nat, chunk: seq<byte>, oldSize: nat) returns (r: Result<()>)
      requires Valid() && k < |caches| && caches[k].live
      requires 0 < |chunk| && pos % PAGE_SIZE + |chunk| <= PAGE_SIZE && pos + |chunk| <= caches[k].size
      requires |caches[k].lower| <= oldSize
      modifies this`caches, this`lru, this`pageCount, this`dirtyCount, this`nextGen
      ensures Valid() && OthersTransparent(old(caches), caches, k) && SameFile(old(caches)[k], caches[k])
      ensures r.Err? ==> Transparent(old(caches)[k], caches[k])
      ensures r.Ok? ==> ChunkWritten(old(caches)[k], caches[k], pos, chunk)
      ensures healthy ==> r.Ok?
      ensures KeepsPinned(old(Model()), Model(), Nothing)
    {
      hide Book, Booked, AllContent, Content, OthersContent, GoodBase, ChunkWritten, Pinned, MorePages;
      var p, off := pos / PAGE_SIZE, pos % PAGE_SIZE;
      ghost var c0 := caches;
      ghost var b;
      if NeedsOldData(p, off, |chunk|, oldSize) {
        var got := GetOrLoad(k, p, 1, true);
        if got.Err? {
          return Err(got.error);
        }
        b := caches[k];
        ResidentBase(b, p, off, |chunk|);
      } else if p in caches[k].pages {
        Access(k, p);
        b := caches[k];
        ResidentBase(b, p, off, |chunk|);
      } else {
        var fault: bool := *;
        if fault && !healthy {
          return Err(ENOMEM);
        }
        InsertZeroPage(k, p);
        b := WithoutPage(caches[k], p);
        assert WithoutPage(b, p) == b;
        ZeroBaseIsGood(b, p, off, |chunk|, oldSize);
      }
      ghost var s1 := Model();
      ContentParts(caches, k);
      assert pos == p * PAGE_SIZE + off;
      StoreChunk(k, p, off, chunk, b);
      MoreIsPinned(s1, Model());
      PinnedTwice(old(Model()), s1, Model(), Nothing);
      ChunkOverTransparent(c0[k], b, caches[k], pos, chunk);
      return Ok(());
    }

    /** Raises the visible length to `n`; the new bytes read as zero. */
    method GrowTo(k: nat, n: nat)
      requires Valid() && k < |caches| && caches[k].size <= n
      modifies this`caches
      ensures Valid() && |caches| == |old(caches)|
      ensures forall j: nat | j < |caches| && j != k :: caches[j] == old(caches)[j]
      ensures View(caches[k]) == FlatTruncate(View(old(caches)[k]), n)
      ensures caches[k].size == n && caches[k].lower == old(caches)[k].lower && caches[k].live == old(caches)[k].live
      ensures caches[k].sizeVersion == old(caches)[k].sizeVersion + (if n == old(caches)[k].size then 0 else 1)
      ensures caches[k].pages == old(caches)[k].pages
    {
      hide Booked, Content, View;
      var c := caches[k];
      if c.size < n {
        GrowView(c, n, c.sizeVersion + 1);
        var d := c.(size := n, sizeVersion := c.sizeVersion + 1);
        SamePagesBooked(caches, lru, pageCount, dirtyCount, nextGen, k, d);
        caches := caches[k := d];
      } else {
        WholeView(c);
      }
    }

    /** A buffered write. `landed` bytes of `buf` reached the cache: all of them on success. An error
        leaves the length raised and a prefix written, as the source does. */
    method WriteAt(k: nat, offset: nat, buf: seq<byte>) returns (r: Result<nat>, landed: nat)
      requires Valid() && k < |caches| && caches[k].live
      modifies this`caches, this`lru, this`pageCount, this`dirtyCount, this`nextGen
      ensures Valid() && OthersTransparent(old(caches), caches, k)
      ensures caches[k].lower == old(caches)[k].lower && caches[k].live
      ensures landed <= |buf| && (r.Ok? ==> r.value == landed == |buf|)
      ensures offset + |buf| > USIZE_MAX ==> r == Err(EINVAL) && caches == old(caches)
      ensures offset + |buf| <= USIZE_MAX ==> View(caches[k]) == FlatPartial(View(old(caches)[k]), offset, buf, landed)
      ensures offset <= USIZE_MAX && buf == [] ==> (View(caches[k]) == View(old(caches)[k]) <==> offset <= |View(old(caches)[k])|)
      ensures healthy && offset + |buf| <= USIZE_MAX ==> r.Ok?
      ensures KeepsPinned(old(Model()), Model(), Nothing)
    {
      hide Booked, Book, AllContent, Content, View, ChunkWritten, NeedsOldData, FlatPartial, Pinned;
      landed := 0;
      var end := offset + |buf|;
      if end > USIZE_MAX {
        return Err(EINVAL), 0;
      }
      var oldSize := caches[k].size;
      LowerNotLonger(caches, k);
      ghost var c0 := caches;
      EmptyWrite(View(caches[k]), offset);
      if end > oldSize {
        GrowTo(k, end);
      } else {
        WholeView(caches[k]);
      }
      ghost var c1 := caches;
      MoreIsPinned(old(Model()), Model());
      NothingWritten(caches[k], offset);
      assert buf[..0] == [];
      while landed < |buf|
        invariant landed <= |buf| && Valid() && |caches| == |c1| && OthersTransparent(c1, caches, k) && SameFile(c1[k], caches[k])
        invariant ChunkWritten(c1[k], caches[k], offset, buf[..landed])
        invariant KeepsPinned(old(Model()), Model(), Nothing)
      {
        var pos := offset + landed;
        var n := Min(|buf| - landed, PAGE_SIZE - pos % PAGE_SIZE);
        var chunk := buf[landed..landed + n];
        ghost var before, mid := caches, Model();
        var w := WriteChunk(k, pos, chunk, oldSize);
        OthersTransitive(c1, before, caches, k);
        PinnedTwice(old(Model()), mid, Model(), Nothing);
        if w.Err? {
          TransparentAfterChunk(c1[k], before[k], caches[k], offset, buf[..landed]);
          ChunksAreWrite(c0[k], c1[k], caches[k], offset, buf, landed);
          return Err(w.error), landed;
        }
        assert buf[..landed] + chunk == buf[..landed + n];
        ChunksJoin(c1[k], before[k], caches[k], offset, buf[..landed], chunk);
        landed := landed + n;
      }
      ChunksAreWrite(c0[k], c1[k], caches[k], offset, buf, landed);
      return Ok(|buf|), landed;
    }

    // ---- Writeback ----

    /** Replaces one cache of a valid system by a retagged version of it. */
    method Retag(k: nat, d: Cache)
      requires Valid() && k < |caches| && Retagged(caches[k], d)
      modifies this`caches
      ensures Valid() && caches == old(caches)[k := d]
    {
      hide Booked, Content;
      RetagBooked(caches, lru, pageCount, dirtyCount, nextGen, k, d);
      RetagKeepsView(caches[k], d);
      caches := caches[k := d];
    }

    /** Gathers one batch: consecutive dirty pages of `idxs` from `cursor` on, at most 32, each tagged
        with the batch id. The data is exactly the file from the batch's first page on. */
    method AssembleBatch(k: nat, idxs: seq<nat>, cursor: nat, id: nat) returns (versions: seq<nat>, data: seq<byte>)
      requires Valid() && k < |caches| && cursor < |idxs|
      requires forall i | 0 <= i < |idxs| :: idxs[i] in caches[k].pages
      requires caches[k].pages[idxs[cursor]].dirty
      modifies this`caches
      ensures Valid() && |caches| == |old(caches)| && caches == old(caches)[k := caches[k]]
      ensures Retagged(old(caches)[k], caches[k])
      ensures 0 < |versions| <= WRITEBACK_BATCH_PAGES && cursor + |versions| <= |idxs|
      ensures BatchData(caches[k], idxs[cursor], |versions|, data)
      ensures forall i | cursor <= i < cursor + |versions| :: idxs[i] == idxs[cursor] + (i - cursor)
      ensures forall i | 0 <= i < |versions| :: InBatch(caches[k], idxs[cursor] + i, id, versions[i])
    {
      hide Book, Booked, AllContent, Content, BatchData, Retagged, InBatch;
      var c, d := caches[k], caches[k];
      var first := idxs[cursor];
      ContentParts(caches, k);
      DirtyInFile(c, first);
      versions, data := [], [];
      EmptyBatch(c, first);
      TagNothing(c);
      while cursor + |versions| < |idxs| && |versions| < WRITEBACK_BATCH_PAGES
        modifies {}
        invariant |versions| <= WRITEBACK_BATCH_PAGES && cursor + |versions| <= |idxs|
        invariant Retagged(c, d) && BatchData(c, first, |versions|, data)
        invariant forall i | cursor <= i < cursor + |versions| :: idxs[i] == first + (i - cursor)
        invariant forall i | 0 <= i < |versions| :: InBatch(d, first + i, id, versions[i])
      {
        var p := idxs[cursor + |versions|];
        if p != first + |versions| || !c.pages[p].dirty {
          break;
        }
        DirtyInFile(c, p);
        BatchGrows(c, first, |versions|, data);
        TagOne(c, d, first, versions, id);
        data := data + c.pages[p].bytes[..Min(c.size - p * PAGE_SIZE, PAGE_SIZE)];
        d := d.(pages := d.pages[p := c.pages[p].(writeback := Writing(id))]);
        versions := versions + [c.pages[p].version];
      }
      BatchOfRetagged(c, d, first, |versions|, data);
      Retag(k, d);
    }

    /** The lower inode takes a batch: all of it, or it fails after any part of it landed. */
    method LowerWriteAt(k: nat, first: nat, count: nat, data: seq<byte>) returns (r: Result<()>)
      requires Valid() && k < |caches| && BatchData(caches[k], first, count, data)
      modifies this`caches
      ensures Valid() && |caches| == |old(caches)| && caches == old(caches)[k := caches[k]]
      ensures caches[k] == old(caches)[k].(lower := caches[k].lower) && SameView(old(caches)[k], caches[k])
      ensures r.Ok? ==> caches[k].lower == FlatWrite(old(caches)[k].lower, first * PAGE_SIZE, data)
      ensures healthy ==> r.Ok?
    {
      hide Booked, Content, BatchData, FitsBatch, FlatWrite;
      var untouched: bool := *;
      if untouched && !healthy {
        return Err(EIO);
      }
      var landed :| 0 <= landed <= |data| && (healthy ==> landed == |data|);
      var d := caches[k].(lower := FlatWrite(caches[k].lower, first * PAGE_SIZE, data[..landed]));
      PrefixFits(caches[k], first, count, data, landed);
      LowerWriteIsInvisible(caches[k], first, count, data[..landed]);
      SamePagesBooked(caches, lru, pageCount, dirtyCount, nextGen, k, d);
      caches := caches[k := d];
      assert data[..|data|] == data;
      return if landed == |data| then Ok(()) else Err(EIO);
    }

    /** Takes the tags of a failed batch off its pages, which stay dirty. */
    method FinishBatch(k: nat, first: nat, count: nat, id: nat)
      requires Valid() && k < |caches|
      modifies this`caches
      ensures Valid() && |caches| == |old(caches)| && caches == old(caches)[k := caches[k]]
      ensures Retagged(old(caches)[k], caches[k])
      ensures forall p | p in caches[k].pages :: caches[k].pages[p] == Untagged(old(caches)[k].pages[p], first <= p < first + count, id)
    {
      hide Book, Booked, AllContent, Content, Retagged, FinishedTo;
      var c := caches[k];
      var d := c;
      NoneFinished(c, first, id);
      for i := 0 to count
        modifies {}
        invariant FinishedTo(c, d, first, i, id)
      {
        var p := first + i;
        OneFinished(c, d, first, i, id);
        if p in d.pages && d.pages[p].writeback == Writing(id) {
          d := d.(pages := d.pages[p := d.pages[p].(writeback := NotWriting)]);
        }
      }
      FinishedMeans(c, d, first, count, id);
      Retag(k, d);
    }

    /** Ends a batch for one page: the tag goes, and the page is clean exactly if nobody has written
        it since the batch took it. */
    method CommitPage(k: nat, p: nat, version: nat, id: nat)
      requires Valid() && k < |caches| && p in caches[k].pages
      requires InBatch(caches[k], p, id, version) ==> caches[k].pages[p].bytes == LowerPage(caches[k].lower, p)
      modifies this`caches, this`dirtyCount
      ensures Valid() && |caches| == |old(caches)| && caches == old(caches)[k := caches[k]]
      ensures SameView(old(caches)[k], caches[k])
      ensures Stored(old(caches)[k], caches[k], p, Committed(old(caches)[k].pages[p], version, id))
    {
      hide Booked, AllContent, Content, LowerPage;
      var c := caches[k];
      var page := c.pages[p];
      if page.writeback != Writing(id) {
        assert c.pages[p := page] == c.pages;
        SameViewRefl(c);
        return;
      }
      if page.dirty && page.version == version {
        var clean := page.(dirty := false, writeback := NotWriting);
        var d := c.(pages := c.pages[p := clean], dirtyPages := if 0 < c.dirtyPages then c.dirtyPages - 1 else 0);
        CleanBooked(caches, lru, pageCount, dirtyCount, nextGen, k, p, clean, d);
        ContentParts(caches, k);
        CleanKeepsView(c, d, p, clean);
        ContentPut(caches, k, d);
        caches := caches[k := d];
        dirtyCount := dirtyCount - 1;
      } else {
        ContentParts(caches, k);
        var d := c.(pages := c.pages[p := page.(writeback := NotWriting)]);
        RetagKeepsView(c, d);
        Retag(k, d);
      }
    }

    /** Marks clean every page of a fully written batch whose version is still the recorded one. */
    method CommitBatch(k: nat, first: nat, versions: seq<nat>, id: nat)
      requires Valid() && k < |caches|
      requires forall i | 0 <= i < |versions| :: InBatch(caches[k], first + i, id, versions[i])
      requires forall p | first <= p < first + |versions| ::
        p in caches[k].pages && caches[k].pages[p].bytes == LowerPage(caches[k].lower, p)
      modifies this`caches, this`dirtyCount
      ensures Valid() && |caches| == |old(caches)| && caches == old(caches)[k := caches[k]]
      ensures Cleaned(old(caches)[k], caches[k], Run(first, |versions|)) && SameView(old(caches)[k], caches[k])
      ensures caches[k].lower == old(caches)[k].lower
      ensures forall p | first <= p < first + |versions| :: p in caches[k].pages && !caches[k].pages[p].dirty
    {
      hide Book, Booked, AllContent, Content, LowerPage, PageView, Cleaned, SameView;
      var i := 0;
      ghost var c0 := caches;
      CleanedRefl(c0[k], Run(first, |versions|));
      while i < |versions|
        invariant i <= |versions| && Valid() && |caches| == |c0| && caches == c0[k := caches[k]]
        invariant Cleaned(c0[k], caches[k], Run(first, |versions|)) && SameView(c0[k], caches[k]) && caches[k].lower == c0[k].lower
        invariant forall p | first <= p < first + |versions| ::
          p in caches[k].pages && caches[k].pages[p].bytes == LowerPage(caches[k].lower, p)
        invariant forall p | first <= p < first + i :: p in caches[k].pages && !caches[k].pages[p].dirty
        invariant forall j | i <= j < |versions| :: InBatch(caches[k], first + j, id, versions[j])
      {
        assert InBatch(caches[k], first + i, id, versions[i]);
        ghost var before := caches[k];
        CommitPage(k, first + i, versions[i], id);
        CommittedIsCleaned(before, caches[k], first + i, versions[i], id, Run(first, |versions|));
        CleanedTwice(c0[k], before, caches[k], Run(first, |versions|));
        i := i + 1;
      }
    }

    /** Writes back one batch starting at `idxs[cursor]`; on success its pages are clean. */
    method SyncBatch(k: nat, idxs: seq<nat>, cursor: nat, id: nat) returns (r: Result<()>, count: nat)
      requires Valid() && k < |caches| && cursor < |idxs|
      requires forall i | 0 <= i < |idxs| :: idxs[i] in caches[k].pages
      requires caches[k].pages[idxs[cursor]].dirty
      modifies this`caches, this`dirtyCount
      ensures Valid() && |caches| == |old(caches)| && caches == old(caches)[k := caches[k]]
      ensures SameView(old(caches)[k], caches[k]) && Cleaned(old(caches)[k], caches[k], ToSet(idxs))
      ensures 0 < count && cursor + count <= |idxs|
      ensures r.Ok? ==> forall i | cursor <= i < cursor + count :: !caches[k].pages[idxs[i]].dirty
      ensures healthy ==> r.Ok?
    {
      hide Book, Booked, AllContent, Content, BatchData, FlatWrite, LowerPage, PageView, SameView, Cleaned, Retagged;
      ghost var c0 := caches[k];
      var first := idxs[cursor];
      var versions, data := AssembleBatch(k, idxs, cursor, id);
      ghost var c1 := caches[k];
      ContentParts(caches, k);
      RetagIsSameView(c0, c1);
      count := |versions|;
      r := LowerWriteAt(k, first, count, data);
      ghost var c2, where := caches[k], ToSet(idxs);
      SamePagesCleaned(c1, c2);
      CleanedSoFar(c0, c1, c2, {}, {}, where);
      if r.Err? {
        FinishBatch(k, first, count, id);
        ContentParts(caches, k);
        RetagIsSameView(c2, caches[k]);
        CleanedSoFar(c0, c2, caches[k], where, {}, where);
        return;
      }
      forall p | first <= p < first + count ensures p in c2.pages && c2.pages[p].bytes == LowerPage(c2.lower, p) {
        BatchPages(c1, first, count, data);
        BatchReachesLower(c1, first, count, data, p);
      }
      CommitBatch(k, first, versions, id);
      forall p | p in Run(first, count) ensures p in where { assert idxs[cursor + (p - first)] == p; }
      CleanedSoFar(c0, c2, caches[k], where, Run(first, count), where);
    }

    /** Writes back the dirty ones of the listed pages in ascending batches, and says which it cleaned. */
    method SyncBatches(k: nat, idxs: seq<nat>) returns (r: Result<()>, cleaned: seq<nat>)
      requires Valid() && k < |caches| && forall i | 0 <= i < |idxs| :: idxs[i] in caches[k].pages
      modifies this`caches, this`dirtyCount
      ensures Valid() && |caches| == |old(caches)| && caches == old(caches)[k := caches[k]]
      ensures SameView(old(caches)[k], caches[k]) && Cleaned(old(caches)[k], caches[k], ToSet(idxs))
      ensures forall p | p in cleaned :: p in caches[k].pages
      ensures r.Ok? ==> forall i | 0 <= i < |idxs| :: idxs[i] in caches[k].pages && !caches[k].pages[idxs[i]].dirty
      ensures healthy ==> r.Ok?
    {
      hide Book, Booked, AllContent, Content, LowerPage, PageView, Cleaned, SameView;
      ghost var c0 := caches[k];
      var cursor, id := 0, 1;
      cleaned := [];
      CleanedRefl(c0, ToSet(idxs));
      while cursor < |idxs|
        invariant cursor <= |idxs| && Valid() && |caches| == |old(caches)| && caches == old(caches)[k := caches[k]]
        invariant SameView(c0, caches[k]) && Cleaned(c0, caches[k], ToSet(idxs))
        invariant forall i | 0 <= i < |idxs| :: idxs[i] in caches[k].pages
        invariant forall p | p in cleaned :: p in caches[k].pages
        invariant forall i | 0 <= i < cursor :: !caches[k].pages[idxs[i]].dirty
      {
        if !caches[k].pages[idxs[cursor]].dirty {
          cursor := cursor + 1;
        } else {
          ghost var before := caches[k];
          var result, count := SyncBatch(k, idxs, cursor, id);
          CleanedTwice(c0, before, caches[k], ToSet(idxs));
          if result.Err? {
            return result, cleaned;
          }
          cleaned := cleaned + idxs[cursor..cursor + count];
          cursor, id := cursor + count, id + 1;
        }
      }
      return Ok(()), cleaned;
    }

    /** Writes back every dirty page that meets the range. Success leaves every byte of the range in the
        lower file and no dirty page there; a failure leaves the rest dirty. Pages outside stay as dirty
        as they were, and nothing a reader sees changes either way. */
    method SyncInner(k: nat, range: Range) returns (r: Result<()>)
      requires Valid() && k < |caches| && caches[k].live
      modifies this`caches, this`lru, this`pageCount, this`dirtyCount, this`nextGen
      ensures Valid() && OthersTransparent(old(caches), caches, k)
      ensures SameView(old(caches)[k], caches[k])
      ensures r.Ok? ==> forall p | p in caches[k].pages && InRange(p, range) :: !caches[k].pages[p].dirty
      ensures r.Ok? ==> forall p | p in old(caches)[k].pages && InRange(p, range) ::
        LowerPage(caches[k].lower, p) == PageView(old(caches)[k], p)
      ensures r.Ok? ==> Synced(old(caches)[k], caches[k], range)
      ensures StaysDirty(old(caches)[k], caches[k], range)
      ensures healthy ==> r.Ok?
      ensures KeepsPinned(old(Model()), Model(), Nothing)
    {
      hide Book, Booked, AllContent, Content, AllEvict, LowerPage, PageView, Pinned, SameView, Synced;
      var idxs := AscendingKeys(set p | p in caches[k].pages && InRange(p, range));
      ghost var c0 := caches;
      var cleaned;
      r, cleaned := SyncBatches(k, idxs);
      ghost var c1, s1 := caches, Model();
      OthersSame(c0, c1, k);
      CutKeepsPinned(old(Model()), s1, k, Nothing);
      if r.Err? {
        return;
      }
      forall p | p in c0[k].pages && InRange(p, range)
        ensures p in c1[k].pages && !c1[k].pages[p].dirty && LowerPage(c1[k].lower, p) == PageView(c0[k], p)
      {
        assert p in idxs;
        CleanIsLower(c0, c1, k, p);
      }
      if cleaned != [] {
        TouchAndReclaim(k, cleaned, idxs);
        PinnedTwice(old(Model()), s1, Model(), Nothing);
      } else {
        AllTransparentRefl(caches);
      }
      EndOfSync(c0, c1, caches, k);
      SyncedBytes(c0[k], caches[k], range);
      return Ok(());
    }

    /** Touches the pages that were written back, which are still held, then relieves pressure. */
    method TouchAndReclaim(k: nat, cleaned: seq<nat>, idxs: seq<nat>)
      requires Valid() && k < |caches| && forall p | p in cleaned :: p in caches[k].pages
      modifies this`caches, this`lru, this`pageCount, this`nextGen
      ensures Valid() && AllTransparent(old(caches), caches)
      ensures caches[k].pages.Keys <= old(caches)[k].pages.Keys
      ensures forall p | p in caches[k].pages :: caches[k].pages[p].dirty == old(caches)[k].pages[p].dirty
      ensures forall p | p in old(caches)[k].pages && old(caches)[k].pages[p].dirty :: p in caches[k].pages
      ensures KeepsPinned(old(Model()), Model(), Nothing)
    {
      hide Book, Booked, AllContent, Content, AllEvict, Pinned;
      ghost var c0 := caches;
      var i := 0;
      AllTransparentRefl(caches);
      while i < |cleaned|
        invariant i <= |cleaned| && Valid() && AllTransparent(c0, caches) && KeepsPinned(old(Model()), Model(), Nothing)
        invariant caches[k].pages.Keys == c0[k].pages.Keys
        invariant forall p | p in caches[k].pages :: caches[k].pages[p].dirty == c0[k].pages[p].dirty
      {
        ghost var before, mid := caches, Model();
        Access(k, cleaned[i]);
        TransparentTransitive(c0, before, caches);
        PinnedTwice(old(Model()), mid, Model(), Nothing);
        i := i + 1;
      }
      ghost var c1, s1 := caches, Model();
      var _ := ReclaimGlobal(k, ToSet(idxs));
      PinnedTwice(old(Model()), s1, Model(), Nothing);
      AllEvictIsTransparent(c1, caches, k, ToSet(idxs));
      EvictKeepsDirty(c1, caches, k, ToSet(idxs));
      TransparentTransitive(c0, c1, caches);
    }

    // ---- Truncation, hole punching, eviction, teardown ----

    /** Takes the listed resident pages out of cache `k`, keeping the dirty counters right, and then
        takes them off the page counter in one go. */
    method RemovePages(k: nat, victims: seq<nat>)
      requires Counted(caches, pageCount, dirtyCount) && k < |caches|
      requires forall i | 0 <= i < |victims| :: victims[i] in caches[k].pages
      requires forall i, j | 0 <= i < j < |victims| :: victims[i] < victims[j]
      modifies this`caches, this`pageCount, this`dirtyCount
      ensures Counted(caches, pageCount, dirtyCount) && |caches| == |old(caches)| && caches == old(caches)[k := caches[k]]
      ensures var c := old(caches)[k];
        caches[k] == c.(pages := c.pages - ToSet(victims), dirtyPages := caches[k].dirtyPages)
    {
      hide Counted, IsDirty;
      ghost var c0 := caches;
      var removed := 0;
      assert c0[k].pages - ToSet(victims[..0]) == c0[k].pages;
      while removed < |victims|
        invariant removed <= |victims| && removed <= pageCount && |caches| == |c0| && caches == c0[k := caches[k]]
        invariant Counted(caches, pageCount - removed, dirtyCount)
        invariant caches[k] == c0[k].(pages := c0[k].pages - ToSet(victims[..removed]), dirtyPages := caches[k].dirtyPages)
      {
        var c, p := caches[k], victims[removed];
        assert p !in victims[..removed];
        RemoveCounts(caches, pageCount - removed, dirtyCount, k, p);
        assert ToSet(victims[..removed + 1]) == ToSet(victims[..removed]) + {p};
        caches := caches[k := c.(pages := c.pages - {p}, dirtyPages := c.dirtyPages - IsDirty(c, p))];
        dirtyCount := dirtyCount - IsDirty(c, p);
        removed := removed + 1;
      }
      assert victims[..removed] == victims;
      pageCount := pageCount - removed;
    }

    /** Sets the visible length, dropping pages past it and zeroing the tail of the boundary page. */
    method Resize(k: nat, n: nat)
      requires Book() && k < |caches|
      modifies this`caches, this`pageCount, this`dirtyCount
      ensures Book() && |caches| == |old(caches)| && caches == old(caches)[k := caches[k]]
      ensures var c := old(caches)[k];
        caches[k] == c.(pages := if n < c.size then KeptPages(c.pages, n) else c.pages, size := n,
                        sizeVersion := c.sizeVersion + (if n == c.size then 0 else 1), dirtyPages := caches[k].dirtyPages)
    {
      hide Booked, Counted, KeptPages;
      ghost var c0, pc0, dc0 := caches, pageCount, dirtyCount;
      var c := caches[k];
      if n == c.size {
        return;
      }
      BookParts(caches, lru, pageCount, dirtyCount, nextGen);
      if n < c.size {
        var victims := AscendingKeys(set p | p in c.pages && p * PAGE_SIZE >= n);
        RemovePages(k, victims);
        ghost var kept := caches[k].pages;
        var last := n / PAGE_SIZE;
        if n % PAGE_SIZE != 0 && last in caches[k].pages {
          var d := caches[k].(pages := caches[k].pages[last := TrimPage(caches[k].pages[last], last, n)]);
          SameDirtyCounted(caches, pageCount, dirtyCount, k, d);
          caches := caches[k := d];
        }
        KeptIsRest(c.pages, kept, caches[k].pages, n, victims);
      }
      ghost var mid := caches;
      SameSizesCounted(caches, pageCount, dirtyCount, k, caches[k].(size := n, sizeVersion := c.sizeVersion + 1));
      caches := caches[k := caches[k].(size := n, sizeVersion := c.sizeVersion + 1)];
      ResizeMarks(c0, caches, k, n);
      FewerPagesBooked(c0, caches, lru, pageCount, dirtyCount, nextGen, pc0, dc0);
    }

    /** `ftruncate`: the lower file and the cache take the new length together. Only a failure of
        the lower truncate leaves the file as it was; a failing flush afterwards does not undo it. A
        lower file that is gone has no bytes and stays without any. */
    method Truncate(k: nat, n: nat) returns (r: Result<()>, truncated: bool)
      requires Valid() && k < |caches| && caches[k].live
      modifies this`caches, this`lru, this`pageCount, this`dirtyCount, this`nextGen
      ensures Valid() && OthersTransparent(old(caches), caches, k)
      ensures View(caches[k]) == if truncated then FlatTruncate(View(old(caches)[k]), n) else View(old(caches)[k])
      ensures caches[k].live && (r.Ok? ==> truncated) && (healthy ==> r.Ok?)
      ensures r.Ok? && n < old(caches)[k].size ==> forall i: nat | i < n :: At(caches[k].lower, i) == At(View(old(caches)[k]), i)
      ensures KeepsPinned(old(Model()), Model(), From(k, n))
    {
      hide Booked, AllContent, Content, View, FlatTruncate, PageView, Pinned;
      ghost var c0 := caches;
      var c := caches[k];
      if n == c.size {
        WholeView(c);
        AllTransparentRefl(caches);
        return Ok(()), true;
      }
      var fault: bool := *;
      if fault && !healthy {
        AllTransparentRefl(caches);
        return Err(EIO), false;
      }
      var gone: bool := *;
      var lower := if gone && c.lower == [] then [] else FlatTruncate(c.lower, n);
      LowerBooked(caches, lru, pageCount, dirtyCount, nextGen, k, lower);
      caches := caches[k := c.(lower := lower)];
      Resize(k, n);
      ContentParts(c0, k);
      TruncateView(c0[k], caches[k], n);
      ContentReplaced(c0, caches, k);
      OthersSame(c0, caches, k);
      CutKeepsPinned(old(Model()), Model(), k, From(k, n));
      truncated := true;
      r := Ok(());
      if n < c.size {
        ghost var c1, s1 := caches, Model();
        r := SyncInner(k, Whole);
        PinnedTwice(old(Model()), s1, Model(), From(k, n));
        OthersTransitive(c0, c1, caches, k);
        SameViewView(c1[k], caches[k]);
        if r.Ok? {
          CutIsSynced(c0[k], c1[k], caches[k], n);
        }
      }
    }

    /** Zeroes the hole in the pages it meets, once the pages it covers are gone. */
    method ZeroPartials(k: nat, ghost c: Cache, offset: nat, end: nat)
      requires Counted(caches, pageCount, dirtyCount) && k < |caches| && offset < end
      requires caches[k] == c.(pages := caches[k].pages, dirtyPages := caches[k].dirtyPages)
      requires caches[k].pages == map p | p in c.pages && !Covered(p, offset, end) :: c.pages[p]
      modifies this`caches
      ensures Counted(caches, pageCount, dirtyCount) && |caches| == |old(caches)| && caches == old(caches)[k := caches[k]]
      ensures caches[k] == c.(pages := PunchPages(c.pages, offset, end), dirtyPages := caches[k].dirtyPages)
    {
      hide Counted, Covered, PunchPage;
      ghost var c0 := caches;
      var p, last := offset / PAGE_SIZE, PagesFor(end);
      ghost var start := p;
      while p < last
        invariant start <= p <= last && |caches| == |c0| && caches == c0[k := caches[k]]
        invariant Counted(caches, pageCount, dirtyCount)
        invariant caches[k] == c.(pages := PunchBelow(c.pages, offset, end, start, p), dirtyPages := caches[k].dirtyPages)
      {
        if p in caches[k].pages {
          var d := caches[k].(pages := caches[k].pages[p := PunchPage(caches[k].pages[p], p, offset, end)]);
          PunchKeepsDirty(caches[k], p, offset, end);
          SameDirtyCounted(caches, pageCount, dirtyCount, k, d);
          caches := caches[k := d];
        }
        p := p + 1;
      }
      PunchBelowAll(c.pages, offset, end, start, last);
    }

    /** Publishes a hole that the lower file already has: covered pages go, partial ones are zeroed. */
    method PublishHole(k: nat, offset: nat, end: nat)
      requires Book() && k < |caches| && offset < end <= caches[k].size
      modifies this`caches, this`pageCount, this`dirtyCount
      ensures Book() && |caches| == |old(caches)| && caches == old(caches)[k := caches[k]]
      ensures var c := old(caches)[k];
        caches[k] == c.(pages := PunchPages(c.pages, offset, end), sizeVersion := c.sizeVersion + 1, dirtyPages := caches[k].dirtyPages)
    {
      hide Booked, Counted, Covered, PunchPage;
      ghost var c0, pc0, dc0 := caches, pageCount, dirtyCount;
      var c := caches[k];
      BookParts(caches, lru, pageCount, dirtyCount, nextGen);
      var covered := AscendingKeys(set p | p in c.pages && Covered(p, offset, end));
      RemovePages(k, covered);
      ZeroPartials(k, c, offset, end);
      SameSizesCounted(caches, pageCount, dirtyCount, k, caches[k].(sizeVersion := c.sizeVersion + 1));
      caches := caches[k := caches[k].(sizeVersion := c.sizeVersion + 1)];
      PunchMarks(c0, caches, k, offset, end);
      FewerPagesBooked(c0, caches, lru, pageCount, dirtyCount, nextGen, pc0, dc0);
    }

    /** `fallocate(PUNCH_HOLE)`: dirty pages meeting the hole are written back first, then the lower
        file and the cache are punched together. A failure before that changes no visible byte.
        `synced` says whether the writing back went well. */
    method PunchHole(k: nat, offset: nat, len: nat) returns (r: Result<()>, synced: bool)
      requires Valid() && k < |caches| && caches[k].live
      modifies this`caches, this`lru, this`pageCount, this`dirtyCount, this`nextGen
      ensures Valid() && OthersTransparent(old(caches), caches, k)
      ensures caches[k].live
      ensures View(caches[k]) == if r.Ok? then FlatPunch(View(old(caches)[k]), offset, len) else View(old(caches)[k])
      ensures (r.Ok? ==> synced) && (healthy ==> r.Ok?)
      ensures r.Ok? ==> forall i: nat | offset <= i < offset + len && i < old(caches)[k].size :: At(caches[k].lower, i) == 0
      ensures KeepsPinned(old(Model()), Model(), Hole(k, offset, Min(offset + len, old(caches)[k].size)))
    {
      hide Booked, AllContent, Content, View, FlatPunch, PageView, Pinned, Covered;
      ghost var c0 := caches;
      var end := Min(offset + len, caches[k].size);
      if offset >= end {
        PunchNothing(caches[k], offset, len);
        AllTransparentRefl(caches);
        return Ok(()), true;
      }
      r := SyncInner(k, Bytes(offset, end));
      SameViewView(c0[k], caches[k]);
      synced := r.Ok?;
      if r.Err? {
        return;
      }
      var fault: bool := *;
      if fault && !healthy {
        return Err(EIO), true;
      }
      ghost var c1, s1 := caches, Model();
      var c := caches[k];
      LowerBooked(caches, lru, pageCount, dirtyCount, nextGen, k, FlatPunch(c.lower, offset, end - offset));
      caches := caches[k := c.(lower := FlatPunch(c.lower, offset, end - offset))];
      PublishHole(k, offset, end);
      ContentParts(c1, k);
      PunchView(c1[k], caches[k], offset, end);
      ContentReplaced(c1, caches, k);
      OthersSame(c1, caches, k);
      OthersTransitive(c0, c1, caches, k);
      CutKeepsPinned(s1, Model(), k, Hole(k, offset, end));
      PinnedTwice(old(Model()), s1, Model(), Hole(k, offset, end));
      HoleIsBelow(c.lower, offset, end);
      PunchClipped(c0[k], offset, len);
    }

    /** `fadvise(DONTNEED)`: drops the clean, unmapped, unheld pages the range covers. */
    method EvictCleanRange(k: nat, offset: nat, len: nat, held: set<nat>)
      requires Valid() && k < |caches|
      modifies this`caches, this`pageCount, this`dirtyCount
      ensures Valid() && AllTransparent(old(caches), caches) && dirtyCount == old(dirtyCount)
      ensures |caches| == |old(caches)| && caches == old(caches)[k := caches[k]] && Evicts(old(caches)[k], caches[k], held)
      ensures forall p | p in old(caches)[k].pages :: p !in caches[k].pages <==>
        InAdvice(p, offset, len, old(caches)[k].size) && Untouched(old(caches)[k].pages[p]) && p !in held
    {
      hide Booked, Counted, AllContent, Content;
      var c := caches[k];
      ghost var c0, pc0, dc0 := caches, pageCount, dirtyCount;
      var start := PagesFor(offset);
      var end := if len == 0 || offset + len >= c.size then PagesFor(c.size) else (offset + len) / PAGE_SIZE;
      var victims := AscendingKeys(
        set p | p in c.pages && start <= p < end && !c.pages[p].dirty && !c.pages[p].mapped && p !in held);
      BookParts(caches, lru, pageCount, dirtyCount, nextGen);
      RemovePages(k, victims);
      EvictedRange(c0, caches, k, victims, held, pc0, dc0, pageCount, dirtyCount);
      FewerPagesBooked(c0, caches, lru, pageCount, dirtyCount, nextGen, pc0, dc0);
    }

    /** The last reference to a cache goes away. */
    method DropCache(k: nat)
      requires Valid() && k < |caches|
      modifies this
      ensures Valid() && caches == old(caches)[k := Dropped(old(caches)[k])]
      ensures lru == Retain(old(lru), k)
      ensures KeepsPinned(old(Model()), Model(), From(k, 0))
    {
      hide Booked, Counted, Content, Pinned, Retain;
      DropCacheBooked(caches, lru, pageCount, dirtyCount, nextGen, k);
      var c := caches[k];
      EmptyContent(c);
      lru := Retain(lru, k);
      pageCount, dirtyCount := pageCount - |c.pages|, dirtyCount - c.dirtyPages;
      caches := caches[k := Dropped(c)];
      DropKeepsPinned(old(Model()), old(dirtyCount), Model(), k);
    }

    /** Opens a cache over a lower file. */
    method NewCache(lower: seq<byte>) returns (k: nat)
      requires Valid()
      modifies this`caches
      ensures Valid() && k == |old(caches)| && |caches| == k + 1 && caches[..k] == old(caches)
      ensures caches[k].live && View(caches[k]) == lower && caches[k].pages == map[] && caches[k].size == |lower| && caches[k].lower == lower
    {
      hide Booked;
      var c := Cache(map[], |lower|, 0, 0, lower, true);
      NewCacheBooked(caches, lru, pageCount, dirtyCount, nextGen, c);
      NewCacheView(c);
      k := |caches|;
      caches := caches + [c];
    }

    /** A shared mapping takes or releases the frame of a resident page. */
    method SetMapped(k: nat, p: nat, mapped: bool)
      requires Valid() && k < |caches| && p in caches[k].pages
      modifies this`caches
      ensures Valid() && AllTransparent(old(caches), caches)
      ensures caches == PutPage(old(caches), k, p, old(caches)[k].pages[p].(mapped := mapped))
    {
      hide Booked, Content;
      var c := caches[k];
      var d := c.(pages := c.pages[p := c.pages[p].(mapped := mapped)]);
      MappingKeeps(caches, lru, pageCount, dirtyCount, nextGen, k, p, mapped);
      caches := caches[k := d];
    }
  }

  /** Fills `n` pages starting at page `p` from the lower file; the lower read or a page
      allocation may fail, and then nothing is returned. */
  method LoadCandidates(healthy: bool, lower: seq<byte>, p: nat, n: nat, size: nat, gen: nat) returns (r: Result<seq<Page>>)
    requires |lower| <= size && (n == 1 || (p + n - 1) * PAGE_SIZE < size)
    ensures r.Ok? ==> |r.value| == n && forall i | 0 <= i < n :: FreshPage(r.value[i], lower, p + i)
    ensures healthy ==> r.Ok?
  {
    var readLen := if p * PAGE_SIZE < size then Min(size - p * PAGE_SIZE, n * PAGE_SIZE) else 0;
    var fault: bool := *;
    if fault && !healthy {
      return Err(EIO);
    }
    var buf := LowerRead(lower, p * PAGE_SIZE, readLen);
    var candidates := [];
    while |candidates| < n
      invariant |candidates| <= n
      invariant forall i | 0 <= i < |candidates| :: FreshPage(candidates[i], lower, p + i)
    {
      fault := *;
      if fault && !healthy {
        return Err(ENOMEM);
      }
      var i := |candidates|;
      CandidateIsLowerPage(lower, p, n, size, buf, i);
      candidates := candidates + [Page(CandidateFrame(buf, i), false, 0, NotWriting, gen + i, false, false)];
    }
    return Ok(candidates);
  }

  /** What the lower inode puts into a zeroed buffer of `len` bytes at `off`: it stops at the
      end of the lower file. */
  function LowerRead(lower: seq<byte>, off: nat, len: nat): seq<byte> {
    seq(len, (i: nat) => At(lower, off + i))
  }

  /** Page `i` of a run, cut out of the run's buffer. */
  function CandidateFrame(buf: seq<byte>, i: nat): Frame {
    var start := i * PAGE_SIZE;
    if start < |buf| then Overlay(ZeroFrame(), 0, buf[start..Min(start + PAGE_SIZE, |buf|)]) else ZeroFrame()
  }

  lemma CandidateIsLowerPage(lower: seq<byte>, p: nat, n: nat, size: nat, buf: seq<byte>, i: nat)
    requires |lower| <= size && i < n && (n == 1 || (p + n - 1) * PAGE_SIZE < size)
    requires buf == LowerRead(lower, p * PAGE_SIZE,
                              if p * PAGE_SIZE < size then Min(size - p * PAGE_SIZE, n * PAGE_SIZE) else 0)
    ensures CandidateFrame(buf, i) == LowerPage(lower, p + i)
  {
    hide CandidateFrame, LowerRead;
    var f := CandidateFrame(buf, i);
    var len := if p * PAGE_SIZE < size then Min(size - p * PAGE_SIZE, n * PAGE_SIZE) else 0;
    forall j | 0 <= j < PAGE_SIZE ensures f[j] == LowerPage(lower, p + i)[j] {
      CandidateByte(buf, i, j);
      LowerReadByte(lower, p * PAGE_SIZE, len, i * PAGE_SIZE + j);
    }
  }

  lemma CandidateByte(buf: seq<byte>, i: nat, j: nat)
    requires j < PAGE_SIZE
    ensures CandidateFrame(buf, i)[j] == At(buf, i * PAGE_SIZE + j)
  {
  }

  lemma LowerReadByte(lower: seq<byte>, off: nat, len: nat, i: nat)
    ensures |LowerRead(lower, off, len)| == len
    ensures At(LowerRead(lower, off, len), i) == if i < len then At(lower, off + i) else 0
  {
  }

  /** A lower read that stopped after `m` bytes: the rest of the buffer stays zero, and the count is
      not looked at. */
  function ShortRead(lower: seq<byte>, off: nat, len: nat, m: nat): seq<byte> {
    seq(len, (i: nat) => if i < m then At(lower, off + i) else 0)
  }

  /** The pages of a run filled by a short read are the pages of the lower file exactly if every byte
      the read left out is zero. */
  lemma ShortFill(lower: seq<byte>, p: nat, n: nat, size: nat, m: nat)
    requires |lower| <= size && 0 < n && (p + n - 1) * PAGE_SIZE < size
    ensures var off, len := p * PAGE_SIZE, Min(size - p * PAGE_SIZE, n * PAGE_SIZE);
      (forall i | 0 <= i < n :: CandidateFrame(ShortRead(lower, off, len, m), i) == LowerPage(lower, p + i)) <==>
      (forall j | m <= j < len :: LowerRead(lower, off, len)[j] == 0)
  {
    var off, len := p * PAGE_SIZE, Min(size - p * PAGE_SIZE, n * PAGE_SIZE);
    var whole, short := LowerRead(lower, off, len), ShortRead(lower, off, len, m);
    if forall j | m <= j < len :: whole[j] == 0 {
      assert short == whole;
      forall i | 0 <= i < n ensures CandidateFrame(short, i) == LowerPage(lower, p + i) {
        CandidateIsLowerPage(lower, p, n, size, whole, i);
      }
    } else {
      var j :| m <= j < len && whole[j] != 0;
      SkippedByteShows(lower, p, len, m, j);
    }
  }

  lemma SkippedByteShows(lower: seq<byte>, p: nat, len: nat, m: nat, j: nat)
    requires m <= j < len && At(lower, p * PAGE_SIZE + j) != 0
    ensures CandidateFrame(ShortRead(lower, p * PAGE_SIZE, len, m), j / PAGE_SIZE)[j % PAGE_SIZE] == 0
    ensures LowerPage(lower, p + j / PAGE_SIZE)[j % PAGE_SIZE] != 0
  {
  }

  /** `c` with the frames published as the pages from `p` on. */
  function WithRun(c: Cache, p: nat, frames: seq<Frame>, gen: nat): Cache {
    c.(pages := map q | q in c.pages.Keys + Run(p, |frames|) ::
         if q in Run(p, |frames|) then Page(frames[q - p], false, 0, NotWriting, gen + (q - p), false, false) else c.pages[q])
  }

  function ShortFrames(lower: seq<byte>, p: nat, n: nat, size: nat, m: nat): seq<Frame>
    requires p * PAGE_SIZE < size
  {
    seq(n, i requires 0 <= i < n => CandidateFrame(ShortRead(lower, p * PAGE_SIZE, Min(size - p * PAGE_SIZE, n * PAGE_SIZE), m), i))
  }

  /** A load whose lower read stopped after `m` bytes leaves the file as readers see it exactly if
      every byte the read left out is zero. */
  lemma ShortLoadView(c: Cache, p: nat, n: nat, m: nat, gen: nat)
    requires Content(c) && 0 < n && (p + n - 1) * PAGE_SIZE < c.size && forall q | q in Run(p, n) :: q !in c.pages
    ensures var off, len := p * PAGE_SIZE, Min(c.size - p * PAGE_SIZE, n * PAGE_SIZE);
      View(WithRun(c, p, ShortFrames(c.lower, p, n, c.size, m), gen)) == View(c) <==>
      (forall j | m <= j < len :: LowerRead(c.lower, off, len)[j] == 0)
  {
    hide View, ViewAt, CandidateFrame, LowerPage, PageView, ShortRead;
    var off, len := p * PAGE_SIZE, Min(c.size - p * PAGE_SIZE, n * PAGE_SIZE);
    var whole, frames := LowerRead(c.lower, off, len), ShortFrames(c.lower, p, n, c.size, m);
    var d := WithRun(c, p, frames, gen);
    ShortFill(c.lower, p, n, c.size, m);
    if forall j | m <= j < len :: whole[j] == 0 {
      forall q: nat ensures PageView(d, q) == PageView(c, q) { LoadedPageView(c, d, p, frames, gen, q); }
      SamePagesSameView(c, d);
    } else {
      var j :| m <= j < len && whole[j] != 0;
      SkippedByteShows(c.lower, p, len, m, j);
      HoleShows(c, d, p, frames, gen, j);
    }
  }

  lemma LoadedPageView(c: Cache, d: Cache, p: nat, frames: seq<Frame>, gen: nat, q: nat)
    requires d == WithRun(c, p, frames, gen) && forall r | r in Run(p, |frames|) :: r !in c.pages
    requires forall i | 0 <= i < |frames| :: frames[i] == LowerPage(c.lower, p + i)
    ensures PageView(d, q) == PageView(c, q)
  {
  }

  lemma HoleShows(c: Cache, d: Cache, p: nat, frames: seq<Frame>, gen: nat, j: nat)
    requires d == WithRun(c, p, frames, gen) && forall r | r in Run(p, |frames|) :: r !in c.pages
    requires j < |frames| * PAGE_SIZE && p * PAGE_SIZE + j < c.size
    requires frames[j / PAGE_SIZE][j % PAGE_SIZE] != LowerPage(c.lower, p + j / PAGE_SIZE)[j % PAGE_SIZE]
    ensures View(d) != View(c)
  {
    var i := p * PAGE_SIZE + j;
    assert i / PAGE_SIZE == p + j / PAGE_SIZE && i % PAGE_SIZE == j % PAGE_SIZE;
    assert View(d)[i] != View(c)[i];
  }

  /** It happens: one byte, of which the lower read returns nothing, reads as zero. */
  lemma ShortLoadLosesByte()
    ensures var c := Cache(map[], 1, 0, 0, [7], true);
      Content(c) && View(c) == [7] && View(WithRun(c, 0, ShortFrames([7], 0, 1, 1, 0), 1)) != View(c)
  {
    hide View, Content, WithRun, ShortFrames;
    var c := Cache(map[], 1, 0, 0, [7], true);
    NewCacheView(c);
    ShortLoadView(c, 0, 1, 0, 1);
    var len := Min(c.size - 0 * PAGE_SIZE, 1 * PAGE_SIZE);
    assert len == 1 && LowerRead(c.lower, 0 * PAGE_SIZE, len)[0] == 7;
  }

  /** A page of a run that was just published is not queued yet. */
  lemma QueuedOnce(c: seq<Cache>, lru: seq<LruEntry>, g: nat, k: nat, p: nat, unseen: set<nat>)
    requires AllTracked(c, lru, g, k, unseen) && k < |c| && p in c[k].pages && p in unseen
    ensures Requeue(lru, c[k].pages[p], k, p, g) == lru + [LruEntry(k, p, g)]
  {
  }

  /** Every page of a valid system is queued, so touching one leaves the queue alone. */
  lemma QueuedStays(c: seq<Cache>, lru: seq<LruEntry>, g: nat, k: nat, p: nat)
    requires AllTracked(c, lru, g, 0, {}) && k < |c| && p in c[k].pages
    ensures c[k].pages[p].queued
  {
  }

  /** The first `i` pages of the run at `p` have been touched: each has a new entry behind the old
      ones, and no page was written or mapped. */
  predicate RunTouched(c: Cache, lru: seq<LruEntry>, d: Cache, lru': seq<LruEntry>, k: nat, p: nat, i: nat) {
    && d.pages.Keys == c.pages.Keys
    && (forall q | q in c.pages && Untouched(c.pages[q]) :: Untouched(d.pages[q]))
    && lru <= lru'
    && (forall q | q in Run(p, i) && HasEntry(lru, k, q) :: NamedTwice(lru', k, q))
  }

  lemma NothingTouched(c: Cache, lru: seq<LruEntry>, k: nat, p: nat)
    ensures RunTouched(c, lru, c, lru, k, p, 0)
  {
  }

  lemma RunTouchedKeys(c: Cache, lru: seq<LruEntry>, d: Cache, lru': seq<LruEntry>, k: nat, p: nat, i: nat)
    requires RunTouched(c, lru, d, lru', k, p, i)
    ensures d.pages.Keys == c.pages.Keys
  {
  }

  lemma OneMoreTouched(c: Cache, lru: seq<LruEntry>, d: Cache, lru': seq<LruEntry>, k: nat, p: nat, i: nat, g: nat)
    requires RunTouched(c, lru, d, lru', k, p, i) && p + i in d.pages
    ensures RunTouched(c, lru, d.(pages := d.pages[p + i := Touched(d.pages[p + i], g)]), lru' + [LruEntry(k, p + i, g)], k, p, i + 1)
  {
    var more := lru' + [LruEntry(k, p + i, g)];
    forall q | q in Run(p, i + 1) && HasEntry(lru, k, q) ensures NamedTwice(more, k, q) {
      if q == p + i {
        var j :| 0 <= j < |lru| && Names(lru[j], k, q);
        assert Names(more[j], k, q) && Names(more[|lru'|], k, q);
      } else {
        assert q in Run(p, i);
        var j, l :| 0 <= j < l < |lru'| && Names(lru'[j], k, q) && Names(lru'[l], k, q);
        assert Names(more[j], k, q) && Names(more[l], k, q);
      }
    }
  }

  lemma LowerNotLonger(c: seq<Cache>, k: nat)
    requires AllContent(c) && k < |c|
    ensures |c[k].lower| <= c[k].size
  {
  }

  lemma HeldStays(c: seq<Cache>, d: seq<Cache>, k: nat, held: set<nat>, p: nat)
    requires AllEvict(c, d, k, held) && k < |c| && p in held && p in c[k].pages
    ensures p in d[k].pages && SameData(c[k].pages[p], d[k].pages[p])
  {
  }

  /** `n` bytes of the file from `from` on. */
  function ViewSlice(c: Cache, from: nat, n: nat): seq<byte> {
    seq(n, (i: nat) => ViewAt(c, from + i))
  }

  /** Part of a resident page, read as a piece of the file it transparently belongs to. */
  lemma SliceIsView(c: Cache, d: Cache, p: nat, off: nat, n: nat)
    requires Transparent(c, d) && p in d.pages && off + n <= PAGE_SIZE
    ensures d.pages[p].bytes[off..off + n] == ViewSlice(c, p * PAGE_SIZE + off, n)
  {
    hide ViewAt, Transparent;
    var s := d.pages[p].bytes[off..off + n];
    forall i | 0 <= i < n ensures s[i] == ViewAt(c, p * PAGE_SIZE + off + i) {
      SliceByte(c, d, p, off + i);
    }
  }

  lemma SliceByte(c: Cache, d: Cache, p: nat, j: nat)
    requires Transparent(c, d) && p in d.pages && j < PAGE_SIZE
    ensures d.pages[p].bytes[j] == ViewAt(c, p * PAGE_SIZE + j)
  {
    hide LowerPage;
    ByteOfPage(p, j);
    assert PageView(d, p) == PageView(c, p);
  }

  lemma SliceAppend(c: Cache, from: nat, m: nat, n: nat)
    ensures ViewSlice(c, from, m) + ViewSlice(c, from + m, n) == ViewSlice(c, from, m + n)
  {
  }

  lemma SliceIsRead(c: Cache, offset: nat, len: nat)
    ensures var start := Min(offset, c.size); var end := Min(c.size, offset + len);
      ViewSlice(c, start, end - start) == FlatRead(View(c), offset, len)
  {
    hide ViewAt;
    if offset < c.size {
      var n := Min(c.size, offset + len) - offset;
      var slice, read := ViewSlice(c, offset, n), FlatRead(View(c), offset, len);
      assert |read| == n && forall i | 0 <= i < n :: slice[i] == ViewAt(c, offset + i) == read[i];
    }
  }

  lemma SameRest(c: Cache, b: Cache, p: nat, page: Page)
    requires WithoutPage(c, p) == WithoutPage(b, p)
    ensures c.pages[p := page] == b.pages[p := page]
  {
    assert c.pages[p := page] == (c.pages - {p})[p := page];
    assert b.pages[p := page] == (b.pages - {p})[p := page];
  }

  ghost predicate SameFile(c: Cache, d: Cache) {
    d.size == c.size && d.sizeVersion == c.sizeVersion && d.lower == c.lower && d.live == c.live
  }

  lemma ContentParts(c: seq<Cache>, k: nat)
    requires k < |c|
    ensures AllContent(c) ==> Content(c[k]) && OthersContent(c, k)
  {
  }

  lemma ChunkOverTransparent(c: Cache, b: Cache, d: Cache, pos: nat, chunk: seq<byte>)
    requires Transparent(c, b) && ChunkWritten(b, d, pos, chunk)
    ensures ChunkWritten(c, d, pos, chunk)
  {
  }

  lemma WholeView(c: Cache)
    ensures FlatTruncate(View(c), c.size) == View(c)
  {
  }

  lemma NothingWritten(c: Cache, off: nat)
    ensures ChunkWritten(c, c, off, [])
  {
  }

  lemma OthersTransitive(a: seq<Cache>, b: seq<Cache>, c: seq<Cache>, k: nat)
    requires OthersTransparent(a, b, k) && OthersTransparent(b, c, k)
    ensures OthersTransparent(a, c, k)
  {
  }

  lemma TransparentAfterChunk(c: Cache, b: Cache, d: Cache, pos: nat, chunk: seq<byte>)
    requires ChunkWritten(c, b, pos, chunk) && Transparent(b, d)
    ensures ChunkWritten(c, d, pos, chunk)
  {
    forall i: nat ensures ViewAt(d, i) == ViewAt(b, i) {
      assert PageView(d, i / PAGE_SIZE) == PageView(b, i / PAGE_SIZE);
    }
  }

  /** A page whose batch has ended: a tag of that batch goes, any other stays. */
  function Untagged(page: Page, member: bool, id: nat): Page {
    if member && page.writeback == Writing(id) then page.(writeback := NotWriting) else page
  }

  /** The first `n` pages from `first` on have lost the tag of batch `id`. */
  predicate FinishedTo(c: Cache, d: Cache, first: nat, n: nat, id: nat) {
    d == c.(pages := map p | p in c.pages :: Untagged(c.pages[p], first <= p < first + n, id))
  }

  lemma NoneFinished(c: Cache, first: nat, id: nat)
    ensures FinishedTo(c, c, first, 0, id)
  {
  }

  lemma OneFinished(c: Cache, d: Cache, first: nat, n: nat, id: nat)
    requires FinishedTo(c, d, first, n, id)
    ensures var p := first + n;
      if p in d.pages && d.pages[p].writeback == Writing(id)
      then FinishedTo(c, d.(pages := d.pages[p := d.pages[p].(writeback := NotWriting)]), first, n + 1, id)
      else FinishedTo(c, d, first, n + 1, id)
  {
  }

  lemma FinishedMeans(c: Cache, d: Cache, first: nat, n: nat, id: nat)
    requires FinishedTo(c, d, first, n, id)
    ensures Retagged(c, d) && forall p | p in d.pages :: d.pages[p] == Untagged(c.pages[p], first <= p < first + n, id)
  {
  }

  /** Page `p` carries the tag of batch `id` and the version the batch recorded. */
  predicate InBatch(c: Cache, p: nat, id: nat, version: nat) {
    p in c.pages && c.pages[p].writeback == Writing(id) && c.pages[p].version == version
  }

  lemma DirtyInFile(c: Cache, p: nat)
    requires Content(c) && p in c.pages && c.pages[p].dirty
    ensures p * PAGE_SIZE < c.size
  {
  }

  lemma TagNothing(c: Cache)
    ensures Retagged(c, c)
  {
  }

  /** Tagging the page after the batch keeps the tags of the batch. */
  lemma TagOne(c: Cache, d: Cache, first: nat, versions: seq<nat>, id: nat)
    requires Retagged(c, d) && first + |versions| in c.pages
    requires forall i | 0 <= i < |versions| :: InBatch(d, first + i, id, versions[i])
    ensures var p := first + |versions|;
      var e, vs := d.(pages := d.pages[p := c.pages[p].(writeback := Writing(id))]), versions + [c.pages[p].version];
      Retagged(c, e) && forall i | 0 <= i < |vs| :: InBatch(e, first + i, id, vs[i])
  {
  }

  lemma EmptyBatch(c: Cache, first: nat)
    requires first * PAGE_SIZE <= c.size
    ensures BatchData(c, first, 0, [])
  {
  }

  lemma BatchOfRetagged(c: Cache, d: Cache, first: nat, count: nat, data: seq<byte>)
    requires BatchData(c, first, count, data) && Retagged(c, d)
    ensures BatchData(d, first, count, data)
  {
  }

  /** Same pages with the same bytes; some dirty ones may have become clean. */
  predicate Cleaned(c: Cache, d: Cache, where: set<nat>) {
    && d.pages.Keys == c.pages.Keys
    && (forall p | p in c.pages :: d.pages[p].bytes == c.pages[p].bytes && (d.pages[p].dirty ==> c.pages[p].dirty))
    && (forall p | p in c.pages && p !in where :: d.pages[p].dirty == c.pages[p].dirty)
  }

  lemma ContentPut(c: seq<Cache>, k: nat, d: Cache)
    requires AllContent(c) && k < |c| && Content(d)
    ensures AllContent(c[k := d])
  {
  }

  /** The page range a sync was asked for: everything, or the pages meeting `[start, end)`. */
  datatype Range = Whole | Bytes(start: nat, end: nat)

  predicate InRange(p: nat, range: Range) {
    range.Whole? || (p * PAGE_SIZE < range.end && p * PAGE_SIZE + PAGE_SIZE > range.start)
  }

  /** Page `p` has no byte of the range, nor does an empty range lie inside it. */
  predicate Outside(p: nat, range: Range) {
    range.Bytes? && (range.end <= p * PAGE_SIZE || (p + 1) * PAGE_SIZE <= range.start)
  }

  predicate StaysDirty(c: Cache, d: Cache, range: Range) {
    forall p | p in c.pages && c.pages[p].dirty && Outside(p, range) :: p in d.pages && d.pages[p].dirty
  }

  lemma CleanedRefl(c: Cache, where: set<nat>)
    ensures Cleaned(c, c, where) && SameView(c, c)
  {
  }

  lemma CommittedIsCleaned(c: Cache, d: Cache, p: nat, version: nat, id: nat, where: set<nat>)
    requires p in c.pages && p in where && Stored(c, d, p, Committed(c.pages[p], version, id))
    ensures Cleaned(c, d, where)
  {
  }

  lemma SamePagesCleaned(c: Cache, d: Cache)
    requires d.pages == c.pages
    ensures Cleaned(c, d, {})
  {
  }

  lemma CleanedSoFar(c: Cache, d: Cache, e: Cache, a: set<nat>, b: set<nat>, where: set<nat>)
    requires Cleaned(c, d, a) && Cleaned(d, e, b) && SameView(c, d) && SameView(d, e) && a <= where && b <= where
    ensures Cleaned(c, e, where) && SameView(c, e)
  {
  }

  lemma CleanedTwice(c: Cache, d: Cache, e: Cache, where: set<nat>)
    requires Cleaned(c, d, where) && Cleaned(d, e, where) && SameView(c, d) && SameView(d, e)
    ensures Cleaned(c, e, where) && SameView(c, e)
    ensures forall p | p in d.pages :: p in e.pages && (!d.pages[p].dirty ==> !e.pages[p].dirty)
  {
  }

  /** Every byte of the range is in the lower file as readers saw it, and no page that holds one is
      dirty. */
  ghost predicate Synced(c: Cache, d: Cache, range: Range) {
    forall i: nat | i < c.size && (range.Bytes? ==> range.start <= i < range.end) ::
      At(d.lower, i) == View(c)[i] && (i / PAGE_SIZE in d.pages ==> !d.pages[i / PAGE_SIZE].dirty)
  }

  lemma SyncedBytes(c: Cache, d: Cache, range: Range)
    requires SameView(c, d) && d.pages.Keys <= c.pages.Keys
    requires forall p | p in d.pages && InRange(p, range) :: !d.pages[p].dirty
    requires forall p | p in c.pages && InRange(p, range) :: LowerPage(d.lower, p) == PageView(c, p)
    ensures Synced(c, d, range)
  {
    hide SameView, LowerPage;
    forall i: nat | i < c.size && (range.Bytes? ==> range.start <= i < range.end)
      ensures At(d.lower, i) == View(c)[i] && (i / PAGE_SIZE in d.pages ==> !d.pages[i / PAGE_SIZE].dirty)
    {
      var p := i / PAGE_SIZE;
      assert p * PAGE_SIZE <= i < p * PAGE_SIZE + PAGE_SIZE;
      assert InRange(p, range);
      SyncedByte(c, d, i, range);
    }
  }

  lemma CutIsSynced(c: Cache, d: Cache, e: Cache, n: nat)
    requires View(d) == FlatTruncate(View(c), n) && d.size == n && Synced(d, e, Whole)
    ensures forall i: nat | i < n :: At(e.lower, i) == At(View(c), i)
  {
  }

  lemma HoleIsBelow(lower: seq<byte>, offset: nat, end: nat)
    requires offset <= end
    ensures var g := FlatPunch(lower, offset, end - offset); forall i: nat | offset <= i < end :: At(g, i) == 0
  {
  }

  lemma SyncedByte(c: Cache, d: Cache, i: nat, range: Range)
    requires SameView(c, d) && d.pages.Keys <= c.pages.Keys && i < c.size && InRange(i / PAGE_SIZE, range)
    requires forall p | p in c.pages && InRange(p, range) :: LowerPage(d.lower, p) == PageView(c, p)
    ensures At(d.lower, i) == View(c)[i]
  {
    var p, j := i / PAGE_SIZE, i % PAGE_SIZE;
    assert PageView(d, p) == PageView(c, p);
    assert LowerPage(d.lower, p) == PageView(c, p);
    assert LowerPage(d.lower, p)[j] == At(d.lower, p * PAGE_SIZE + j) && p * PAGE_SIZE + j == i;
  }

  /** A page is written back exactly if the range has a byte in it, or is empty and lies inside it. */
  lemma TakenExactly(p: nat, range: Range)
    ensures range.Whole? ==> InRange(p, range)
    ensures range.Bytes? && range.start < range.end ==>
      (InRange(p, range) <==> exists i: nat | range.start <= i < range.end :: i / PAGE_SIZE == p)
    ensures range.Bytes? && range.end <= range.start ==>
      (InRange(p, range) <==> p * PAGE_SIZE < range.end && range.start < (p + 1) * PAGE_SIZE)
  {
    if range.Bytes? && range.start < range.end && InRange(p, range) {
      var i := Max(range.start, p * PAGE_SIZE);
      assert range.start <= i < range.end && i / PAGE_SIZE == p;
    }
  }

  /** The keys of an ordered map, in order. */
  method AscendingKeys(keys: set<nat>) returns (ks: seq<nat>)
    ensures forall p :: p in ks <==> p in keys
    ensures forall i | 0 <= i < |ks| :: ks[i] in keys
    ensures forall i, j | 0 <= i < j < |ks| :: ks[i] < ks[j]
  {
    var rest, next := keys, 0;
    ks := [];
    ghost var bound: int := Bound(keys);
    assert forall p | p in keys :: 0 <= p < bound;
    while rest != {}
      invariant rest <= keys && forall p | p in rest :: next <= p
      invariant forall p :: p in ks <==> p in keys && p !in rest
      invariant rest != {} ==> next < bound
      invariant forall i | 0 <= i < |ks| :: ks[i] < next
      invariant forall i, j | 0 <= i < j < |ks| :: ks[i] < ks[j]
      decreases bound - next as int
    {
      if next in rest {
        ks := ks + [next];
        rest := rest - {next};
      }
      next := next + 1;
      if rest != {} {
        ghost var p :| p in rest;
        assert next <= p < bound;
      }
    }
  }

  /** A number above every element of a finite set. */
  ghost function Bound(s: set<nat>): (b: nat)
    ensures forall p | p in s :: p < b
  {
    if s == {} then 0 else
      var p :| p in s;
      assert forall q | q in s :: q == p || q in s - {p};
      Max(p + 1, Bound(s - {p}))
  }

  lemma RetagIsSameView(c: Cache, d: Cache)
    requires Retagged(c, d)
    ensures SameView(c, d) && Cleaned(c, d, {})
  {
  }

  lemma BatchPages(c: Cache, first: nat, count: nat, data: seq<byte>)
    requires BatchData(c, first, count, data)
    ensures forall p | first <= p < first + count :: p in c.pages
  {
  }

  lemma SameViewRefl(c: Cache)
    ensures SameView(c, c) && Cleaned(c, c, {})
  {
  }

  lemma AllTransparentRefl(c: seq<Cache>)
    ensures AllTransparent(c, c)
  {
  }

  lemma OthersSame(c: seq<Cache>, d: seq<Cache>, k: nat)
    requires k < |c| && |c| == |d| && d == c[k := d[k]]
    ensures OthersTransparent(c, d, k)
  {
  }

  lemma CleanIsLower(c: seq<Cache>, d: seq<Cache>, k: nat, p: nat)
    requires AllContent(d) && k < |d| && |c| == |d| && p in d[k].pages && !d[k].pages[p].dirty
    requires SameView(c[k], d[k])
    ensures LowerPage(d[k].lower, p) == PageView(c[k], p)
  {
  }

  lemma EvictKeepsDirty(c: seq<Cache>, d: seq<Cache>, k: nat, held: set<nat>)
    requires AllEvict(c, d, k, held) && k < |c|
    ensures d[k].pages.Keys <= c[k].pages.Keys
    ensures forall p | p in d[k].pages :: d[k].pages[p].dirty == c[k].pages[p].dirty
    ensures forall p | p in c[k].pages && c[k].pages[p].dirty :: p in d[k].pages
  {
  }

  lemma EndOfSync(a: seq<Cache>, b: seq<Cache>, c: seq<Cache>, k: nat)
    requires OthersTransparent(a, b, k) && AllTransparent(b, c) && k < |a| && SameView(a[k], b[k])
    ensures OthersTransparent(a, c, k) && SameView(a[k], c[k]) && c[k].lower == b[k].lower
  {
  }

  lemma BookParts(c: seq<Cache>, lru: seq<LruEntry>, pc: nat, dc: nat, g: nat)
    requires Booked(c, lru, pc, dc, g)
    ensures Counted(c, pc, dc)
  {
  }

  lemma LowerBooked(c: seq<Cache>, lru: seq<LruEntry>, pc: nat, dc: nat, g: nat, k: nat, lower: seq<byte>)
    requires Booked(c, lru, pc, dc, g) && k < |c|
    ensures Booked(c[k := c[k].(lower := lower)], lru, pc, dc, g)
  {
    SamePagesBooked(c, lru, pc, dc, g, k, c[k].(lower := lower));
  }

  lemma SameSizesCounted(c: seq<Cache>, pc: nat, dc: nat, k: nat, d: Cache)
    requires Counted(c, pc, dc) && k < |c| && d == c[k].(size := d.size, sizeVersion := d.sizeVersion)
    ensures Counted(c[k := d], pc, dc)
  {
    SameDirtyCounted(c, pc, dc, k, d);
  }

  /** Removing the pages past the new end and trimming the boundary page is `KeptPages`. */
  lemma KeptIsRest(pages: map<nat, Page>, kept: map<nat, Page>, trimmed: map<nat, Page>, n: nat, victims: seq<nat>)
    requires forall p :: p in victims <==> p in pages && p * PAGE_SIZE >= n
    requires kept == pages - ToSet(victims)
    requires var last := n / PAGE_SIZE;
      trimmed == if n % PAGE_SIZE != 0 && last in kept then kept[last := TrimPage(kept[last], last, n)] else kept
    ensures trimmed == KeptPages(pages, n)
  {
  }

  lemma ResizeMarks(c: seq<Cache>, d: seq<Cache>, k: nat, n: nat)
    requires k < |c| && |c| == |d| && d == c[k := d[k]]
    requires d[k].pages == if n < c[k].size then KeptPages(c[k].pages, n) else c[k].pages
    ensures SameMarks(c, d)
  {
  }

  lemma ContentReplaced(c: seq<Cache>, d: seq<Cache>, k: nat)
    requires AllContent(c) && k < |c| && |c| == |d| && d == c[k := d[k]] && Content(d[k])
    ensures AllContent(d)
  {
  }

  lemma SameViewView(c: Cache, d: Cache)
    requires SameView(c, d)
    ensures View(c) == View(d)
  {
  }

  /** The pages after the covered ones went and pages `start .. i` were zeroed where punched. */
  function PunchBelow(pages: map<nat, Page>, offset: nat, end: nat, start: nat, i: nat): map<nat, Page> {
    map p | p in pages && !Covered(p, offset, end) ::
      if start <= p < i then PunchPage(pages[p], p, offset, end) else pages[p]
  }

  lemma PunchBelowAll(pages: map<nat, Page>, offset: nat, end: nat, start: nat, last: nat)
    requires start == offset / PAGE_SIZE && last == PagesFor(end)
    ensures PunchBelow(pages, offset, end, start, last) == PunchPages(pages, offset, end)
  {
  }

  lemma PunchKeepsDirty(c: Cache, p: nat, offset: nat, end: nat)
    requires p in c.pages
    ensures PunchPage(c.pages[p], p, offset, end).dirty == c.pages[p].dirty
  {
  }

  lemma PunchMarks(c: seq<Cache>, d: seq<Cache>, k: nat, offset: nat, end: nat)
    requires k < |c| && |c| == |d| && d == c[k := d[k]]
    requires d[k].pages == PunchPages(c[k].pages, offset, end)
    ensures SameMarks(c, d)
  {
  }

  lemma PunchNothing(c: Cache, offset: nat, len: nat)
    requires offset >= Min(offset + len, c.size)
    ensures FlatPunch(View(c), offset, len) == View(c)
  {
  }

  lemma PunchClipped(c: Cache, offset: nat, len: nat)
    requires offset < Min(offset + len, c.size)
    ensures FlatPunch(View(c), offset, Min(offset + len, c.size) - offset) == FlatPunch(View(c), offset, len)
  {
  }

  lemma EvictedRange(c: seq<Cache>, d: seq<Cache>, k: nat, victims: seq<nat>, held: set<nat>, pc: nat, dc: nat, pc': nat, dc': nat)
    requires AllContent(c) && Counted(c, pc, dc) && Counted(d, pc', dc')
    requires k < |c| && |c| == |d| && d == c[k := d[k]]
    requires d[k] == c[k].(pages := c[k].pages - ToSet(victims), dirtyPages := d[k].dirtyPages)
    requires forall p | p in victims :: p in c[k].pages && !c[k].pages[p].dirty && !c[k].pages[p].mapped && p !in held
    ensures Evicts(c[k], d[k], held) && AllContent(d) && AllTransparent(c, d) && SameMarks(c, d) && dc == dc'
  {
    hide Counted, AllContent;
    SameDirtySum(c, d, k, pc, dc, pc', dc');
    EvictedView(c, d, k, held);
  }

  lemma SameDirtySum(c: seq<Cache>, d: seq<Cache>, k: nat, pc: nat, dc: nat, pc': nat, dc': nat)
    requires Counted(c, pc, dc) && Counted(d, pc', dc') && k < |c| && |c| == |d| && d == c[k := d[k]]
    requires d[k].pages.Keys <= c[k].pages.Keys && forall p | p in d[k].pages :: d[k].pages[p] == c[k].pages[p]
    requires forall p | p in c[k].pages && p !in d[k].pages :: !c[k].pages[p].dirty
    ensures dc == dc' && d[k].dirtyPages == c[k].dirtyPages
  {
    assert CacheCounted(c[k]) && CacheCounted(d[k]);
    assert DirtySet(c[k].pages) == DirtySet(d[k].pages);
    SumUpdate(c, k, d[k], true);
  }

  lemma EvictedView(c: seq<Cache>, d: seq<Cache>, k: nat, held: set<nat>)
    requires AllContent(c) && k < |c| && |c| == |d| && d == c[k := d[k]] && Evicts(c[k], d[k], held)
    ensures AllContent(d) && AllTransparent(c, d)
  {
    EvictionKeepsView(c[k], d[k], held, {});
  }

  lemma EmptyContent(c: Cache)
    requires Content(c)
    ensures Content(Dropped(c))
  {
  }

  lemma NewCacheView(c: Cache)
    requires c.pages == map[] && c.size == |c.lower|
    ensures Content(c) && View(c) == c.lower
  {
  }

  lemma MappingKeeps(c: seq<Cache>, lru: seq<LruEntry>, pc: nat, dc: nat, g: nat, k: nat, p: nat, mapped: bool)
    requires Booked(c, lru, pc, dc, g) && AllContent(c) && k < |c| && p in c[k].pages
    ensures var d := c[k := c[k].(pages := c[k].pages[p := c[k].pages[p].(mapped := mapped)])];
      Booked(d, lru, pc, dc, g) && AllContent(d) && AllTransparent(c, d)
  {
    hide Counted, AllTracked, Content, Transparent;
    var d := c[k].(pages := c[k].pages[p := c[k].pages[p].(mapped := mapped)]);
    SameDirtyCounted(c, pc, dc, k, d);
    MarksTrack(c, c[k := d], lru, g, 0, {});
    MappingContent(c[k], p, mapped);
    AllTransparentRefl(c);
  }

  lemma MappingContent(c: Cache, p: nat, mapped: bool)
    requires p in c.pages
    ensures var d := c.(pages := c.pages[p := c.pages[p].(mapped := mapped)]);
      (Content(c) ==> Content(d)) && Transparent(c, d)
  {
  }

  lemma PrefixFits(c: Cache, first: nat, count: nat, data: seq<byte>, k: nat)
    requires BatchData(c, first, count, data) && k <= |data|
    ensures FitsBatch(c, first, count, data[..k])
  {
  }
}
