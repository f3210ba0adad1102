/** One page cache as a value: resident pages over a lower inode, what a reader sees
    through them, and the content invariant that makes the two agree. */
module PageStore {
  import opened Bytes

  type Frame = s: seq<byte> | |s| == PAGE_SIZE witness seq(PAGE_SIZE, _ => 0)

  /** A resident page. `mapped` says some shared mapping holds the frame. */
  datatype Page = Page(bytes: Frame, dirty: bool, version: nat, writeback: Writeback,
                       generation: nat, queued: bool, mapped: bool)

  datatype Writeback = NotWriting | Writing(id: nat)

  const WRITEBACK_BATCH_PAGES: nat := 32

  /** A page at the end of its batch: clean exactly if nobody rewrote it since the batch took it. */
  function Committed(page: Page, version: nat, id: nat): Page {
    if page.writeback != Writing(id) then page
    else page.(dirty := page.dirty && page.version != version, writeback := NotWriting)
  }

  /** A page cache and the lower inode under it. A dropped cache is `live == false`. */
  datatype Cache = Cache(pages: map<nat, Page>, size: nat, sizeVersion: nat,
                         dirtyPages: nat, lower: seq<byte>, live: bool)

  function ZeroFrame(): (r: Frame)
    ensures forall j | 0 <= j < PAGE_SIZE :: r[j] == 0
  {
    seq(PAGE_SIZE, _ => 0)
  }

  /** Page `p` of the lower file, zero-padded past its end. */
  function LowerPage(lower: seq<byte>, p: nat): (r: Frame)
    ensures forall j | 0 <= j < PAGE_SIZE :: r[j] == At(lower, p * PAGE_SIZE + j)
  {
    var s: seq<byte> := seq(PAGE_SIZE, (j: nat) => At(lower, p * PAGE_SIZE + j));
    s
  }

  /** What a reader sees in page `p`: the resident page, else the lower bytes. */
  function PageView(c: Cache, p: nat): Frame {
    if p in c.pages then c.pages[p].bytes else LowerPage(c.lower, p)
  }

  function ViewAt(c: Cache, i: nat): byte {
    PageView(c, i / PAGE_SIZE)[i % PAGE_SIZE]
  }

  /** The flat file a cache stands for. */
  function View(c: Cache): seq<byte> {
    seq(c.size, (i: nat) => ViewAt(c, i))
  }

  /** Content invariant of one resident page: a dirty page starts before the end of file, a
      clean page is the lower page, and bytes at or past the end of file are zero. */
  predicate PageOk(c: Cache, p: nat)
    requires p in c.pages
  {
    && (c.pages[p].dirty ==> p * PAGE_SIZE < c.size)
    && (!c.pages[p].dirty ==> c.pages[p].bytes == LowerPage(c.lower, p))
    && (forall j | 0 <= j < PAGE_SIZE :: c.size <= p * PAGE_SIZE + j ==> c.pages[p].bytes[j] == 0)
  }

  /** Every resident page but those in `raw` is as it should be. */
  predicate ContentBut(c: Cache, raw: set<nat>) {
    && |c.lower| <= c.size
    && (forall p | p in c.pages && p !in raw :: PageOk(c, p))
  }

  predicate Content(c: Cache) {
    ContentBut(c, {})
  }

  predicate SameData(a: Page, b: Page) {
    a.bytes == b.bytes && a.dirty == b.dirty && a.version == b.version &&
    a.writeback == b.writeback && a.mapped == b.mapped
  }

  /** `d` is `c` after evicting some clean, unmapped pages outside `held`. */
  predicate Evicts(c: Cache, d: Cache, held: set<nat>) {
    && d == c.(pages := d.pages)
    && d.pages.Keys <= c.pages.Keys
    && (forall p | p in d.pages :: SameData(c.pages[p], d.pages[p]))
    && (forall p | p in c.pages && p !in d.pages :: !c.pages[p].dirty && !c.pages[p].mapped && p !in held)
  }

  /** Eviction is invisible: it keeps the content invariant and every page's view. */
  lemma EvictionKeepsView(c: Cache, d: Cache, held: set<nat>, raw: set<nat>)
    requires Evicts(c, d, held) && ContentBut(c, raw) && raw <= held
    ensures ContentBut(d, raw)
    ensures forall p: nat :: PageView(d, p) == PageView(c, p)
    ensures View(d) == View(c)
  {
  }

  lemma SamePagesSameView(c: Cache, d: Cache)
    requires forall p: nat :: PageView(d, p) == PageView(c, p)
    requires c.size == d.size
    ensures View(d) == View(c)
  {
  }

  lemma ResidentBase(c: Cache, p: nat, off: nat, n: nat)
    ensures p in c.pages ==> GoodBase(c, p, off, n, c.pages[p].bytes)
  {
  }

  lemma ByteOfPage(p: nat, j: nat)
    requires j < PAGE_SIZE
    ensures (p * PAGE_SIZE + j) / PAGE_SIZE == p
    ensures (p * PAGE_SIZE + j) % PAGE_SIZE == j
  {
  }

  // ---- Loading ----

  /** `d` shows what `c` shows: same length, same lower file, same bytes in every page. */
  ghost predicate Transparent(c: Cache, d: Cache) {
    && d.size == c.size && d.sizeVersion == c.sizeVersion && d.lower == c.lower && d.live == c.live
    && (forall p: nat :: PageView(d, p) == PageView(c, p))
  }

  /** Publishing a clean copy of the lower page is invisible. */
  lemma LoadIsTransparent(c: Cache, p: nat, page: Page)
    requires Content(c) && p !in c.pages
    requires !page.dirty && page.bytes == LowerPage(c.lower, p)
    ensures Content(c.(pages := c.pages[p := page]))
    ensures Transparent(c, c.(pages := c.pages[p := page]))
  {
  }

  // ---- Writing ----

  /** Setting the size up to `n`, lower file untouched: the file grows by zeros. */
  lemma GrowView(c: Cache, n: nat, v: nat)
    requires Content(c) && c.size <= n
    ensures Content(c.(size := n, sizeVersion := v))
    ensures View(c.(size := n, sizeVersion := v)) == FlatTruncate(View(c), n)
  {
  }

  lemma ZeroPastEnd(c: Cache, i: nat)
    requires Content(c) && c.size <= i
    ensures ViewAt(c, i) == 0
  {
  }

  /** Bytes `[pos, pos + |chunk|)` of page `p` take the new data, all others stay. */
  ghost predicate ChunkWritten(c: Cache, d: Cache, pos: nat, chunk: seq<byte>) {
    forall i: nat :: ViewAt(d, i) == if pos <= i < pos + |chunk| then chunk[i - pos] else ViewAt(c, i)
  }

  lemma ChunksJoin(a: Cache, b: Cache, c: Cache, pos: nat, x: seq<byte>, y: seq<byte>)
    requires ChunkWritten(a, b, pos, x) && ChunkWritten(b, c, pos + |x|, y)
    ensures ChunkWritten(a, c, pos, x + y)
  {
  }

  /** Chunks written into a file that was grown first amount to a flat write. */
  lemma ChunksAreWrite(c: Cache, grown: Cache, d: Cache, off: nat, data: seq<byte>, m: nat)
    requires m <= |data| && View(grown) == FlatTruncate(View(c), Max(c.size, off + |data|))
    requires grown.size == d.size == Max(c.size, off + |data|)
    requires ChunkWritten(grown, d, off, data[..m])
    ensures View(d) == FlatPartial(View(c), off, data, m)
  {
    forall i: nat | i < d.size ensures View(d)[i] == FlatPartial(View(c), off, data, m)[i] {
      assert View(grown)[i] == ViewAt(grown, i);
    }
  }

  /** The frame a chunk of page `p` is laid over: outside the chunk it is what a reader saw. */
  predicate GoodBase(c: Cache, p: nat, off: nat, n: nat, base: Frame) {
    forall j | 0 <= j < PAGE_SIZE :: off <= j < off + n || base[j] == PageView(c, p)[j]
  }

  /** `d` is `c` with `page` stored at `p` (and a dirty counter of its own). */
  predicate Stored(c: Cache, d: Cache, p: nat, page: Page) {
    d == c.(pages := c.pages[p := page], dirtyPages := d.dirtyPages)
  }

  /** Overwriting part of a page shows exactly that part changed. */
  lemma ChunkLands(c: Cache, d: Cache, p: nat, off: nat, chunk: seq<byte>, base: Frame, page: Page)
    requires Content(c) && off + |chunk| <= PAGE_SIZE && p * PAGE_SIZE + off + |chunk| <= c.size && 0 < |chunk|
    requires GoodBase(c, p, off, |chunk|, base)
    requires page.dirty && page.bytes == Overlay(base, off, chunk) && Stored(c, d, p, page)
    ensures Content(d)
    ensures ChunkWritten(c, d, p * PAGE_SIZE + off, chunk)
  {
    forall q | q in d.pages ensures PageOk(d, q) {
      if q != p { assert PageOk(c, q); } else { ChunkPageOk(c, d, p, off, chunk, base, page); }
    }
    forall i: nat ensures ViewAt(d, i) ==
        if p * PAGE_SIZE + off <= i < p * PAGE_SIZE + off + |chunk| then chunk[i - (p * PAGE_SIZE + off)] else ViewAt(c, i) {
      ChunkByte(c, d, p, off, chunk, base, page, i);
    }
  }

  lemma ChunkPageOk(c: Cache, d: Cache, p: nat, off: nat, chunk: seq<byte>, base: Frame, page: Page)
    requires Content(c) && off + |chunk| <= PAGE_SIZE && p * PAGE_SIZE + off + |chunk| <= c.size && 0 < |chunk|
    requires GoodBase(c, p, off, |chunk|, base)
    requires page.dirty && page.bytes == Overlay(base, off, chunk) && Stored(c, d, p, page)
    ensures PageOk(d, p)
  {
  }

  lemma ChunkByte(c: Cache, d: Cache, p: nat, off: nat, chunk: seq<byte>, base: Frame, page: Page, i: nat)
    requires off + |chunk| <= PAGE_SIZE
    requires GoodBase(c, p, off, |chunk|, base)
    requires page.bytes == Overlay(base, off, chunk) && Stored(c, d, p, page)
    ensures ViewAt(d, i) ==
      if p * PAGE_SIZE + off <= i < p * PAGE_SIZE + off + |chunk| then chunk[i - (p * PAGE_SIZE + off)] else ViewAt(c, i)
  {
  }

  /** When a write needs no old data, a zeroed page that is not resident is a good base. */
  lemma ZeroBaseIsGood(c: Cache, p: nat, off: nat, n: nat, oldSize: nat)
    requires p !in c.pages && |c.lower| <= oldSize
    requires !NeedsOldData(p, off, n, oldSize)
    ensures GoodBase(c, p, off, n, ZeroFrame())
  {
  }

  /** The test that decides whether a partial write must load the page first. */
  predicate NeedsOldData(p: nat, off: nat, n: nat, oldSize: nat) {
    && p * PAGE_SIZE < oldSize
    && !(off == 0 && n == PAGE_SIZE)
    && (off > 0 || p * PAGE_SIZE + off + n < Min(oldSize, p * PAGE_SIZE + PAGE_SIZE))
  }

  // ---- Truncation ----

  function ZeroRange(b: Frame, lo: nat, hi: nat): (r: Frame)
    requires lo <= hi <= PAGE_SIZE
    ensures forall j | 0 <= j < PAGE_SIZE :: r[j] == if lo <= j < hi then 0 else b[j]
  {
    b[..lo] + Zeros(hi - lo) + b[hi..]
  }

  /** The page holding the new end of file loses its tail; other kept pages stay. */
  function TrimPage(page: Page, p: nat, n: nat): Page {
    if n % PAGE_SIZE != 0 && p == n / PAGE_SIZE
    then page.(bytes := ZeroRange(page.bytes, n % PAGE_SIZE, PAGE_SIZE), version := page.version + 1)
    else page
  }

  function KeptPages(pages: map<nat, Page>, n: nat): map<nat, Page> {
    map p | p in pages && p * PAGE_SIZE < n :: TrimPage(pages[p], p, n)
  }

  /** `d` is `c` after the lower file, unless it is gone, and the cache were both set to length `n`. */
  predicate TruncatedTo(c: Cache, d: Cache, n: nat) {
    && d.size == n
    && (d.lower == FlatTruncate(c.lower, n) || (c.lower == [] && d.lower == []))
    && d.pages == if n < c.size then KeptPages(c.pages, n) else c.pages
  }

  lemma TruncateView(c: Cache, d: Cache, n: nat)
    requires Content(c) && TruncatedTo(c, d, n)
    ensures Content(d)
    ensures View(d) == FlatTruncate(View(c), n)
  {
    forall q | q in d.pages ensures PageOk(d, q) { TruncatedPageOk(c, d, n, q); }
    forall i: nat | i < n ensures View(d)[i] == FlatTruncate(View(c), n)[i] {
      TruncatedByte(c, d, n, i);
      if c.size <= i { ZeroPastEnd(c, i); }
    }
  }

  lemma TruncatedPageOk(c: Cache, d: Cache, n: nat, q: nat)
    requires Content(c) && TruncatedTo(c, d, n) && q in d.pages
    ensures PageOk(d, q)
  {
  }

  lemma TruncatedByte(c: Cache, d: Cache, n: nat, i: nat)
    requires TruncatedTo(c, d, n) && i < n
    ensures ViewAt(d, i) == ViewAt(c, i)
  {
  }

  // ---- Hole punching ----

  function ClipTo(x: nat, p: nat): nat {
    if x <= p * PAGE_SIZE then 0 else Min(x - p * PAGE_SIZE, PAGE_SIZE)
  }

  /** `[offset, end)` covers all of page `p`. */
  predicate Covered(p: nat, offset: nat, end: nat) {
    ClipTo(offset, p) == 0 && ClipTo(end, p) == PAGE_SIZE
  }

  function PunchPage(page: Page, p: nat, offset: nat, end: nat): Page {
    if ClipTo(offset, p) >= ClipTo(end, p) then page
    else page.(bytes := ZeroRange(page.bytes, ClipTo(offset, p), ClipTo(end, p)), version := page.version + 1)
  }

  function PunchPages(pages: map<nat, Page>, offset: nat, end: nat): map<nat, Page> {
    map p | p in pages && !Covered(p, offset, end) :: PunchPage(pages[p], p, offset, end)
  }

  /** `d` is `c` after the lower file and the cache were both punched over `[offset, end)`. */
  predicate PunchedOver(c: Cache, d: Cache, offset: nat, end: nat) {
    && d.size == c.size && offset <= end <= c.size
    && d.lower == FlatPunch(c.lower, offset, end - offset)
    && d.pages == PunchPages(c.pages, offset, end)
  }

  lemma PunchView(c: Cache, d: Cache, offset: nat, end: nat)
    requires Content(c) && PunchedOver(c, d, offset, end)
    ensures Content(d)
    ensures View(d) == FlatPunch(View(c), offset, end - offset)
  {
    forall q | q in d.pages ensures PageOk(d, q) { PunchedPageOk(c, d, offset, end, q); }
    forall i: nat | i < c.size ensures View(d)[i] == FlatPunch(View(c), offset, end - offset)[i] {
      PunchedByte(c, d, offset, end, i);
    }
  }

  lemma PunchedPageOk(c: Cache, d: Cache, offset: nat, end: nat, q: nat)
    requires Content(c) && PunchedOver(c, d, offset, end) && q in d.pages
    ensures PageOk(d, q)
  {
  }

  lemma PunchedByte(c: Cache, d: Cache, offset: nat, end: nat, i: nat)
    requires PunchedOver(c, d, offset, end) && i < c.size
    ensures ViewAt(d, i) == if offset <= i < end then 0 else ViewAt(c, i)
  {
  }

  // ---- Writeback of one batch ----

  /** A batch covers `count` consecutive dirty pages, all starting before the end of file. */
  predicate IsBatch(c: Cache, first: nat, count: nat) {
    && first * PAGE_SIZE <= c.size && (0 < count ==> (first + count - 1) * PAGE_SIZE < c.size)
    && (forall p | first <= p < first + count :: p in c.pages && c.pages[p].dirty)
  }

  /** Where the data of a batch ends: a whole number of pages, or the end of file. */
  function BatchEnd(size: nat, first: nat, count: nat): nat {
    Min(size, (first + count) * PAGE_SIZE)
  }

  /** The data of a batch is exactly the file view from its first page on. */
  predicate BatchData(c: Cache, first: nat, count: nat, data: seq<byte>) {
    && IsBatch(c, first, count)
    && |data| == BatchEnd(c.size, first, count) - first * PAGE_SIZE
    && (forall j: nat | j < |data| :: data[j] == ViewAt(c, first * PAGE_SIZE + j))
  }

  /** One more dirty page extends a batch by what is visible of it. */
  lemma BatchGrows(c: Cache, first: nat, count: nat, data: seq<byte>)
    requires BatchData(c, first, count, data)
    requires first + count in c.pages && c.pages[first + count].dirty && (first + count) * PAGE_SIZE < c.size
    ensures var n := Min(c.size - (first + count) * PAGE_SIZE, PAGE_SIZE);
      BatchData(c, first, count + 1, data + c.pages[first + count].bytes[..n])
  {
  }

  /** Data that fits a batch of dirty pages and ends inside the file. */
  predicate FitsBatch(c: Cache, first: nat, count: nat, data: seq<byte>) {
    IsBatch(c, first, count) && |data| <= count * PAGE_SIZE && first * PAGE_SIZE + |data| <= c.size
  }

  /** However much of a batch reaches the lower file, and whatever it holds, no reader notices:
      the pages it overwrites are dirty, so the cache covers them. */
  lemma LowerWriteIsInvisible(c: Cache, first: nat, count: nat, data: seq<byte>)
    requires Content(c) && FitsBatch(c, first, count, data)
    ensures Content(c.(lower := FlatWrite(c.lower, first * PAGE_SIZE, data)))
    ensures forall p: nat :: PageView(c.(lower := FlatWrite(c.lower, first * PAGE_SIZE, data)), p) == PageView(c, p)
  {
  }

  /** A batch that was written in full makes the lower pages equal the resident ones. */
  lemma BatchReachesLower(c: Cache, first: nat, count: nat, data: seq<byte>, p: nat)
    requires Content(c) && BatchData(c, first, count, data)
    requires first <= p < first + count
    ensures LowerPage(FlatWrite(c.lower, first * PAGE_SIZE, data), p) == c.pages[p].bytes
  {
  }

  // ---- Writeback tags and cleaning ----

  /** `d` shows the same file as `c`, whatever happened to the lower file. */
  ghost predicate SameView(c: Cache, d: Cache) {
    && d.size == c.size && d.sizeVersion == c.sizeVersion && d.live == c.live
    && (forall p: nat :: PageView(d, p) == PageView(c, p))
  }

  /** `d` is `c` with other writeback tags. */
  predicate Retagged(c: Cache, d: Cache) {
    && d == c.(pages := d.pages) && d.pages.Keys == c.pages.Keys
    && (forall p | p in c.pages :: d.pages[p] == c.pages[p].(writeback := d.pages[p].writeback))
  }

  lemma RetagKeepsView(c: Cache, d: Cache)
    requires Content(c) && Retagged(c, d)
    ensures Content(d) && Transparent(c, d)
  {
  }

  /** A page that the lower file already holds may be marked clean. */
  lemma CleanKeepsView(c: Cache, d: Cache, p: nat, page: Page)
    requires Content(c) && p in c.pages && Stored(c, d, p, page)
    requires page.bytes == c.pages[p].bytes && !page.dirty && page.bytes == LowerPage(c.lower, p)
    ensures Content(d) && SameView(c, d)
  {
  }
}
