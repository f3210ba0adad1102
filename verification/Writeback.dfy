/** Writeback split into its steps: snapshot a batch, write it to the lower file with no lock
    held, commit. Writers, loads and evictions run in between. */
module Writeback {
  import opened Bytes
  import opened PageStore

  /** Where a sync stands. It records the file length and the length generation once, at its start.
      `landed` says the batch has been written to the lower file in full. */
  datatype Sync =
    | Idle
    | Scanning(size: nat, sizeVersion: nat)
    | InFlight(size: nat, sizeVersion: nat, first: nat, versions: seq<nat>, data: seq<byte>, id: nat, landed: bool)

  datatype State = State(cache: Cache, sync: Sync, nextId: nat)

  datatype Step =
    // writers, readers and reclaim
    | Grow(n: nat)
    | Store(page: nat, off: nat, chunk: seq<byte>, base: Frame)
    | Load(page: nat, generation: nat)
    | Evict(page: nat)
    | TruncateTo(n: nat)
    | PunchOver(offset: nat, end: nat)
    // the sync
    | Begin
    | Snapshot(first: nat, count: nat)
    | LowerWrite
    | LowerFails(landing: nat)
    | Commit
    | Finish

  /** The bytes a snapshot of pages `first .. first + count` copies, given the recorded length. */
  function SnapshotData(c: Cache, size: nat, first: nat, count: nat): seq<byte>
    requires first * PAGE_SIZE <= size
  {
    seq(BatchEnd(size, first, count) - first * PAGE_SIZE, (j: nat) => ViewAt(c, first * PAGE_SIZE + j))
  }

  predicate Enabled(s: State, step: Step) {
    var c := s.cache;
    match step
    case Grow(n) => c.size <= n
    case Store(p, off, chunk, base) =>
      0 < |chunk| && off + |chunk| <= PAGE_SIZE && p * PAGE_SIZE + off + |chunk| <= c.size &&
      (if p in c.pages then base == c.pages[p].bytes else GoodBase(c, p, off, |chunk|, base))
    case Load(p, _) => p !in c.pages
    case Evict(p) => p in c.pages && !c.pages[p].dirty && !c.pages[p].mapped
    // a shrink takes the writeback lock through the lower inode, so it waits for the sync to end; its
    // second resize, which does not, is in WritebackLength
    case TruncateTo(n) => c.size <= n || s.sync.Idle?
    case PunchOver(offset, end) => s.sync.Idle? && offset <= end <= c.size
    case Begin => s.sync.Idle?
    case Snapshot(first, count) =>
      s.sync.Scanning? && 0 < count <= WRITEBACK_BATCH_PAGES && (first + count - 1) * PAGE_SIZE < s.sync.size &&
      forall p | first <= p < first + count :: p in c.pages && c.pages[p].dirty
    case LowerWrite => s.sync.InFlight? && !s.sync.landed
    case LowerFails(k) => s.sync.InFlight? && !s.sync.landed && k <= |s.sync.data|
    case Commit => s.sync.InFlight? && s.sync.landed
    case Finish => s.sync.Scanning?
  }

  function NewPage(bytes: Frame, generation: nat): Page {
    Page(bytes, false, 0, NotWriting, generation, false, false)
  }

  function StoredPage(c: Cache, p: nat, off: nat, chunk: seq<byte>, base: Frame): Page
    requires off + |chunk| <= PAGE_SIZE
  {
    var page := if p in c.pages then c.pages[p] else NewPage(base, 0);
    page.(bytes := Overlay(base, off, chunk), dirty := true, version := page.version + 1)
  }

  function TagPages(pages: map<nat, Page>, first: nat, count: nat, tag: Writeback): map<nat, Page> {
    map p | p in pages :: if first <= p < first + count then pages[p].(writeback := tag) else pages[p]
  }

  function CommitPages(pages: map<nat, Page>, y: Sync): map<nat, Page>
    requires y.InFlight?
  {
    map p | p in pages ::
      if y.first <= p < y.first + |y.versions| then Committed(pages[p], y.versions[p - y.first], y.id) else pages[p]
  }

  function Apply(s: State, step: Step): State
    requires Enabled(s, step)
  {
    var c := s.cache;
    match step
    case Grow(n) => s.(cache := c.(size := n, sizeVersion := c.sizeVersion + if n == c.size then 0 else 1))
    case Store(p, off, chunk, base) => s.(cache := c.(pages := c.pages[p := StoredPage(c, p, off, chunk, base)]))
    case Load(p, g) => s.(cache := c.(pages := c.pages[p := NewPage(LowerPage(c.lower, p), g)]))
    case Evict(p) => s.(cache := c.(pages := c.pages - {p}))
    case TruncateTo(n) =>
      s.(cache := c.(size := n, lower := FlatTruncate(c.lower, n),
                     pages := if n < c.size then KeptPages(c.pages, n) else c.pages,
                     sizeVersion := c.sizeVersion + if n == c.size then 0 else 1))
    case PunchOver(offset, end) =>
      s.(cache := c.(lower := FlatPunch(c.lower, offset, end - offset),
                     pages := PunchPages(c.pages, offset, end), sizeVersion := c.sizeVersion + 1))
    case Begin => s.(sync := Scanning(c.size, c.sizeVersion))
    case Snapshot(first, count) =>
      State(c.(pages := TagPages(c.pages, first, count, Writing(s.nextId))),
            InFlight(s.sync.size, s.sync.sizeVersion, first,
                     seq(count, (i: nat) requires i < count => c.pages[first + i].version),
                     SnapshotData(c, s.sync.size, first, count), s.nextId, false),
            s.nextId + 1)
    case LowerWrite =>
      s.(cache := c.(lower := FlatWrite(c.lower, s.sync.first * PAGE_SIZE, s.sync.data)), sync := s.sync.(landed := true))
    case LowerFails(k) =>
      s.(cache := c.(lower := FlatWrite(c.lower, s.sync.first * PAGE_SIZE, s.sync.data[..k]),
                     pages := TagPages(c.pages, s.sync.first, |s.sync.versions|, NotWriting)), sync := Idle)
    case Commit =>
      // a length change since the sync began keeps every page of the batch dirty
      var pages := if c.sizeVersion != s.sync.sizeVersion
        then TagPages(c.pages, s.sync.first, |s.sync.versions|, NotWriting)
        else CommitPages(c.pages, s.sync);
      s.(cache := c.(pages := pages), sync := Scanning(s.sync.size, s.sync.sizeVersion))
    case Finish => s.(sync := Idle)
  }

  // ---- The invariant ----

  /** The recorded length is not larger than the current one, and unless the generation moved on
      it is the current one. */
  predicate SizeInv(c: Cache, size: nat, version: nat) {
    size <= c.size && version <= c.sizeVersion && (version == c.sizeVersion ==> size == c.size)
  }

  /** A page of the batch in flight stays resident and dirty; while its version is the recorded one,
      its bytes are the ones the batch copied. */
  predicate MemberInv(c: Cache, y: Sync, p: nat)
    requires y.InFlight? && y.first <= p < y.first + |y.versions|
  {
    && p in c.pages && c.pages[p].dirty && c.pages[p].writeback == Writing(y.id) && y.versions[p - y.first] <= c.pages[p].version
    && (c.pages[p].version == y.versions[p - y.first] ==> CopiedPage(c.pages[p].bytes, y, p))
  }

  predicate CopiedPage(bytes: Frame, y: Sync, p: nat)
    requires y.InFlight? && y.first <= p
  {
    forall j: nat | j < PAGE_SIZE && (p - y.first) * PAGE_SIZE + j < |y.data| ::
      bytes[j] == y.data[(p - y.first) * PAGE_SIZE + j]
  }

  predicate BatchInv(c: Cache, y: Sync)
    requires y.InFlight?
  {
    && 0 < |y.versions| && (y.first + |y.versions| - 1) * PAGE_SIZE < y.size
    && |y.data| == BatchEnd(y.size, y.first, |y.versions|) - y.first * PAGE_SIZE
    && (forall p | y.first <= p < y.first + |y.versions| :: MemberInv(c, y, p))
    && (y.landed ==> LowerHas(c.lower, y.first * PAGE_SIZE, y.data))
  }

  /** The lower file holds `data` at `off`. */
  predicate LowerHas(lower: seq<byte>, off: nat, data: seq<byte>) {
    forall j: nat | j < |data| :: At(lower, off + j) == data[j]
  }

  predicate Inv(s: State) {
    && Content(s.cache)
    && (!s.sync.Idle? ==> SizeInv(s.cache, s.sync.size, s.sync.sizeVersion))
    && (s.sync.InFlight? ==> BatchInv(s.cache, s.sync))
  }

  // ---- Every step keeps the invariant ----

  /** The flat file after a step: only writers, truncates and hole punches change it. */
  function FlatEffect(f: seq<byte>, step: Step): seq<byte> {
    match step
    case Grow(n) => FlatTruncate(f, n)
    case Store(p, off, chunk, _) => FlatWrite(f, p * PAGE_SIZE + off, chunk)
    case TruncateTo(n) => FlatTruncate(f, n)
    case PunchOver(offset, end) => if offset <= end then FlatPunch(f, offset, end - offset) else f
    case _ => f
  }

  lemma ChunkIsWrite(c: Cache, d: Cache, pos: nat, chunk: seq<byte>)
    requires ChunkWritten(c, d, pos, chunk) && c.size == d.size && pos + |chunk| <= c.size
    ensures View(d) == FlatWrite(View(c), pos, chunk)
  {
  }

  lemma StoreStep(s: State, step: Step)
    requires Inv(s) && Enabled(s, step) && step.Store?
    ensures Inv(Apply(s, step)) && View(Apply(s, step).cache) == FlatEffect(View(s.cache), step)
  {
    hide Content, View, ChunkWritten, FlatWrite, GoodBase, BatchInv;
    var Store(p, off, chunk, base) := step;
    var c, d := s.cache, Apply(s, step).cache;
    ResidentBase(c, p, off, |chunk|);
    ChunkLands(c, d, p, off, chunk, base, d.pages[p]);
    ChunkIsWrite(c, d, p * PAGE_SIZE + off, chunk);
    StoreKeepsBatch(s, step);
  }

  /** A store into a page of the batch moves that page past its recorded version. */
  lemma StoreKeepsBatch(s: State, step: Step)
    requires Inv(s) && Enabled(s, step) && step.Store?
    ensures s.sync.InFlight? ==> BatchInv(Apply(s, step).cache, s.sync)
  {
    if s.sync.InFlight? {
      forall q | s.sync.first <= q < s.sync.first + |s.sync.versions| ensures MemberInv(Apply(s, step).cache, s.sync, q) {
        assert MemberInv(s.cache, s.sync, q);
      }
    }
  }

  lemma LoadStep(s: State, step: Step)
    requires Inv(s) && Enabled(s, step) && step.Load?
    ensures Inv(Apply(s, step)) && View(Apply(s, step).cache) == View(s.cache)
  {
    var c, d := s.cache, Apply(s, step).cache;
    LoadIsTransparent(c, step.page, d.pages[step.page]);
    SamePagesSameView(c, d);
    if s.sync.InFlight? {
      forall q | s.sync.first <= q < s.sync.first + |s.sync.versions| ensures MemberInv(d, s.sync, q) {
        assert MemberInv(c, s.sync, q);
      }
    }
  }

  lemma EvictStep(s: State, step: Step)
    requires Inv(s) && Enabled(s, step) && step.Evict?
    ensures Inv(Apply(s, step)) && View(Apply(s, step).cache) == View(s.cache)
  {
    var c, d := s.cache, Apply(s, step).cache;
    EvictionKeepsView(c, d, {}, {});
    if s.sync.InFlight? {
      forall q | s.sync.first <= q < s.sync.first + |s.sync.versions| ensures MemberInv(d, s.sync, q) {
        assert MemberInv(c, s.sync, q);
      }
    }
  }

  lemma GrowStep(s: State, step: Step)
    requires Inv(s) && Enabled(s, step) && step.Grow?
    ensures Inv(Apply(s, step)) && View(Apply(s, step).cache) == FlatEffect(View(s.cache), step)
  {
    GrowView(s.cache, step.n, s.cache.sizeVersion + if step.n == s.cache.size then 0 else 1);
    KeepBatch(s, Apply(s, step));
  }

  /** Steps that leave the pages and the bytes of the lower file alone keep the batch. */
  lemma KeepBatch(s: State, t: State)
    requires Inv(s) && t.sync == s.sync && t.cache.pages == s.cache.pages
    requires forall i: nat :: At(t.cache.lower, i) == At(s.cache.lower, i)
    ensures t.sync.InFlight? ==> BatchInv(t.cache, t.sync)
  {
    if s.sync.InFlight? {
      forall q | s.sync.first <= q < s.sync.first + |s.sync.versions| ensures MemberInv(t.cache, s.sync, q) {
        assert MemberInv(s.cache, s.sync, q);
      }
    }
  }

  lemma TruncateStep(s: State, step: Step)
    requires Inv(s) && Enabled(s, step) && step.TruncateTo?
    ensures Inv(Apply(s, step)) && View(Apply(s, step).cache) == FlatEffect(View(s.cache), step)
  {
    TruncateView(s.cache, Apply(s, step).cache, step.n);
    if !s.sync.Idle? { KeepBatch(s, Apply(s, step)); }
  }

  lemma PunchStep(s: State, step: Step)
    requires Inv(s) && Enabled(s, step) && step.PunchOver?
    ensures Inv(Apply(s, step)) && View(Apply(s, step).cache) == FlatEffect(View(s.cache), step)
  {
    PunchView(s.cache, Apply(s, step).cache, step.offset, step.end);
  }

  lemma SnapshotStep(s: State, step: Step)
    requires Inv(s) && Enabled(s, step) && step.Snapshot?
    ensures Inv(Apply(s, step)) && View(Apply(s, step).cache) == View(s.cache)
  {
    var c, t := s.cache, Apply(s, step);
    RetagKeepsView(c, t.cache);
    SamePagesSameView(c, t.cache);
    forall q | step.first <= q < step.first + step.count ensures MemberInv(t.cache, t.sync, q) {
      SnapshotCopies(s, step, q);
    }
  }

  lemma SnapshotCopies(s: State, step: Step, p: nat)
    requires Enabled(s, step) && step.Snapshot? && step.first <= p < step.first + step.count
    ensures CopiedPage(s.cache.pages[p].bytes, Apply(s, step).sync, p)
  {
    var y := Apply(s, step).sync;
    forall j: nat | j < PAGE_SIZE && (p - y.first) * PAGE_SIZE + j < |y.data|
      ensures s.cache.pages[p].bytes[j] == y.data[(p - y.first) * PAGE_SIZE + j]
    {
      ByteOfPage(p, j);
      var i := (p - y.first) * PAGE_SIZE + j;
      assert y.data[i] == ViewAt(s.cache, y.first * PAGE_SIZE + i);
      assert y.first * PAGE_SIZE + i == p * PAGE_SIZE + j;
    }
  }

  lemma BatchFits(s: State, k: nat)
    requires Inv(s) && s.sync.InFlight? && k <= |s.sync.data|
    ensures FitsBatch(s.cache, s.sync.first, |s.sync.versions|, s.sync.data[..k])
  {
    forall p | s.sync.first <= p < s.sync.first + |s.sync.versions| ensures p in s.cache.pages && s.cache.pages[p].dirty {
      assert MemberInv(s.cache, s.sync, p);
    }
  }

  lemma LowerWriteStep(s: State, step: Step)
    requires Inv(s) && Enabled(s, step) && step.LowerWrite?
    ensures Inv(Apply(s, step)) && View(Apply(s, step).cache) == View(s.cache)
  {
    var c, t := s.cache, Apply(s, step);
    BatchFits(s, |s.sync.data|);
    assert s.sync.data[..|s.sync.data|] == s.sync.data;
    LowerWriteIsInvisible(c, s.sync.first, |s.sync.versions|, s.sync.data);
    SamePagesSameView(c, t.cache);
    forall q | s.sync.first <= q < s.sync.first + |s.sync.versions| ensures MemberInv(t.cache, t.sync, q) {
      assert MemberInv(c, s.sync, q);
    }
  }

  lemma LowerFailsStep(s: State, step: Step)
    requires Inv(s) && Enabled(s, step) && step.LowerFails?
    ensures Inv(Apply(s, step)) && View(Apply(s, step).cache) == View(s.cache)
  {
    var c, t := s.cache, Apply(s, step);
    BatchFits(s, step.landing);
    LowerWriteIsInvisible(c, s.sync.first, |s.sync.versions|, s.sync.data[..step.landing]);
    var mid := c.(lower := t.cache.lower);
    RetagKeepsView(mid, t.cache);
    SamePagesSameView(c, t.cache);
  }

  /** While the length generation stands, a page still at its recorded version is in the lower file. */
  lemma CommittedPageIsLower(s: State, p: nat)
    requires Inv(s) && s.sync.InFlight? && s.sync.landed && s.cache.sizeVersion == s.sync.sizeVersion
    requires s.sync.first <= p < s.sync.first + |s.sync.versions|
    requires p in s.cache.pages && s.cache.pages[p].version == s.sync.versions[p - s.sync.first]
    ensures s.cache.pages[p].bytes == LowerPage(s.cache.lower, p)
  {
    var c, y := s.cache, s.sync;
    assert MemberInv(c, y, p) && PageOk(c, p);
    forall j: nat | j < PAGE_SIZE ensures c.pages[p].bytes[j] == LowerPage(c.lower, p)[j] {
      var i := (p - y.first) * PAGE_SIZE + j;
      if p * PAGE_SIZE + j < c.size {
        assert At(c.lower, y.first * PAGE_SIZE + i) == y.data[i];
      }
    }
  }

  lemma CommitStep(s: State, step: Step)
    requires Inv(s) && Enabled(s, step) && step.Commit?
    ensures Inv(Apply(s, step)) && View(Apply(s, step).cache) == View(s.cache)
  {
    var c, d := s.cache, Apply(s, step).cache;
    if c.sizeVersion != s.sync.sizeVersion {
      RetagKeepsView(c, d);
    } else {
      forall q | q in d.pages ensures PageOk(d, q) {
        assert PageOk(c, q);
        if s.sync.first <= q < s.sync.first + |s.sync.versions| && c.pages[q].version == s.sync.versions[q - s.sync.first] {
          CommittedPageIsLower(s, q);
        }
      }
    }
    SamePagesSameView(c, d);
  }

  /** Every enabled step keeps the invariant and has exactly its effect on the flat file. */
  lemma StepKeepsInv(s: State, step: Step)
    requires Inv(s) && Enabled(s, step)
    ensures Inv(Apply(s, step))
    ensures View(Apply(s, step).cache) == FlatEffect(View(s.cache), step)
  {
    match step
    case Grow(_) => GrowStep(s, step);
    case Store(_, _, _, _) => StoreStep(s, step);
    case Load(_, _) => LoadStep(s, step);
    case Evict(_) => EvictStep(s, step);
    case TruncateTo(_) => TruncateStep(s, step);
    case PunchOver(_, _) => PunchStep(s, step);
    case Snapshot(_, _) => SnapshotStep(s, step);
    case LowerWrite => LowerWriteStep(s, step);
    case LowerFails(_) => LowerFailsStep(s, step);
    case Commit => CommitStep(s, step);
    case Begin =>
    case Finish =>
  }

  // ---- Runs ----

  predicate Possible(s: State, steps: seq<Step>)
    decreases |steps|
  {
    steps == [] || (Enabled(s, steps[0]) && Possible(Apply(s, steps[0]), steps[1..]))
  }

  function Exec(s: State, steps: seq<Step>): State
    requires Possible(s, steps)
    decreases |steps|
  {
    if steps == [] then s else Exec(Apply(s, steps[0]), steps[1..])
  }

  function FlatExec(f: seq<byte>, steps: seq<Step>): seq<byte>
    decreases |steps|
  {
    if steps == [] then f else FlatExec(FlatEffect(f, steps[0]), steps[1..])
  }

  /** No update is lost, over every interleaving: clean resident pages agree with the lower file in
      every reachable state, and the file readers see is the writers' file, whatever writeback,
      loads and evictions did in between. */
  /** What each step does to the file: only growing, storing, truncating and punching change it, and how. */
  lemma StepChangesFile(s: State, step: Step)
    requires Inv(s) && Enabled(s, step)
    ensures var f, g := View(s.cache), View(Apply(s, step).cache);
      match step
      case Grow(n) => g == FlatTruncate(f, n)
      case Store(p, off, chunk, _) => g == FlatWrite(f, p * 4096 + off, chunk)
      case TruncateTo(n) => g == FlatTruncate(f, n)
      case PunchOver(offset, end) => g == FlatPunch(f, offset, end - offset)
      case _ => g == f
  {
    hide Inv, Apply, View, FlatTruncate, FlatWrite, FlatPunch;
    StepKeepsInv(s, step);
  }

  lemma {:induction false} NoUpdateIsLost(s: State, steps: seq<Step>)
    requires Inv(s) && Possible(s, steps)
    ensures Inv(Exec(s, steps))
    ensures var c := Exec(s, steps).cache;
      forall p | p in c.pages && !c.pages[p].dirty :: c.pages[p].bytes == LowerPage(c.lower, p)
    ensures View(Exec(s, steps).cache) == FlatExec(View(s.cache), steps)
    decreases |steps|
  {
    if steps == [] {
      var c := s.cache;
      forall p | p in c.pages && !c.pages[p].dirty ensures c.pages[p].bytes == LowerPage(c.lower, p) {
        assert PageOk(c, p);
      }
    } else {
      StepKeepsInv(s, steps[0]);
      NoUpdateIsLost(Apply(s, steps[0]), steps[1..]);
    }
  }

  /** A commit cleans exactly the pages of the batch that nobody rewrote since their snapshot, and
      none at all if the file length changed since the sync began. */
  lemma CommitCleansExactly(s: State, p: nat)
    requires Inv(s) && Enabled(s, Commit) && s.sync.first <= p < s.sync.first + |s.sync.versions|
    ensures p in s.cache.pages && p in Apply(s, Commit).cache.pages
    ensures !Apply(s, Commit).cache.pages[p].dirty <==>
      s.cache.sizeVersion == s.sync.sizeVersion && s.cache.pages[p].version == s.sync.versions[p - s.sync.first]
  {
    assert MemberInv(s.cache, s.sync, p);
  }
}
