/** Whole runs: however caches are opened and closed, and however reads, writes, truncates, hole
    punches, syncs, mappings and evictions on any number of them follow one another, the caches are
    indistinguishable from flat byte files. */
module PageCacheRuns {
  import opened Common
  import opened Bytes
  import opened PageStore
  import opened Accounting
  import opened Reclaim
  import opened PageCaches

  datatype Op =
    | Open(lower: seq<byte>)
    | Close(file: nat)
    | Read(file: nat, offset: nat, len: nat, readAhead: nat, markAccessed: bool)
    | Write(file: nat, offset: nat, data: seq<byte>)
    | Truncate(file: nat, size: nat)
    | Punch(file: nat, offset: nat, len: nat)
    | Sync(file: nat, range: Range)
    | Map(file: nat, page: nat)
    | Unmap(file: nat, page: nat)
    | DontNeed(file: nat, offset: nat, len: nat, held: set<nat>)
    | Reclaim(file: nat, held: set<nat>)

  /** What the caller is told. */
  datatype Reply =
    | Opened(file: nat)
    | NotOpen
    | Data(read: Result<seq<byte>>)
    | Written(written: Result<nat>)
    | Status(status: Result<()>)
    | Silent

  // ---- The same operations on flat files ----

  /** A file as readers see it, and what of it is in the lower file. */
  datatype File = File(view: seq<byte>, disk: seq<byte>)

  /** A file for every cache that was ever opened; a closed one is `None`. */
  type Files = seq<Option<File>>

  /** What a write may leave: the written file, or after a failure a raised length and any prefix. */
  ghost predicate WriteLeaves(f: seq<byte>, off: nat, data: seq<byte>, r: Result<nat>, g: seq<byte>) {
    if off + |data| > USIZE_MAX then r == Err(EINVAL) && g == f
    else if r.Ok? then r.value == |data| && g == FlatWrite(f, off, data)
    else exists m: nat | m <= |data| :: g == FlatPartial(f, off, data, m)
  }

  /** `reply` and `g` are what `op` may give on flat file `f`. A failure changes nothing, except that a
      failed write leaves a prefix and a failed truncate may have been done. On a healthy system only
      a write past the address space fails. */
  ghost predicate Fits(healthy: bool, f: seq<byte>, op: Op, reply: Reply, g: seq<byte>) {
    match op
    case Read(_, off, len, _, _) =>
      reply.Data? && g == f && if reply.read.Ok? then reply.read.value == FlatRead(f, off, len) else !healthy
    case Write(_, off, data) =>
      reply.Written? && WriteLeaves(f, off, data, reply.written, g) &&
      (reply.written.Err? ==> !healthy || off + |data| > USIZE_MAX)
    case Truncate(_, n) =>
      reply.Status? && if reply.status.Ok? then g == FlatTruncate(f, n) else !healthy && (g == f || g == FlatTruncate(f, n))
    case Punch(_, off, len) =>
      reply.Status? && if reply.status.Ok? then g == FlatPunch(f, off, len) else !healthy && g == f
    case Sync(_, _) => reply.Status? && g == f && (reply.status.Err? ==> !healthy)
    case Map(_, _) => reply.Status? && g == f && (reply.status.Err? ==> !healthy)
    case _ => reply == Silent && g == f
  }

  /** What becomes of the lower file. A sync that succeeds brings every byte of its range there, a
      shrinking truncate all bytes, a hole its zeros; operations on the cache alone do not touch it. */
  ghost predicate DiskFits(f: File, op: Op, reply: Reply, g: File) {
    match op
    case Sync(_, range) => reply.Status? && reply.status.Ok? ==>
      forall i: nat | i < |f.view| && (range.Bytes? ==> range.start <= i < range.end) :: At(g.disk, i) == f.view[i]
    case Truncate(_, n) => reply.Status? && reply.status.Ok? && n < |f.view| ==> forall i: nat | i < n :: At(g.disk, i) == At(f.view, i)
    case Punch(_, off, len) => reply.Status? && reply.status.Ok? ==>
      forall i: nat | off <= i < off + len && i < |f.view| :: At(g.disk, i) == 0
    case _ => g.disk == f.disk
  }

  predicate IsOpen(files: Files, op: Op) {
    !op.Open? && op.file < |files| && files[op.file].Some?
  }

  /** One operation on one of many files: the others stay as they are. */
  ghost predicate StepFits(healthy: bool, files: Files, op: Op, reply: Reply, next: Files) {
    if op.Open? then reply == Opened(|files|) && next == files + [Some(File(op.lower, op.lower))]
    else if !IsOpen(files, op) then reply == NotOpen && next == files
    else if op.Close? then reply == Silent && next == files[op.file := None]
    else
      && |next| == |files| && next[op.file].Some? && next == files[op.file := next[op.file]]
      && Fits(healthy, files[op.file].value.view, op, reply, next[op.file].value.view)
      && DiskFits(files[op.file].value, op, reply, next[op.file].value)
  }

  /** A run on flat files: `states[i]` are the files before operation `i`. */
  ghost predicate RunFits(healthy: bool, states: seq<Files>, ops: seq<Op>, replies: seq<Reply>) {
    && |states| == |ops| + 1 && |replies| == |ops|
    && forall i | 0 <= i < |ops| :: StepFits(healthy, states[i], ops[i], replies[i], states[i + 1])
  }

  function FileOf(c: Cache): Option<File> {
    if c.live then Some(File(View(c), c.lower)) else None
  }

  function FilesOf(c: seq<Cache>): (v: Files)
    ensures |v| == |c| && forall k: nat | k < |c| :: v[k] == FileOf(c[k])
  {
    seq(|c|, (k: nat) requires k < |c| => FileOf(c[k]))
  }

  lemma OneFile(c: seq<Cache>, d: seq<Cache>, k: nat)
    requires OthersTransparent(c, d, k) && k < |c|
    ensures FilesOf(d) == FilesOf(c)[k := FileOf(d[k])]
  {
    forall j: nat | j < |c| && j != k ensures FileOf(c[j]) == FileOf(d[j]) {
      assert Transparent(c[j], d[j]);
      SamePagesSameView(c[j], d[j]);
    }
  }

  // ---- Pages that reclaim cannot take ----

  /** The pages an operation takes away on purpose. */
  function CutOf(op: Op, files: Files): Cut {
    if !IsOpen(files, op) then Nothing else
    match op
    case Close(k) => From(k, 0)
    case Truncate(k, n) => From(k, n)
    case Punch(k, off, len) => Hole(k, off, Min(off + len, |files[k].value.view|))
    case DontNeed(k, off, len, _) => Advice(k, off, len, |files[k].value.view|)
    case _ => Nothing
  }

  predicate SparedInRun(states: seq<Files>, ops: seq<Op>, k: nat, p: nat)
    requires |ops| <= |states|
  {
    forall i | 0 <= i < |ops| :: Spared(CutOf(ops[i], states[i]), k, p)
  }

  /** Pinned pages that no operation of the run took away on purpose are still pinned. */
  ghost predicate RunKeepsPinned(s: Pool, t: Pool, states: seq<Files>, ops: seq<Op>)
    requires |ops| <= |states|
  {
    forall k: nat, p: nat | Pinned(s, k, p) && SparedInRun(states, ops, k, p) :: Pinned(t, k, p)
  }

  /** What becomes of the pages, where an operation is about them: a mapped page is resident, advised ones
      that are clean, unmapped and unheld are gone, and reclaim has popped entries until there were few
      enough pages or none of the old ones were left. */
  ghost predicate PagesFit(s: Pool, op: Op, reply: Reply, t: Pool) {
    match op
    case Map(k, p) => reply == Status(Ok(())) ==> Resident(t, k, p) && t.caches[k].pages[p].mapped
    case DontNeed(k, off, len, held) => k < |s.caches| == |t.caches| &&
      forall p | p in s.caches[k].pages :: p !in t.caches[k].pages <==>
        InAdvice(p, off, len, s.caches[k].size) && !s.caches[k].pages[p].dirty && !s.caches[k].pages[p].mapped && p !in held
    case Reclaim(k, held) => exists n: nat :: t == Pops(s, n, k, held) && n <= |s.lru| && (n == |s.lru| || t.pageCount <= 128 * 1024)
    case _ => true
  }

  // ---- The caches ----

  lemma ViewLength(c: Cache)
    ensures |View(c)| == c.size
  {
  }

  /** One operation on the caches is the same operation on flat files. */
  method Apply(s: PageCacheSystem, op: Op) returns (reply: Reply)
    requires s.Valid()
    modifies s
    ensures s.Valid() && StepFits(s.healthy, FilesOf(old(s.caches)), op, reply, FilesOf(s.caches))
    ensures IsOpen(FilesOf(old(s.caches)), op) ==> PagesFit(old(s.Model()), op, reply, s.Model())
    ensures KeepsPinned(old(s.Model()), s.Model(), CutOf(op, FilesOf(old(s.caches))))
  {
    hide PageCacheSystem.Book, AllContent, Content, View, Pinned, Fits;
    ghost var c0, m0 := s.caches, s.Model();
    if op.Open? {
      var k := s.NewCache(op.lower);
      MoreIsPinned(m0, s.Model());
      return Opened(k);
    }
    if op.file >= |s.caches| || !s.caches[op.file].live {
      return NotOpen;
    }
    if op.Close? {
      s.DropCache(op.file);
      return Silent;
    }
    reply := ApplyToOpen(s, op);
    OneFile(c0, s.caches, op.file);
  }

  method ApplyToOpen(s: PageCacheSystem, op: Op) returns (reply: Reply)
    requires s.Valid() && !op.Open? && !op.Close? && op.file < |s.caches| && s.caches[op.file].live
    modifies s
    ensures s.Valid() && OthersTransparent(old(s.caches), s.caches, op.file) && s.caches[op.file].live
    ensures Fits(s.healthy, View(old(s.caches)[op.file]), op, reply, View(s.caches[op.file]))
    ensures DiskFits(FileOf(old(s.caches)[op.file]).value, op, reply, FileOf(s.caches[op.file]).value)
    ensures PagesFit(old(s.Model()), op, reply, s.Model())
    ensures KeepsPinned(old(s.Model()), s.Model(), CutOf(op, FilesOf(old(s.caches))))
  {
    hide PageCacheSystem.Book, AllContent, Content, View, FlatPartial, FlatWrite, FlatTruncate, FlatPunch, FlatRead, PageView, Pinned, Pops, InAdvice, At;
    ghost var c0, m0 := s.caches, s.Model();
    ViewLength(c0[op.file]);
    match op {
      case Read(k, off, len, ahead, mark) =>
        var r := s.ReadAtAdvised(k, off, len, ahead, mark);
        TransparentView(c0, s.caches, k);
        reply := Data(r);
      case Write(k, off, data) =>
        var r, landed := s.WriteAt(k, off, data);
        FullPartialIsWrite(View(c0[k]), off, data);
        reply := Written(r);
      case Truncate(k, n) =>
        var r, truncated := s.Truncate(k, n);
        reply := Status(r);
      case Punch(k, off, len) =>
        var r, synced := s.PunchHole(k, off, len);
        reply := Status(r);
      case Sync(k, range) =>
        var r := s.SyncInner(k, range);
        SameViewView(c0[k], s.caches[k]);
        reply := Status(r);
      case Map(k, p) =>
        var r := s.GetOrLoad(k, p, 1, true);
        ghost var c1, m1 := s.caches, s.Model();
        if r.Ok? {
          s.SetMapped(k, p, true);
          TransparentTransitive(c0, c1, s.caches);
          MoreIsPinned(m1, s.Model());
          PinnedTwice(m0, m1, s.Model(), Nothing);
        }
        TransparentView(c0, s.caches, k);
        reply := Status(r);
      case Unmap(k, p) =>
        if p in s.caches[k].pages {
          s.SetMapped(k, p, false);
          MoreIsPinned(m0, s.Model());
        } else {
          AllTransparentRefl(s.caches);
        }
        TransparentView(c0, s.caches, k);
        reply := Silent;
      case DontNeed(k, off, len, held) =>
        s.EvictCleanRange(k, off, len, held);
        CutKeepsPinned(m0, s.Model(), k, Advice(k, off, len, |View(c0[k])|));
        TransparentView(c0, s.caches, k);
        reply := Silent;
      case Reclaim(k, held) =>
        var scanned := s.ReclaimGlobal(k, held);
        assert s.Model() == Pops(m0, scanned, k, held);
        AllEvictIsTransparent(c0, s.caches, k, held);
        TransparentView(c0, s.caches, k);
        reply := Silent;
    }
  }

  lemma TransparentView(c: seq<Cache>, d: seq<Cache>, k: nat)
    requires AllTransparent(c, d) && k < |c|
    ensures OthersTransparent(c, d, k) && View(d[k]) == View(c[k]) && d[k].live == c[k].live && d[k].lower == c[k].lower
  {
    assert Transparent(c[k], d[k]);
    SamePagesSameView(c[k], d[k]);
  }

  lemma RunGrows(healthy: bool, states: seq<Files>, ops: seq<Op>, replies: seq<Reply>, n: nat, reply: Reply, next: Files)
    requires n < |ops| && RunFits(healthy, states, ops[..n], replies) && StepFits(healthy, states[n], ops[n], reply, next)
    ensures RunFits(healthy, states + [next], ops[..n + 1], replies + [reply])
  {
  }

  lemma PinnedGrows(s: Pool, t: Pool, u: Pool, states: seq<Files>, ops: seq<Op>, n: nat, next: Files)
    requires n < |ops| && |states| == n + 1 && RunKeepsPinned(s, t, states, ops[..n]) && KeepsPinned(t, u, CutOf(ops[n], states[n]))
    ensures RunKeepsPinned(s, u, states + [next], ops[..n + 1])
  {
    hide Pinned, Spared, CutOf;
    forall k: nat, p: nat | Pinned(s, k, p) && SparedInRun(states + [next], ops[..n + 1], k, p) ensures Pinned(u, k, p) {
      assert ops[..n + 1][n] == ops[n] && (states + [next])[n] == states[n];
      forall i | 0 <= i < n ensures Spared(CutOf(ops[..n][i], states[i]), k, p) {
        assert ops[..n][i] == ops[..n + 1][i] && states[i] == (states + [next])[i];
      }
    }
  }

  /** Every run on the caches is a run on flat files with the same answers, and when nothing below
      fails every operation succeeds but a write past the address space. A page that reclaim cannot
      take stays until some operation takes it away on purpose. */
  method Run(s: PageCacheSystem, ops: seq<Op>) returns (replies: seq<Reply>, ghost states: seq<Files>)
    requires s.Valid()
    modifies s
    ensures s.Valid() && RunFits(s.healthy, states, ops, replies)
    ensures states[0] == FilesOf(old(s.caches)) && states[|ops|] == FilesOf(s.caches)
    ensures RunKeepsPinned(old(s.Model()), s.Model(), states, ops)
  {
    hide PageCacheSystem.Valid, FilesOf, StepFits, Pinned, CutOf, Spared;
    replies, states := [], [FilesOf(s.caches)];
    while |replies| < |ops|
      invariant |replies| <= |ops| && s.Valid() && RunFits(s.healthy, states, ops[..|replies|], replies)
      invariant states[0] == FilesOf(old(s.caches)) && states[|replies|] == FilesOf(s.caches)
      invariant RunKeepsPinned(old(s.Model()), s.Model(), states, ops[..|replies|])
    {
      var n := |replies|;
      ghost var m := s.Model();
      var reply := Apply(s, ops[n]);
      RunGrows(s.healthy, states, ops, replies, n, reply, FilesOf(s.caches));
      PinnedGrows(old(s.Model()), m, s.Model(), states, ops, n, FilesOf(s.caches));
      replies := replies + [reply];
      states := states + [FilesOf(s.caches)];
    }
    assert ops[..|replies|] == ops;
  }

  /** A reachable run after which reclaim can never take a page: loaded, given up on advice while its
      entry stays in the queue, and loaded again. */
  method AdviceThenReload() returns (s: PageCacheSystem, k: nat)
    ensures fresh(s) && s.Valid() && s.healthy
    ensures Pinned(s.Model(), k, 0)
  {
    hide PageCacheSystem.Book, Content, AllContent, View, NamedTwice;
    s := new PageCacheSystem(true);
    k := s.NewCache([7]);
    var first := s.GetOrLoad(k, 0, 1, true);
    QueuedHasEntry(s, k, 0);
    s.EvictCleanRange(k, 0, 0, {});
    var again := s.GetOrLoad(k, 0, 1, true);
  }

  lemma QueuedHasEntry(s: PageCacheSystem, k: nat, p: nat)
    requires s.Valid() && Resident(s.Model(), k, p)
    ensures HasEntry(s.lru, k, p)
  {
  }
}
