/** Open file descriptions over the page cache: offsets, appending, and errors of writeback. */
module OpenFiles {
  import opened Bytes
  import opened PageStore
  import opened Accounting
  import opened PageCaches
  import ErrorCursors

  // ---- What offsets and appending mean on flat files ----

  /** Appending is concatenation. */
  lemma AppendIsConcat(f: seq<byte>, data: seq<byte>)
    ensures FlatWrite(f, |f|, data) == f + data
  {
  }

  /** Two reads, the second from where the first stopped, are one longer read. */
  lemma ReadsJoin(f: seq<byte>, off: nat, a: nat, b: nat)
    ensures FlatRead(f, off, a) + FlatRead(f, off + |FlatRead(f, off, a)|, b) == FlatRead(f, off, a + b)
  {
  }

  function Concat(records: seq<seq<byte>>): seq<byte> {
    if records == [] then [] else Concat(records[..|records| - 1]) + records[|records| - 1]
  }

  /** A file after records were appended of which `landed[i]` bytes arrived. */
  function Appended(f: seq<byte>, records: seq<seq<byte>>, landed: seq<nat>): seq<byte>
    requires |records| == |landed| && forall i | 0 <= i < |records| :: landed[i] <= |records[i]|
  {
    if records == [] then f else
      var n := |records| - 1;
      var g := Appended(f, records[..n], landed[..n]);
      FlatPartial(g, |g|, records[n], landed[n])
  }

  /** If every record arrived whole, the file is what it was followed by the records in order. */
  lemma {:induction false} AppendedWhole(f: seq<byte>, records: seq<seq<byte>>, landed: seq<nat>)
    requires |records| == |landed| && forall i | 0 <= i < |records| :: landed[i] == |records[i]|
    ensures Appended(f, records, landed) == f + Concat(records)
    decreases |records|
  {
    if records != [] {
      var n := |records| - 1;
      AppendedWhole(f, records[..n], landed[..n]);
      FullPartialIsWrite(f + Concat(records[..n]), |f + Concat(records[..n])|, records[n]);
      AppendIsConcat(f + Concat(records[..n]), records[n]);
      assert f + Concat(records[..n]) + records[n] == f + Concat(records);
    } else {
      assert f + [] == f;
    }
  }

  // ---- Descriptions ----

  function Code(e: Errno): ErrorCursors.Errno {
    ErrorCursors.Errno(if e == EIO then 5 else if e == ENOMEM then 12 else 22)
  }

  /** A failure that is published is added to what every description is owed. */
  predicate Recorded<T>(h: seq<ErrorCursors.Event>, h': seq<ErrorCursors.Event>, r: Result<T>, published: bool) {
    h' == if r.Err? && published then h + [ErrorCursors.Record(Code(r.error))] else h
  }

  /** The lower file holds every byte that readers see. */
  ghost predicate Durable(c: Cache) {
    forall i: nat | i < |View(c)| :: At(c.lower, i) == View(c)[i]
  }

  lemma SyncedIsDurable(c: Cache, d: Cache)
    requires Synced(c, d, Whole) && View(d) == View(c) && |View(c)| == c.size
    ensures Durable(d)
  {
  }

  class OpenFile {
    const id: nat
    const file: nat
    const append: bool
    const syncWrites: bool
    var offset: nat
    var cursor: nat

    constructor (id: nat, file: nat, append: bool, syncWrites: bool, errors: ErrorCursors.WritebackErrors)
      requires errors.Valid()
      modifies errors`history
      ensures this.id == id && this.file == file && this.append == append && this.syncWrites == syncWrites && offset == 0
      ensures errors.Valid() && errors.Owns(id, cursor) && ErrorCursors.ErrorsSince(errors.history, id) == 0
    {
      var start := errors.SampleCursor(id);
      this.id, this.file, this.append, this.syncWrites, offset, cursor := id, file, append, syncWrites, 0, start;
    }

    /** Reads at the offset and moves it past what was read. */
    method Read(s: PageCacheSystem, len: nat, readAhead: nat, markAccessed: bool) returns (r: Result<seq<byte>>)
      requires s.Valid() && file < |s.caches| && s.caches[file].live
      modifies s, this`offset
      ensures s.Valid() && AllTransparent(old(s.caches), s.caches)
      ensures r.Ok? ==> r.value == FlatRead(View(old(s.caches)[file]), old(offset), len) && offset == old(offset) + |r.value|
      ensures r.Err? ==> offset == old(offset) && !s.healthy
    {
      r := s.ReadAtAdvised(file, offset, len, readAhead, markAccessed);
      if r.Ok? {
        offset := offset + |r.value|;
      }
    }

    /** Flushes the cache and the metadata, and publishes a failure to every description. */
    method Flush(s: PageCacheSystem, errors: ErrorCursors.WritebackErrors) returns (r: Result<()>)
      requires s.Valid() && file < |s.caches| && s.caches[file].live && errors.Valid()
      modifies s, errors
      ensures s.Valid() && OthersTransparent(old(s.caches), s.caches, file) && s.caches[file].live && errors.Valid()
      ensures View(s.caches[file]) == View(old(s.caches)[file])
      ensures Recorded(old(errors.history), errors.history, r, true)
      ensures r.Ok? ==> forall p | p in s.caches[file].pages :: !s.caches[file].pages[p].dirty
      ensures r.Ok? ==> Durable(s.caches[file])
      ensures r.Err? ==> !s.healthy
      ensures forall f, c | old(errors.Owns(f, c)) :: errors.Owns(f, c)
    {
      hide View, PageView, Content, AllContent, PageCacheSystem.Book;
      r := s.SyncInner(file, Whole);
      SameViewView(old(s.caches)[file], s.caches[file]);
      ViewLength(old(s.caches)[file]);
      if r.Ok? {
        SyncedIsDurable(old(s.caches)[file], s.caches[file]);
      }
      var metadataFails: bool := *;
      if r.Ok? && metadataFails && !s.healthy {
        r := Err(EIO);
      }
      if r.Err? {
        errors.RecordError(Code(r.error));
      }
    }

    /** Truncates the file. The offset is pulled back to its new end, but not if the flush after a
        shrink fails; that failure is published, one of the lower truncate is not. */
    method Truncate(s: PageCacheSystem, errors: ErrorCursors.WritebackErrors, n: nat) returns (r: Result<()>, truncated: bool)
      requires s.Valid() && file < |s.caches| && s.caches[file].live && errors.Valid()
      modifies s, errors, this`offset
      ensures s.Valid() && OthersTransparent(old(s.caches), s.caches, file) && s.caches[file].live && errors.Valid()
      ensures View(s.caches[file]) == if truncated then FlatTruncate(View(old(s.caches)[file]), n) else View(old(s.caches)[file])
      ensures if r.Ok? then truncated && offset == Min(old(offset), n) else !s.healthy && offset == old(offset)
      ensures Recorded(old(errors.history), errors.history, r, truncated)
    {
      hide View, FlatTruncate, Content, AllContent, PageCacheSystem.Book;
      var shrinks := n < s.caches[file].size;
      r, truncated := s.Truncate(file, n);
      var metadataFails: bool := *;
      if r.Ok? && shrinks && metadataFails && !s.healthy {
        r := Err(EIO);
      }
      if r.Err? {
        if truncated {
          errors.RecordError(Code(r.error));
        }
        return;
      }
      if offset > n {
        offset := n;
      }
    }

    /** Punches a hole. A failure of writing back what meets it is published, a later one is not. */
    method Punch(s: PageCacheSystem, errors: ErrorCursors.WritebackErrors, at: nat, len: nat) returns (r: Result<()>, synced: bool)
      requires s.Valid() && file < |s.caches| && s.caches[file].live && errors.Valid()
      modifies s, errors
      ensures s.Valid() && OthersTransparent(old(s.caches), s.caches, file) && s.caches[file].live && errors.Valid()
      ensures View(s.caches[file]) == if r.Ok? then FlatPunch(View(old(s.caches)[file]), at, len) else View(old(s.caches)[file])
      ensures (r.Ok? ==> synced) && (r.Err? ==> !s.healthy) && Recorded(old(errors.history), errors.history, r, !synced)
    {
      hide View, FlatPunch, Content, AllContent, PageCacheSystem.Book;
      r, synced := s.PunchHole(file, at, len);
      if !synced {
        errors.RecordError(Code(r.error));
      }
    }

    /** Writes at `at`. The file is then the flat file with what landed of the data. Updating the times,
        flushing and the barrier of a synchronous write may still fail. */
    method WriteLocked(s: PageCacheSystem, errors: ErrorCursors.WritebackErrors, at: nat, data: seq<byte>)
      returns (r: Result<nat>, landed: nat, ghost published: bool)
      requires s.Valid() && file < |s.caches| && s.caches[file].live && errors.Valid()
      modifies s, errors
      ensures s.Valid() && OthersTransparent(old(s.caches), s.caches, file) && s.caches[file].live && errors.Valid()
      ensures landed <= |data| && (r.Ok? ==> r.value == landed == |data|)
      ensures View(s.caches[file]) ==
        if at + |data| > USIZE_MAX then View(old(s.caches)[file]) else FlatPartial(View(old(s.caches)[file]), at, data, landed)
      ensures r.Err? ==> !s.healthy || at + |data| > USIZE_MAX
      ensures r.Ok? && syncWrites && data != [] ==>
        Durable(s.caches[file]) && forall p | p in s.caches[file].pages :: !s.caches[file].pages[p].dirty
      ensures r.Ok? ==> errors.history == old(errors.history)
      ensures Recorded(old(errors.history), errors.history, r, published)
    {
      hide View, PageView, Content, AllContent, PageCacheSystem.Book, FlatPartial, Durable;
      published := false;
      r, landed := s.WriteAt(file, at, data);
      if r.Err? || r.value == 0 {
        return;
      }
      var timesFail: bool := *;
      if timesFail && !s.healthy {
        return Err(EIO), landed, false;
      }
      var needsWriteback: bool := *;
      if syncWrites || needsWriteback {
        ghost var c1 := s.caches;
        var w := Flush(s, errors);
        OthersTransitive(old(s.caches), c1, s.caches, file);
        if w.Err? {
          return Err(w.error), landed, true;
        }
      }
      var barrierFails: bool := *;
      if syncWrites && barrierFails && !s.healthy {
        return Err(EIO), landed, false;
      }
    }

    /** Where a write goes: to the end of the file if appending. */
    function Target(c: Cache, at: nat): nat {
      if append then c.size else at
    }

    /** Writes at the offset, or at the end of the file if appending. The offset moves only past a write
        that is reported as done. */
    method Write(s: PageCacheSystem, errors: ErrorCursors.WritebackErrors, data: seq<byte>) returns (r: Result<nat>, landed: nat)
      requires s.Valid() && file < |s.caches| && s.caches[file].live && errors.Valid()
      modifies s, errors, this`offset
      ensures s.Valid() && OthersTransparent(old(s.caches), s.caches, file) && s.caches[file].live && errors.Valid()
      ensures landed <= |data| && (r.Ok? ==> r.value == landed == |data|)
      ensures
        var at := if append then |View(old(s.caches)[file])| else old(offset);
        && offset == (if r.Ok? then at + |data| else at)
        && View(s.caches[file]) == (if at + |data| > USIZE_MAX then View(old(s.caches)[file]) else FlatPartial(View(old(s.caches)[file]), at, data, landed))
        && (r.Err? ==> !s.healthy || at + |data| > USIZE_MAX)
      ensures r.Ok? && syncWrites && data != [] ==> Durable(s.caches[file])
    {
      hide View, PageView, Content, AllContent, PageCacheSystem.Book, FlatPartial, Durable;
      ViewLength(s.caches[file]);
      offset := Target(s.caches[file], offset);
      ghost var published;
      r, landed, published := WriteLocked(s, errors, offset, data);
      if r.Ok? {
        offset := offset + r.value;
      }
    }

    /** A positioned write leaves the offset alone, and appends all the same. */
    method WriteAtOffset(s: PageCacheSystem, errors: ErrorCursors.WritebackErrors, at: nat, data: seq<byte>) returns (r: Result<nat>, landed: nat)
      requires s.Valid() && file < |s.caches| && s.caches[file].live && errors.Valid()
      modifies s, errors
      ensures s.Valid() && OthersTransparent(old(s.caches), s.caches, file) && s.caches[file].live && errors.Valid()
      ensures landed <= |data| && (r.Ok? ==> r.value == landed == |data|)
      ensures
        var pos := if append then |View(old(s.caches)[file])| else at;
        && View(s.caches[file]) == (if pos + |data| > USIZE_MAX then View(old(s.caches)[file]) else FlatPartial(View(old(s.caches)[file]), pos, data, landed))
        && (r.Err? ==> !s.healthy || pos + |data| > USIZE_MAX)
    {
      hide View, PageView, Content, AllContent, PageCacheSystem.Book, FlatPartial, Durable;
      ViewLength(s.caches[file]);
      ghost var published;
      r, landed, published := WriteLocked(s, errors, Target(s.caches[file], at), data);
    }

    /** Flushes, then reports any writeback error this description has not seen yet, then passes the
        metadata and the barrier on. Success means that nothing is dirty and that nothing was owed. */
    method Fsync(s: PageCacheSystem, errors: ErrorCursors.WritebackErrors) returns (ok: bool)
      requires s.Valid() && file < |s.caches| && s.caches[file].live && errors.Valid() && errors.Owns(id, cursor)
      modifies s, errors, this`cursor
      ensures s.Valid() && OthersTransparent(old(s.caches), s.caches, file) && s.caches[file].live
      ensures View(s.caches[file]) == View(old(s.caches)[file])
      ensures errors.Valid() && errors.Owns(id, cursor) && ErrorCursors.ErrorsSince(errors.history, id) == 0
      ensures ok ==> ErrorCursors.ErrorsSince(old(errors.history), id) % ErrorCursors.WORD == 0
      ensures ok ==> Durable(s.caches[file]) && forall p | p in s.caches[file].pages :: !s.caches[file].pages[p].dirty
      ensures s.healthy && ErrorCursors.ErrorsSince(old(errors.history), id) % ErrorCursors.WORD == 0 ==> ok
    {
      hide View, PageView, Content, AllContent, PageCacheSystem.Book;
      var w := Flush(s, errors);
      var answer, next := errors.CheckCursor(id, cursor);
      cursor := next;
      if w.Err? || answer != ErrorCursors.Fine {
        return false;
      }
      var metadataFails: bool := *;
      ok := !metadataFails || s.healthy;
    }
  }

  lemma ViewLength(c: Cache)
    ensures |View(c)| == c.size
  {
  }

  /** Appends through any descriptions of one file, in any order, with any failures: what each
      append leaves is put after what the ones before it left, and nothing overwrites anything. */
  method AppendAll(s: PageCacheSystem, errors: ErrorCursors.WritebackErrors, k: nat, writers: seq<OpenFile>, records: seq<seq<byte>>)
    returns (landed: seq<nat>)
    requires s.Valid() && k < |s.caches| && s.caches[k].live && |writers| == |records| && errors.Valid()
    requires forall i | 0 <= i < |writers| :: writers[i].file == k && writers[i].append
    requires |View(s.caches[k])| + |Concat(records)| <= USIZE_MAX
    modifies s, errors, writers
    ensures s.Valid() && k < |s.caches| && s.caches[k].live
    ensures |landed| == |records| && forall i | 0 <= i < |records| :: landed[i] <= |records[i]|
    ensures View(s.caches[k]) == Appended(View(old(s.caches)[k]), records, landed)
  {
    hide View, PageView, Content, AllContent, PageCacheSystem.Book, FlatPartial, Appended, Concat;
    landed := [];
    ghost var f := View(s.caches[k]);
    NothingAppended(f, records);
    while |landed| < |records|
      invariant |landed| <= |records| && s.Valid() && k < |s.caches| && s.caches[k].live && errors.Valid()
      invariant forall i | 0 <= i < |landed| :: landed[i] <= |records[i]|
      invariant View(s.caches[k]) == Appended(f, records[..|landed|], landed)
      invariant |View(s.caches[k])| == |f| + |Concat(records[..|landed|])|
    {
      var n := |landed|;
      ghost var g := View(s.caches[k]);
      PartialLength(g, records[n]);
      ConcatPrefix(records, n);
      var r, m := writers[n].Write(s, errors, records[n]);
      AppendOne(f, records, n, landed, m);
      landed := landed + [m];
    }
    assert records[..|landed|] == records;
  }

  lemma NothingAppended(f: seq<byte>, records: seq<seq<byte>>)
    ensures Appended(f, records[..0], []) == f && Concat(records[..0]) == []
  {
  }

  lemma AppendOne(f: seq<byte>, records: seq<seq<byte>>, n: nat, landed: seq<nat>, m: nat)
    requires n == |landed| < |records| && m <= |records[n]| && forall i | 0 <= i < n :: landed[i] <= |records[i]|
    ensures var g := Appended(f, records[..n], landed);
      Appended(f, records[..n + 1], landed + [m]) == FlatPartial(g, |g|, records[n], m)
  {
    assert records[..n + 1][..n] == records[..n] && (landed + [m])[..n] == landed;
  }

  lemma PartialLength(f: seq<byte>, data: seq<byte>)
    ensures forall m: nat | m <= |data| :: |FlatPartial(f, |f|, data, m)| == |f| + |data|
  {
  }

  lemma {:induction false} ConcatPrefix(records: seq<seq<byte>>, n: nat)
    requires n < |records|
    ensures |Concat(records[..n + 1])| == |Concat(records[..n])| + |records[n]| <= |Concat(records)|
    decreases |records|
  {
    assert records[..n + 1][..n] == records[..n];
    if n + 1 == |records| {
      assert records[..n + 1] == records;
    } else {
      var rest := records[..|records| - 1];
      assert rest[..n + 1] == records[..n + 1] && rest[..n] == records[..n];
      ConcatPrefix(rest, n);
    }
  }
}
