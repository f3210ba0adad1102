/** The global dentry cache over one filesystem: a map from path strings to dentries that must
    agree with the lower directory tree. */
module DentryCache {
  import opened Paths
  import opened Namespace

  const DENTRY_CACHE_CAPACITY: nat := 16 * 1024

  datatype Errno = ENOENT | ENOTDIR | EISDIR | EEXIST | EACCES | EPERM | EBUSY | EINVAL | ENOTEMPTY | ELOOP | ENAMETOOLONG | EIO
  datatype Result<T> = Ok(value: T) | Err(error: Errno)

  datatype Dentry = Dentry(path: Path, inode: Inode)

  type Cache = map<string, Dentry>

  /** A dentry the tree still agrees with. */
  predicate Live(t: Tree, d: Dentry) {
    d.path in t && t[d.path] == d.inode
  }

  predicate EntryAgrees(t: Tree, c: Cache, s: string)
    requires s in c
  {
    Render(c[s].path) == s && Live(t, c[s])
  }

  /** Every cached string is the path of its dentry, and names in the tree what the dentry says. */
  predicate Coherent(t: Tree, c: Cache) {
    forall s | s in c :: EntryAgrees(t, c, s)
  }

  /** Cached strings are the paths of their dentries. */
  predicate Keyed(c: Cache) {
    forall s | s in c :: Render(c[s].path) == s && ValidPath(c[s].path)
  }

  lemma CoherentIsKeyed(t: Tree, c: Cache)
    requires WellFormed(t) && Coherent(t, c)
    ensures Keyed(c)
  {
    forall s | s in c ensures Render(c[s].path) == s && ValidPath(c[s].path) {
      assert EntryAgrees(t, c, s) && EntryOk(t, c[s].path);
    }
  }

  /** What the lower filesystem answers for an entry of a directory. */
  function LowerLookup(t: Tree, dir: Dentry, name: string): Result<Dentry> {
    if dir.inode.kind != Directory then Err(ENOTDIR)
    else if dir.path + [name] in t then Ok(Dentry(dir.path + [name], t[dir.path + [name]]))
    else Err(ENOENT)
  }

  /** An entry is found exactly if the tree has it; otherwise the directory is none, or has no such entry. */
  lemma LookupMeans(t: Tree, dir: Dentry, name: string)
    requires WellFormed(t) && Live(t, dir)
    ensures var r, p := LowerLookup(t, dir, name), dir.path + [name];
      && (p in t ==> r == Ok(Dentry(p, t[p])))
      && (p !in t ==> r == Err(if t[dir.path].kind == Directory then ENOENT else ENOTDIR))
  {
    var p := dir.path + [name];
    if p in t { assert EntryOk(t, p) && Parent(p) == dir.path; }
  }

  /** A cache hit is what the lower lookup would have found. */
  lemma HitIsLookup(t: Tree, c: Cache, dir: Dentry, name: string)
    requires WellFormed(t) && Coherent(t, c) && Live(t, dir) && ValidName(name)
    requires ChildAbsPath(Render(dir.path), name) in c
    ensures LowerLookup(t, dir, name) == Ok(c[ChildAbsPath(Render(dir.path), name)])
  {
    var s := ChildAbsPath(Render(dir.path), name);
    assert EntryAgrees(t, c, s) && EntryOk(t, dir.path) && EntryOk(t, c[s].path);
    ChildRenders(dir.path, name);
    RenderInjective(c[s].path, dir.path + [name]);
    assert Parent(c[s].path) == dir.path;
  }

  /** Every dentry of `d` was in `c`. */
  predicate Shrunk(c: Cache, d: Cache) {
    d.Keys <= c.Keys && forall s | s in d :: d[s] == c[s]
  }

  lemma ShrunkIsCoherent(t: Tree, c: Cache, d: Cache)
    requires Coherent(t, c) && Shrunk(c, d)
    ensures Coherent(t, d)
  {
  }

  /** `d` is `c` with entries dropped and at most the dentry of string `key` added. */
  predicate Grown(c: Cache, d: Cache, key: string) {
    d.Keys <= c.Keys + {key} && forall s | s in d && s != key :: d[s] == c[s]
  }

  /** No cached dentry lies at or below `p`. */
  predicate TreeDropped(c: Cache, p: Path) {
    forall s | s in c :: !(p <= c[s].path)
  }

  // ---- Coherence when the tree changes ----

  lemma AddStaysCoherent(t: Tree, c: Cache, p: Path, inode: Inode)
    requires Coherent(t, c) && p !in t
    ensures Coherent(t[p := inode], c)
  {
  }

  lemma RemoveStaysCoherent(t: Tree, c: Cache, p: Path)
    requires Coherent(t, c) && TreeDropped(c, p)
    ensures Coherent(t - {p}, c)
  {
  }

  lemma RenameStaysCoherent(t: Tree, c: Cache, a: Path, b: Path)
    requires WellFormed(t) && CanRename(t, a, b) && Coherent(t, c) && TreeDropped(c, a)
    ensures Coherent(RenameTree(t, a, b), c)
  {
    hide RenameTree;
    forall s | s in c ensures EntryAgrees(RenameTree(t, a, b), c, s) {
      assert EntryAgrees(t, c, s);
      var q := c[s].path;
      if b <= q { AncestorsExist(t, b, q); }
      RenameMeaning(t, a, b, q);
    }
  }

  /** `r` is the answer owed, or the lower filesystem failed. */
  predicate Answers<T(==)>(healthy: bool, r: Result<T>, owed: Result<T>) {
    r == owed || (!healthy && r == Err(EIO))
  }

  class Dcache {
    var tree: Tree
    var cache: Cache
    /** A healthy lower filesystem does whatever can be done. */
    const healthy: bool

    ghost predicate Valid()
      reads this
    {
      WellFormed(tree) && Coherent(tree, cache)
    }

    constructor (t: Tree, healthy: bool)
      requires WellFormed(t)
      ensures Valid() && tree == t && this.healthy == healthy
    {
      tree, cache := t, map[];
      this.healthy := healthy;
    }

    /** Adds a dentry, first evicting one that nobody else holds if the cache is full. */
    method Insert(d: Dentry, held: set<string>)
      requires Coherent(tree, cache) && Live(tree, d)
      modifies this`cache
      ensures Coherent(tree, cache)
      ensures Grown(old(cache), cache, Render(d.path)) && Render(d.path) in cache && cache[Render(d.path)] == d
      ensures |cache| <= DENTRY_CACHE_CAPACITY || |cache| <= |old(cache)| || old(cache).Keys <= held
    {
      hide Render;
      var kept := cache;
      if |cache| >= DENTRY_CACHE_CAPACITY {
        var free := set s | s in cache && s !in held;
        if free != {} {
          var victim :| victim in free;
          kept := cache - {victim};
          DropSize(cache, victim);
        } else {
          assert forall s | s in cache :: s in held by {
            forall s | s in cache ensures s in held { assert s !in free; }
          }
        }
      }
      assert Shrunk(cache, kept);
      ShrunkIsCoherent(tree, cache, kept);
      cache := kept[Render(d.path) := d];
      InsertSize(kept, Render(d.path), d);
      forall s | s in cache ensures EntryAgrees(tree, cache, s) {
        if s != Render(d.path) { assert EntryAgrees(tree, kept, s); }
      }
    }

    /** Drops the dentry of a path and everything below it, comparing strings. */
    method RemoveTree(p: Path)
      requires Keyed(cache) && ValidPath(p)
      modifies this`cache
      ensures Keyed(cache) && Shrunk(old(cache), cache) && TreeDropped(cache, p)
      ensures forall s | s in old(cache) && s !in cache :: p <= old(cache)[s].path
    {
      ghost var before := cache;
      var abs := Render(p);
      cache := cache - {abs};
      var prefix := TreePrefix(abs);
      var keys := set s | s in cache && prefix <= s;
      while keys != {}
        invariant Shrunk(before, cache) && abs !in cache
        invariant forall s | s in before && s !in cache :: s == abs || prefix <= s
        invariant forall s | s in cache && prefix <= s :: s in keys
      {
        var key :| key in keys;
        cache := cache - {key};
        keys := keys - {key};
      }
      forall s | s in before ensures s in cache <==> !(p <= before[s].path) {
        InTree(p, before[s].path);
      }
    }

    /** Drops everything that only the cache holds. */
    method Clean(held: set<string>)
      requires Valid()
      modifies this`cache
      ensures Valid() && Shrunk(old(cache), cache)
      ensures forall s | s in old(cache) :: s in cache <==> s in held
    {
      ghost var before := cache;
      var keys := set s | s in cache && s !in held;
      cache := cache - keys;
      ShrunkIsCoherent(tree, before, cache);
    }

    /** Finds an entry of a directory: the cache first, then the lower filesystem. The answer is the
        lower filesystem's either way, and a cached entry is found even if the lower one fails. */
    method Lookup(dir: Dentry, name: string, held: set<string>) returns (r: Result<Dentry>)
      requires Valid() && Live(tree, dir) && ValidName(name)
      modifies this`cache
      ensures Valid() && Answers(healthy, r, LowerLookup(tree, dir, name))
      ensures Render(dir.path + [name]) in old(cache) ==> r == LowerLookup(tree, dir, name)
      ensures if r.Ok? then Live(tree, r.value) && Render(dir.path + [name]) in cache else cache == old(cache)
      ensures Grown(old(cache), cache, Render(dir.path + [name]))
    {
      ChildRenders(dir.path, name) by { assert EntryOk(tree, dir.path); }
      var abs := ChildAbsPath(Render(dir.path), name);
      if abs in cache {
        HitIsLookup(tree, cache, dir, name);
        return Ok(cache[abs]);
      }
      var fault: bool := *;
      if fault && !healthy {
        return Err(EIO);
      }
      r := LowerLookup(tree, dir, name);
      if r.Ok? {
        Insert(r.value, held);
      }
    }
  }

  lemma InsertSize(c: Cache, s: string, d: Dentry)
    ensures |c[s := d]| == |c| + if s in c then 0 else 1
  {
  }

  lemma DropSize(c: Cache, s: string)
    requires s in c
    ensures |c - {s}| == |c| - 1
  {
  }
}
