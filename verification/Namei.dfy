/** Changing the namespace: create, link, unlink and rename on the lower tree and the dentry cache
    together. The parent directory and the last name have been found by a path walk. Failures of
    the lower filesystem are nondeterministic; `allowed` stands for the permission checks. */
module Namei {
  import opened Paths
  import opened Namespace
  import opened DentryCache

  // ---- The lower filesystem's operations ----

  method LowerAdd(v: Dcache, p: Path, inode: Inode) returns (ok: bool)
    modifies v`tree
    ensures ok ==> CanAdd(old(v.tree), p) && v.tree == old(v.tree)[p := inode]
    ensures !ok ==> v.tree == old(v.tree)
    ensures v.healthy && CanAdd(old(v.tree), p) ==> ok
  {
    var fault: bool := *;
    ok := (!fault || v.healthy) && CanAdd(v.tree, p);
    if ok {
      v.tree := v.tree[p := inode];
    }
  }

  method LowerRemove(v: Dcache, p: Path) returns (ok: bool)
    modifies v`tree
    ensures ok ==> CanRemove(old(v.tree), p) && v.tree == old(v.tree) - {p}
    ensures !ok ==> v.tree == old(v.tree)
    ensures v.healthy && CanRemove(old(v.tree), p) ==> ok
  {
    var fault: bool := *;
    ok := (!fault || v.healthy) && CanRemove(v.tree, p);
    if ok {
      v.tree := v.tree - {p};
    }
  }

  /** What the lower filesystem says to a rename. It enters the new name before it removes the old one,
      which for the root is not there. */
  function RenameAnswer(t: Tree, a: Path, b: Path): Result<()> {
    if b == [] then Err(EINVAL)
    else if !IsDir(t, Parent(b)) || |b[|b| - 1]| > NAME_MAX then Err(ENOENT)
    else if b in t then Err(EEXIST)
    else if a == [] then Err(ENOENT)
    else Ok(())
  }

  /** A directory other than the root is to be moved into itself. */
  predicate IntoItself(t: Tree, a: Path, b: Path) {
    a != [] && IsDir(t, a) && a < b
  }

  lemma RenameAnswerMeans(t: Tree, a: Path, b: Path)
    requires WellFormed(t) && a in t && !IntoItself(t, a, b) && (b != [] ==> ValidName(b[|b| - 1]))
    ensures RenameAnswer(t, a, b).Ok? <==> CanRename(t, a, b)
  {
    if RenameAnswer(t, a, b).Ok? && a < b && a != Parent(b) {
      assert a < Parent(b);
      OnlyDirsHold(t, a, Parent(b));
    }
    assert a <= b ==> a == b || a < b;
  }

  /** The lower filesystem would not notice that a directory is moved into itself, so it must not be
      asked to. */
  method LowerRename(v: Dcache, a: Path, b: Path) returns (r: Result<()>)
    requires WellFormed(v.tree) && a in v.tree && !IntoItself(v.tree, a, b) && (b != [] ==> ValidName(b[|b| - 1]))
    modifies v`tree
    ensures Answers(v.healthy, r, RenameAnswer(old(v.tree), a, b))
    ensures r.Ok? ==> CanRename(old(v.tree), a, b) && v.tree == RenameTree(old(v.tree), a, b)
    ensures r.Err? ==> v.tree == old(v.tree)
  {
    var fault: bool := *;
    r := if fault && !v.healthy then Err(EIO) else RenameAnswer(v.tree, a, b);
    RenameAnswerMeans(v.tree, a, b);
    if r.Ok? {
      v.tree := RenameTree(v.tree, a, b);
    }
  }

  // ---- The answers owed to the caller, from the lower tree alone ----

  /** Whether an entry may be added: the errno if not. */
  function AddCheck(t: Tree, dir: Dentry, name: string, allowed: bool, isDir: bool): Result<()> {
    if name == "." || name == ".." then Err(EEXIST)
    else if !allowed then Err(EACCES)
    else if isDir then Err(EPERM)
    else if LowerLookup(t, dir, name).Ok? then Err(EEXIST)
    else if LowerLookup(t, dir, name).error != ENOENT then Err(LowerLookup(t, dir, name).error)
    else Ok(())
  }

  function RemoveCheck(t: Tree, dir: Dentry, name: string, removeDir: bool, requiresDirectory: bool, allowed: bool): Result<()> {
    if name == "." || name == ".." then Err(if removeDir then EINVAL else EISDIR)
    else if !allowed then Err(EACCES)
    else if LowerLookup(t, dir, name).Err? then Err(LowerLookup(t, dir, name).error)
    else
      var isDir := LowerLookup(t, dir, name).value.inode.kind == Directory;
      if (requiresDirectory || removeDir) && !isDir then Err(ENOTDIR)
      else if isDir && !removeDir then Err(EISDIR)
      else if isDir && !NothingBelow(t, dir.path + [name]) then Err(ENOTEMPTY)
      else Ok(())
  }

  /** Whether a rename goes ahead: `Ok(false)` if there is nothing to do. */
  function RenameCheck(t: Tree, source: Dentry, dir: Dentry, name: string, noReplace: bool, requiresDirectory: bool, allowed: bool): Result<bool> {
    var b := dir.path + [name];
    if name == "." || name == ".." then Err(EBUSY)
    else if !allowed then Err(EACCES)
    else if source.path == b then (if noReplace then Err(EEXIST) else Ok(false))
    else if requiresDirectory && source.inode.kind != Directory then Err(ENOTDIR)
    else if source.inode.kind == Directory && source.path != [] && source.path < b then Err(EINVAL)
    else LateCheck(t, source, dir, name, noReplace)
  }

  /** The part of the check that looks at the target. */
  function LateCheck(t: Tree, source: Dentry, dir: Dentry, name: string, noReplace: bool): Result<bool> {
    if LowerLookup(t, dir, name).Ok? then TargetCheck(t, source, LowerLookup(t, dir, name).value, noReplace) else Ok(true)
  }

  /** What the lower filesystem still says to a rename that has passed the checks. An old target is set
      aside first, under a name that can be too long or taken. */
  function RenameVerdict(t: Tree, source: Dentry, dir: Dentry, name: string): Result<()> {
    var b := dir.path + [name];
    if dir.inode.kind != Directory then Err(ENOENT)
    else if b in t && |BackupName(name, t[b].ino)| > NAME_MAX then Err(ENOENT)
    else if b in t && dir.path + [BackupName(name, t[b].ino)] in t then Err(EEXIST)
    else if source.path == [] then Err(ENOENT)
    else Ok(())
  }

  /** What a rename is told after its check. */
  function Owed(t: Tree, source: Dentry, dir: Dentry, name: string, check: Result<bool>): Result<()> {
    match check
    case Err(e) => Err(e)
    case Ok(goesAhead) => if goesAhead then RenameVerdict(t, source, dir, name) else Ok(())
  }

  /** A lookup of the target that fails is taken for a target that is not there; the lower filesystem
      then finds it. */
  predicate TargetMissed(healthy: bool, t: Tree, b: Path, r: Result<()>) {
    !healthy && b in t && r == Err(EEXIST)
  }

  // ---- What the answers come to, on the tree ----

  /** When an entry may be added, and why not otherwise. */
  lemma AddMeans(t: Tree, dir: Dentry, name: string, allowed: bool, isDir: bool)
    requires WellFormed(t) && Live(t, dir)
    ensures var r, p := AddCheck(t, dir, name, allowed, isDir), dir.path + [name];
      && (r.Ok? <==> name != "." && name != ".." && allowed && !isDir && t[dir.path].kind == Directory && p !in t)
      && (r == Err(EEXIST) <==> name == "." || name == ".." || (allowed && !isDir && p in t))
      && (r == Err(EACCES) <==> name != "." && name != ".." && !allowed)
      && (r == Err(EPERM) <==> name != "." && name != ".." && allowed && isDir)
      && (r == Err(ENOTDIR) <==> name != "." && name != ".." && allowed && !isDir && t[dir.path].kind != Directory)
  {
    if dir.path + [name] in t { assert EntryOk(t, dir.path + [name]) && Parent(dir.path + [name]) == dir.path; }
  }

  /** When an entry may be removed, and why not otherwise. */
  lemma RemoveMeans(t: Tree, dir: Dentry, name: string, removeDir: bool, requiresDirectory: bool, allowed: bool)
    requires WellFormed(t) && Live(t, dir)
    ensures var r, p := RemoveCheck(t, dir, name, removeDir, requiresDirectory, allowed), dir.path + [name];
      && (r.Ok? <==>
            name != "." && name != ".." && allowed && CanRemove(t, p) &&
            (removeDir <==> t[p].kind == Directory) && (requiresDirectory ==> t[p].kind == Directory))
      && (r == Err(EINVAL) <==> (name == "." || name == "..") && removeDir)
      && (r == Err(EACCES) <==> name != "." && name != ".." && !allowed)
      && (r == Err(ENOENT) <==> name != "." && name != ".." && allowed && t[dir.path].kind == Directory && p !in t)
      && (r == Err(ENOTDIR) <==>
            name != "." && name != ".." && allowed &&
            (t[dir.path].kind != Directory || (p in t && t[p].kind != Directory && (requiresDirectory || removeDir))))
      && (r == Err(EISDIR) <==>
            !removeDir &&
            (name == "." || name == ".." || (allowed && p in t && t[p].kind == Directory)))
      && (r == Err(ENOTEMPTY) <==>
            name != "." && name != ".." && allowed && removeDir && p in t && t[p].kind == Directory &&
            exists q :: q in t && p < q)
  {
    var p := dir.path + [name];
    if p in t {
      assert EntryOk(t, p) && Parent(p) == dir.path;
      if t[p].kind != Directory { FilesHoldNothing(t, p); }
    }
  }

  /** A rename goes ahead, or there is nothing to do, or it is refused. */
  lemma RenameMeans(t: Tree, source: Dentry, dir: Dentry, name: string, noReplace: bool, requiresDirectory: bool, allowed: bool)
    requires WellFormed(t) && Live(t, source) && Live(t, dir)
    ensures var r, a, b := RenameCheck(t, source, dir, name, noReplace, requiresDirectory, allowed), source.path, dir.path + [name];
      var asked := name != "." && name != ".." && allowed;
      var isDir := t[a].kind == Directory;
      var fits := asked && a != b && (requiresDirectory ==> isDir) && !(isDir && a != [] && a < b);
      && (r == Ok(true) <==> fits && (b in t ==> !noReplace && (isDir <==> t[b].kind == Directory) && t[a].ino != t[b].ino && NothingBelow(t, b)))
      && (r == Ok(false) <==>
            !noReplace && asked &&
            (a == b || (fits && b in t && (isDir <==> t[b].kind == Directory) && t[a].ino == t[b].ino)))
      && (r == Err(EBUSY) <==> name == "." || name == "..")
      && (r == Err(EACCES) <==> name != "." && name != ".." && !allowed)
      && (r == Err(EEXIST) <==> noReplace && asked && (a == b || (fits && b in t)))
      && (r == Err(EINVAL) <==> asked && isDir && a != [] && a < b)
      && (r == Err(EISDIR) <==> fits && b in t && !noReplace && !isDir && t[b].kind == Directory)
      && (r == Err(ENOTDIR) <==>
            (asked && a != b && !isDir && requiresDirectory) ||
            (fits && b in t && !noReplace && isDir && t[b].kind != Directory))
      && (r == Err(ENOTEMPTY) <==>
            fits && b in t && !noReplace && isDir && t[b].kind == Directory && t[a].ino != t[b].ino &&
            exists q :: q in t && b < q)
  {
    var b := dir.path + [name];
    if b in t {
      assert EntryOk(t, b) && Parent(b) == dir.path;
      if t[b].kind != Directory { FilesHoldNothing(t, b); }
    }
  }

  /** When the lower filesystem agrees to a rename that has passed the checks. */
  lemma VerdictMeans(t: Tree, source: Dentry, dir: Dentry, name: string)
    requires WellFormed(t) && Live(t, dir)
    ensures var r, b := RenameVerdict(t, source, dir, name), dir.path + [name];
      && (r.Ok? <==>
            t[dir.path].kind == Directory && source.path != [] &&
            (b in t ==> |BackupName(name, t[b].ino)| <= 255 && dir.path + [BackupName(name, t[b].ino)] !in t))
      && (r == Err(EEXIST) <==> b in t && |BackupName(name, t[b].ino)| <= 255 && dir.path + [BackupName(name, t[b].ino)] in t)
      && (r.Err? ==> r == Err(EEXIST) || r == Err(ENOENT))
  {
    var b := dir.path + [name];
    if b in t { assert EntryOk(t, b) && Parent(b) == dir.path; }
  }

  // ---- create ----

  /** Creates an entry. The new dentry is published only when the lower entry and its owner and mode
      are in place; otherwise the lower entry is removed again. `undone` is false only if that
      removal failed, and then the cache still does not show the entry. */
  method Create(v: Dcache, dir: Dentry, name: string, inode: Inode, allowed: bool, held: set<string>)
    returns (r: Result<Dentry>, undone: bool)
    requires v.Valid() && Live(v.tree, dir) && ValidName(name) && |name| <= NAME_MAX
    modifies v
    ensures v.Valid()
    ensures r.Ok? ==> dir.path + [name] !in old(v.tree) && r.value == Dentry(dir.path + [name], inode)
    ensures r.Ok? ==> Render(dir.path + [name]) in v.cache && v.cache[Render(dir.path + [name])] == r.value
    ensures v.tree == if r.Ok? || !undone then old(v.tree)[dir.path + [name] := inode] else old(v.tree)
    ensures r.Err? && dir.path + [name] !in old(v.tree) ==> v.cache == old(v.cache)
    ensures var check := AddCheck(old(v.tree), dir, name, allowed, false);
      if check.Err? then Answers(v.healthy, r, Err(check.error)) && undone else r.Err? ==> r == Err(EIO) && !v.healthy
    ensures v.healthy ==> (r.Ok? <==> name != "." && name != ".." && allowed && old(v.tree)[dir.path].kind == Directory &&
                                      dir.path + [name] !in old(v.tree))
  {
    hide Coherent, Grown, Render;
    AddMeans(v.tree, dir, name, allowed, false);
    undone := true;
    if name == "." || name == ".." {
      return Err(EEXIST), true;
    }
    if !allowed {
      return Err(EACCES), true;
    }
    var found := v.Lookup(dir, name, held);
    if found.Ok? {
      return Err(EEXIST), true;
    }
    if found.error != ENOENT {
      return Err(found.error), true;
    }
    var p := dir.path + [name];
    ghost var t := v.tree;
    var created := LowerAdd(v, p, inode);
    if !created {
      return Err(EIO), true;
    }
    AddKeepsWellFormed(t, p, inode);
    AddStaysCoherent(t, v.cache, p, inode);
    var configured: bool := *;
    if !configured && !v.healthy {
      undone := LowerRemove(v, p);
      assert undone ==> v.tree == t;
      return Err(EIO), undone;
    }
    v.Insert(Dentry(p, inode), held);
    return Ok(Dentry(p, inode)), true;
  }

  // ---- link ----

  /** Gives an inode that is not a directory a second name. */
  method Link(v: Dcache, oldDentry: Dentry, dir: Dentry, name: string, allowed: bool, held: set<string>)
    returns (r: Result<()>)
    requires v.Valid() && Live(v.tree, oldDentry) && Live(v.tree, dir) && ValidName(name) && |name| <= NAME_MAX
    modifies v
    ensures v.Valid()
    ensures r.Ok? ==> oldDentry.inode.kind != Directory && dir.path + [name] !in old(v.tree)
    ensures r.Ok? ==> Render(dir.path + [name]) in v.cache && v.cache[Render(dir.path + [name])] == Dentry(dir.path + [name], oldDentry.inode)
    ensures v.tree == if r.Ok? then old(v.tree)[dir.path + [name] := oldDentry.inode] else old(v.tree)
    ensures var check := AddCheck(old(v.tree), dir, name, allowed, oldDentry.inode.kind == Directory);
      if check.Err? then Answers(v.healthy, r, check) else r.Err? ==> r == Err(EIO) && !v.healthy
    ensures v.healthy ==> (r.Ok? <==> name != "." && name != ".." && allowed && oldDentry.inode.kind != Directory &&
                                      old(v.tree)[dir.path].kind == Directory && dir.path + [name] !in old(v.tree))
  {
    AddMeans(v.tree, dir, name, allowed, oldDentry.inode.kind == Directory);
    if name == "." || name == ".." {
      return Err(EEXIST);
    }
    if !allowed {
      return Err(EACCES);
    }
    if oldDentry.inode.kind == Directory {
      return Err(EPERM);
    }
    var found := v.Lookup(dir, name, held);
    if found.Ok? {
      return Err(EEXIST);
    }
    if found.error != ENOENT {
      return Err(found.error);
    }
    var p := dir.path + [name];
    ghost var t := v.tree;
    var linked := LowerAdd(v, p, oldDentry.inode);
    if !linked {
      return Err(EIO);
    }
    AddKeepsWellFormed(t, p, oldDentry.inode);
    AddStaysCoherent(t, v.cache, p, oldDentry.inode);
    v.Insert(Dentry(p, oldDentry.inode), held);
    return Ok(());
  }

  // ---- unlink ----

  /** Removes an entry: a directory, and only an empty one, if and only if `removeDir`. */
  method Unlink(v: Dcache, dir: Dentry, name: string, removeDir: bool, requiresDirectory: bool, allowed: bool, held: set<string>)
    returns (r: Result<()>)
    requires v.Valid() && Live(v.tree, dir) && ValidName(name)
    modifies v
    ensures v.Valid()
    ensures var p := dir.path + [name];
      r.Ok? ==> CanRemove(old(v.tree), p) && (removeDir <==> old(v.tree)[p].kind == Directory) && TreeDropped(v.cache, p)
    ensures v.tree == if r.Ok? then old(v.tree) - {dir.path + [name]} else old(v.tree)
    ensures var check := RemoveCheck(old(v.tree), dir, name, removeDir, requiresDirectory, allowed);
      if check.Err? then Answers(v.healthy, r, check) else r.Err? ==> r == Err(EIO) && !v.healthy
    ensures var p := dir.path + [name];
      v.healthy ==> (r.Ok? <==> name != "." && name != ".." && allowed && CanRemove(old(v.tree), p) &&
                                (removeDir <==> old(v.tree)[p].kind == Directory) && (requiresDirectory ==> old(v.tree)[p].kind == Directory))
  {
    hide Coherent, Keyed, Shrunk, TreeDropped, Grown, Render;
    RemoveMeans(v.tree, dir, name, removeDir, requiresDirectory, allowed);
    if name == "." || name == ".." {
      return Err(if removeDir then EINVAL else EISDIR);
    }
    if !allowed {
      return Err(EACCES);
    }
    var found := v.Lookup(dir, name, held);
    if found.Err? {
      return Err(found.error);
    }
    var isDir := found.value.inode.kind == Directory;
    if requiresDirectory && !isDir {
      return Err(ENOTDIR);
    }
    if isDir && !removeDir {
      return Err(EISDIR);
    }
    if !isDir && removeDir {
      return Err(ENOTDIR);
    }
    var p := dir.path + [name];
    ghost var t, c := v.tree, v.cache;
    if isDir && !NothingBelow(v.tree, p) {
      return Err(ENOTEMPTY);
    }
    if !isDir {
      FilesHoldNothing(v.tree, p);
    }
    var removed := LowerRemove(v, p);
    if !removed {
      return Err(EIO);
    }
    RemoveKeepsWellFormed(t, p);
    CoherentIsKeyed(t, c);
    assert EntryOk(t, p);
    v.RemoveTree(p);
    ShrunkIsCoherent(t, c, v.cache);
    RemoveStaysCoherent(t, v.cache, p);
    return Ok(());
  }

  // ---- rename ----

  /** What a rename did to the tree. */
  datatype Outcome =
    | Untouched
    | Renamed
    | Replaced              // the old target is gone
    | ReplacedKeepingBackup // the old target could not be deleted and stays under its backup name
    | TargetStranded        // the rename failed and so did putting the old target back

  function Decimal(n: nat): (s: string)
    ensures '/' !in s
  {
    if n < 10 then [ "0123456789"[n] ] else Decimal(n / 10) + [ "0123456789"[n % 10] ]
  }

  /** Where an existing target is set aside. */
  function BackupName(name: string, ino: nat): string {
    name + ".respos_rename_backup_" + Decimal(ino)
  }

  function TreeAfter(t: Tree, a: Path, b: Path, k: Path, o: Outcome): Tree {
    match o
    case Untouched => t
    case Renamed => RenameTree(t, a, b)
    case Replaced => RenameTree(t - {b}, a, b)
    case ReplacedKeepingBackup => RenameTree(RenameTree(t, b, k), a, b)
    case TargetStranded => RenameTree(t, b, k)
  }

  /** The checks on an existing target, in the order of the source. */
  function TargetCheck(t: Tree, source: Dentry, target: Dentry, noReplace: bool): Result<bool> {
    if noReplace then Err(EEXIST)
    else if source.inode.kind != Directory && target.inode.kind == Directory then Err(EISDIR)
    else if source.inode.kind == Directory && target.inode.kind != Directory then Err(ENOTDIR)
    else if source.inode.ino == target.inode.ino then Ok(false)
    else if target.inode.kind == Directory && !NothingBelow(t, target.path) then Err(ENOTEMPTY)
    else Ok(true)
  }

  /** Sets an existing target aside under its backup name and drops it from the cache. */
  method SetAside(v: Dcache, b: Path, k: Path) returns (r: Result<()>)
    requires v.Valid() && b in v.tree && NothingBelow(v.tree, b)
    requires b != [] && k != [] && Parent(k) == Parent(b) && ValidName(k[|k| - 1])
    modifies v
    ensures v.Valid() && Shrunk(old(v.cache), v.cache)
    ensures r.Ok? ==> SetsAside(old(v.tree), b, k) && v.tree == RenameTree(old(v.tree), b, k) && TreeDropped(v.cache, b)
    ensures r.Ok? ==> forall s | s in v.cache :: v.cache[s].path != k
    ensures r.Err? ==> v.tree == old(v.tree) && v.cache == old(v.cache)
    ensures Answers(v.healthy, r, RenameAnswer(old(v.tree), b, k))
  {
    hide RenameTree;
    ghost var t, c := v.tree, v.cache;
    assert |k| == |b|;
    r := LowerRename(v, b, k);
    if r.Ok? {
      CoherentIsKeyed(t, c);
      assert EntryOk(t, b);
      v.RemoveTree(b);
      ShrunkIsCoherent(t, c, v.cache);
      RenameStaysCoherent(t, v.cache, b, k);
      RenameKeepsWellFormed(t, b, k);
      forall s | s in v.cache ensures v.cache[s].path != k { assert EntryAgrees(t, c, s); }
    }
  }

  /** The main rename has been done in the lower tree: both subtrees leave the cache and the moved
      dentry enters it under its new path. */
  method PublishRename(v: Dcache, ghost t: Tree, ghost gone: set<Path>, a: Path, b: Path, inode: Inode, held: set<string>)
    requires WellFormed(t) && Coherent(t, v.cache) && CanRename(t, a, b)
    requires WellFormed(v.tree) && v.tree == RenameTree(t, a, b) - gone && Live(v.tree, Dentry(b, inode))
    requires forall s | s in v.cache :: v.cache[s].path !in gone
    modifies v`cache
    ensures v.Valid()
    ensures Render(b) in v.cache && v.cache[Render(b)] == Dentry(b, inode)
    ensures forall s | s in v.cache && s != Render(b) :: !(a <= v.cache[s].path) && !(b <= v.cache[s].path)
  {
    hide RenameTree;
    ghost var c := v.cache;
    CoherentIsKeyed(t, c);
    assert EntryOk(t, a) && EntryOk(v.tree, b);
    v.RemoveTree(a);
    v.RemoveTree(b);
    ShrunkIsCoherent(t, c, v.cache);
    RenameStaysCoherent(t, v.cache, a, b);
    forall s | s in v.cache ensures EntryAgrees(v.tree, v.cache, s) {
      assert EntryAgrees(t, c, s) && EntryAgrees(RenameTree(t, a, b), v.cache, s);
    }
    v.Insert(Dentry(b, inode), held);
  }

  /** Renames `source` to entry `name` of `dir`. An existing target is set aside first and deleted last;
      if the main rename fails it is put back. In every case the cache agrees with the tree, and the
      tree is exactly what the reported outcome says. */
  method Rename(v: Dcache, source: Dentry, dir: Dentry, name: string, noReplace: bool, requiresDirectory: bool,
                allowed: bool, held: set<string>)
    returns (r: Result<()>, outcome: Outcome)
    requires v.Valid() && Live(v.tree, source) && Live(v.tree, dir) && ValidName(name) && |name| <= NAME_MAX
    modifies v
    ensures v.Valid()
    ensures RenameEffect(old(v.tree), old(v.cache), v.tree, v.cache, source, dir, name, r, outcome)
    ensures RenameFits(v.healthy, old(v.tree), source, dir, name,
                       RenameCheck(old(v.tree), source, dir, name, noReplace, requiresDirectory, allowed), r, outcome)
  {
    hide EntryAgrees, Coherent, Render, LateCheck, RenameVerdict, RenameEffect;
    NothingRenamed(v.tree, v.cache, source, dir, name);
    var a, b := source.path, dir.path + [name];
    if name == "." || name == ".." {
      return Err(EBUSY), Untouched;
    }
    if !allowed {
      return Err(EACCES), Untouched;
    }
    if a == b {
      return if noReplace then Err(EEXIST) else Ok(()), Untouched;
    }
    if requiresDirectory && source.inode.kind != Directory {
      return Err(ENOTDIR), Untouched;
    }
    assert EntryOk(v.tree, a) && EntryOk(v.tree, dir.path);
    BelowItself(a, b);
    if source.inode.kind == Directory && Render(a) + "/" <= Render(b) {
      return Err(EINVAL), Untouched;
    }
    r, outcome := RenameChecked(v, source, dir, name, noReplace, held);
  }

  /** Tree, cache and outcome of a rename fit together. */
  ghost predicate RenameEffect(t: Tree, c: Cache, t': Tree, c': Cache, source: Dentry, dir: Dentry, name: string, r: Result<()>, o: Outcome) {
    var b := dir.path + [name];
    && t' == TreeAfter(t, source.path, b, dir.path + [BackupName(name, if b in t then t[b].ino else 0)], o)
    && (r.Err? ==> (o == Untouched || o == TargetStranded) && Grown(c, c', Render(b)))
    && (r.Ok? ==> o != TargetStranded)
    && (r.Ok? && o == Untouched ==> b == source.path || (b in t && t[b].ino == source.inode.ino))
    && (r.Ok? && o != Untouched ==> Live(t', Dentry(b, source.inode)))
  }

  lemma NothingRenamed(t: Tree, c: Cache, source: Dentry, dir: Dentry, name: string)
    ensures forall e :: RenameEffect(t, c, t, c, source, dir, name, Err(e), Untouched)
    ensures dir.path + [name] == source.path ==> RenameEffect(t, c, t, c, source, dir, name, Ok(()), Untouched)
  {
  }

  /** A rename that was checked is told what it is owed. */
  ghost predicate RenameFits(healthy: bool, t: Tree, source: Dentry, dir: Dentry, name: string, check: Result<bool>, r: Result<()>, o: Outcome) {
    && (check == Ok(true) && r.Ok? ==> o != Untouched) && (check != Ok(true) ==> o == Untouched)
    && (Answers(healthy, r, Owed(t, source, dir, name, check)) || TargetMissed(healthy, t, dir.path + [name], r))
    && (healthy ==> o in {Untouched, Renamed, Replaced})
    && (o == Renamed ==> dir.path + [name] !in t) && (o != Renamed && o != Untouched ==> dir.path + [name] in t)
  }

  /** The part of a rename after the checks that need no lookup. */
  method RenameChecked(v: Dcache, source: Dentry, dir: Dentry, name: string, noReplace: bool, held: set<string>)
    returns (r: Result<()>, outcome: Outcome)
    requires v.Valid() && Live(v.tree, source) && Live(v.tree, dir) && ValidName(name) && |name| <= NAME_MAX
    requires source.path != dir.path + [name] && !IntoItself(v.tree, source.path, dir.path + [name])
    modifies v
    ensures v.Valid()
    ensures RenameEffect(old(v.tree), old(v.cache), v.tree, v.cache, source, dir, name, r, outcome)
    ensures RenameFits(v.healthy, old(v.tree), source, dir, name, LateCheck(old(v.tree), source, dir, name, noReplace), r, outcome)
  {
    hide RenameTree, EntryAgrees, Coherent, CanRename, NothingBelow, Render, BackupName;
    var b := dir.path + [name];
    assert Parent(b) == dir.path && b[|b| - 1] == name;
    var existing := v.Lookup(dir, name, held);
    if existing.Ok? {
      var check := TargetCheck(v.tree, source, existing.value, noReplace);
      if check.Err? {
        return Err(check.error), Untouched;
      }
      if !check.value {
        return Ok(()), Untouched;
      }
      if existing.value.inode.kind != Directory {
        FilesHoldNothing(v.tree, b);
      }
      r, outcome := Replace(v, source, dir, name, existing.value, held);
    } else {
      r, outcome := MoveFree(v, source, b, held);
    }
  }

  /** The part of a rename where no target was found, or where looking for one failed: nothing is set
      aside, and the lower filesystem refuses if there is a target after all. */
  method MoveFree(v: Dcache, source: Dentry, b: Path, held: set<string>) returns (r: Result<()>, outcome: Outcome)
    requires v.Valid() && Live(v.tree, source) && b != [] && ValidName(b[|b| - 1])
    requires !IntoItself(v.tree, source.path, b)
    modifies v
    ensures v.Valid()
    ensures r.Ok? ==> CanRename(old(v.tree), source.path, b) && outcome == Renamed && v.tree == RenameTree(old(v.tree), source.path, b)
    ensures r.Ok? ==> Live(v.tree, Dentry(b, source.inode)) && b !in old(v.tree)
    ensures r.Err? ==> outcome == Untouched && v.tree == old(v.tree) && v.cache == old(v.cache)
    ensures Answers(v.healthy, r, RenameAnswer(old(v.tree), source.path, b))
  {
    hide RenameTree, EntryAgrees;
    ghost var t0 := v.tree;
    r := LowerRename(v, source.path, b);
    if r.Err? {
      return r, Untouched;
    }
    RenamedSource(t0, source.path, b);
    RenameKeepsWellFormed(t0, source.path, b);
    PublishRename(v, t0, {}, source.path, b, source.inode, held);
    return Ok(()), Renamed;
  }

  lemma BackupIsName(name: string, ino: nat)
    requires ValidName(name)
    ensures ValidName(BackupName(name, ino)) && BackupName(name, ino) != name
  {
  }

  /** Once the target is aside, only the root cannot take its place. The target could be put back, and
      after the rename the backup can be deleted. */
  lemma AsideThenMove(t: Tree, a: Path, b: Path, k: Path)
    requires WellFormed(t) && SetsAside(t, b, k) && a in t && a != b && !IntoItself(t, a, b)
    ensures var t1 := RenameTree(t, b, k);
      && a in t1 && t1[a] == t[a] && a != k && k in t1 && !(k <= b) && !(b <= k)
      && RenameAnswer(t1, a, b) == (if a == [] then Err(ENOENT) else Ok(())) && RenameAnswer(t1, k, b).Ok?
      && (a != [] ==> CanRemove(RenameTree(t1, a, b), k))
  {
    hide RenameTree;
    var t1 := RenameTree(t, b, k);
    AsideMeaning(t, b, k, a);
    AsideMeaning(t, b, k, b);
    AsideMeaning(t, b, k, Parent(b));
    assert EntryOk(t, b) && ValidName(b[|b| - 1]) && |k| == |b|;
    if a < b { OnlyDirsHold(t, a, b); }
    assert a <= b ==> a == b || a < b;
    if a != [] { BackupCanGo(t, a, b, k); }
  }

  lemma BackupCanGo(t: Tree, a: Path, b: Path, k: Path)
    requires WellFormed(t) && SetsAside(t, b, k) && a in t && a != k
    requires CanRename(RenameTree(t, b, k), a, b)
    ensures CanRemove(RenameTree(RenameTree(t, b, k), a, b), k)
  {
    hide RenameTree;
    var t1 := RenameTree(t, b, k);
    AsideMeaning(t, b, k, k);
    RenameKeepsWellFormed(t, b, k);
    RenameMeaning(t1, a, b, k);
    assert |k| == |b| && !(b <= k);
    assert a < k ==> a <= Parent(k) == Parent(b);
    forall q | q in RenameTree(t1, a, b) ensures !(k < q) {
      RenameMeaning(t1, a, b, q);
      if k < q {
        assert !(b <= q);
        AsideMeaning(t, b, k, q);
        AncestorsExist(t, k, q);
      }
    }
  }

  /** The part of a rename that replaces an existing target. */
  method Replace(v: Dcache, source: Dentry, dir: Dentry, name: string, target: Dentry, held: set<string>)
    returns (r: Result<()>, outcome: Outcome)
    requires v.Valid() && Live(v.tree, source) && Live(v.tree, dir) && ValidName(name)
    requires target.path == dir.path + [name] && Live(v.tree, target) && source.path != target.path
    requires target.inode.kind == Directory ==> NothingBelow(v.tree, target.path)
    requires !IntoItself(v.tree, source.path, target.path)
    modifies v
    ensures v.Valid()
    ensures v.tree == TreeAfter(old(v.tree), source.path, target.path, dir.path + [BackupName(name, target.inode.ino)], outcome)
    ensures r.Err? ==> (outcome == Untouched || outcome == TargetStranded) && Shrunk(old(v.cache), v.cache)
    ensures outcome != Renamed && (r.Ok? ==> outcome != TargetStranded && outcome != Untouched)
    ensures r.Ok? ==> Live(v.tree, Dentry(target.path, source.inode))
    ensures v.healthy ==> outcome in {Untouched, Replaced}
    ensures Answers(v.healthy, r, RenameVerdict(old(v.tree), source, dir, name))
  {
    hide RenameTree, EntryAgrees, CanRename, CanRemove, Coherent, BackupName;
    ghost var t0 := v.tree;
    var a, b, k := source.path, target.path, dir.path + [BackupName(name, target.inode.ino)];
    if target.inode.kind != Directory {
      FilesHoldNothing(v.tree, b);
    }
    BackupIsName(name, target.inode.ino);
    assert Parent(k) == dir.path == Parent(b) && EntryOk(v.tree, b);
    r := SetAside(v, b, k);
    if r.Err? {
      return r, Untouched;
    }
    ghost var t1 := v.tree;
    AsideThenMove(t0, a, b, k);
    r := LowerRename(v, a, b);
    if r.Err? {
      RenameBack(t0, b, k);
      var restored := LowerRename(v, k, b);
      if restored.Ok? {
        RestoredIsCoherent(t0, v.cache, b, k);
      }
      return r, if restored.Ok? then Untouched else TargetStranded;
    }
    RenamedSource(t1, a, b);
    RenameKeepsWellFormed(t1, a, b);
    ReplaceIsRemoveAndRename(t0, a, b, k);
    ghost var t2 := v.tree;
    var deleted := LowerRemove(v, k);
    if deleted {
      RemoveKeepsWellFormed(t2, k);
    }
    PublishRename(v, t1, if deleted then {k} else {}, a, b, source.inode, held);
    return Ok(()), if deleted then Replaced else ReplacedKeepingBackup;
  }

  lemma RenamedSource(t: Tree, a: Path, b: Path)
    requires WellFormed(t) && CanRename(t, a, b)
    ensures b in RenameTree(t, a, b) && RenameTree(t, a, b)[b] == t[a]
  {
    RenameMeaning(t, a, b, b);
    assert a + b[|b|..] == a;
  }

  /** Putting the target back: what is cached agreed with the tree before it was set aside. */
  lemma RestoredIsCoherent(t: Tree, c: Cache, b: Path, k: Path)
    requires WellFormed(t) && SetsAside(t, b, k) && Coherent(RenameTree(t, b, k), c) && TreeDropped(c, b)
    requires forall s | s in c :: c[s].path != k
    ensures Coherent(t, c)
  {
  }

  // ---- Renames that fail although nothing is broken ----

  const EMPTY_ROOT: Tree := map[[] := Inode(2, Directory)]

  lemma EmptyRootOk()
    ensures WellFormed(EMPTY_ROOT)
  {
  }

  function WithFile(t: Tree, name: string, ino: nat): Tree {
    t[[name] := Inode(ino, Regular)]
  }

  lemma WithFileOk(t: Tree, name: string, ino: nat)
    requires WellFormed(t) && [name] !in t && ValidName(name) && |name| <= NAME_MAX
    ensures var u := WithFile(t, name, ino); WellFormed(u) && [name] in u && u[[]] == t[[]]
  {
    AddKeepsWellFormed(t, [name], Inode(ino, Regular));
  }

  function LongName(): string {
    seq(240, _ => 'x')
  }

  function LongNameTree(): Tree {
    WithFile(WithFile(EMPTY_ROOT, "a", 11), LongName(), 12)
  }

  /** The backup name of a target of 240 characters is too long, so the target cannot be replaced. */
  method LongTargetStays() returns (v: Dcache, r: Result<()>)
    ensures v.healthy && v.tree == LongNameTree() && r == Err(ENOENT)
  {
    hide WellFormed, BackupName, Decimal;
    EmptyRootOk();
    WithFileOk(EMPTY_ROOT, "a", 11);
    assert LongName()[0] == 'x';
    WithFileOk(WithFile(EMPTY_ROOT, "a", 11), LongName(), 12);
    v := new Dcache(LongNameTree(), true);
    LongBackup();
    r := MoveOver(v, "a", 11, LongName(), 12);
  }

  lemma LongBackup()
    ensures |BackupName(LongName(), 12)| > NAME_MAX
  {
  }

  /** Renames file `name` of the root to file `target`. */
  method MoveOver(v: Dcache, name: string, ino: nat, target: string, targetIno: nat) returns (r: Result<()>)
    requires v.Valid() && v.healthy && v.tree[[]].kind == Directory
    requires Live(v.tree, Dentry([name], Inode(ino, Regular))) && Live(v.tree, Dentry([target], Inode(targetIno, Regular)))
    requires name != target && target != "." && target != ".." && ino != targetIno
    modifies v
    ensures v.Valid()
    ensures var k := BackupName(target, targetIno);
      r == if |k| > NAME_MAX then Err(ENOENT) else if [k] in old(v.tree) then Err(EEXIST) else Ok(())
    ensures r.Err? ==> v.tree == old(v.tree)
  {
    hide BackupName, RenameTree, Coherent;
    assert [] + [target] == [target] && [] + [BackupName(target, targetIno)] == [BackupName(target, targetIno)];
    assert EntryOk(v.tree, [target]);
    var outcome;
    r, outcome := Rename(v, Dentry([name], Inode(ino, Regular)), Dentry([], v.tree[[]]), target, false, false, true, {});
  }

  function TakenTree(): Tree {
    WithFile(WithFile(WithFile(EMPTY_ROOT, "a", 11), "b", 12), BackupName("b", 12), 13)
  }

  /** The backup name of "b" is the name of another file, so "b" cannot be replaced. */
  method TakenBackupStays() returns (v: Dcache, r: Result<()>)
    ensures v.healthy && v.tree == TakenTree() && r == Err(EEXIST)
  {
    hide WellFormed, Decimal;
    EmptyRootOk();
    WithFileOk(EMPTY_ROOT, "a", 11);
    WithFileOk(WithFile(EMPTY_ROOT, "a", 11), "b", 12);
    BackupIsName("b", 12);
    ShortBackup();
    WithFileOk(WithFile(WithFile(EMPTY_ROOT, "a", 11), "b", 12), BackupName("b", 12), 13);
    v := new Dcache(TakenTree(), true);
    r := MoveOver(v, "a", 11, "b", 12);
  }

  lemma ShortBackup()
    ensures |BackupName("b", 12)| == 25
  {
    assert Decimal(12) == Decimal(1) + "2";
  }
}
