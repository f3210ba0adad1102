/** Whole runs of namespace calls: path walk, checks, lower operation and cache together, compared
    with a kernel that has no dentry cache at all. */
module NamespaceRuns {
  import opened Paths
  import opened Namespace
  import opened DentryCache
  import opened Namei
  import opened Resolve

  /** A call, with paths taken from the root. `allowed` stands for the permission checks it makes. */
  datatype Op =
    | Find(path: string, options: Options)
    | Make(path: string, inode: Inode, allowed: bool)
    | AddLink(oldPath: string, follow: bool, path: string, allowed: bool)
    | Remove(path: string, removeDir: bool, allowed: bool)
    | Move(oldPath: string, path: string, noReplace: bool, oldAllowed: bool, allowed: bool)
    | Forget

  /** The answer. `undone` and `outcome` say what a failing lower filesystem left behind. A call that
      indexes past the end of its names brings the kernel down. */
  datatype Reply =
    | Found(found: Result<Dentry>)
    | Done(result: Result<()>, undone: bool)
    | Moved(moved: Result<()>, outcome: Outcome)
    | Forgotten
    | Panicked

  // ---- The calls without a cache ----

  /** Library directories that are also looked for under `/glibc/lib`. */
  function Alias(path: string): string {
    if "/lib/" <= path then "/glibc/lib/" + path[5..]
    else if "/lib64/" <= path then "/glibc/lib/" + path[7..]
    else if "/usr/lib/" <= path then "/glibc/lib/" + path[9..]
    else if "/usr/lib64/" <= path then "/glibc/lib/" + path[11..]
    else ""
  }

  function LookupAnswer(t: Tree, search: Inode -> bool, path: string, o: Options): (r: Result<Dentry>)
    requires WellFormed(t)
    ensures r.Ok? ==> Live(t, r.value)
  {
    if path == "" then Err(ENOENT)
    else if !NamesFit(Segments(path)) then Err(ENAMETOOLONG)
    else
      var r := Resolved(t, search, Root(t), path, o, 0);
      if r == Err(ENOENT) && Alias(path) != "" then Resolved(t, search, Root(t), Alias(path), o, 0) else r
  }

  /** Where a new name is to be made: names that fit and a parent that can be reached. */
  function PlaceAnswer(t: Tree, search: Inode -> bool, path: string): (r: Result<Place>)
    requires WellFormed(t)
    ensures r.Ok? ==> Live(t, r.value.dir) && |r.value.last| <= 1 && ValidPath(r.value.last)
  {
    if path == "" then Err(ENOENT)
    else if !NamesFit(Segments(path)) then Err(ENAMETOOLONG)
    else ParentOf(t, search, Root(t), path)
  }

  /** A trailing slash after a name that is not to be a directory makes the call look that name up
      before it has made sure that there is one. */
  predicate LooksUpNothing(place: Place, isDir: bool) {
    place.requiresDirectory && !isDir && place.last == []
  }

  /** What a creation is told before the lower filesystem is asked to create. */
  function MakeAnswer(t: Tree, place: Place, isDir: bool, allowed: bool, linksDir: bool): Result<()>
    requires |place.last| <= 1
  {
    if place.last == [] then Err(EEXIST)
    else if place.requiresDirectory && !isDir && LowerLookup(t, place.dir, place.last[0]).Ok? then Err(EEXIST)
    else if place.requiresDirectory && !isDir then Err(LowerLookup(t, place.dir, place.last[0]).error)
    else AddCheck(t, place.dir, place.last[0], allowed, linksDir)
  }

  predicate AllSlashes(path: string) {
    forall i | 0 <= i < |path| :: path[i] == '/'
  }

  /** Following the path takes a lookup. */
  predicate NeedsLookup(path: string) {
    path != "" && NamesFit(Segments(path)) && !AllSlashes(path)
  }

  /** The call asks the lower filesystem for something, so that a failure there can end it. */
  predicate MayFail(op: Op) {
    match op
    case Find(path, _) => NeedsLookup(path)
    case Make(path, _, _) => NeedsLookup(path)
    case AddLink(oldPath, _, path, _) => path != "" && oldPath != "" && (NeedsLookup(oldPath) || NeedsLookup(path))
    case Remove(path, _, _) => NeedsLookup(path)
    case Move(oldPath, path, _, _, _) => path != "" && oldPath != "" && (NeedsLookup(oldPath) || NeedsLookup(path))
    case Forget => false
  }

  /** The answer of a call that a failing lower filesystem stopped before it changed anything. */
  function Failure(op: Op): Reply {
    match op
    case Find(_, _) => Found(Err(EIO))
    case Make(_, _, _) => Done(Err(EIO), true)
    case AddLink(_, _, _, _) => Done(Err(EIO), true)
    case Remove(_, _, _) => Done(Err(EIO), true)
    case Move(_, _, _, _, _) => Moved(Err(EIO), Untouched)
    case Forget => Forgotten
  }

  /** `reply` and `next` are what `op` may give on tree `t`. No cache is mentioned. */
  ghost predicate Fits(healthy: bool, t: Tree, search: Inode -> bool, op: Op, reply: Reply, next: Tree)
    requires WellFormed(t)
  {
    Answered(healthy, t, search, op, reply, next) ||
    (!healthy && MayFail(op) && reply == Failure(op) && next == t)
  }

  ghost predicate Answered(healthy: bool, t: Tree, search: Inode -> bool, op: Op, reply: Reply, next: Tree)
    requires WellFormed(t)
  {
    match op
    case Find(path, o) => reply == Found(LookupAnswer(t, search, path, o)) && next == t
    case Make(path, inode, allowed) =>
      var at := PlaceAnswer(t, search, path);
      if at.Err? then reply == Done(Err(at.error), true) && next == t
      else AddFits(healthy, t, at.value, inode, inode.kind == Directory, allowed, false, reply, next)
    case AddLink(oldPath, follow, path, allowed) =>
      var source := if path == "" then Err(ENOENT) else LookupAnswer(t, search, oldPath, Options(follow, true));
      if source.Err? then reply == Done(Err(source.error), true) && next == t else
      var at := PlaceAnswer(t, search, path);
      if at.Err? then reply == Done(Err(at.error), true) && next == t
      else AddFits(healthy, t, at.value, source.value.inode, false, allowed, source.value.inode.kind == Directory, reply, next)
    case Remove(path, removeDir, allowed) =>
      var at := PlaceAnswer(t, search, path);
      if at.Err? then reply == Done(Err(at.error), true) && next == t
      else RemoveFits(healthy, t, at.value, removeDir, allowed, reply, next)
    case Move(oldPath, path, noReplace, oldAllowed, allowed) =>
      var source := SourceAnswer(t, search, oldPath, path, oldAllowed);
      if source.Err? then reply == Moved(Err(source.error), Untouched) && next == t else
      var at := PlaceAnswer(t, search, path);
      if at.Err? then reply == Moved(Err(at.error), Untouched) && next == t
      else MoveFits(healthy, t, source.value, at.value, noReplace, allowed, reply, next)
    case Forget => reply == Forgotten && next == t
  }

  function SourceAnswer(t: Tree, search: Inode -> bool, oldPath: string, path: string, allowed: bool): (r: Result<Dentry>)
    requires WellFormed(t)
    ensures r.Ok? ==> Live(t, r.value)
  {
    if path == "" then Err(ENOENT) else
    var source := LookupAnswer(t, search, oldPath, Options(false, false));
    if source.Err? then source
    else if EndsWithSlash(oldPath) && source.value.inode.kind != Directory then Err(ENOTDIR)
    else if !allowed then Err(EACCES)
    else source
  }

  /** A creation or link: refused as checked, or done, or failed below and then undone unless `undone`
      says otherwise. */
  ghost predicate AddFits(healthy: bool, t: Tree, at: Place, inode: Inode, isDir: bool, allowed: bool, linksDir: bool, reply: Reply, next: Tree)
    requires |at.last| <= 1
  {
    if LooksUpNothing(at, isDir) then reply == Panicked && next == t else
    var check := MakeAnswer(t, at, isDir, allowed, linksDir);
    reply.Done? &&
    if check.Err? || at.last == [] then reply == Done(check, true) && next == t else
    var added := t[at.dir.path + at.last := inode];
    match reply.result
    case Ok(_) => next == added
    case Err(e) => e == EIO && !healthy && next == if reply.undone then t else added
  }

  ghost predicate RemoveFits(healthy: bool, t: Tree, at: Place, removeDir: bool, allowed: bool, reply: Reply, next: Tree)
    requires |at.last| <= 1
  {
    reply.Done? && reply.undone &&
    if at.last == [] then reply.result == Err(if removeDir then EBUSY else EISDIR) && next == t else
    var check := RemoveCheck(t, at.dir, at.last[0], removeDir, at.requiresDirectory, allowed);
    if check.Err? then reply.result == check && next == t else
    match reply.result
    case Ok(_) => next == t - {at.dir.path + at.last}
    case Err(e) => e == EIO && !healthy && next == t
  }

  ghost predicate MoveFits(healthy: bool, t: Tree, source: Dentry, at: Place, noReplace: bool, allowed: bool, reply: Reply, next: Tree)
    requires |at.last| <= 1
  {
    reply.Moved? &&
    if at.last == [] then reply == Moved(Err(EEXIST), Untouched) && next == t else
    var b := at.dir.path + at.last;
    var backup := at.dir.path + [BackupName(at.last[0], if b in t then t[b].ino else 0)];
    && next == TreeAfter(t, source.path, b, backup, reply.outcome)
    && (reply.moved.Err? ==> reply.outcome == Untouched || reply.outcome == TargetStranded)
    && (reply.moved.Ok? ==> reply.outcome != TargetStranded)
    && RenameFits(healthy, t, source, at.dir, at.last[0],
                  RenameCheck(t, source, at.dir, at.last[0], noReplace, at.requiresDirectory, allowed), reply.moved, reply.outcome)
  }

  // ---- When the kernel goes down ----

  /** Making something that is not a directory at a path of nothing but slashes. A link gets there only
      if what it links is found. */
  predicate Panics(t: Tree, search: Inode -> bool, op: Op)
    requires WellFormed(t)
  {
    match op
    case Make(path, inode, _) => path != "" && AllSlashes(path) && inode.kind != Directory
    case AddLink(oldPath, follow, path, _) => path != "" && AllSlashes(path) && LookupAnswer(t, search, oldPath, Options(follow, true)).Ok?
    case _ => false
  }

  lemma {:induction false} NoPieces(s: string, piece: string)
    requires '/' !in piece
    ensures Pieces(s, piece) == [] <==> piece == "" && AllSlashes(s)
    decreases |s|
  {
    if s != "" {
      if s[0] == '/' { NoPieces(s[1..], ""); } else { NoPieces(s[1..], piece + [s[0]]); }
      assert AllSlashes(s) <==> s[0] == '/' && AllSlashes(s[1..]) by {
        if s[0] == '/' && AllSlashes(s[1..]) {
          forall i | 0 <= i < |s| ensures s[i] == '/' { assert i > 0 ==> s[i] == s[1..][i - 1]; }
        }
        if AllSlashes(s) {
          forall i | 0 <= i < |s[1..]| ensures s[1..][i] == '/' { assert s[1..][i] == s[i + 1]; }
        }
      }
    }
  }

  /** The walk to a parent ends without a name exactly if the path has none. */
  lemma {:induction false} LastName(t: Tree, search: Inode -> bool, cur: Dentry, names: Path, reqDir: bool, follows: nat)
    requires WellFormed(t) && Live(t, cur) && follows <= MAX_SYMLINK_FOLLOWS && ValidPath(names)
    ensures var r := WalkParent(t, search, cur, names, reqDir, follows); r.Ok? ==> (r.value.last == [] <==> names == [])
    ensures names == [] ==> WalkParent(t, search, cur, names, reqDir, follows) == Ok(Place(cur, [], reqDir))
    ensures var r := WalkParent(t, search, cur, names, reqDir, follows); r.Ok? && NamesFit(names) ==> NamesFit(r.value.last)
    decreases MAX_SYMLINK_FOLLOWS - follows, |names|
  {
    hide WellFormed, Segments, JoinTarget, NamesFit;
    if |names| > 1 {
      FitRest(names);
      var cur' := if names[0] == ".." then ParentDentry(t, cur) else cur;
      LastName(t, search, cur', names[1..], reqDir, follows);
      var l := LowerLookup(t, cur, names[0]);
      if l.Ok? && Live(t, l.value) {
        LastName(t, search, l.value, names[1..], reqDir, follows);
        if l.value.inode.kind.SymLink? && follows < MAX_SYMLINK_FOLLOWS {
          var target := l.value.inode.kind.target;
          LastName(t, search, if StartsWithSlash(target) then Root(t) else cur, Segments(target) + names[1..], reqDir, follows + 1);
        }
      }
    }
  }

  lemma FitRest(names: Path)
    requires names != []
    ensures NamesFit(names) ==> NamesFit(names[1..])
  {
  }

  lemma NoNames(path: string)
    ensures Segments(path) == [] <==> AllSlashes(path)
  {
    NoPieces(path, "");
  }

  lemma PlaceHasName(t: Tree, search: Inode -> bool, path: string)
    requires WellFormed(t)
    ensures var at := PlaceAnswer(t, search, path);
      && (path != "" && AllSlashes(path) ==> at == Ok(Place(Root(t), [], true)))
      && (at.Ok? && at.value.last == [] ==> AllSlashes(path))
      && (at.Ok? ==> NamesFit(at.value.last))
  {
    hide WellFormed, WalkParent, Segments;
    NoNames(path);
    if path != "" {
      LastName(t, search, Root(t), Segments(path), EndsWithSlash(path), 0);
    }
  }

  /** A call brings the kernel down exactly on those inputs; a link whose source lookup fails below
      escapes with that failure. */
  lemma PanicsExactly(healthy: bool, t: Tree, search: Inode -> bool, op: Op, reply: Reply, next: Tree)
    requires WellFormed(t) && Fits(healthy, t, search, op, reply, next)
    ensures reply.Panicked? ==> Panics(t, search, op) && next == t
    ensures Panics(t, search, op) && (healthy || op.Make?) ==> reply.Panicked?
  {
    hide WellFormed, ParentOf, Segments, LookupAnswer, MakeAnswer, AllSlashes, TreeAfter, RenameCheck, RemoveCheck;
    if op.Make? || op.AddLink? {
      PlaceHasName(t, search, op.path);
    }
  }

  /** In particular when a regular file is made at "/". */
  lemma PanicAtRoot(healthy: bool, t: Tree, search: Inode -> bool, inode: Inode, allowed: bool, reply: Reply, next: Tree)
    requires WellFormed(t) && inode.kind == Regular && Fits(healthy, t, search, Make("/", inode, allowed), reply, next)
    ensures reply.Panicked?
  {
  }

  // ---- The calls with the cache ----

  method LookupPath(v: Dcache, search: Inode -> bool, path: string, o: Options, held: set<string>) returns (r: Result<Dentry>)
    requires v.Valid()
    modifies v`cache
    ensures v.Valid() && Answers(v.healthy, r, LookupAnswer(v.tree, search, path, o))
    ensures !NeedsLookup(path) ==> r == LookupAnswer(v.tree, search, path, o)
    ensures r.Ok? ==> Live(v.tree, r.value) && path != ""
  {
    hide Coherent, NamesFit, Segments, Walk, Alias, Root, AllSlashes;
    NoNames(path);
    if path == "" {
      return Err(ENOENT);
    }
    if !NamesFit(Segments(path)) {
      return Err(ENAMETOOLONG);
    }
    r := ResolvePathFrom(v, search, Root(v.tree), path, o, 0, held);
    if r == Err(ENOENT) && Alias(path) != "" {
      r := ResolvePathFrom(v, search, Root(v.tree), Alias(path), o, 0, held);
    }
  }

  method FindPlace(v: Dcache, search: Inode -> bool, path: string, held: set<string>) returns (r: Result<Place>)
    requires v.Valid()
    modifies v`cache
    ensures v.Valid() && Answers(v.healthy, r, PlaceAnswer(v.tree, search, path))
    ensures !NeedsLookup(path) ==> r == PlaceAnswer(v.tree, search, path)
    ensures r.Ok? ==> NamesFit(r.value.last) && (r.value.last != [] ==> NeedsLookup(path))
  {
    hide Coherent, NamesFit, Segments, Root, AllSlashes, ParentOf;
    NoNames(path);
    PlaceHasName(v.tree, search, path);
    if path == "" {
      return Err(ENOENT);
    }
    if !NamesFit(Segments(path)) {
      return Err(ENAMETOOLONG);
    }
    r := LinkPathWalk(v, search, Root(v.tree), path, held);
  }

  /** A creation or a hard link at a place that a path walk found. */
  method AddAt(v: Dcache, place: Place, inode: Inode, source: Result<Dentry>, allowed: bool, held: set<string>) returns (reply: Reply)
    requires v.Valid() && Live(v.tree, place.dir) && |place.last| <= 1 && ValidPath(place.last) && NamesFit(place.last)
    requires source.Ok? ==> Live(v.tree, source.value) && source.value.inode == inode
    modifies v
    ensures v.Valid()
    ensures var isDir := source.Err? && inode.kind == Directory;
      AddFits(v.healthy, old(v.tree), place, inode, isDir, allowed, source.Ok? && inode.kind == Directory, reply, v.tree) ||
      (!v.healthy && place.last != [] && reply == Done(Err(EIO), true) && v.tree == old(v.tree))
  {
    hide Coherent, LowerLookup, CanAdd;
    if place.requiresDirectory && !(source.Err? && inode.kind == Directory) {
      if |place.last| == 0 {
        return Panicked;
      }
      var found := v.Lookup(place.dir, place.last[0], held);
      return Done(Err(if found.Ok? then EEXIST else found.error), true);
    }
    if place.last == [] {
      return Done(Err(EEXIST), true);
    }
    var name := place.last[0];
    assert place.last == [name];
    if source.Ok? {
      var r := Link(v, source.value, place.dir, name, allowed, held);
      reply := Done(r, true);
    } else {
      var r, undone := Create(v, place.dir, name, inode, allowed, held);
      reply := Done(if r.Ok? then Ok(()) else Err(r.error), undone);
    }
  }

  method RemoveAt(v: Dcache, place: Place, removeDir: bool, allowed: bool, held: set<string>) returns (reply: Reply)
    requires v.Valid() && Live(v.tree, place.dir) && |place.last| <= 1 && ValidPath(place.last) && NamesFit(place.last)
    modifies v
    ensures v.Valid()
    ensures RemoveFits(v.healthy, old(v.tree), place, removeDir, allowed, reply, v.tree) ||
            (!v.healthy && place.last != [] && reply == Done(Err(EIO), true) && v.tree == old(v.tree))
  {
    hide Coherent, RemoveCheck, CanRemove, TreeDropped;
    if place.last == [] {
      return Done(Err(if removeDir then EBUSY else EISDIR), true);
    }
    assert place.last == [place.last[0]];
    var r := Unlink(v, place.dir, place.last[0], removeDir, place.requiresDirectory, allowed, held);
    reply := Done(r, true);
  }

  method MoveTo(v: Dcache, source: Dentry, place: Place, noReplace: bool, allowed: bool, held: set<string>) returns (reply: Reply)
    requires v.Valid() && Live(v.tree, source) && Live(v.tree, place.dir) && |place.last| <= 1 && ValidPath(place.last) && NamesFit(place.last)
    modifies v
    ensures v.Valid()
    ensures MoveFits(v.healthy, old(v.tree), source, place, noReplace, allowed, reply, v.tree) ||
            (!v.healthy && place.last != [] && reply == Moved(Err(EIO), Untouched) && v.tree == old(v.tree))
  {
    hide Coherent, RenameCheck, BackupName, Grown, RenameTree, RenameFits;
    if place.last == [] {
      return Moved(Err(EEXIST), Untouched);
    }
    assert place.last == [place.last[0]];
    var r, outcome := Rename(v, source, place.dir, place.last[0], noReplace, place.requiresDirectory, allowed, held);
    reply := Moved(r, outcome);
  }

  /** One call through the cache gives an answer and a tree that fit a kernel without one. */
  method Apply(v: Dcache, search: Inode -> bool, op: Op, held: set<string>) returns (reply: Reply)
    requires v.Valid()
    modifies v
    ensures v.Valid() && Fits(v.healthy, old(v.tree), search, op, reply, v.tree)
  {
    hide Coherent, AddFits, RemoveFits, MoveFits, PlaceAnswer, LookupAnswer, Root, AllSlashes, NamesFit, Segments;
    match op {
      case Find(path, o) =>
        var r := LookupPath(v, search, path, o, held);
        reply := Found(r);
      case Make(path, inode, allowed) =>
        var at := FindPlace(v, search, path, held);
        if at.Err? {
          return Done(Err(at.error), true);
        }
        reply := AddAt(v, at.value, inode, Err(ENOENT), allowed, held);
      case AddLink(oldPath, follow, path, allowed) =>
        if path == "" {
          return Done(Err(ENOENT), true);
        }
        var source := LookupPath(v, search, oldPath, Options(follow, true), held);
        if source.Err? {
          return Done(Err(source.error), true);
        }
        var at := FindPlace(v, search, path, held);
        if at.Err? {
          return Done(Err(at.error), true);
        }
        reply := AddAt(v, at.value, source.value.inode, source, allowed, held);
      case Remove(path, removeDir, allowed) =>
        var at := FindPlace(v, search, path, held);
        if at.Err? {
          return Done(Err(at.error), true);
        }
        reply := RemoveAt(v, at.value, removeDir, allowed, held);
      case Move(oldPath, path, noReplace, oldAllowed, allowed) =>
        reply := ApplyMove(v, search, op, held);
      case Forget =>
        v.Clean(held);
        reply := Forgotten;
    }
  }

  method ApplyMove(v: Dcache, search: Inode -> bool, op: Op, held: set<string>) returns (reply: Reply)
    requires v.Valid() && op.Move?
    modifies v
    ensures v.Valid() && Fits(v.healthy, old(v.tree), search, op, reply, v.tree)
  {
    hide Coherent, MoveFits, PlaceAnswer, LookupAnswer, AllSlashes, NamesFit, Segments;
    if op.path == "" {
      return Moved(Err(ENOENT), Untouched);
    }
    var source := LookupPath(v, search, op.oldPath, Options(false, false), held);
    if source.Err? {
      return Moved(Err(source.error), Untouched);
    }
    if EndsWithSlash(op.oldPath) && source.value.inode.kind != Directory {
      return Moved(Err(ENOTDIR), Untouched);
    }
    if !op.oldAllowed {
      return Moved(Err(EACCES), Untouched);
    }
    var at := FindPlace(v, search, op.path, held);
    if at.Err? {
      return Moved(Err(at.error), Untouched);
    }
    reply := MoveTo(v, source.value, at.value, op.noReplace, op.allowed, held);
  }

  /** A run on trees: every answer and every next tree fits, and nothing follows a panic. */
  ghost predicate RunFits(healthy: bool, trees: seq<Tree>, search: Inode -> bool, ops: seq<Op>, replies: seq<Reply>) {
    && |trees| == |ops| + 1 && |replies| == |ops|
    && (forall i | 0 <= i < |trees| :: WellFormed(trees[i]))
    && (forall i | 0 <= i < |ops| :: Fits(healthy, trees[i], search, ops[i], replies[i], trees[i + 1]))
    && (forall i | 0 <= i < |ops| - 1 :: !replies[i].Panicked?)
  }

  lemma RunGrows(healthy: bool, trees: seq<Tree>, search: Inode -> bool, ops: seq<Op>, replies: seq<Reply>, n: nat, reply: Reply, next: Tree)
    requires n < |ops| && RunFits(healthy, trees, search, ops[..n], replies) && WellFormed(next)
    requires n > 0 ==> !replies[n - 1].Panicked?
    requires Fits(healthy, trees[n], search, ops[n], reply, next)
    ensures RunFits(healthy, trees + [next], search, ops[..n + 1], replies + [reply])
  {
    hide Fits, WellFormed;
    var ts, os, rs := trees + [next], ops[..n + 1], replies + [reply];
    forall i | 0 <= i < |os| ensures Fits(healthy, ts[i], search, os[i], rs[i], ts[i + 1]) {
      assert i < n ==> ops[..n][i] == os[i];
    }
  }

  /** Any run of calls, with whatever failures and whatever evictions, is a run of a kernel without a
      dentry cache: same answers, same errnos, same trees. It goes on to the last call unless one
      brings the kernel down. */
  method Run(v: Dcache, search: Inode -> bool, ops: seq<Op>, helds: seq<set<string>>) returns (replies: seq<Reply>, ghost trees: seq<Tree>)
    requires v.Valid() && |helds| == |ops|
    modifies v
    ensures v.Valid() && |replies| <= |ops| && RunFits(v.healthy, trees, search, ops[..|replies|], replies)
    ensures trees[0] == old(v.tree) && trees[|replies|] == v.tree
    ensures |replies| < |ops| ==> replies != [] && replies[|replies| - 1].Panicked?
  {
    hide Coherent, Fits, WellFormed;
    replies, trees := [], [v.tree];
    while |replies| < |ops|
      invariant v.Valid() && |replies| <= |ops| && RunFits(v.healthy, trees, search, ops[..|replies|], replies)
      invariant trees[0] == old(v.tree) && trees[|replies|] == v.tree
      invariant replies != [] ==> !replies[|replies| - 1].Panicked?
    {
      var n := |replies|;
      var reply := Apply(v, search, ops[n], helds[n]);
      RunGrows(v.healthy, trees, search, ops, replies, n, reply, v.tree);
      replies := replies + [reply];
      trees := trees + [v.tree];
      if reply.Panicked? {
        return;
      }
    }
  }
}
