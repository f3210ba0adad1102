/** Path resolution: the component walk through the dentry cache, and the same walk stated on
    lists of names with bare lower lookups. */
module Resolve {
  import opened Paths
  import opened Namespace
  import opened DentryCache

  const MAX_SYMLINK_FOLLOWS: nat := 40
  const PATH_MAX: nat := 4096

  /** What the caller wants done with a symlink in the last position. */
  datatype Options = Options(followFinal: bool, followTrailing: bool)

  predicate StartsWithSlash(s: string) {
    s != "" && s[0] == '/'
  }

  predicate EndsWithSlash(s: string) {
    s != "" && s[|s| - 1] == '/'
  }

  predicate NamesFit(p: Path) {
    forall i | 0 <= i < |p| :: |p[i]| <= NAME_MAX
  }

  function Root(t: Tree): (r: Dentry)
    requires WellFormed(t)
    ensures Live(t, r)
  {
    Dentry([], t[[]])
  }

  /** The root is its own parent. */
  function ParentDentry(t: Tree, d: Dentry): (r: Dentry)
    requires WellFormed(t) && Live(t, d)
    ensures Live(t, r)
  {
    assert EntryOk(t, d.path);
    Dentry(Parent(d.path), t[Parent(d.path)])
  }

  // ---- Putting a symlink's target in front of the rest of the path ----

  function Pushed(path: string, name: string): string {
    if path == "" || EndsWithSlash(path) then path + name else path + "/" + name
  }

  function JoinTarget(target: string, rest: Path, requiresDirectory: bool): string
    decreases |rest|
  {
    if rest == [] then (if requiresDirectory && !EndsWithSlash(target) then target + "/" else target)
    else JoinTarget(Pushed(target, rest[0]), rest[1..], requiresDirectory)
  }

  method JoinSymlinkTarget(target: string, rest: Path, requiresDirectory: bool) returns (path: string)
    ensures path == JoinTarget(target, rest, requiresDirectory)
  {
    path := target;
    for i := 0 to |rest|
      invariant JoinTarget(path, rest[i..], requiresDirectory) == JoinTarget(target, rest, requiresDirectory)
    {
      assert rest[i..][0] == rest[i] && rest[i..][1..] == rest[i + 1..];
      if path == "" || EndsWithSlash(path) {
        path := path + rest[i];
      } else {
        path := path + "/" + rest[i];
      }
    }
    if requiresDirectory && !EndsWithSlash(path) {
      path := path + "/";
    }
  }

  lemma {:induction false} PiecesSplit(a: string, piece: string, rest: string)
    requires '/' !in piece
    ensures Pieces(a + "/" + rest, piece) == Pieces(a, piece) + Pieces(rest, "")
    decreases |a|
  {
    var s := a + "/" + rest;
    if a == "" {
      assert s[0] == '/' && s[1..] == rest;
    } else {
      assert s[0] == a[0] && s[1..] == a[1..] + "/" + rest;
      if a[0] == '/' {
        PiecesSplit(a[1..], "", rest);
      } else {
        PiecesSplit(a[1..], piece + [a[0]], rest);
      }
    }
  }

  lemma SegmentsOfName(n: string)
    requires ValidName(n)
    ensures Segments(n) == [n]
  {
    PiecesOfName(n, "", "");
    assert n + "" == n && "" + n == n;
  }

  lemma SegmentsWithSlash(s: string)
    ensures Segments(s + "/") == Segments(s)
  {
    PiecesSplit(s, "", "");
    assert s + "/" + "" == s + "/";
  }

  lemma PushedSegments(path: string, name: string)
    requires ValidName(name)
    ensures Segments(Pushed(path, name)) == Segments(path) + [name]
    ensures !EndsWithSlash(Pushed(path, name)) && Pushed(path, name) != ""
    ensures StartsWithSlash(Pushed(path, name)) == StartsWithSlash(path)
  {
    SegmentsOfName(name);
    if path == "" {
      assert path + name == name;
    } else {
      var a := if EndsWithSlash(path) then path[..|path| - 1] else path;
      PiecesSplit(a, "", name);
      if EndsWithSlash(path) {
        assert path == a + "/";
        SegmentsWithSlash(a);
      }
    }
    assert name[0] in name && name[|name| - 1] in name;
  }

  /** The joined text names the target's components followed by the rest. It asks for a directory
      if the original path or a target in last position did, and is absolute if the target is; only
      an empty target with nothing but a trailing slash left turns into the root. */
  lemma {:induction false} JoinedTarget(target: string, rest: Path, requiresDirectory: bool)
    requires ValidPath(rest)
    ensures Segments(JoinTarget(target, rest, requiresDirectory)) == Segments(target) + rest
    ensures EndsWithSlash(JoinTarget(target, rest, requiresDirectory)) == (requiresDirectory || (rest == [] && EndsWithSlash(target)))
    ensures StartsWithSlash(JoinTarget(target, rest, requiresDirectory)) == BecomesAbsolute(target, rest, requiresDirectory)
    decreases |rest|
  {
    hide Segments, Pushed;
    if rest == [] {
      SegmentsWithSlash(target);
    } else {
      assert ValidName(rest[0]) && rest == [rest[0]] + rest[1..];
      PushedSegments(target, rest[0]);
      JoinedTarget(Pushed(target, rest[0]), rest[1..], requiresDirectory);
      assert Segments(target) + [rest[0]] + rest[1..] == Segments(target) + rest;
    }
  }

  predicate BecomesAbsolute(target: string, rest: Path, requiresDirectory: bool) {
    StartsWithSlash(target) || (target == "" && rest == [] && requiresDirectory)
  }

  // ---- The walk on names ----

  /** A symlink is followed in the middle of a path, and at its end if the caller asks for it or a
      trailing slash demands a directory. */
  predicate Follows(d: Dentry, isLast: bool, o: Options, requiresDirectory: bool) {
    d.inode.kind.SymLink? && (!isLast || o.followFinal || (requiresDirectory && o.followTrailing))
  }

  function RequireDirectory(d: Dentry, required: bool): Result<Dentry> {
    if required && d.inode.kind != Directory then Err(ENOTDIR) else Ok(d)
  }

  /** One step down from a directory that may be searched. */
  function Entered(t: Tree, search: Inode -> bool, cur: Dentry, name: string): (r: Result<Dentry>)
    ensures r.Ok? ==> Live(t, r.value)
  {
    if cur.inode.kind != Directory then Err(ENOTDIR) else if !search(cur.inode) then Err(EACCES) else LowerLookup(t, cur, name)
  }

  method Enter(v: Dcache, search: Inode -> bool, cur: Dentry, name: string, held: set<string>) returns (r: Result<Dentry>)
    requires v.Valid() && Live(v.tree, cur) && ValidName(name)
    modifies v`cache
    ensures v.Valid() && Answers(v.healthy, r, Entered(v.tree, search, cur, name)) && (r.Ok? ==> Live(v.tree, r.value))
  {
    if cur.inode.kind != Directory {
      return Err(ENOTDIR);
    }
    if !search(cur.inode) {
      return Err(EACCES);
    }
    r := v.Lookup(cur, name, held);
  }

  /** Walks `names` from `cur`, asking the lower tree for every component. A symlink's names take
      its place in the list. */
  function Walk(t: Tree, search: Inode -> bool, cur: Dentry, names: Path, reqDir: bool, o: Options, follows: nat): (r: Result<Dentry>)
    requires WellFormed(t) && Live(t, cur) && follows < MAX_SYMLINK_FOLLOWS
    ensures r.Ok? ==> Live(t, r.value)
    decreases MAX_SYMLINK_FOLLOWS - follows, |names|
  {
    if names == [] then Ok(cur)
    else if names[0] == "." then Walk(t, search, cur, names[1..], reqDir, o, follows)
    else if names[0] == ".." then Walk(t, search, ParentDentry(t, cur), names[1..], reqDir, o, follows)
    else if Entered(t, search, cur, names[0]).Err? then Err(Entered(t, search, cur, names[0]).error)
    else
      var child := Entered(t, search, cur, names[0]).value;
      if Follows(child, |names| == 1, o, reqDir) then
        var target, rest := child.inode.kind.target, names[1..];
        var next := Segments(target) + rest;
        var nextReqDir := reqDir || (rest == [] && EndsWithSlash(target));
        var start := if BecomesAbsolute(target, rest, reqDir) then Root(t) else cur;
        if |JoinTarget(target, rest, reqDir)| > PATH_MAX || !NamesFit(next) then Err(ENAMETOOLONG)
        else if follows + 1 == MAX_SYMLINK_FOLLOWS then Err(ELOOP)
        else if next == [] then RequireDirectory(start, nextReqDir)
        else Walk(t, search, start, next, nextReqDir, o, follows + 1)
      else if |names| == 1 then RequireDirectory(child, reqDir)
      else Walk(t, search, child, names[1..], reqDir, o, follows)
  }

  /** The walk, one component at a time. */
  lemma WalkStep(t: Tree, search: Inode -> bool, cur: Dentry, names: Path, reqDir: bool, o: Options, follows: nat)
    requires WellFormed(t) && Live(t, cur) && follows < MAX_SYMLINK_FOLLOWS && names != []
    ensures var w, found := Walk(t, search, cur, names, reqDir, o, follows), Entered(t, search, cur, names[0]);
      if names[0] == "." then w == Walk(t, search, cur, names[1..], reqDir, o, follows)
      else if names[0] == ".." then w == Walk(t, search, ParentDentry(t, cur), names[1..], reqDir, o, follows)
      else if found.Err? then w == Err(found.error)
      else if Follows(found.value, |names| == 1, o, reqDir) then true
      else if |names| == 1 then w == RequireDirectory(found.value, reqDir)
      else w == Walk(t, search, found.value, names[1..], reqDir, o, follows)
    ensures Walk(t, search, cur, [], reqDir, o, follows) == Ok(cur)
  {
  }

  /** What a path string resolves to. */
  function Resolved(t: Tree, search: Inode -> bool, base: Dentry, path: string, o: Options, follows: nat): (r: Result<Dentry>)
    requires WellFormed(t) && Live(t, base)
    ensures r.Ok? ==> Live(t, r.value)
  {
    if follows >= MAX_SYMLINK_FOLLOWS then Err(ELOOP)
    else
      var start := if StartsWithSlash(path) then Root(t) else base;
      if Segments(path) == [] then RequireDirectory(start, EndsWithSlash(path))
      else Walk(t, search, start, Segments(path), EndsWithSlash(path), o, follows)
  }

  /** Following a symlink is resolving the joined text. */
  lemma FollowIsResolved(t: Tree, search: Inode -> bool, cur: Dentry, names: Path, reqDir: bool, o: Options, follows: nat)
    requires WellFormed(t) && Live(t, cur) && follows < MAX_SYMLINK_FOLLOWS && ValidPath(names) && names != []
    requires names[0] != "." && names[0] != ".."
    requires var l := Entered(t, search, cur, names[0]); l.Ok? && Follows(l.value, |names| == 1, o, reqDir)
    ensures
      var target := Entered(t, search, cur, names[0]).value.inode.kind.target;
      var next := JoinTarget(target, names[1..], reqDir);
      Walk(t, search, cur, names, reqDir, o, follows) ==
      if |next| > 4096 || !NamesFit(Segments(next)) then Err(ENAMETOOLONG)
      else Resolved(t, search, if StartsWithSlash(target) then Root(t) else cur, next, o, follows + 1)
  {
    hide WellFormed, Segments, JoinTarget, Entered;
    JoinedTarget(Entered(t, search, cur, names[0]).value.inode.kind.target, names[1..], reqDir);
  }

  /** Resolution as the kernel does it: through the cache, one component at a time, rebuilding the
      path text at every symlink. It gives the same dentry or the same errno as the walk that asks
      the lower tree every time, for every path, every symlink and every state of the cache; only a
      lower filesystem that fails can make it answer EIO instead. */
  method ResolvePathFrom(v: Dcache, search: Inode -> bool, base: Dentry, path: string, o: Options, follows: nat, held: set<string>)
    returns (r: Result<Dentry>)
    requires v.Valid() && Live(v.tree, base) && follows <= MAX_SYMLINK_FOLLOWS
    modifies v`cache
    ensures v.Valid() && Answers(v.healthy, r, Resolved(v.tree, search, base, path, o, follows))
    ensures Segments(path) == [] ==> r == Resolved(v.tree, search, base, path, o, follows)
    decreases MAX_SYMLINK_FOLLOWS - follows
  {
    hide Coherent, JoinTarget, NamesFit, EntryOk, Segments, WellFormed, Entered, ParentDentry, Root, Pushed, Walk;
    if follows >= MAX_SYMLINK_FOLLOWS {
      return Err(ELOOP);
    }
    var segs := Segments(path);
    var reqDir := EndsWithSlash(path);
    var cur := if StartsWithSlash(path) then Root(v.tree) else base;
    if segs == [] {
      return RequireDirectory(cur, reqDir);
    }
    var depth := 0;
    while depth < |segs|
      invariant depth <= |segs| && v.Valid() && Live(v.tree, cur)
      invariant Walk(v.tree, search, cur, segs[depth..], reqDir, o, follows) == Resolved(v.tree, search, base, path, o, follows)
    {
      var name := segs[depth];
      var isLast := depth + 1 == |segs|;
      assert segs[depth..][0] == name && segs[depth..][1..] == segs[depth + 1..];
      WalkStep(v.tree, search, cur, segs[depth..], reqDir, o, follows);
      if name == "." {
        if isLast {
          return Ok(cur);
        }
      } else if name == ".." {
        cur := ParentDentry(v.tree, cur);
        if isLast {
          WalkStep(v.tree, search, cur, segs, reqDir, o, follows);
          return Ok(cur);
        }
      } else {
        var found := Enter(v, search, cur, name, held);
        if found.Err? {
          return Err(found.error);
        }
        var child := found.value;
        if Follows(child, isLast, o, reqDir) {
          FollowIsResolved(v.tree, search, cur, segs[depth..], reqDir, o, follows);
          var unreadable: bool := *;
          if unreadable && !v.healthy {
            return Err(EIO);
          }
          var target := child.inode.kind.target;
          var next := JoinSymlinkTarget(target, segs[depth + 1..], reqDir);
          if |next| > PATH_MAX || !NamesFit(Segments(next)) {
            return Err(ENAMETOOLONG);
          }
          var nextBase := if StartsWithSlash(target) then Root(v.tree) else cur;
          r := ResolvePathFrom(v, search, nextBase, next, o, follows + 1, held);
          return;
        }
        if isLast {
          return RequireDirectory(child, reqDir);
        }
        cur := child;
      }
      depth := depth + 1;
    }
    WalkStep(v.tree, search, cur, segs, reqDir, o, follows);
    assert segs[depth..] == [];
    return Ok(cur);
  }

  // ---- What a plain path resolves to ----

  predicate Plain(p: Path) {
    forall i | 0 <= i < |p| :: p[i] != "." && p[i] != ".."
  }

  /** Every directory above `p` may be searched. */
  predicate Searchable(t: Tree, search: Inode -> bool, p: Path) {
    forall i | 0 <= i < |p| :: p[..i] in t ==> search(t[p[..i]])
  }

  lemma {:induction false} AncestorIsDir(t: Tree, p: Path, i: nat)
    requires WellFormed(t) && p in t && i < |p|
    ensures IsDir(t, p[..i])
    decreases |p|
  {
    assert EntryOk(t, p);
    if i + 1 < |p| {
      AncestorIsDir(t, Parent(p), i);
      assert Parent(p)[..i] == p[..i];
    }
  }

  lemma {:induction false} WalkDown(t: Tree, search: Inode -> bool, p: Path, i: nat, o: Options, follows: nat)
    requires WellFormed(t) && p in t && Plain(p) && Searchable(t, search, p) && i < |p| && follows < MAX_SYMLINK_FOLLOWS
    requires t[p].kind.SymLink? ==> !o.followFinal
    requires p[..i] in t
    ensures Walk(t, search, Dentry(p[..i], t[p[..i]]), p[i..], false, o, follows) == Ok(Dentry(p, t[p]))
    decreases |p| - i
  {
    AncestorIsDir(t, p, i);
    assert p[i..][0] == p[i] && p[i..][1..] == p[i + 1..] && p[..i] + [p[i]] == p[..i + 1];
    assert search(t[p[..i]]);
    if i + 1 < |p| {
      AncestorIsDir(t, p, i + 1);
      WalkDown(t, search, p, i + 1, o, follows);
    } else {
      assert p[..i + 1] == p;
    }
  }

  /** Every entry that can be reached by searching is what its own absolute path resolves to. */
  lemma RenderResolves(t: Tree, search: Inode -> bool, base: Dentry, p: Path, o: Options)
    requires WellFormed(t) && Live(t, base) && p in t && Plain(p) && Searchable(t, search, p)
    requires t[p].kind.SymLink? ==> !o.followFinal
    ensures Resolved(t, search, base, Render(p), o, 0) == Ok(Dentry(p, t[p]))
  {
    assert EntryOk(t, p);
    SegmentsOfRender(p);
    if p != [] {
      assert p[..0] == [] && p[0..] == p;
      WalkDown(t, search, p, 0, o, 0);
      RenderEnds(p);
    }
  }

  lemma {:induction false} RenderEnds(p: Path)
    requires ValidPath(p) && p != []
    ensures StartsWithSlash(Render(p)) && !EndsWithSlash(Render(p))
  {
    var n := p[|p| - 1];
    assert ValidName(n) && n[|n| - 1] in n && p == Parent(p) + [n];
    JoinedSnoc(Parent(p), n);
  }

  // ---- Walking to the parent of the last component ----

  /** Where a path's last component would be looked up. `last` is empty for a path without names. */
  datatype Place = Place(dir: Dentry, last: Path, requiresDirectory: bool)

  /** The walk to the parent: every component but the last is looked up, and symlinks are followed. */
  function WalkParent(t: Tree, search: Inode -> bool, cur: Dentry, names: Path, reqDir: bool, follows: nat): (r: Result<Place>)
    requires WellFormed(t) && Live(t, cur) && follows <= MAX_SYMLINK_FOLLOWS && ValidPath(names)
    ensures r.Ok? ==> Live(t, r.value.dir) && |r.value.last| <= 1 && ValidPath(r.value.last)
    decreases MAX_SYMLINK_FOLLOWS - follows, |names|
  {
    if |names| <= 1 then Ok(Place(cur, names, reqDir))
    else if names[0] == "." then WalkParent(t, search, cur, names[1..], reqDir, follows)
    else if names[0] == ".." then WalkParent(t, search, ParentDentry(t, cur), names[1..], reqDir, follows)
    else if cur.inode.kind == Directory && !search(cur.inode) then Err(EACCES)
    else if LowerLookup(t, cur, names[0]).Err? then Err(LowerLookup(t, cur, names[0]).error)
    else
      var child := LowerLookup(t, cur, names[0]).value;
      if child.inode.kind.SymLink? then
        var target, rest := child.inode.kind.target, names[1..];
        if follows >= MAX_SYMLINK_FOLLOWS then Err(ELOOP)
        else if |JoinTarget(target, rest, reqDir)| > PATH_MAX || !NamesFit(Segments(target) + rest) then Err(ENAMETOOLONG)
        else WalkParent(t, search, if StartsWithSlash(target) then Root(t) else cur, Segments(target) + rest, reqDir, follows + 1)
      else WalkParent(t, search, child, names[1..], reqDir, follows)
  }

  /** The walk to the parent, one component at a time. */
  lemma WalkParentStep(t: Tree, search: Inode -> bool, cur: Dentry, names: Path, reqDir: bool, follows: nat)
    requires WellFormed(t) && Live(t, cur) && follows <= MAX_SYMLINK_FOLLOWS && ValidPath(names) && |names| > 1
    ensures var w, found := WalkParent(t, search, cur, names, reqDir, follows), LowerLookup(t, cur, names[0]);
      if names[0] == "." then w == WalkParent(t, search, cur, names[1..], reqDir, follows)
      else if names[0] == ".." then w == WalkParent(t, search, ParentDentry(t, cur), names[1..], reqDir, follows)
      else if cur.inode.kind == Directory && !search(cur.inode) then w == Err(EACCES)
      else if found.Err? then w == Err(found.error)
      else if found.value.inode.kind.SymLink? then (follows >= MAX_SYMLINK_FOLLOWS ==> w == Err(ELOOP))
      else Live(t, found.value) && w == WalkParent(t, search, found.value, names[1..], reqDir, follows)
  {
  }

  lemma WalkParentEnds(t: Tree, search: Inode -> bool, cur: Dentry, names: Path, reqDir: bool, follows: nat)
    requires WellFormed(t) && Live(t, cur) && follows <= MAX_SYMLINK_FOLLOWS && ValidPath(names) && |names| <= 1
    ensures WalkParent(t, search, cur, names, reqDir, follows) == Ok(Place(cur, names, reqDir))
  {
  }

  function ParentOf(t: Tree, search: Inode -> bool, base: Dentry, path: string): (r: Result<Place>)
    requires WellFormed(t) && Live(t, base)
    ensures r.Ok? ==> Live(t, r.value.dir) && |r.value.last| <= 1 && ValidPath(r.value.last)
  {
    WalkParent(t, search, if StartsWithSlash(path) then Root(t) else base, Segments(path), EndsWithSlash(path), 0)
  }

  lemma FollowParent(t: Tree, search: Inode -> bool, cur: Dentry, names: Path, reqDir: bool, follows: nat)
    requires WellFormed(t) && Live(t, cur) && follows < MAX_SYMLINK_FOLLOWS && ValidPath(names) && |names| > 1
    requires names[0] != "." && names[0] != ".." && (cur.inode.kind == Directory ==> search(cur.inode))
    requires var l := LowerLookup(t, cur, names[0]); l.Ok? && l.value.inode.kind.SymLink?
    ensures
      var target := LowerLookup(t, cur, names[0]).value.inode.kind.target;
      var next := JoinTarget(target, names[1..], reqDir);
      WalkParent(t, search, cur, names, reqDir, follows) ==
      if |next| > 4096 || !NamesFit(Segments(next)) then Err(ENAMETOOLONG)
      else WalkParent(t, search, if StartsWithSlash(target) then Root(t) else cur, Segments(next), EndsWithSlash(next), follows + 1)
  {
    hide WellFormed, Segments, JoinTarget;
    JoinedTarget(LowerLookup(t, cur, names[0]).value.inode.kind.target, names[1..], reqDir);
  }

  /** The walk as the kernel does it: through the cache, starting over with the joined text at every
      symlink. */
  method LinkPathWalk(v: Dcache, search: Inode -> bool, base: Dentry, path: string, held: set<string>) returns (r: Result<Place>)
    requires v.Valid() && Live(v.tree, base)
    modifies v`cache
    ensures v.Valid() && Answers(v.healthy, r, ParentOf(v.tree, search, base, path))
    ensures |Segments(path)| <= 1 ==> r == ParentOf(v.tree, search, base, path)
  {
    hide Coherent, Keyed, Grown, JoinTarget, NamesFit, EntryOk, Segments, WellFormed, LowerLookup, ParentDentry, Root, Pushed, WalkParent;
    var cur := if StartsWithSlash(path) then Root(v.tree) else base;
    var segs, reqDir, depth, follows := Segments(path), EndsWithSlash(path), 0, 0;
    while depth + 1 < |segs|
      invariant depth <= |segs| && (depth < |segs| || segs == []) && follows <= MAX_SYMLINK_FOLLOWS
      invariant v.Valid() && Live(v.tree, cur) && ValidPath(segs)
      invariant |Segments(path)| <= 1 ==> |segs| <= 1
      invariant WalkParent(v.tree, search, cur, segs[depth..], reqDir, follows) == ParentOf(v.tree, search, base, path)
      decreases MAX_SYMLINK_FOLLOWS - follows, |segs| - depth
    {
      var name := segs[depth];
      ghost var names := segs[depth..];
      assert names[0] == name && names[1..] == segs[depth + 1..];
      WalkParentStep(v.tree, search, cur, names, reqDir, follows);
      if name == "." {
      } else if name == ".." {
        cur := ParentDentry(v.tree, cur);
      } else {
        if cur.inode.kind == Directory && !search(cur.inode) {
          return Err(EACCES);
        }
        var found := v.Lookup(cur, name, held);
        if found.Err? {
          return Err(found.error);
        }
        var child := found.value;
        if child.inode.kind.SymLink? {
          if follows >= MAX_SYMLINK_FOLLOWS {
            return Err(ELOOP);
          }
          var unreadable: bool := *;
          if unreadable && !v.healthy {
            return Err(EIO);
          }
          var target := child.inode.kind.target;
          FollowParent(v.tree, search, cur, names, reqDir, follows);
          var next := JoinSymlinkTarget(target, segs[depth + 1..], reqDir);
          if |next| > PATH_MAX || !NamesFit(Segments(next)) {
            return Err(ENAMETOOLONG);
          }
          if StartsWithSlash(target) {
            cur := Root(v.tree);
          }
          segs, reqDir, depth, follows := Segments(next), EndsWithSlash(next), 0, follows + 1;
          assert segs[0..] == segs;
          continue;
        }
        cur := child;
      }
      depth := depth + 1;
    }
    WalkParentEnds(v.tree, search, cur, segs[depth..], reqDir, follows);
    r := Ok(Place(cur, segs[depth..], reqDir));
  }
}
