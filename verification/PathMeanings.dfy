/** What paths mean on the tree: dots, trailing slashes, symlinks on the way, and the errors of a walk
    that cannot go on. */
module PathMeanings {
  import opened Paths
  import opened Namespace
  import opened DentryCache
  import opened Resolve

  function At(t: Tree, p: Path): (d: Dentry)
    requires p in t
    ensures Live(t, d)
  {
    Dentry(p, t[p])
  }

  /** A directory that a plain path leads to and that may be searched, with all those above it. */
  predicate Reachable(t: Tree, search: Inode -> bool, p: Path) {
    IsDir(t, p) && Plain(p) && Searchable(t, search, p) && search(t[p])
  }

  lemma ReachableAbove(t: Tree, search: Inode -> bool, p: Path, i: nat)
    requires WellFormed(t) && p in t && Plain(p) && Searchable(t, search, p) && i < |p|
    ensures Reachable(t, search, p[..i])
  {
    AncestorIsDir(t, p, i);
    assert forall j | 0 <= j < i :: p[..i][..j] == p[..j] && p[..i][j] == p[j];
  }

  lemma TextOf(p: Path, n: string)
    requires ValidPath(p) && p != [] && ValidName(n)
    ensures var s := Render(p) + "/" + n;
      Segments(s) == p + [n] && StartsWithSlash(s) && !EndsWithSlash(s) && s == Pushed(Render(p), n)
  {
    SegmentsOfRender(p);
    RenderEnds(p);
    PushedSegments(Render(p), n);
  }

  // ---- Down a plain path ----

  lemma {:induction false} WalkThrough(t: Tree, search: Inode -> bool, p: Path, i: nat, rest: Path, reqDir: bool, o: Options, follows: nat)
    requires WellFormed(t) && IsDir(t, p) && Plain(p) && Searchable(t, search, p)
    requires i <= |p| && rest != [] && follows < MAX_SYMLINK_FOLLOWS && p[..i] in t
    ensures Walk(t, search, At(t, p[..i]), p[i..] + rest, reqDir, o, follows) == Walk(t, search, At(t, p), rest, reqDir, o, follows)
    decreases |p| - i
  {
    hide WellFormed, Segments;
    if i == |p| {
      assert p[..i] == p && p[i..] + rest == rest;
    } else {
      var names := p[i..] + rest;
      assert names[0] == p[i] && names[1..] == p[i + 1..] + rest && p[..i] + [p[i]] == p[..i + 1];
      AncestorIsDir(t, p, i);
      if i + 1 < |p| { AncestorIsDir(t, p, i + 1); } else { assert p[..i + 1] == p; }
      assert search(t[p[..i]]);
      WalkStep(t, search, At(t, p[..i]), names, reqDir, o, follows);
      WalkThrough(t, search, p, i + 1, rest, reqDir, o, follows);
    }
  }

  lemma {:induction false} ParentThrough(t: Tree, search: Inode -> bool, p: Path, i: nat, rest: Path, reqDir: bool, follows: nat)
    requires WellFormed(t) && Reachable(t, search, p) && ValidPath(p) && ValidPath(rest)
    requires i <= |p| && rest != [] && follows <= MAX_SYMLINK_FOLLOWS && p[..i] in t
    ensures WalkParent(t, search, At(t, p[..i]), p[i..] + rest, reqDir, follows) == WalkParent(t, search, At(t, p), rest, reqDir, follows)
    decreases |p| - i
  {
    hide WellFormed, Segments;
    if i == |p| {
      assert p[..i] == p && p[i..] + rest == rest;
    } else {
      var names := p[i..] + rest;
      assert names[0] == p[i] && names[1..] == p[i + 1..] + rest && p[..i] + [p[i]] == p[..i + 1];
      AncestorIsDir(t, p, i);
      if i + 1 < |p| { AncestorIsDir(t, p, i + 1); } else { assert p[..i + 1] == p; }
      assert search(t[p[..i]]);
      WalkParentStep(t, search, At(t, p[..i]), names, reqDir, follows);
      ParentThrough(t, search, p, i + 1, rest, reqDir, follows);
    }
  }

  /** An absolute text that names `p` and then `rest` is looked up from `p` on. */
  lemma FromDirectory(t: Tree, search: Inode -> bool, base: Dentry, p: Path, rest: Path, path: string, o: Options)
    requires WellFormed(t) && Live(t, base) && Reachable(t, search, p) && ValidPath(p) && rest != []
    requires Segments(path) == p + rest && StartsWithSlash(path)
    ensures Resolved(t, search, base, path, o, 0) == Walk(t, search, At(t, p), rest, EndsWithSlash(path), o, 0)
    ensures ValidPath(rest) ==>
      ParentOf(t, search, base, path) == WalkParent(t, search, At(t, p), rest, EndsWithSlash(path), 0)
  {
    hide Walk, WalkParent;
    RootThere(t);
    assert p[..0] == [] && p[0..] == p;
    WalkThrough(t, search, p, 0, rest, EndsWithSlash(path), o, 0);
    if ValidPath(rest) { ParentThrough(t, search, p, 0, rest, EndsWithSlash(path), 0); }
  }

  // ---- Dots ----

  lemma DotDotStep(t: Tree, search: Inode -> bool, p: Path, rest: Path, reqDir: bool, o: Options, follows: nat)
    requires WellFormed(t) && IsDir(t, p) && p != [] && follows < MAX_SYMLINK_FOLLOWS
    ensures IsDir(t, p[..|p| - 1])
    ensures Walk(t, search, At(t, p), [".."] + rest, reqDir, o, follows) ==
      Walk(t, search, At(t, p[..|p| - 1]), rest, reqDir, o, follows)
    ensures ValidPath(rest) && rest != [] ==>
      WalkParent(t, search, At(t, p), [".."] + rest, reqDir, follows) == WalkParent(t, search, At(t, p[..|p| - 1]), rest, reqDir, follows)
  {
    hide Segments;
    assert EntryOk(t, p);
    assert ([".."] + rest)[0] == ".." && ([".."] + rest)[1..] == rest;
  }

  /** The parent of a directory is the directory its path names without the last name. */
  lemma DotDotIsParent(t: Tree, search: Inode -> bool, base: Dentry, p: Path, o: Options)
    requires WellFormed(t) && Live(t, base) && Reachable(t, search, p) && p != []
    ensures p[..|p| - 1] in t && Resolved(t, search, base, Render(p) + "/..", o, 0) == Ok(At(t, p[..|p| - 1]))
    ensures ParentOf(t, search, base, Render(p) + "/..") == Ok(Place(At(t, p), [".."], false))
  {
    hide WellFormed, Resolved, ParentOf;
    assert ValidPath(p) by { PathsValid(t, p); }
    TextOf(p, "..");
    assert Render(p) + "/.." == Render(p) + "/" + "..";
    FromDirectory(t, search, base, p, [".."], Render(p) + "/..", o);
    DotDotStep(t, search, p, [], false, o, 0);
    assert [".."] + [] == [".."];
  }

  lemma RootThere(t: Tree)
    requires WellFormed(t)
    ensures IsDir(t, [])
  {
  }

  lemma PathsValid(t: Tree, p: Path)
    requires WellFormed(t) && p in t
    ensures ValidPath(p)
  {
    assert EntryOk(t, p);
  }

  /** A dot stays where it is. */
  lemma DotIsSelf(t: Tree, search: Inode -> bool, base: Dentry, p: Path, o: Options)
    requires WellFormed(t) && Live(t, base) && Reachable(t, search, p) && p != []
    ensures Resolved(t, search, base, Render(p) + "/.", o, 0) == Ok(At(t, p))
  {
    hide WellFormed, Resolved;
    assert ValidPath(p) by { PathsValid(t, p); }
    TextOf(p, ".");
    assert Render(p) + "/." == Render(p) + "/" + ".";
    FromDirectory(t, search, base, p, ["."], Render(p) + "/.", o);
    assert ["."][1..] == [];
  }

  /** The root is its own parent. */
  lemma RootDotDot(t: Tree, search: Inode -> bool, base: Dentry, o: Options)
    requires WellFormed(t) && Live(t, base)
    ensures Resolved(t, search, base, "/..", o, 0) == Ok(At(t, []))
  {
    PushedSegments("/", "..");
    assert Pushed("/", "..") == "/.." && Segments("/") == [];
    assert [".."][1..] == [];
  }

  /** So a name after the dots is a name in the parent, for lookups and for making it. */
  lemma DotDotThenName(t: Tree, search: Inode -> bool, base: Dentry, p: Path, n: string, o: Options)
    requires WellFormed(t) && Live(t, base) && Reachable(t, search, p) && p != [] && ValidName(n)
    ensures var path, direct := Render(p) + "/../" + n, Render(p[..|p| - 1] + [n]);
      && Resolved(t, search, base, path, o, 0) == Resolved(t, search, base, direct, o, 0)
      && p[..|p| - 1] in t
      && ParentOf(t, search, base, path) == ParentOf(t, search, base, direct) == Ok(Place(At(t, p[..|p| - 1]), [n], false))
  {
    hide WellFormed, Resolved, ParentOf, Walk;
    var up := p[..|p| - 1];
    assert ValidPath(p) by { PathsValid(t, p); }
    ReachableAbove(t, search, p, |p| - 1);
    TextOf(p, "..");
    var s := Render(p) + "/..";
    assert s == Render(p) + "/" + "..";
    PushedSegments(s, n);
    assert Pushed(s, n) == Render(p) + "/../" + n;
    assert p + [".."] + [n] == p + ([".."] + [n]);
    FromDirectory(t, search, base, p, [".."] + [n], Render(p) + "/../" + n, o);
    DotDotStep(t, search, p, [n], false, o, 0);
    SegmentsOfRender(up + [n]);
    RenderEnds(up + [n]);
    FromDirectory(t, search, base, up, [n], Render(up + [n]), o);
    WalkParentEnds(t, search, At(t, up), [n], false, 0);
  }

  // ---- The last name ----

  /** An entry is what its path names. With a trailing slash it has to be a directory. */
  lemma LastName(t: Tree, search: Inode -> bool, base: Dentry, p: Path, n: string, o: Options)
    requires WellFormed(t) && Live(t, base) && Reachable(t, search, p) && p + [n] in t && n != "." && n != ".."
    requires !t[p + [n]].kind.SymLink?
    ensures Resolved(t, search, base, Render(p + [n]), o, 0) == Ok(At(t, p + [n]))
    ensures Resolved(t, search, base, Render(p + [n]) + "/", o, 0) ==
      if t[p + [n]].kind == Directory then Ok(At(t, p + [n])) else Err(ENOTDIR)
  {
    hide WellFormed, Segments;
    PathsValid(t, p);
    PathsValid(t, p + [n]);
    SegmentsOfRender(p + [n]);
    RenderEnds(p + [n]);
    SegmentsWithSlash(Render(p + [n]));
    FromDirectory(t, search, base, p, [n], Render(p + [n]), o);
    FromDirectory(t, search, base, p, [n], Render(p + [n]) + "/", o);
    assert [n][1..] == [];
  }

  // ---- A symlink on the way ----

  /** A symlink to directory `q` stands for `q`: in the middle of a path always, at its end if that is
      asked for, by option or by a trailing slash. */
  lemma LinkStandsFor(t: Tree, search: Inode -> bool, base: Dentry, p: Path, n: string, q: Path, m: string, o: Options)
    requires WellFormed(t) && Live(t, base) && Reachable(t, search, p) && p + [n] in t && n != "." && n != ".."
    requires Reachable(t, search, q) && q != [] && t[p + [n]].kind == SymLink(Render(q))
    requires q + [m] in t && m != "." && m != ".." && !t[q + [m]].kind.SymLink?
    requires |Render(q)| + 2 + |m| <= PATH_MAX
    ensures Resolved(t, search, base, Render(p + [n, m]), o, 0) == Ok(At(t, q + [m]))
    ensures Resolved(t, search, base, Render(p + [n]), o, 0) == Ok(if o.followFinal then At(t, q) else At(t, p + [n]))
    ensures o.followTrailing ==> Resolved(t, search, base, Render(p + [n]) + "/", o, 0) == Ok(At(t, q))
  {
    hide WellFormed, Segments, Walk, Resolved;
    PathsValid(t, p);
    PathsValid(t, p + [n]);
    PathsValid(t, q + [m]);
    NameAt(p, n);
    NameAt(q, m);
    var s := Render(p + [n]);
    assert p + [n, m] == p + [n] + [m];
    SegmentsOfRender(p + [n]);
    SegmentsOfRender(p + [n, m]);
    RenderEnds(p + [n]);
    RenderEnds(p + [n, m]);
    SegmentsWithSlash(s);
    assert p + [n, m] == p + ([n] + [m]) && [n] + [m] == [n, m];
    FromDirectory(t, search, base, p, [n, m], Render(p + [n, m]), o);
    FromDirectory(t, search, base, p, [n], s, o);
    FromDirectory(t, search, base, p, [n], s + "/", o);
    TreeNamesFit(t, q + [m]);
    LinkStep(t, search, p, n, q, [m], false, o);
    LinkEnds(t, search, p, n, q, o);
    RootThere(t);
    assert q[..0] == [] && q[0..] + [m] == q + [m];
    WalkThrough(t, search, q, 0, [m], false, o, 1);
    LastStep(t, search, q, m, false, o, 1);
  }

  /** Also on the way to a name that is to be made. */
  lemma LinkLeads(t: Tree, search: Inode -> bool, base: Dentry, p: Path, n: string, q: Path, m: string)
    requires WellFormed(t) && Live(t, base) && Reachable(t, search, p) && p + [n] in t && n != "." && n != ".."
    requires Reachable(t, search, q) && q != [] && t[p + [n]].kind == SymLink(Render(q))
    requires ValidName(m) && |m| <= NAME_MAX && |Render(q)| + 2 + |m| <= PATH_MAX
    ensures ParentOf(t, search, base, Render(p + [n, m])) == Ok(Place(At(t, q), [m], false))
  {
    hide WellFormed, Segments, ParentOf;
    PathsValid(t, p);
    PathsValid(t, p + [n]);
    PathsValid(t, q);
    NameAt(p, n);
    assert p + [n, m] == p + [n] + [m];
    SegmentsOfRender(p + [n, m]);
    RenderEnds(p + [n, m]);
    FromDirectory(t, search, base, p, [n, m], Render(p + [n, m]), Options(true, true));
    TreeNamesFit(t, q);
    SegmentsOfRender(q);
    RenderEnds(q);
    assert [n, m][1..] == [m];
    JoinOne(Render(q), [m], false);
    RootThere(t);
    assert q[..0] == [] && q[0..] + [m] == q + [m];
    ParentThrough(t, search, q, 0, [m], false, 1);
    WalkParentEnds(t, search, At(t, q), [m], false, 1);
  }

  lemma NameAt(p: Path, n: string)
    requires ValidPath(p + [n])
    ensures ValidPath(p) && ValidName(n)
  {
    assert (p + [n])[|p|] == n;
    assert forall i | 0 <= i < |p| :: p[i] == (p + [n])[i];
  }

  lemma LastStep(t: Tree, search: Inode -> bool, p: Path, n: string, reqDir: bool, o: Options, follows: nat)
    requires WellFormed(t) && IsDir(t, p) && search(t[p]) && p + [n] in t && n != "." && n != ".." && follows < MAX_SYMLINK_FOLLOWS
    requires !t[p + [n]].kind.SymLink? && (reqDir ==> t[p + [n]].kind == Directory)
    ensures Walk(t, search, At(t, p), [n], reqDir, o, follows) == Ok(At(t, p + [n]))
  {
  }

  /** Following a symlink with more names to come. */
  lemma LinkStep(t: Tree, search: Inode -> bool, p: Path, n: string, q: Path, rest: Path, reqDir: bool, o: Options)
    requires WellFormed(t) && IsDir(t, p) && search(t[p]) && p + [n] in t && n != "." && n != ".."
    requires ValidPath(q) && q != [] && t[p + [n]].kind == SymLink(Render(q)) && NamesFit(q + rest)
    requires |rest| == 1 && |Render(q)| + 2 + |rest[0]| <= PATH_MAX
    ensures Walk(t, search, At(t, p), [n] + rest, reqDir, o, 0) == Walk(t, search, At(t, []), q + rest, reqDir, o, 1)
  {
    hide WellFormed, Segments;
    assert ([n] + rest)[0] == n && ([n] + rest)[1..] == rest;
    SegmentsOfRender(q);
    RenderEnds(q);
    JoinOne(Render(q), rest, reqDir);
  }

  lemma JoinOne(target: string, rest: Path, reqDir: bool)
    requires |rest| <= 1
    ensures |JoinTarget(target, rest, reqDir)| <= |target| + 2 + if rest == [] then 0 else |rest[0]|
  {
    if rest != [] { assert rest[1..] == []; }
  }

  /** Following a symlink at the end of a path. */
  lemma LinkEnds(t: Tree, search: Inode -> bool, p: Path, n: string, q: Path, o: Options)
    requires WellFormed(t) && IsDir(t, p) && search(t[p]) && p + [n] in t && n != "." && n != ".."
    requires Reachable(t, search, q) && ValidPath(q) && q != [] && t[p + [n]].kind == SymLink(Render(q)) && |Render(q)| + 2 <= PATH_MAX
    ensures Walk(t, search, At(t, p), [n], false, o, 0) == Ok(if o.followFinal then At(t, q) else At(t, p + [n]))
    ensures o.followTrailing ==> Walk(t, search, At(t, p), [n], true, o, 0) == Ok(At(t, q))
  {
    hide WellFormed, Segments;
    assert [n][1..] == [] && q + [] == q;
    SegmentsOfRender(q);
    RenderEnds(q);
    TreeNamesFit(t, q);
    JoinOne(Render(q), [], false);
    JoinOne(Render(q), [], true);
    var up, last := q[..|q| - 1], q[|q| - 1];
    assert q == up + [last];
    ReachableAbove(t, search, q, |q| - 1);
    RootThere(t);
    assert up[..0] == [] && up[0..] + [last] == q;
    WalkThrough(t, search, up, 0, [last], false, o, 1);
    WalkThrough(t, search, up, 0, [last], true, o, 1);
    LastStep(t, search, up, last, false, o, 1);
    LastStep(t, search, up, last, true, o, 1);
  }

  /** Names of the tree are not too long. */
  lemma {:induction false} TreeNamesFit(t: Tree, p: Path)
    requires WellFormed(t) && p in t
    ensures NamesFit(p)
    decreases |p|
  {
    if p != [] {
      assert EntryOk(t, p);
      TreeNamesFit(t, Parent(p));
      assert forall i | 0 <= i < |p| - 1 :: p[i] == Parent(p)[i];
    }
  }

  // ---- Walks that cannot go on ----

  /** A walk down a plain path stops at the first thing in its way: a missing entry is ENOENT, a file on
      the way ENOTDIR, a directory that may not be searched EACCES. */
  lemma FirstObstacle(t: Tree, search: Inode -> bool, base: Dentry, p: Path, n: string, rest: Path, o: Options)
    requires WellFormed(t) && Live(t, base) && IsDir(t, p) && Plain(p + [n] + rest) && ValidPath(p + [n] + rest) && Searchable(t, search, p)
    ensures !search(t[p]) ==> Resolved(t, search, base, Render(p + [n] + rest), o, 0) == Err(EACCES)
    ensures search(t[p]) && p + [n] !in t ==> Resolved(t, search, base, Render(p + [n] + rest), o, 0) == Err(ENOENT)
    ensures search(t[p]) && p + [n] in t && t[p + [n]].kind == Regular && rest != [] ==>
      Resolved(t, search, base, Render(p + [n] + rest), o, 0) == Err(ENOTDIR)
  {
    hide WellFormed, Segments;
    var path, names := Render(p + [n] + rest), [n] + rest;
    SegmentsOfRender(p + [n] + rest);
    RenderEnds(p + [n] + rest);
    assert p + [n] + rest == p + names && names[0] == n && names[1..] == rest && (p + names)[|p|] == n;
    RootThere(t);
    assert p[..0] == [] && p[0..] + names == p + names;
    assert forall i | 0 <= i < |p| :: p[i] == (p + names)[i];
    WalkThrough(t, search, p, 0, names, false, o, 0);
    if search(t[p]) && p + [n] in t && t[p + [n]].kind == Regular && rest != [] {
      assert (p + names)[|p| + 1] == rest[0];
    }
  }

  /** The same on the way to a name that is to be made. */
  lemma FirstObstacleToParent(t: Tree, search: Inode -> bool, base: Dentry, p: Path, n: string, rest: Path)
    requires WellFormed(t) && Live(t, base) && Reachable(t, search, p) && Plain([n] + rest) && ValidPath([n] + rest) && rest != []
    ensures p + [n] !in t ==> ParentOf(t, search, base, Render(p + [n] + rest)) == Err(ENOENT)
    ensures p + [n] in t && t[p + [n]].kind == Regular && |rest| > 1 ==>
      ParentOf(t, search, base, Render(p + [n] + rest)) == Err(ENOTDIR)
    ensures p + [n] in t && t[p + [n]].kind == Directory && !search(t[p + [n]]) && |rest| > 1 ==>
      ParentOf(t, search, base, Render(p + [n] + rest)) == Err(EACCES)
  {
    hide WellFormed, Segments, ParentOf;
    PathsValid(t, p);
    var names := [n] + rest;
    assert p + [n] + rest == p + names && names[0] == n && names[1..] == rest;
    assert ValidPath(p + names);
    SegmentsOfRender(p + names);
    RenderEnds(p + names);
    FromDirectory(t, search, base, p, names, Render(p + names), Options(true, true));
    assert rest[0] == names[1];
  }
}
