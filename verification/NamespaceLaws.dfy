/** What a sequence of namespace calls comes to on a healthy filesystem, from path strings to answers. */
module NamespaceLaws {
  import opened Paths
  import opened Namespace
  import opened DentryCache
  import opened Namei
  import opened Resolve
  import opened PathMeanings
  import opened NamespaceRuns

  /** A name that can be an entry of a directory. */
  predicate EntryName(n: string) {
    ValidName(n) && n != "." && n != ".." && |n| <= NAME_MAX
  }

  lemma PathFits(t: Tree, p: Path, n: string)
    requires WellFormed(t) && p in t && EntryName(n)
    ensures ValidPath(p + [n]) && NamesFit(p + [n]) && Segments(Render(p + [n])) == p + [n]
    ensures StartsWithSlash(Render(p + [n])) && !EndsWithSlash(Render(p + [n]))
  {
    PathsValid(t, p);
    TreeNamesFit(t, p);
    SegmentsOfRender(p + [n]);
    RenderEnds(p + [n]);
  }

  /** The path of an entry of a reachable directory leads to that directory. */
  lemma PlaceOf(t: Tree, search: Inode -> bool, p: Path, n: string)
    requires WellFormed(t) && Reachable(t, search, p) && EntryName(n)
    ensures PlaceAnswer(t, search, Render(p + [n])) == Ok(Place(At(t, p), [n], false))
  {
    hide WellFormed, ParentOf;
    PathsValid(t, p);
    PathFits(t, p, n);
    FromDirectory(t, search, Root(t), p, [n], Render(p + [n]), Options(true, true));
    WalkParentEnds(t, search, At(t, p), [n], false, 0);
  }

  /** An entry of a reachable directory is found under its path. */
  lemma EntryIsFound(t: Tree, search: Inode -> bool, p: Path, n: string, o: Options)
    requires WellFormed(t) && Reachable(t, search, p) && EntryName(n) && p + [n] in t && !t[p + [n]].kind.SymLink?
    ensures LookupAnswer(t, search, Render(p + [n]), o) == Ok(At(t, p + [n]))
  {
    hide WellFormed, Resolved;
    PathFits(t, p, n);
    PathMeanings.LastName(t, search, Root(t), p, n, o);
  }

  /** What is missing in one of the four library directories is looked for in that of glibc. */
  lemma LibraryFallback(t: Tree, search: Inode -> bool, dir: string, rest: string, o: Options)
    requires WellFormed(t) && dir in {"/lib/", "/lib64/", "/usr/lib/", "/usr/lib64/"} && NamesFit(Segments(dir + rest))
    ensures LookupAnswer(t, search, dir + rest, o) ==
      if Resolved(t, search, Root(t), dir + rest, o, 0) == Err(ENOENT) then Resolved(t, search, Root(t), "/glibc/lib/" + rest, o, 0)
      else Resolved(t, search, Root(t), dir + rest, o, 0)
  {
    hide WellFormed, Resolved, Segments, Alias;
    AliasOf(dir, rest);
  }

  lemma AliasOf(dir: string, rest: string)
    requires dir in {"/lib/", "/lib64/", "/usr/lib/", "/usr/lib64/"}
    ensures Alias(dir + rest) == "/glibc/lib/" + rest
  {
    var path := dir + rest;
    assert path[|dir|..] == rest && forall i | 0 <= i < |dir| :: path[i] == dir[i];
    if dir == "/lib/" {
      assert "/lib/" <= path;
    } else if dir == "/lib64/" {
      assert path[4] == '6' && "/lib/"[4] == '/' && "/lib64/" <= path;
    } else {
      assert path[1] == 'u' && "/lib/"[1] == 'l' && "/lib64/"[1] == 'l';
      assert dir == "/usr/lib/" ==> "/usr/lib/" <= path;
      assert dir == "/usr/lib64/" ==> path[8] == '6' && "/usr/lib/"[8] == '/' && "/usr/lib64/" <= path;
    }
  }

  /** A name that is not there is not found. */
  lemma MissingIsNotFound(t: Tree, search: Inode -> bool, p: Path, n: string, o: Options)
    requires WellFormed(t) && Reachable(t, search, p) && EntryName(n) && p + [n] !in t && Alias(Render(p + [n])) == ""
    ensures LookupAnswer(t, search, Render(p + [n]), o) == Err(ENOENT)
  {
    hide WellFormed, Resolved;
    PathFits(t, p, n);
    assert p + [n] + [] == p + [n];
    assert Plain(p + [n]);
    FirstObstacle(t, search, Root(t), p, n, [], o);
  }

  lemma StillReachable(t: Tree, u: Tree, search: Inode -> bool, p: Path)
    requires Reachable(t, search, p) && forall i | 0 <= i <= |p| :: p[..i] in t && p[..i] in u && u[p[..i]] == t[p[..i]]
    ensures Reachable(u, search, p)
  {
    assert p[..|p|] == p;
  }

  lemma PrefixesStay(t: Tree, p: Path, n: string, inode: Inode)
    requires WellFormed(t) && p in t
    ensures forall i | 0 <= i <= |p| :: p[..i] in t && p[..i] in t[p + [n] := inode] && t[p + [n] := inode][p[..i]] == t[p[..i]]
    ensures forall i | 0 <= i <= |p| :: p[..i] in t - {p + [n]} && (t - {p + [n]})[p[..i]] == t[p[..i]]
  {
    forall i | 0 <= i <= |p| ensures p[..i] in t && p[..i] != p + [n] {
      AncestorsExist(t, p[..i], p);
      assert |p[..i]| != |p + [n]|;
    }
  }

  /** Making something at a free name of a reachable directory works, and it is then found there. */
  lemma MakeThenFind(t: Tree, search: Inode -> bool, p: Path, n: string, inode: Inode, o: Options,
                     made: Reply, next: Tree, found: Reply, last: Tree)
    requires WellFormed(t) && Reachable(t, search, p) && EntryName(n) && p + [n] !in t && !inode.kind.SymLink?
    requires Fits(true, t, search, Make(Render(p + [n]), inode, true), made, next)
    ensures made.Done? && made.result.Ok? && next == t[p + [n] := inode] && WellFormed(next)
    ensures Fits(true, next, search, Find(Render(p + [n]), o), found, last) ==> found == Found(Ok(Dentry(p + [n], inode))) && last == next
  {
    hide WellFormed, LookupAnswer, PlaceAnswer;
    PlaceOf(t, search, p, n);
    AddMeans(t, At(t, p), n, true, false);
    AddKeepsWellFormed(t, p + [n], inode);
    PrefixesStay(t, p, n, inode);
    StillReachable(t, next, search, p);
    EntryIsFound(next, search, p, n, o);
  }

  /** A second name for a file works, and both names are then the same file. */
  lemma LinkThenFind(t: Tree, search: Inode -> bool, a: Path, m: string, p: Path, n: string, o: Options,
                     made: Reply, next: Tree, found: Reply, last: Tree)
    requires WellFormed(t) && Reachable(t, search, a) && EntryName(m) && a + [m] in t && t[a + [m]].kind == Regular
    requires Reachable(t, search, p) && EntryName(n) && p + [n] !in t
    requires Fits(true, t, search, AddLink(Render(a + [m]), true, Render(p + [n]), true), made, next)
    ensures made.Done? && made.result.Ok? && next == t[p + [n] := t[a + [m]]] && WellFormed(next)
    ensures Fits(true, next, search, Find(Render(p + [n]), o), found, last) ==> found == Found(Ok(Dentry(p + [n], t[a + [m]])))
  {
    hide WellFormed, LookupAnswer, PlaceAnswer;
    EntryIsFound(t, search, a, m, Options(true, true));
    PlaceOf(t, search, p, n);
    NotEmpty(p, n);
    AddMeans(t, At(t, p), n, true, false);
    AddKeepsWellFormed(t, p + [n], t[a + [m]]);
    PrefixesStay(t, p, n, t[a + [m]]);
    StillReachable(t, next, search, p);
    EntryIsFound(next, search, p, n, o);
  }

  lemma NotEmpty(p: Path, n: string)
    ensures Render(p + [n]) != ""
  {
  }

  /** Removing a file works, and it is then not found; so does removing an empty directory. */
  lemma RemoveThenFind(t: Tree, search: Inode -> bool, p: Path, n: string, o: Options, done: Reply, next: Tree, found: Reply, last: Tree)
    requires WellFormed(t) && Reachable(t, search, p) && EntryName(n) && CanRemove(t, p + [n]) && Alias(Render(p + [n])) == ""
    requires Fits(true, t, search, Remove(Render(p + [n]), t[p + [n]].kind == Directory, true), done, next)
    ensures done.Done? && done.result.Ok? && next == t - {p + [n]} && WellFormed(next)
    ensures Fits(true, next, search, Find(Render(p + [n]), o), found, last) ==> found == Found(Err(ENOENT))
  {
    hide WellFormed, LookupAnswer, PlaceAnswer;
    PlaceOf(t, search, p, n);
    RemoveMeans(t, At(t, p), n, t[p + [n]].kind == Directory, false, true);
    RemoveKeepsWellFormed(t, p + [n]);
    PrefixesStay(t, p, n, t[p + [n]]);
    StillReachable(t, next, search, p);
    MissingIsNotFound(next, search, p, n, o);
  }

  /** Renaming to a free name works; every path below the new name is then what it was below the old
      one. */
  lemma MoveWorks(t: Tree, search: Inode -> bool, a: Path, m: string, p: Path, n: string, done: Reply, next: Tree, q: Path)
    requires WellFormed(t) && Reachable(t, search, a) && EntryName(m) && a + [m] in t && !t[a + [m]].kind.SymLink?
    requires Reachable(t, search, p) && EntryName(n) && p + [n] !in t && !(a + [m] <= p)
    requires Fits(true, t, search, Move(Render(a + [m]), Render(p + [n]), false, true, true), done, next)
    ensures done.Moved? && done.moved == Ok(()) && done.outcome == Renamed && WellFormed(next)
    ensures p + [n] + q in next <==> a + [m] + q in t
    ensures p + [n] + q in next ==> next[p + [n] + q] == t[a + [m] + q]
    ensures !(p + [n] <= q) ==> (q in next <==> q in t && !(a + [m] <= q))
    ensures !(p + [n] <= q) && q in next ==> next[q] == t[q]
  {
    hide WellFormed, LookupAnswer, PlaceAnswer, RenameTree, RenameCheck, RenameVerdict;
    var from, to := a + [m], p + [n];
    EntryIsFound(t, search, a, m, Options(false, false));
    PathFits(t, a, m);
    PlaceOf(t, search, p, n);
    NotEmpty(p, n);
    FreeMove(t, from, p, n);
    MoveIsAnswered(t, search, from, p, n, done, next);
    RenameKeepsWellFormed(t, from, to);
    RenameMeaning(t, from, to, to + q);
    assert (to + q)[|to|..] == q;
    RenameMeaning(t, from, to, q);
  }

  lemma FreeMove(t: Tree, from: Path, p: Path, n: string)
    requires WellFormed(t) && from in t && from != [] && IsDir(t, p) && EntryName(n) && p + [n] !in t && !(from <= p)
    ensures RenameCheck(t, At(t, from), At(t, p), n, false, false, true) == Ok(true)
    ensures RenameVerdict(t, At(t, from), At(t, p), n) == Ok(()) && CanRename(t, from, p + [n])
  {
    assert from <= p + [n] ==> from <= p || from == p + [n];
    RenameMeans(t, At(t, from), At(t, p), n, false, false, true);
    VerdictMeans(t, At(t, from), At(t, p), n);
    assert Parent(p + [n]) == p;
  }

  lemma MoveIsAnswered(t: Tree, search: Inode -> bool, from: Path, p: Path, n: string, done: Reply, next: Tree)
    requires WellFormed(t) && from in t && p in t && Render(p + [n]) != "" && !EndsWithSlash(Render(from)) && p + [n] !in t
    requires LookupAnswer(t, search, Render(from), Options(false, false)) == Ok(At(t, from))
    requires PlaceAnswer(t, search, Render(p + [n])) == Ok(Place(At(t, p), [n], false))
    requires RenameCheck(t, At(t, from), At(t, p), n, false, false, true) == Ok(true) && RenameVerdict(t, At(t, from), At(t, p), n) == Ok(())
    requires Fits(true, t, search, Move(Render(from), Render(p + [n]), false, true, true), done, next)
    ensures done.Moved? && done.moved == Ok(()) && done.outcome == Renamed && next == RenameTree(t, from, p + [n])
  {
    hide WellFormed, LookupAnswer, PlaceAnswer, RenameTree, RenameCheck, RenameVerdict;
  }

  // ---- Refusals ----

  /** A component of more than 255 characters is ENAMETOOLONG, for lookups and for new names. */
  lemma LongComponent(t: Tree, search: Inode -> bool, path: string, i: nat, o: Options)
    requires WellFormed(t) && i < |Segments(path)| && |Segments(path)[i]| > 255 && path != ""
    ensures LookupAnswer(t, search, path, o) == Err(ENAMETOOLONG) && PlaceAnswer(t, search, path) == Err(ENAMETOOLONG)
  {
    hide WellFormed, Segments;
  }

  /** With a slash at the end a directory can be made, and nothing else: a missing name is ENOENT then and
      an existing one EEXIST. */
  lemma MakeWithSlash(t: Tree, search: Inode -> bool, p: Path, n: string, inode: Inode, made: Reply, next: Tree)
    requires WellFormed(t) && Reachable(t, search, p) && EntryName(n)
    requires Fits(true, t, search, Make(Render(p + [n]) + "/", inode, true), made, next)
    ensures inode.kind == Directory && p + [n] !in t ==> made.Done? && made.result.Ok? && next == t[p + [n] := inode]
    ensures inode.kind != Directory && p + [n] !in t ==> made == Done(Err(ENOENT), true) && next == t
    ensures p + [n] in t ==> made == Done(Err(EEXIST), true) && next == t
  {
    hide WellFormed, LookupAnswer, PlaceAnswer;
    PlaceWithSlash(t, search, p, n);
    AddMeans(t, At(t, p), n, true, false);
    LookupMeans(t, At(t, p), n);
  }

  lemma PlaceWithSlash(t: Tree, search: Inode -> bool, p: Path, n: string)
    requires WellFormed(t) && Reachable(t, search, p) && EntryName(n)
    ensures PlaceAnswer(t, search, Render(p + [n]) + "/") == Ok(Place(At(t, p), [n], true))
  {
    hide WellFormed, ParentOf, Segments;
    PathsValid(t, p);
    PathFits(t, p, n);
    SegmentsWithSlash(Render(p + [n]));
    FromDirectory(t, search, Root(t), p, [n], Render(p + [n]) + "/", Options(true, true));
    WalkParentEnds(t, search, At(t, p), [n], true, 0);
  }

  /** The root is there already, cannot be removed, and cannot be renamed to. */
  lemma RootCalls(t: Tree, search: Inode -> bool, inode: Inode, removeDir: bool, allowed: bool, reply: Reply, next: Tree)
    requires WellFormed(t)
    ensures inode.kind == Directory && Fits(true, t, search, Make("/", inode, allowed), reply, next) ==>
      reply == Done(Err(EEXIST), true) && next == t
    ensures Fits(true, t, search, Remove("/", removeDir, allowed), reply, next) ==>
      reply == Done(Err(if removeDir then EBUSY else EISDIR), true) && next == t
  {
    hide WellFormed, LookupAnswer;
    PlaceHasName(t, search, "/");
  }

  /** A rename whose source may not be taken, or whose source is missing, is refused and changes nothing. */
  lemma MoveRefused(t: Tree, search: Inode -> bool, oldPath: string, path: string, oldAllowed: bool, noReplace: bool, reply: Reply, next: Tree)
    requires WellFormed(t) && path != "" && Fits(true, t, search, Move(oldPath, path, noReplace, oldAllowed, true), reply, next)
    ensures LookupAnswer(t, search, oldPath, Options(false, false)).Err? ==>
      reply == Moved(Err(LookupAnswer(t, search, oldPath, Options(false, false)).error), Untouched) && next == t
    ensures LookupAnswer(t, search, oldPath, Options(false, false)).Ok? && !EndsWithSlash(oldPath) && !oldAllowed ==>
      reply == Moved(Err(EACCES), Untouched) && next == t
  {
    hide WellFormed, LookupAnswer, PlaceAnswer, MoveFits;
  }
}
