/** How many symlinks in a row each of the two path walks follows. */
module SymlinkChains {
  import opened Paths
  import opened Namespace
  import opened Resolve
  import opened DentryCache

  /** Names of one directory, each a symlink to the next, up to the last one, which is not a symlink. */
  predicate Chain(t: Tree, dir: Path, names: Path) {
    && IsDir(t, dir) && names != [] && NamesFit(names) && ValidPath(names) && Plain(names)
    && forall i | 0 <= i < |names| :: Linked(t, dir, names, i)
  }

  predicate Linked(t: Tree, dir: Path, names: Path, i: nat)
    requires i < |names|
  {
    dir + [names[i]] in t &&
    if i + 1 < |names| then t[dir + [names[i]]].kind == SymLink(names[i + 1]) else !t[dir + [names[i]]].kind.SymLink?
  }

  function At(t: Tree, p: Path): (d: Dentry)
    requires p in t
    ensures Live(t, d)
  {
    Dentry(p, t[p])
  }

  /** Where a chain ends. */
  function End(t: Tree, dir: Path, names: Path): Dentry
    requires Chain(t, dir, names)
  {
    assert Linked(t, dir, names, |names| - 1);
    At(t, dir + [names[|names| - 1]])
  }

  lemma NameIsItself(n: string)
    requires ValidName(n)
    ensures Segments(n) == [n] && !StartsWithSlash(n) && !EndsWithSlash(n)
  {
    SegmentsOfName(n);
    assert n[0] in n && n[|n| - 1] in n;
  }

  lemma {:induction false} WalkChain(t: Tree, search: Inode -> bool, dir: Path, names: Path, i: nat, o: Options, follows: nat)
    requires WellFormed(t) && Chain(t, dir, names) && search(t[dir]) && o.followFinal && i < |names| && follows < MAX_SYMLINK_FOLLOWS
    ensures Walk(t, search, At(t, dir), [names[i]], false, o, follows) ==
      if |names| - 1 - i + follows < MAX_SYMLINK_FOLLOWS then Ok(End(t, dir, names)) else Err(ELOOP)
    decreases |names| - i
  {
    hide WellFormed, Segments;
    var n := names[i];
    assert ValidName(n) && n != "." && n != ".." && [n][1..] == [] && Linked(t, dir, names, i);
    if i + 1 < |names| {
      var target := names[i + 1];
      NameIsItself(target);
      assert [target] + [] == [target] && |target| <= NAME_MAX;
      if follows + 1 < MAX_SYMLINK_FOLLOWS {
        WalkChain(t, search, dir, names, i + 1, o, follows + 1);
      }
    }
  }

  /** Looking a path up follows 39 symlinks: a longer chain is ELOOP, a shorter one ends at its end. */
  lemma ChainResolves(t: Tree, search: Inode -> bool, dir: Path, names: Path, o: Options)
    requires WellFormed(t) && Chain(t, dir, names) && search(t[dir]) && o.followFinal
    ensures Resolved(t, search, At(t, dir), names[0], o, 0) ==
      if |names| - 1 <= 39 then Ok(End(t, dir, names)) else Err(ELOOP)
  {
    hide WellFormed, Segments, Walk;
    NameIsItself(names[0]);
    WalkChain(t, search, dir, names, 0, o, 0);
  }

  lemma {:induction false} WalkParentChain(t: Tree, search: Inode -> bool, dir: Path, names: Path, last: string, i: nat, follows: nat)
    requires WellFormed(t) && Chain(t, dir, names) && search(t[dir]) && ValidName(last) && |last| <= NAME_MAX
    requires i < |names| && follows <= MAX_SYMLINK_FOLLOWS
    ensures WalkParent(t, search, At(t, dir), [names[i], last], false, follows) ==
      if |names| - 1 - i + follows <= MAX_SYMLINK_FOLLOWS then Ok(Place(End(t, dir, names), [last], false)) else Err(ELOOP)
    decreases |names| - i
  {
    hide WellFormed, Segments;
    var n := names[i];
    assert ValidName(n) && n != "." && n != ".." && [n, last][1..] == [last] && Linked(t, dir, names, i);
    if i + 1 < |names| {
      var target := names[i + 1];
      NameIsItself(target);
      assert [target] + [last] == [target, last] && |target| <= NAME_MAX;
      assert JoinTarget(target, [last], false) == target + "/" + last;
      if follows < MAX_SYMLINK_FOLLOWS {
        WalkParentChain(t, search, dir, names, last, i + 1, follows + 1);
      }
    }
  }

  /** The walk to a parent follows 40. */
  lemma ChainLeads(t: Tree, search: Inode -> bool, dir: Path, names: Path, last: string)
    requires WellFormed(t) && Chain(t, dir, names) && search(t[dir]) && ValidName(last) && |last| <= NAME_MAX
    ensures ParentOf(t, search, At(t, dir), names[0] + "/" + last) ==
      if |names| - 1 <= 40 then Ok(Place(End(t, dir, names), [last], false)) else Err(ELOOP)
  {
    hide WellFormed, Segments, WalkParent;
    NameIsItself(names[0]);
    PushedSegments(names[0], last);
    assert Segments(names[0] + "/" + last) == [names[0], last];
    WalkParentChain(t, search, dir, names, last, 0, 0);
  }

  // ---- A chain of 40 ----

  function Name(i: nat): (n: string)
    ensures |n| == i + 1 && forall k | 0 <= k < |n| :: n[k] == 'a'
  {
    seq(i + 1, _ => 'a')
  }

  function Names(n: nat): (p: Path)
    requires n < NAME_MAX
    ensures |p| == n + 1 && NamesFit(p) && ValidPath(p) && Plain(p)
    ensures forall i | 0 <= i <= n :: p[i] == Name(i)
  {
    var p := seq(n + 1, i requires 0 <= i => Name(i));
    assert forall i | 0 <= i <= n :: p[i][0] == 'a';
    p
  }

  /** A root directory with n symlinks in a row before a directory. */
  function ChainTree(n: nat): (t: Tree)
    requires n < NAME_MAX
  {
    map p | p in {[]} + (set i | 0 <= i <= n :: [Name(i)]) ::
      if p != [] && |p[0]| <= n then Inode(|p[0]|, SymLink(Name(|p[0]|))) else Inode(|p|, Directory)
  }

  lemma ChainTreeOk(n: nat)
    requires n < NAME_MAX
    ensures WellFormed(ChainTree(n))
  {
  }

  lemma ChainInTree(n: nat)
    requires n < NAME_MAX
    ensures Chain(ChainTree(n), [], Names(n))
  {
    hide NamesFit, ValidPath, Plain, ChainTree;
    var t, names := ChainTree(n), Names(n);
    ChainEntry(n, 0);
    forall i | 0 <= i < |names| ensures Linked(t, [], names, i) {
      assert [] + [names[i]] == [Name(i)];
      ChainEntry(n, i);
    }
  }

  lemma ChainEntry(n: nat, i: nat)
    requires i <= n < NAME_MAX
    ensures var t := ChainTree(n);
      IsDir(t, []) && [Name(i)] in t && t[[Name(i)]].kind == if i < n then SymLink(Name(i + 1)) else Directory
  {
  }

  /** At forty links the two walks disagree: what lies behind the chain cannot be looked up by the
      chain's own name, but something can be made in it. */
  lemma LimitsDiffer(search: Inode -> bool)
    requires search(ChainTree(40)[[]])
    ensures WellFormed(ChainTree(40))
    ensures Resolved(ChainTree(40), search, Root(ChainTree(40)), "a", Options(true, true), 0) == Err(ELOOP)
    ensures ParentOf(ChainTree(40), search, Root(ChainTree(40)), "a/b").Ok?
  {
    hide Resolved, ParentOf, Chain, WellFormed, ChainTree, ValidPath, NamesFit, Plain;
    ChainTreeOk(40);
    ChainInTree(40);
    ChainResolves(ChainTree(40), search, [], Names(40), Options(true, true));
    ChainLeads(ChainTree(40), search, [], Names(40), "b");
    assert Names(40)[0] == Name(0) == "a" && "a" + "/" + "b" == "a/b";
    assert Root(ChainTree(40)) == At(ChainTree(40), []);
  }
}
