/** The directory tree of the lower filesystem: which inode each absolute path names. */
module Namespace {
  import opened Paths

  datatype Kind = Directory | Regular | SymLink(target: string)
  datatype Inode = Inode(ino: nat, kind: Kind)
  type Tree = map<Path, Inode>

  function Parent(p: Path): Path {
    if p == [] then [] else p[..|p| - 1]
  }

  predicate IsDir(t: Tree, p: Path) {
    p in t && t[p].kind == Directory
  }

  /** The root is a directory, names are names that are not too long, and every entry lies in a
      directory. */
  predicate WellFormed(t: Tree) {
    IsDir(t, []) && forall p {:trigger EntryOk(t, p)} | p in t :: EntryOk(t, p)
  }

  predicate EntryOk(t: Tree, p: Path) {
    ValidPath(p) && IsDir(t, Parent(p)) && (p != [] ==> |p[|p| - 1]| <= NAME_MAX)
  }

  /** Nothing lies below `p`. */
  predicate NothingBelow(t: Tree, p: Path) {
    forall q | q in t :: !(p < q)
  }

  lemma {:induction false} AncestorsExist(t: Tree, p: Path, q: Path)
    requires WellFormed(t) && q in t && p <= q
    ensures p in t
    decreases |q|
  {
    if p != q {
      assert EntryOk(t, q);
      AncestorsExist(t, p, Parent(q));
    }
  }

  // ---- Adding and removing entries ----

  predicate CanAdd(t: Tree, p: Path) {
    p != [] && p !in t && IsDir(t, Parent(p)) && ValidName(p[|p| - 1]) && |p[|p| - 1]| <= NAME_MAX
  }

  lemma AddKeepsWellFormed(t: Tree, p: Path, inode: Inode)
    requires WellFormed(t) && CanAdd(t, p)
    ensures WellFormed(t[p := inode]) && NothingBelow(t[p := inode], p)
  {
    var u := t[p := inode];
    forall q | q in u ensures EntryOk(u, q) {
      if q == p {
        assert Parent(p) in t && EntryOk(t, Parent(p));
        assert p == Parent(p) + [p[|p| - 1]];
      } else {
        assert EntryOk(t, q);
      }
    }
    forall q | q in t ensures !(p < q) {
      if p < q { AncestorsExist(t, p, q); }
    }
  }

  predicate CanRemove(t: Tree, p: Path) {
    p != [] && p in t && NothingBelow(t, p)
  }

  lemma RemoveKeepsWellFormed(t: Tree, p: Path)
    requires WellFormed(t) && CanRemove(t, p)
    ensures WellFormed(t - {p})
  {
    forall q | q in t - {p} ensures EntryOk(t - {p}, q) {
      assert EntryOk(t, q);
      assert Parent(q) == q || Parent(q) < q;
    }
  }

  // ---- Renaming a subtree ----

  /** The paths of subtree `a`, moved to `b`. */
  function Moved(t: Tree, a: Path, b: Path): (m: set<Path>)
    ensures forall q | q in m :: b <= q && a + q[|b|..] in t
    ensures forall q | q in t && a <= q :: b + q[|a|..] in m
  {
    var m := set q | q in t && a <= q :: b + q[|a|..];
    assert forall q | q in t && a <= q :: (b + q[|a|..])[|b|..] == q[|a|..] && a + q[|a|..] == q;
    m
  }

  /** The tree after the whole subtree `a` was renamed to `b`. */
  function RenameTree(t: Tree, a: Path, b: Path): Tree {
    (map q | q in t && !(a <= q) :: t[q]) + (map q | q in Moved(t, a, b) :: t[a + q[|b|..]])
  }

  predicate CanRename(t: Tree, a: Path, b: Path) {
    a != [] && a in t && CanAdd(t, b) && !(a <= b)
  }

  /** What each path names after a rename: moved paths what they named before, others no change. */
  lemma RenameMeaning(t: Tree, a: Path, b: Path, q: Path)
    requires WellFormed(t) && CanRename(t, a, b)
    ensures b <= q ==> (q in RenameTree(t, a, b) <==> a + q[|b|..] in t)
    ensures b <= q && q in RenameTree(t, a, b) ==> RenameTree(t, a, b)[q] == t[a + q[|b|..]]
    ensures !(b <= q) ==> (q in RenameTree(t, a, b) <==> q in t && !(a <= q))
    ensures !(b <= q) && q in RenameTree(t, a, b) ==> RenameTree(t, a, b)[q] == t[q]
  {
    if b <= q {
      assert q in t ==> b in t by { if q in t { AncestorsExist(t, b, q); } }
      if a + q[|b|..] in t {
        assert (a + q[|b|..])[|a|..] == q[|b|..] && b + q[|b|..] == q;
      }
    }
  }

  lemma RenameKeepsWellFormed(t: Tree, a: Path, b: Path)
    requires WellFormed(t) && CanRename(t, a, b)
    ensures WellFormed(RenameTree(t, a, b))
  {
    var u := RenameTree(t, a, b);
    assert !(b <= []);
    RenameMeaning(t, a, b, []);
    forall q | q in u ensures EntryOk(u, q) {
      RenamedEntry(t, a, b, q);
    }
  }

  lemma RenamedEntry(t: Tree, a: Path, b: Path, q: Path)
    requires WellFormed(t) && CanRename(t, a, b) && q in RenameTree(t, a, b)
    ensures EntryOk(RenameTree(t, a, b), q)
  {
    hide RenameTree, ValidPath;
    RenameMeaning(t, a, b, q);
    RenameMeaning(t, a, b, Parent(q));
    assert b == Parent(b) + [b[|b| - 1]];
    if b == q {
      assert EntryOk(t, Parent(b));
      SnocValid(Parent(b), b[|b| - 1]);
      assert !(b <= Parent(b)) && !(a <= Parent(b));
    } else if b <= q {
      var r := q[|b|..];
      assert q == b + r && r != [];
      assert EntryOk(t, a + r) && EntryOk(t, Parent(b));
      SnocValid(Parent(b), b[|b| - 1]);
      TailValid(a, b, r);
      assert Parent(q) == b + Parent(r) && Parent(a + r) == a + Parent(r);
      assert Parent(q)[|b|..] == Parent(r) && q[|q| - 1] == r[|r| - 1] == (a + r)[|a + r| - 1];
    } else {
      assert EntryOk(t, q);
      assert b <= Parent(q) ==> b <= q;
      assert a <= Parent(q) ==> a <= q;
    }
  }

  lemma SnocValid(p: Path, n: string)
    requires ValidPath(p) && ValidName(n)
    ensures ValidPath(p + [n])
  {
  }

  lemma TailValid(a: Path, b: Path, r: Path)
    requires ValidPath(a + r) && ValidPath(b)
    ensures ValidPath(b + r)
  {
    assert forall i | 0 <= i < |r| :: r[i] == (a + r)[|a| + i];
  }

  /** Renaming back undoes a rename, subtree and all. */
  lemma RenameBack(t: Tree, a: Path, b: Path)
    requires WellFormed(t) && CanRename(t, a, b) && !(b <= a)
    ensures CanRename(RenameTree(t, a, b), b, a)
    ensures RenameTree(RenameTree(t, a, b), b, a) == t
  {
    hide RenameTree, ValidPath;
    var u := RenameTree(t, a, b);
    RenameKeepsWellFormed(t, a, b);
    CanRenameBack(t, a, b);
    var v := RenameTree(u, b, a);
    forall q: Path ensures (q in v <==> q in t) && (q in v ==> v[q] == t[q]) {
      BackAt(t, a, b, q);
    }
  }

  lemma CanRenameBack(t: Tree, a: Path, b: Path)
    requires WellFormed(t) && CanRename(t, a, b) && !(b <= a)
    ensures CanRename(RenameTree(t, a, b), b, a)
  {
    hide RenameTree, ValidPath;
    RenameMeaning(t, a, b, a);
    RenameMeaning(t, a, b, b);
    RenameMeaning(t, a, b, Parent(a));
    assert a + b[|b|..] == a;
    assert EntryOk(t, a);
    LastValid(a);
    assert b <= Parent(a) ==> b <= a;
  }

  lemma LastValid(p: Path)
    requires ValidPath(p) && p != []
    ensures ValidName(p[|p| - 1])
  {
  }

  lemma BackAt(t: Tree, a: Path, b: Path, q: Path)
    requires WellFormed(t) && CanRename(t, a, b) && !(b <= a)
    ensures var v := RenameTree(RenameTree(t, a, b), b, a);
      (q in v <==> q in t) && (q in v ==> v[q] == t[q])
  {
    hide RenameTree, ValidPath;
    var u := RenameTree(t, a, b);
    RenameKeepsWellFormed(t, a, b);
    CanRenameBack(t, a, b);
    RenameMeaning(u, b, a, q);
    RenameMeaning(t, a, b, q);
    if a <= q {
      var r := q[|a|..];
      RenameMeaning(t, a, b, b + r);
      assert (b + r)[|b|..] == r && a + r == q;
    } else if b <= q && q in t {
      AncestorsExist(t, b, q);
    }
  }

  lemma OnlyDirsHold(t: Tree, p: Path, q: Path)
    requires WellFormed(t) && q in t && p < q
    ensures IsDir(t, p)
  {
    var r := q[..|p| + 1];
    AncestorsExist(t, r, q);
    assert EntryOk(t, r) && Parent(r) == p;
  }

  lemma FilesHoldNothing(t: Tree, p: Path)
    requires WellFormed(t) && p in t && t[p].kind != Directory
    ensures NothingBelow(t, p)
  {
    forall q | q in t ensures !(p < q) {
      if p < q { OnlyDirsHold(t, p, q); }
    }
  }

  /** `k` is a free sibling of the leaf `b`, to which `b` is set aside. */
  predicate SetsAside(t: Tree, b: Path, k: Path) {
    b in t && NothingBelow(t, b) && CanRename(t, b, k) && Parent(k) == Parent(b)
  }

  lemma AsideMeaning(t: Tree, b: Path, k: Path, q: Path)
    requires WellFormed(t) && SetsAside(t, b, k)
    ensures var u := RenameTree(t, b, k);
      (q in u <==> q == k || (q in t && q != b)) && (q in u && q != k ==> u[q] == t[q]) && (k in u && u[k] == t[b])
  {
    hide RenameTree;
    RenameMeaning(t, b, k, q);
    RenameMeaning(t, b, k, k);
    assert b + k[|k|..] == b;
    if k <= q {
      assert q in t ==> k in t by { if q in t { AncestorsExist(t, k, q); } }
      assert b + q[|k|..] in t ==> !(b < b + q[|k|..]);
      assert q == k + q[|k|..];
    }
  }

  /** Moving `a` over a leaf `b` that was set aside, then deleting what was set aside, is moving `a` to
      `b` after deleting `b`. */
  lemma ReplaceIsRemoveAndRename(t: Tree, a: Path, b: Path, k: Path)
    requires WellFormed(t) && SetsAside(t, b, k) && CanRename(RenameTree(t, b, k), a, b) && a in t && a != k
    ensures WellFormed(t - {b}) && CanRename(t - {b}, a, b)
    ensures CanRemove(RenameTree(RenameTree(t, b, k), a, b), k)
    ensures RenameTree(RenameTree(t, b, k), a, b) - {k} == RenameTree(t - {b}, a, b)
  {
    hide RenameTree;
    var u := RenameTree(t, b, k);
    RenameKeepsWellFormed(t, b, k);
    RemoveKeepsWellFormed(t, b);
    AsideMeaning(t, b, k, a);
    AsideMeaning(t, b, k, Parent(b));
    assert CanRename(t - {b}, a, b);
    var v, w := RenameTree(u, a, b), RenameTree(t - {b}, a, b);
    forall q: Path ensures (q in v - {k} <==> q in w) && (q in w ==> v[q] == w[q]) {
      ReplaceAt(t, a, b, k, q);
    }
    ReplaceAt(t, a, b, k, k);
    forall q | q in v ensures !(k < q) { ReplaceAt(t, a, b, k, q); }
  }

  lemma ReplaceAt(t: Tree, a: Path, b: Path, k: Path, q: Path)
    requires WellFormed(t) && SetsAside(t, b, k) && CanRename(RenameTree(t, b, k), a, b) && a in t && a != k
    requires WellFormed(RenameTree(t, b, k)) && WellFormed(t - {b}) && CanRename(t - {b}, a, b)
    ensures var v, w := RenameTree(RenameTree(t, b, k), a, b), RenameTree(t - {b}, a, b);
      (q in w <==> q in v && q != k) && (q in w ==> v[q] == w[q]) && (q == k ==> q in v) && (k < q ==> q !in v)
  {
    hide RenameTree;
    var u := RenameTree(t, b, k);
    RenameMeaning(u, a, b, q);
    RenameMeaning(t - {b}, a, b, q);
    if b <= q {
      AsideMeaning(t, b, k, a + q[|b|..]);
      MovedIsNotAside(t, a, b, k, q[|b|..]);
    } else {
      AsideMeaning(t, b, k, q);
    }
    if k < q && q in t { AncestorsExist(t, k, q); }
  }

  lemma MovedIsNotAside(t: Tree, a: Path, b: Path, k: Path, r: Path)
    requires WellFormed(t) && SetsAside(t, b, k) && a in t && a != k && a != [] && !(a <= b)
    ensures a + r != k && b + r != k && !(k < b + r)
  {
  }
}
