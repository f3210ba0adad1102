/** Absolute paths as sequences of names, and the strings the kernel uses for them. */
module Paths {

  type Path = seq<string>

  const NAME_MAX: nat := 255

  /** A name as it appears between slashes. */
  predicate ValidName(n: string) {
    n != "" && '/' !in n
  }

  predicate ValidPath(p: Path) {
    forall i | 0 <= i < |p| :: ValidName(p[i])
  }

  function Joined(p: Path): string {
    if p == [] then "" else "/" + p[0] + Joined(p[1..])
  }

  /** The string of an absolute path. */
  function Render(p: Path): string {
    if p == [] then "/" else Joined(p)
  }

  /** The string of a directory entry, built from the directory's string. */
  function ChildAbsPath(parent: string, name: string): string {
    if parent == "/" then "/" + name else parent + "/" + name
  }

  lemma {:induction false} JoinedSnoc(p: Path, n: string)
    ensures Joined(p + [n]) == Joined(p) + "/" + n
  {
    if p == [] {
      assert p + [n] == [n] && [n][1..] == [];
      assert Joined([n]) == "/" + n + "";
    } else {
      JoinedSnoc(p[1..], n);
      assert (p + [n])[1..] == p[1..] + [n];
    }
  }

  lemma JoinedIsNotRoot(p: Path)
    requires ValidPath(p) && p != []
    ensures |Joined(p)| >= 2 && Joined(p)[0] == '/' && Joined(p) != "/"
  {
  }

  lemma ChildRenders(p: Path, n: string)
    requires ValidPath(p)
    ensures ChildAbsPath(Render(p), n) == Render(p + [n])
  {
    JoinedSnoc(p, n);
    if p != [] { JoinedIsNotRoot(p); }
  }

  /** Two names followed by slashes, or by nothing: if one text continues the other, the names agree. */
  lemma NamesAlign(a: string, x: string, b: string, y: string)
    requires '/' !in a && '/' !in b
    requires y != "" && y[0] == '/' && (x == "" || x[0] == '/')
    requires a + y <= b + x
    ensures a == b && y <= x
  {
    assert |a| == |b|;
    assert a == (a + y)[..|a|] == (b + x)[..|a|] == b;
    assert y == (a + y)[|a|..] && x == (b + x)[|b|..];
  }

  lemma {:induction false} JoinedPrefix(p: Path, q: Path)
    requires ValidPath(p) && ValidPath(q)
    ensures Joined(p) + "/" <= Joined(q) <==> p < q
  {
    hide ValidName;
    if p == [] {
      assert q != [] ==> Joined(q)[0] == '/';
    } else if q != [] {
      JoinedPrefix(p[1..], q[1..]);
      JoinedHead(p);
      JoinedHead(q);
      var y, x := Joined(p[1..]) + "/", Joined(q[1..]);
      assert Joined(p) + "/" == "/" + (p[0] + y);
      NamesCompare(p[0], x, q[0], y);
      PrefixOfTails(p, q);
    }
  }

  lemma JoinedHead(p: Path)
    requires ValidPath(p) && p != []
    ensures ValidName(p[0]) && Joined(p) == "/" + (p[0] + Joined(p[1..]))
    ensures Joined(p[1..]) == "" || Joined(p[1..])[0] == '/'
  {
  }

  lemma PrefixOfTails(p: Path, q: Path)
    requires p != [] && q != []
    ensures p < q <==> p[0] == q[0] && p[1..] < q[1..]
  {
  }

  lemma NamesCompare(a: string, x: string, b: string, y: string)
    requires '/' !in a && '/' !in b
    requires y != "" && y[0] == '/' && (x == "" || x[0] == '/')
    ensures "/" + (a + y) <= "/" + (b + x) <==> a == b && y <= x
  {
    if "/" + (a + y) <= "/" + (b + x) {
      assert a + y == ("/" + (a + y))[1..] && b + x == ("/" + (b + x))[1..];
      NamesAlign(a, x, b, y);
    }
    if y <= x {
      assert x == y + x[|y|..];
    }
  }

  lemma JoinedInjective(p: Path, q: Path)
    requires ValidPath(p) && ValidPath(q) && Joined(p) == Joined(q)
    ensures p == q
  {
    JoinedSnoc(p, "x");
    JoinedSnoc(q, "x");
    JoinedPrefix(p, q + ["x"]);
    JoinedPrefix(q, p + ["x"]);
  }

  /** Different paths have different strings. */
  lemma RenderInjective(p: Path, q: Path)
    requires ValidPath(p) && ValidPath(q) && Render(p) == Render(q)
    ensures p == q
  {
    if p != [] { JoinedIsNotRoot(p); }
    if q != [] { JoinedIsNotRoot(q); }
    if p != [] && q != [] { JoinedInjective(p, q); }
  }

  /** The string the tree removal compares keys with. */
  function TreePrefix(s: string): string {
    if s != "" && s[|s| - 1] == '/' then s else s + "/"
  }

  lemma PrefixOfPath(p: Path)
    requires ValidPath(p) && p != []
    ensures TreePrefix(Render(p)) == Joined(p) + "/"
  {
  }

  /** The string test for being at or below a path is the test on names. */
  lemma InTree(p: Path, q: Path)
    requires ValidPath(p) && ValidPath(q)
    ensures Render(q) == Render(p) || TreePrefix(Render(p)) <= Render(q) <==> p <= q
  {
    if q != [] { JoinedIsNotRoot(q); }
    if p != [] {
      PrefixOfPath(p);
      JoinedPrefix(p, q);
      JoinedIsNotRoot(p);
      if Render(q) == Render(p) { RenderInjective(p, q); }
      assert p <= q <==> p < q || p == q;
    }
  }

  /** Renaming a directory below itself is recognised by its string, except for the root. */
  lemma BelowItself(p: Path, q: Path)
    requires ValidPath(p) && ValidPath(q)
    ensures Render(p) + "/" <= Render(q) <==> p != [] && p < q
  {
    if q != [] { JoinedIsNotRoot(q); }
    if p != [] {
      JoinedPrefix(p, q);
    } else if q != [] {
      assert ValidName(q[0]) && q[0][0] in q[0];
      assert Joined(q)[1] == q[0][0];
    }
  }

  // ---- Splitting path strings ----

  /** The non-empty pieces of a string between slashes. `piece` is the piece read so far. */
  function Pieces(s: string, piece: string): (p: Path)
    requires '/' !in piece
    ensures ValidPath(p)
    decreases |s|
  {
    if s == "" then (if piece == "" then [] else [piece])
    else if s[0] == '/' then (if piece == "" then [] else [piece]) + Pieces(s[1..], "")
    else Pieces(s[1..], piece + [s[0]])
  }

  function Segments(s: string): (p: Path)
    ensures ValidPath(p)
  {
    Pieces(s, "")
  }

  lemma {:induction false} PiecesOfName(n: string, piece: string, rest: string)
    requires '/' !in n && '/' !in piece
    ensures Pieces(n + rest, piece) == Pieces(rest, piece + n)
    decreases |n|
  {
    if n == "" {
      assert n + rest == rest && piece + n == piece;
    } else {
      assert (n + rest)[0] == n[0] && n[0] in n && (n + rest)[1..] == n[1..] + rest;
      PiecesOfName(n[1..], piece + [n[0]], rest);
      assert piece + [n[0]] + n[1..] == piece + n;
    }
  }

  lemma NameEnds(n: string, p: Path)
    requires ValidName(n) && ValidPath(p)
    ensures Pieces(Joined(p), n) == [n] + Segments(Joined(p))
  {
  }

  lemma {:induction false} SegmentsOfJoined(p: Path)
    requires ValidPath(p)
    ensures Segments(Joined(p)) == p
  {
    if p != [] {
      var n, rest := p[0], Joined(p[1..]);
      assert ValidName(n);
      assert Joined(p)[1..] == n + rest;
      calc {
        Segments(Joined(p));
        Pieces(n + rest, "");
        { PiecesOfName(n, "", rest); assert "" + n == n; }
        Pieces(rest, n);
        { NameEnds(n, p[1..]); SegmentsOfJoined(p[1..]); }
        [n] + p[1..];
      }
    }
  }

  /** Splitting the string of a path gives the path back. */
  lemma SegmentsOfRender(p: Path)
    requires ValidPath(p)
    ensures Segments(Render(p)) == p
  {
    SegmentsOfJoined(p);
    assert Pieces("/", "") == Pieces("/"[1..], "");
  }
}
