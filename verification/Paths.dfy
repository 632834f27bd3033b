/** Paths of the Workspace tree as sequences of names, with the prefix algebra
    every subtree move relies on. */
module Paths {

  /** One path component. The private artifact directory of a transaction and the
      files inside it have reserved, mutually distinct names. */
  datatype Name =
    | Plain(text: string)
    | ArtifactName(transaction: nat)
    | UndoName(index: nat)
    | StagedName(index: nat)
    | BackupName(index: nat)

  type Path = seq<Name>

  predicate Disjoint(a: Path, b: Path) {
    !(a <= b) && !(b <= a)
  }

  function Parent(p: Path): Path
    requires p != []
  {
    p[..|p| - 1]
  }

  function Last(p: Path): Name
    requires p != []
  {
    p[|p| - 1]
  }

  predicate IsChild(d: Path, q: Path) {
    q != [] && Parent(q) == d
  }

  /** `p` with its prefix `from` replaced by `to`. */
  function Rebase(p: Path, from: Path, to: Path): (q: Path)
    requires from <= p
    ensures to <= q && |q| == |to| + |p| - |from|
  {
    to + p[|from|..]
  }

  lemma RebaseBack(p: Path, from: Path, to: Path)
    requires from <= p
    ensures Rebase(Rebase(p, from, to), to, from) == p
  {
    assert p == from + p[|from|..];
    assert Rebase(p, from, to)[|to|..] == p[|from|..];
  }

  /** Rebasing keeps the prefix order between paths of one subtree. */
  lemma RebasePrefix(a: Path, b: Path, from: Path, to: Path)
    requires from <= a && from <= b
    ensures Rebase(a, from, to) <= Rebase(b, from, to) <==> a <= b
    ensures Rebase(a, from, to) < Rebase(b, from, to) <==> a < b
  {
    var ra, rb := Rebase(a, from, to), Rebase(b, from, to);
    if a <= b {
      assert b == a + b[|a|..];
      assert rb == ra + b[|a|..];
    }
    if ra <= rb {
      RebaseBack(a, from, to);
      RebaseBack(b, from, to);
      assert rb == ra + rb[|ra|..];
      assert b == a + rb[|ra|..];
    }
  }

  lemma RebaseParent(p: Path, from: Path, to: Path)
    requires from < p
    ensures from <= Parent(p)
    ensures Rebase(p, from, to) != []
    ensures Parent(Rebase(p, from, to)) == Rebase(Parent(p), from, to)
    ensures Last(Rebase(p, from, to)) == Last(p)
  {
  }

  /** Two prefixes of one path are comparable. */
  lemma Comparable(a: Path, b: Path, p: Path)
    requires a <= p && b <= p
    ensures |a| <= |b| ==> a <= b
    ensures |b| <= |a| ==> b <= a
  {
    assert a == p[..|a|] && b == p[..|b|];
  }

  /** A proper prefix of a nonempty path is a prefix of its parent. */
  lemma ProperPrefix(a: Path, p: Path)
    requires a < p
    ensures a <= Parent(p)
    ensures |a| == |p| - 1 ==> a == Parent(p)
  {
  }

  /** A path lies below `root` exactly when it is `root` or its parent lies below. */
  lemma BelowByParent(root: Path, p: Path)
    requires p != []
    ensures root <= p <==> root == p || root <= Parent(p)
  {
    if root <= p && root != p {
      assert |root| == |p| ==> root == p;
      ProperPrefix(root, p);
    }
    if root <= Parent(p) {
      assert p == Parent(p) + [Last(p)];
    }
  }
}
