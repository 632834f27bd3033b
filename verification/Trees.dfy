/** The file tree below a Workspace root, and the atomic filesystem steps a
    Mutation uses. Identity stands for device and inode, metadata for mode, owner
    and extended attributes; timestamps are not observed by the original. */
module Trees {
  import opened Paths
  import opened Results
  import opened ByteStrings

  datatype Node =
    | File(id: nat, bytes: Bytes, meta: nat)
    | Dir(id: nat, meta: nat)

  type Tree = map<Path, Node>

  /** Every resource but the root lies in a directory. */
  ghost predicate TreeOk(t: Tree) {
    && [] in t && t[[]].Dir?
    && forall p {:trigger Parent(p)} :: p in t && p != [] ==> Parent(p) in t && t[Parent(p)].Dir?
  }

  /** An ancestor of `p` is a regular file: looking `p` up fails with an error
      other than "not found". */
  predicate Blocked(t: Tree, p: Path) {
    exists a | a in t :: a < p && t[a].File?
  }

  lemma {:induction false} AncestorsAreDirectories(t: Tree, a: Path, p: Path)
    requires TreeOk(t) && p in t && a < p
    ensures a in t && t[a].Dir?
    decreases |p|
  {
    ProperPrefix(a, p);
    if a != Parent(p) {
      AncestorsAreDirectories(t, a, Parent(p));
    }
  }

  lemma PresentIsUnblocked(t: Tree, p: Path)
    requires TreeOk(t) && p in t
    ensures !Blocked(t, p)
  {
    forall a | a in t && a < p ensures t[a].Dir? {
      AncestorsAreDirectories(t, a, p);
    }
  }

  /** Nothing lives at or below a path that is absent. */
  lemma AbsentSubtree(t: Tree, root: Path, p: Path)
    requires TreeOk(t) && root !in t && root <= p
    ensures p !in t
  {
    if p in t {
      assert |root| == |p| ==> root == p;
      AncestorsAreDirectories(t, root, p);
    }
  }

  ghost predicate Free<T>(t: map<Path, T>, root: Path) {
    forall p :: p in t ==> !(root <= p)
  }

  /** The map with the whole subtree at `from` carried over to `to`. */
  function Relocate<T>(t: map<Path, T>, from: Path, to: Path): (r: map<Path, T>)
    requires Disjoint(from, to) && Free(t, to)
    ensures forall q :: q in r <==> if to <= q then Rebase(q, to, from) in t else q in t && !(from <= q)
    ensures forall q :: q in r ==> r[q] == t[if to <= q then Rebase(q, to, from) else q]
  {
    var stay := set p | p in t && !(from <= p);
    var moved := set p | p in t && from <= p :: Rebase(p, from, to);
    assert forall q :: q in moved <==> to <= q && Rebase(q, to, from) in t by {
      forall q ensures q in moved <==> to <= q && Rebase(q, to, from) in t {
        if q in moved {
          var p :| p in t && from <= p && q == Rebase(p, from, to);
          RebaseBack(p, from, to);
        } else if to <= q && Rebase(q, to, from) in t {
          RebaseBack(q, to, from);
        }
      }
    }
    map q | q in stay + moved :: t[if to <= q then Rebase(q, to, from) else q]
  }

  lemma RelocatedParent(t: Tree, from: Path, to: Path, p: Path)
    requires TreeOk(t) && Disjoint(from, to) && Free(t, to)
    requires to != [] && Parent(to) in t && t[Parent(to)].Dir?
    requires p in Relocate(t, from, to) && p != []
    ensures Parent(p) in Relocate(t, from, to) && Relocate(t, from, to)[Parent(p)].Dir?
  {
    var r := Relocate(t, from, to);
    BelowByParent(from, p);
    BelowByParent(to, p);
    if to == p {
      BelowByParent(from, to);
      assert |Parent(to)| < |to|;
    } else if to <= p {
      assert |to| == |p| ==> to == p;
      RebaseParent(p, to, from);
      var q := Rebase(p, to, from);
      assert Parent(p) in r && r[Parent(p)] == t[Parent(q)];
    } else {
      assert p in t;
    }
  }

  lemma RelocateKeepsTree(t: Tree, from: Path, to: Path)
    requires TreeOk(t) && Disjoint(from, to) && Free(t, to)
    requires to != [] && Parent(to) in t && t[Parent(to)].Dir?
    ensures TreeOk(Relocate(t, from, to))
  {
    var r := Relocate(t, from, to);
    assert [] in r && r[[]] == t[[]];
    forall p | p in r && p != [] ensures Parent(p) in r && r[Parent(p)].Dir? {
      RelocatedParent(t, from, to, p);
    }
  }

  /** Carrying a subtree back undoes carrying it over. */
  lemma RelocateBack<T>(t: map<Path, T>, from: Path, to: Path)
    requires Disjoint(from, to) && Free(t, to)
    ensures Free(Relocate(t, from, to), from)
    ensures Relocate(Relocate(t, from, to), to, from) == t
  {
    var r := Relocate(t, from, to);
    forall p | p in r ensures !(from <= p) {
      if from <= p && to <= p {
        Comparable(from, to, p);
      }
    }
    var b := Relocate(r, to, from);
    forall p ensures p in b <==> p in t
             ensures p in b ==> b[p] == t[p] {
      if from <= p {
        RebaseBack(p, from, to);
      }
    }
  }

  /** One atomic rename. Like every rename of the original, its destination has been
      checked to be absent; a present destination is refused. */
  function Rename(t: Tree, from: Path, to: Path): (r: Result<Tree>)
    requires TreeOk(t)
    ensures r.Ok? <==> from in t && to !in t && !(from <= to) && to != [] && Parent(to) in t && t[Parent(to)].Dir?
    ensures r.Ok? ==> Disjoint(from, to) && Free(t, to) && r.value == Relocate(t, from, to) && TreeOk(r.value)
  {
    if from !in t || to in t || from <= to || to == [] || Parent(to) !in t || !t[Parent(to)].Dir? then Err
    else
      assert Free(t, to) by {
        forall p | p in t ensures !(to <= p) {
          if to <= p { AbsentSubtree(t, to, p); }
        }
      }
      RelocateKeepsTree(t, from, to);
      Ok(Relocate(t, from, to))
  }

  /** Replaces the bytes of a file in place. */
  function Overwrite(t: Tree, p: Path, bytes: Bytes, meta: nat): (r: Tree)
    requires TreeOk(t) && p in t && t[p].File?
    ensures TreeOk(r)
  {
    t[p := File(t[p].id, bytes, meta)]
  }

  /** Creates an empty file. */
  function CreateFile(t: Tree, p: Path, id: nat, meta: nat): (r: Result<Tree>)
    requires TreeOk(t)
    ensures r.Ok? <==> p !in t && p != [] && Parent(p) in t && t[Parent(p)].Dir?
    ensures r.Ok? ==> r.value == t[p := File(id, [], meta)] && TreeOk(r.value)
  {
    if p in t || p == [] || Parent(p) !in t || !t[Parent(p)].Dir? then Err
    else Ok(t[p := File(id, [], meta)])
  }

  /** Removes one file. */
  function RemoveFile(t: Tree, p: Path): (r: Result<Tree>)
    requires TreeOk(t)
    ensures r.Ok? <==> p in t && t[p].File?
    ensures r.Ok? ==> r.value == t - {p} && TreeOk(r.value)
  {
    if p !in t || !t[p].File? then Err else Ok(t - {p})
  }
}
