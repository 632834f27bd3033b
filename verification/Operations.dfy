/** Canonical operations and their symbolic effect on a manifest. */
module Operations {
  import opened Paths
  import opened Results
  import opened ByteStrings
  import opened Trees
  import opened TextEdits
  import opened Manifests

  datatype Operation =
    | Text(index: nat, path: Path, before: Digest, after: Digest, edits: seq<TextEdit>)
    | Create(index: nat, path: Path, overwrite: bool, ignoreIfExists: bool)
    | Rename(index: nat, oldPath: Path, newPath: Path, overwrite: bool, ignoreIfExists: bool)
    | Delete(index: nat, path: Path, recursive: bool, ignoreIfNotExists: bool)

  function UndoPath(artifacts: Path, index: nat): Path {
    artifacts + [UndoName(index)]
  }

  function StagedPath(artifacts: Path, index: nat): Path {
    artifacts + [StagedName(index)]
  }

  /** Some tracked resource lies at `from`, and every directory there is certified. */
  predicate Transferable(m: Manifest, from: Path) {
    && (exists p | p in m :: m[p].present && from <= p)
    && forall p | p in m :: m[p].present && from <= p && m[p].kind.DirectoryKind? ==> m[p].content.Some?
  }

  /** The present entries at `from`. */
  function Departing(m: Manifest, from: Path): set<Path> {
    set p | p in m && m[p].present && from <= p
  }

  /** `q` receives one of the entries carried from `from` to `to`. */
  predicate Arrival(moved: set<Path>, from: Path, to: Path, q: Path) {
    to <= q && Rebase(q, to, from) in moved
  }

  /** The manifest once the entries `moved` have been carried from `from` to `to`. */
  function Carried(m: Manifest, from: Path, to: Path, moved: set<Path>): (r: Manifest)
    requires moved <= m.Keys && forall p :: p in moved ==> from <= p
  {
    var arrivals := set p | p in moved :: Rebase(p, from, to);
    assert forall q :: q in arrivals ==> Arrival(moved, from, to, q) by {
      forall q | q in arrivals ensures Arrival(moved, from, to, q) {
        var p :| p in moved && q == Rebase(p, from, to);
        RebaseBack(p, from, to);
      }
    }
    map q | q in m.Keys + arrivals ::
      if Arrival(moved, from, to, q) then m[Rebase(q, to, from)] else if q in moved then MISSING else m[q]
  }

  lemma CarriedEntries(m: Manifest, from: Path, to: Path, moved: set<Path>)
    requires moved <= m.Keys && forall p :: p in moved ==> from <= p
    ensures var r := Carried(m, from, to, moved);
      && (forall q :: q in r <==> q in m || Arrival(moved, from, to, q))
      && (forall q :: q in r && Arrival(moved, from, to, q) ==> r[q] == m[Rebase(q, to, from)])
      && (forall q :: q in r && !Arrival(moved, from, to, q) ==> r[q] == if q in moved then MISSING else m[q])
  {
    var arrivals := set p | p in moved :: Rebase(p, from, to);
    forall q | Arrival(moved, from, to, q) ensures q in arrivals {
      RebaseBack(q, to, from);
    }
    forall q | q in arrivals ensures Arrival(moved, from, to, q) {
      var p :| p in moved && q == Rebase(p, from, to);
      RebaseBack(p, from, to);
    }
  }

  function TransferManifest(m: Manifest, from: Path, to: Path): Result<Manifest> {
    if Transferable(m, from) then Ok(Carried(m, from, to, Departing(m, from))) else Err
  }

  lemma CarryOneMore(m: Manifest, from: Path, to: Path, moved: set<Path>, p: Path)
    requires Disjoint(from, to) && p in m && from <= p && p !in moved
    requires moved <= m.Keys && forall x :: x in moved ==> from <= x
    ensures Carried(m, from, to, moved + {p}) == Carried(m, from, to, moved)[p := MISSING][Rebase(p, from, to) := m[p]]
    ensures p in Carried(m, from, to, moved) && Carried(m, from, to, moved)[p] == m[p]
  {
    assert !(to <= p) by { if to <= p { Comparable(from, to, p); } }
    RebaseBack(p, from, to);
    CarriedEntries(m, from, to, moved + {p});
    CarriedEntries(m, from, to, moved);
    forall q ensures Arrival(moved + {p}, from, to, q) <==> Arrival(moved, from, to, q) || q == Rebase(p, from, to) {
      if to <= q {
        RebaseBack(q, to, from);
      }
    }
    var left := Carried(m, from, to, moved + {p});
    var right := Carried(m, from, to, moved)[p := MISSING][Rebase(p, from, to) := m[p]];
    forall q ensures q in left <==> q in right
             ensures q in left ==> left[q] == right[q] {
    }
  }

  /** The entry-by-entry loop computes `TransferManifest` for disjoint subtrees, in
      whatever order it visits the entries. */
  method MoveEntries(m: Manifest, from: Path, to: Path) returns (r: Result<Manifest>)
    requires Disjoint(from, to)
    ensures r == TransferManifest(m, from, to)
  {
    var tree := Departing(m, from);
    if tree == {} {
      assert forall p :: p in m && m[p].present && from <= p ==> p in tree;
      return Err;
    }
    var entries, todo := m, tree;
    assert tree - todo == {};
    CarriedEntries(m, from, to, {});
    while todo != {}
      invariant todo <= tree
      invariant forall p :: p in tree && p !in todo && m[p].kind.DirectoryKind? ==> m[p].content.Some?
      invariant entries == Carried(m, from, to, tree - todo)
    {
      var p :| p in todo;
      CarryOneMore(m, from, to, tree - todo, p);
      var entry := entries[p];
      if entry.kind.DirectoryKind? && entry.content.None? {
        assert p in tree;
        return Err;
      }
      entries := entries[p := MISSING];
      entries := entries[Rebase(p, from, to) := entry];
      assert (tree - todo) + {p} == tree - (todo - {p});
      todo := todo - {p};
    }
    var first :| first in tree;
    assert tree - {} == tree;
    return Ok(entries);
  }

  /** Where the resource that an operation removes is kept, if it removes one. */
  function RemovedRoot(op: Operation): Option<Path> {
    match op
    case Rename(_, _, newPath, _, _) => Some(newPath)
    case Delete(_, path, _, _) => Some(path)
    case _ => None
  }

  /** Tracks, as missing, the undo place of every tracked path the operation removes. */
  function AddUndo(m: Manifest, artifacts: Path, op: Operation): (r: Manifest)
    ensures RemovedRoot(op).None? ==> r == m
    ensures RemovedRoot(op).Some? ==>
      var root, undo := RemovedRoot(op).value, UndoPath(artifacts, op.index);
      && (forall q :: q in r <==> q in m || (undo <= q && Rebase(q, undo, root) in m))
      && (forall q :: q in r ==> r[q] == if undo <= q && Rebase(q, undo, root) in m then MISSING else m[q])
  {
    if RemovedRoot(op).None? then m
    else
      var root, undo := RemovedRoot(op).value, UndoPath(artifacts, op.index);
      var places := set p | p in m && root <= p :: Rebase(p, root, undo);
      assert forall q :: q in places <==> undo <= q && Rebase(q, undo, root) in m by {
        forall q ensures q in places <==> undo <= q && Rebase(q, undo, root) in m {
          if q in places {
            var p :| p in m && root <= p && q == Rebase(p, root, undo);
            RebaseBack(p, root, undo);
          } else if undo <= q && Rebase(q, undo, root) in m {
            RebaseBack(q, undo, root);
          }
        }
      }
      map q | q in m.Keys + places :: if q in places then MISSING else m[q]
  }

  /** The manifest an operation must leave behind, given what was observed at a newly
      created path and the identity of the handle that was written. */
  function OperationAfter(
    artifacts: Path, op: Operation, before: Manifest, observed: Manifest, handle: Option<nat>): Result<Manifest>
  {
    match op
    case Text(_, path, beforeDigest, afterDigest, _) =>
      if path !in before || before[path].content != Some(beforeDigest) || before[path].identity != handle then Err
      else Ok(Refresh(before[path := before[path].(content := Some(afterDigest))]))
    case Create(_, path, overwrite, ignoreIfExists) =>
      if path !in before then Err
      else if before[path].present && !overwrite then
        if ignoreIfExists then Ok(Refresh(before)) else Err
      else if before[path].present then
        if before[path].identity != handle then Err
        else Ok(Refresh(before[path := before[path].(content := Some(OfBytes([])))]))
      else if path !in observed then Err
      else
        var created := observed[path];
        if !created.kind.FileKind? || created.identity.None? || created.identity != handle
           || created.content != Some(OfBytes([])) then Err
        else Ok(Refresh(before[path := created]))
    case Rename(index, oldPath, newPath, overwrite, ignoreIfExists) =>
      if newPath in before && before[newPath].present then
        if overwrite then
          var cleared :- TransferManifest(before, newPath, UndoPath(artifacts, index));
          var moved :- TransferManifest(cleared, oldPath, newPath);
          Ok(Refresh(moved))
        else if ignoreIfExists then Ok(before)
        else Err
      else
        var moved :- TransferManifest(before, oldPath, newPath);
        Ok(Refresh(moved))
    case Delete(index, path, _, ignoreIfNotExists) =>
      if path in before && before[path].present then
        var moved :- TransferManifest(before, path, UndoPath(artifacts, index));
        Ok(Refresh(moved))
      else if ignoreIfNotExists then Ok(Refresh(before))
      else Err
  }
}
