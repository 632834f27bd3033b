/** A transaction, the filesystem effect of its operations, and the promises of the
    planner under which the two stay in step. */
module Transactions {
  import opened Paths
  import opened Results
  import opened ByteStrings
  import opened Trees
  import opened Manifests
  import opened Operations

  datatype BackupEntry = BackupEntry(path: Path, backupPath: Path)

  /** `order` lists the paths of the before manifest in the order of its vector. */
  datatype Transaction = Transaction(
    id: nat,
    operations: seq<Operation>,
    before: Manifest,
    intended: Manifest,
    observed: Manifest,
    backups: seq<BackupEntry>,
    order: seq<Path>)
  {
    /** The private directory for staged text, backups, undo resources and the log. */
    function Artifacts(): Path {
      [ArtifactName(id)]
    }
  }

  /** The tree, the identity the next created file gets, and its metadata. */
  datatype Disk = Disk(tree: Tree, nextId: nat, mode: nat)

  ghost predicate DiskOk(d: Disk) {
    && TreeOk(d.tree)
    && forall p :: p in d.tree ==> d.tree[p].id < d.nextId
  }

  /** The operation moves away whatever lies at `p`. */
  predicate MovesAway(op: Operation, p: Path) {
    match op
    case Rename(_, oldPath, newPath, overwrite, _) => oldPath <= p || (overwrite && newPath <= p)
    case Delete(_, path, _, _) => path <= p
    case _ => false
  }

  function OperationPaths(op: Operation): set<Path> {
    if op.Rename? then {op.oldPath, op.newPath} else {op.path}
  }

  /** Every planned path starts missing unless the before manifest says otherwise, and
      every directory that some operation moves is certified. */
  function InitialManifest(tx: Transaction): Manifest {
    var planned := (map p | p in tx.intended :: MISSING) + tx.before;
    Refresh(map p | p in planned ::
      if planned[p].kind.DirectoryKind? && exists op | op in tx.operations :: MovesAway(op, p)
      then planned[p].(content := Some(Placeholder)) else planned[p])
  }

  /** What the planner promises about the shape of a plan. */
  ghost predicate WellFormed(tx: Transaction) {
    && (forall i, j :: 0 <= i < j < |tx.operations| ==> tx.operations[i].index != tx.operations[j].index)
    && (forall op, p :: op in tx.operations && p in OperationPaths(op) ==> p in tx.before && p != [])
    && (forall op :: op in tx.operations && op.Rename? ==> Disjoint(op.oldPath, op.newPath))
    && (forall p :: p in tx.before.Keys + tx.intended.Keys ==> !(tx.Artifacts() <= p))
  }

  function IdentityAt(m: Manifest, p: Path): Option<nat> {
    if p in m then m[p].identity else None
  }

  predicate Empty(t: Tree, d: Path) {
    forall q | q in t :: !IsChild(d, q)
  }

  /** The effect of one operation on the disk, with the identity of the handle it wrote.
      `expected` is the identity the commit proved beforehand. */
  function ApplyEffect(artifacts: Path, op: Operation, d: Disk, expected: Option<nat>): (r: Result<(Disk, Option<nat>)>)
    requires TreeOk(d.tree)
    ensures r.Ok? ==> TreeOk(r.value.0.tree)
  {
    var t := d.tree;
    match op
    case Text(index, path, before, after, _) =>
      var staged := StagedPath(artifacts, index);
      if path !in t || !t[path].File? || OfBytes(t[path].bytes) != before then Err
      else if staged !in t || !t[staged].File? || OfBytes(t[staged].bytes) != after then Err
      else if expected != Some(t[path].id) then Err
      else Ok((d.(tree := Overwrite(t, path, t[staged].bytes, t[path].meta)), Some(t[path].id)))
    case Create(_, path, overwrite, ignoreIfExists) =>
      if path in t then
        if overwrite then
          if !t[path].File? || expected != Some(t[path].id) then Err
          else Ok((d.(tree := Overwrite(t, path, [], t[path].meta)), Some(t[path].id)))
        else if ignoreIfExists then Ok((d, None))
        else Err
      else
        var created :- CreateFile(t, path, d.nextId, d.mode);
        Ok((d.(tree := created, nextId := d.nextId + 1), Some(d.nextId)))
    case Rename(index, oldPath, newPath, overwrite, ignoreIfExists) =>
      if newPath in t then
        if overwrite then
          var cleared :- Trees.Rename(t, newPath, UndoPath(artifacts, index));
          var moved :- Trees.Rename(cleared, oldPath, newPath);
          Ok((d.(tree := moved), None))
        else if ignoreIfExists then Ok((d, None))
        else Err
      else
        var moved :- Trees.Rename(t, oldPath, newPath);
        Ok((d.(tree := moved), None))
    case Delete(index, path, recursive, ignoreIfNotExists) =>
      if path !in t then
        if ignoreIfNotExists then Ok((d, None)) else Err
      else if t[path].Dir? && !recursive && !Empty(t, path) then Err
      else
        var moved :- Trees.Rename(t, path, UndoPath(artifacts, index));
        Ok((d.(tree := moved), None))
  }

  /** What the planner checked about an operation on the tree it will meet. Operations
      that would be ignored are never planned. */
  ghost predicate Planned(op: Operation, t: Tree) {
    match op
    case Text(_, path, before, _, _) => path in t && t[path].File? && OfBytes(t[path].bytes) == before
    case Create(_, path, overwrite, _) =>
      if path in t then overwrite && t[path].File?
      else path != [] && Parent(path) in t && t[Parent(path)].Dir?
    case Rename(_, oldPath, newPath, overwrite, _) =>
      && oldPath in t
      && newPath != [] && Parent(newPath) in t && t[Parent(newPath)].Dir?
      && (newPath in t ==> overwrite && t[newPath].Dir? == t[oldPath].Dir?)
    case Delete(_, path, recursive, _) =>
      path in t && (t[path].Dir? && !Empty(t, path) ==> recursive)
  }

  /** What staging left in the artifact directory for an operation: its undo place is
      free, and its text is there. */
  ghost predicate Equipped(artifacts: Path, op: Operation, t: Tree) {
    && artifacts in t && t[artifacts].Dir?
    && UndoPath(artifacts, op.index) !in t
    && (op.Text? ==>
          var staged := StagedPath(artifacts, op.index);
          staged in t && t[staged].File? && OfBytes(t[staged].bytes) == op.after)
  }

  /** The operation can be applied to the tree. */
  ghost predicate Feasible(artifacts: Path, op: Operation, t: Tree) {
    Planned(op, t) && Equipped(artifacts, op, t)
  }

  /** The operation puts a regular file above a tracked path. Such a path can then no
      longer be inspected, because its lookup does not end in "not found". */
  ghost predicate Collides(tracked: set<Path>, op: Operation, t: Tree) {
    match op
    case Create(_, path, _, _) => path !in t && exists q :: q in tracked && path < q
    case Rename(_, oldPath, newPath, _, _) => Shadows(tracked, t, oldPath, newPath)
    case _ => false
  }

  /** A file of the moved subtree would land above a tracked path. */
  predicate Shadows(tracked: set<Path>, t: Tree, from: Path, to: Path) {
    exists a | a in t :: from <= a && t[a].File? && exists q | q in tracked :: Rebase(a, from, to) < q
  }
}
