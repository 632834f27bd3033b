/** Undoing one recorded effect. */
module Reversal {
  import opened Paths
  import opened Results
  import opened ByteStrings
  import opened Trees
  import opened Manifests
  import opened Operations
  import opened Transactions
  import opened Simulation
  import opened Lockstep

  /** The backup of a path lies below the backup of the first root above it. */
  function BackupPathFor(backups: seq<BackupEntry>, p: Path): Option<Path> {
    if backups == [] then None
    else if backups[0].path <= p then Some(Rebase(p, backups[0].path, backups[0].backupPath))
    else BackupPathFor(backups[1..], p)
  }

  predicate SameResource(original: Entry, expected: Entry) {
    original.present && original.identity == expected.identity && original.content == expected.content
  }

  function FindOriginal(order: seq<Path>, before: Manifest, expected: Entry): (r: Option<Path>)
    ensures r.Some? ==> r.value in before && SameResource(before[r.value], expected)
    ensures r.None? ==> forall p :: p in order && p in before ==> !SameResource(before[p], expected)
  {
    if order == [] then None
    else if order[0] in before && SameResource(before[order[0]], expected) then Some(order[0])
    else FindOriginal(order[1..], before, expected)
  }

  function FindStaged(operations: seq<Operation>, digest: Digest): (r: Option<nat>)
    ensures r.Some? ==> exists op :: op in operations && op.Text? && op.after == digest && op.index == r.value
    ensures r.None? ==> forall op :: op in operations && op.Text? ==> op.after != digest
  {
    if operations == [] then None
    else if operations[0].Text? && operations[0].after == digest then Some(operations[0].index)
    else FindStaged(operations[1..], digest)
  }

  /** The bytes a text undo must restore, with the metadata of the backup they come
      from: the original backup, nothing, or an earlier staged text. */
  function RollbackTextBytes(tx: Transaction, t: Tree, expected: Entry): (r: Result<(Bytes, Option<nat>)>)
    ensures r.Ok? ==> expected.content == Some(OfBytes(r.value.0))
    ensures r.Ok? && r.value.1.Some? ==> r.value.1 == expected.metadata
  {
    if expected.content.None? then Err
    else
      var digest := expected.content.value;
      match FindOriginal(tx.order, tx.before, expected)
      case Some(original) =>
        var backup := BackupPathFor(tx.backups, original);
        if backup.None? || backup.value !in t || !t[backup.value].File? then Err
        else
          var node := t[backup.value];
          if OfBytes(node.bytes) != digest || Some(node.meta) != expected.metadata then Err
          else Ok((node.bytes, Some(node.meta)))
      case None =>
        if digest == OfBytes([]) then Ok(([], None))
        else
          var staged := FindStaged(tx.operations, digest);
          if staged.None? then Err
          else
            var p := StagedPath(tx.Artifacts(), staged.value);
            if p !in t || !t[p].File? || OfBytes(t[p].bytes) != digest then Err
            else Ok((t[p].bytes, None))
  }

  /** The entries a reverse rename checks first: the proven subtree, and a free place. */
  function ReturnProof(proof: Manifest, from: Path, to: Path): Manifest {
    (map p | p in proof && from <= p :: proof[p])[to := MISSING]
  }

  function RenameBack(t: Tree, from: Path, to: Path, proof: Manifest): (r: Result<Tree>)
    requires TreeOk(t)
    ensures r.Ok? ==> TreeOk(r.value)
  {
    if from !in proof || !proof[from].present then Err
    else if !RequireManifest(t, ReturnProof(proof, from, to)) then Err
    else Trees.Rename(t, from, to)
  }

  function RestoreText(tx: Transaction, t: Tree, p: Path, before: Entry, after: Entry): (r: Result<Tree>)
    requires TreeOk(t)
    ensures r.Ok? ==> TreeOk(r.value)
  {
    var source :- RollbackTextBytes(tx, t, before);
    if p !in t || !t[p].File? then Err
    else if after.identity != Some(t[p].id) || after.content != Some(OfBytes(t[p].bytes)) then Err
    else if !RequireManifest(t, map[p := after]) then Err
    else Ok(Overwrite(t, p, source.0, if source.1.Some? then source.1.value else t[p].meta))
  }

  /** Undoes one effect, given the manifests recorded around it. */
  function UndoEffect(tx: Transaction, op: Operation, before: Manifest, after: Manifest, t: Tree): (r: Result<Tree>)
    requires TreeOk(t)
    ensures r.Ok? ==> TreeOk(r.value)
  {
    match op
    case Rename(index, oldPath, newPath, _, _) =>
      if before == after then Ok(t)
      else
        var returned :- RenameBack(t, newPath, oldPath, after);
        var undo := UndoPath(tx.Artifacts(), index);
        if undo !in after then Err
        else if after[undo].present then RenameBack(returned, undo, newPath, after)
        else Ok(returned)
    case Delete(index, path, _, _) =>
      var undo := UndoPath(tx.Artifacts(), index);
      if undo !in after then Err
      else if after[undo].present then RenameBack(t, undo, path, after)
      else Ok(t)
    case _ =>
      if op.path !in before || op.path !in after then Err
      else if before[op.path] == after[op.path] then Ok(t)
      else if before[op.path].present then RestoreText(tx, t, op.path, before[op.path], after[op.path])
      else RemoveFile(t, op.path)
  }

  /** An effect really took place on the witness `d`, whose tree the manifest described. */
  ghost predicate Happened(tx: Transaction, op: Operation, before: Manifest, after: Manifest, d: Disk, d': Disk) {
    && TreeOk(d.tree) && Describes(before, d.tree)
    && Prepared(tx.Artifacts(), op, before)
    && tx.Artifacts() in d.tree && d.tree[tx.Artifacts()].Dir?
    && TreeOk(d'.tree)
    && (exists handle ::
         && ApplyEffect(tx.Artifacts(), op, d, IdentityAt(before, TargetPath(op))) == Ok((d', handle))
         && OperationAfter(tx.Artifacts(), op, before, Observed(d'.tree, before), handle) == Ok(after))
    && Describes(after, d'.tree) && Refresh(after) == after
  }

  /** Untracked parents of the operation's paths are still directories. */
  ghost predicate KeepsParents(op: Operation, before: Manifest, d: Disk, t: Tree) {
    forall p ::
      p in OperationPaths(op) && p != [] && Parent(p) in d.tree && d.tree[Parent(p)].Dir? && Parent(p) !in before ==>
      Parent(p) in t && t[Parent(p)].Dir?
  }

  /** The tree matches what the effect left, and the text it must restore is available. */
  ghost predicate Undoable(tx: Transaction, op: Operation, before: Manifest, after: Manifest, d: Disk, t: Tree) {
    && TreeOk(t) && Describes(after, t) && KeepsParents(op, before, d, t)
    && (!op.Rename? && !op.Delete? && op.path in before && before[op.path].present ==>
         RollbackTextBytes(tx, t, before[op.path]).Ok?)
  }

  /** The tree is back at the recorded precondition; exactly back, if it was exact. */
  ghost predicate Undone(tx: Transaction, op: Operation, before: Manifest, after: Manifest, d: Disk, d': Disk, t: Tree)
    requires TreeOk(t)
  {
    var undone := UndoEffect(tx, op, before, after, t);
    && undone.Ok?
    && Describes(before, undone.value)
    && (t == d'.tree ==> undone.value == d.tree)
  }

  /** A tracked parent directory of a path keeps its entry through a carry. */
  lemma ParentStays(m: Manifest, g: Tree, t: Tree, from: Path, to: Path, p: Path)
    requires CanCarry(m, g, from, to) && from != []
    requires Tracks(Carried(m, from, to, Departing(m, from)), t)
    requires p in g && g[p].Dir? && !(from <= p) && !(to <= p)
    requires p !in m ==> p in t && t[p].Dir?
    ensures p in t && t[p].Dir?
  {
    if p in m {
      CarriedEntries(m, from, to, Departing(m, from));
      var r := Carried(m, from, to, Departing(m, from));
      assert Bare(m[p]) == Seen(g, p, false);
      assert Bare(r[p]) == Seen(t, p, false);
    }
  }

  lemma ParentIsApart(from: Path, to: Path)
    requires Disjoint(from, to) && from != []
    ensures !(from <= Parent(from)) && !(to <= Parent(from))
  {
    BelowByParent(to, from);
  }

  /** The proof of a reverse rename holds on any tree that agrees below its source. */
  lemma ProofHolds(t: Tree, proof: Manifest, from: Path, to: Path)
    requires Disjoint(from, to)
    requires forall p :: p in proof && from <= p ==> !Blocked(t, p) && proof[p] == Seen(t, p, Certified(proof[p]))
    requires to !in t && !Blocked(t, to)
    ensures RequireManifest(t, ReturnProof(proof, from, to))
  {
    RequireIsDescribes(t, ReturnProof(proof, from, to));
  }

  /** The manifest left by a single carry, found described on the present tree. */
  ghost predicate Carryback(m: Manifest, g: Tree, after: Manifest, t: Tree, from: Path, to: Path) {
    && CanCarry(m, g, from, to) && Refresh(m) == m
    && after == Refresh(Carried(m, from, to, Departing(m, from)))
    && TreeOk(t) && Describes(after, t)
    && from != [] && (Parent(from) !in m ==> Parent(from) in t && t[Parent(from)].Dir?)
  }

  lemma CarrybackReturns(m: Manifest, g: Tree, after: Manifest, t: Tree, from: Path, to: Path)
    requires Carryback(m, g, after, t, from, to)
    ensures CanReturn(m, g, t, from, to)
  {
    var r := Carried(m, from, to, Departing(m, from));
    RefreshIdempotent(r);
    DescribedIsTracked(after, t);
    RefreshKeepsTracking(r, t);
    ParentIsApart(from, to);
    assert Parent(from) in g && g[Parent(from)].Dir?;
    ParentStays(m, g, t, from, to, Parent(from));
  }

  lemma CarrybackChecks(m: Manifest, g: Tree, after: Manifest, t: Tree, from: Path, to: Path)
    requires Carryback(m, g, after, t, from, to) && CanReturn(m, g, t, from, to)
    requires from !in t && to in t && Free(t, from)
    ensures RenameBack(t, to, from, after) == Ok(Relocate(t, to, from))
  {
    CarriedEntries(m, from, to, Departing(m, from));
    assert from in after;
    assert Bare(m[from]) == Seen(g, from, false);
    assert Rebase(to, to, from) == from;
    assert Arrival(Departing(m, from), from, to, to);
    ProofHolds(t, after, to, from);
  }

  /** Undoing a single carry. */
  lemma UndoCarry(m: Manifest, g: Tree, after: Manifest, t: Tree, from: Path, to: Path)
    requires Carryback(m, g, after, t, from, to)
    ensures Free(t, from) && Free(g, to)
    ensures RenameBack(t, to, from, after) == Ok(Relocate(t, to, from))
    ensures TreeOk(Relocate(t, to, from)) && Describes(m, Relocate(t, to, from))
    ensures t == Relocate(g, from, to) ==> Relocate(t, to, from) == g
  {
    CarrybackReturns(m, g, after, t, from, to);
    CarryBackward(m, g, t, from, to);
    CarrybackChecks(m, g, after, t, from, to);
    TrackedIsDescribed(m, Relocate(t, to, from));
    CanCarryFree(m, g, from, to);
    RelocateBack(g, from, to);
  }

  lemma DeleteIsUndone(tx: Transaction, op: Operation, before: Manifest, after: Manifest, d: Disk, d': Disk, t: Tree)
    requires op.Delete? && Happened(tx, op, before, after, d, d') && Undoable(tx, op, before, after, d, t)
    ensures Undone(tx, op, before, after, d, d', t)
  {
    var undo, g := UndoPath(tx.Artifacts(), op.index), d.tree;
    DescribedIsTracked(before, g);
    UndoIsApart(tx.Artifacts(), op.path, op.index);
    if op.path in g {
      DeletedCarry(tx, op, before, after, d, d');
      UndoCarry(before, g, after, t, op.path, undo);
      CarriedEntries(before, op.path, undo, Departing(before, op.path));
      assert Rebase(undo, undo, op.path) == op.path;
      assert Arrival(Departing(before, op.path), op.path, undo, undo);
    } else {
      assert before[op.path] == MISSING;
    }
  }

  lemma DeletedCarry(tx: Transaction, op: Operation, before: Manifest, after: Manifest, d: Disk, d': Disk)
    requires op.Delete? && Happened(tx, op, before, after, d, d') && op.path in d.tree
    ensures var undo := UndoPath(tx.Artifacts(), op.index);
            && CanCarry(before, d.tree, op.path, undo) && Free(d.tree, undo)
            && after == Refresh(Carried(before, op.path, undo, Departing(before, op.path)))
            && d'.tree == Relocate(d.tree, op.path, undo)
  {
    DescribedIsTracked(before, d.tree);
    UndoIsApart(tx.Artifacts(), op.path, op.index);
  }

  lemma MovedCarry(tx: Transaction, op: Operation, before: Manifest, after: Manifest, d: Disk, d': Disk)
    requires op.Rename? && Happened(tx, op, before, after, d, d') && op.newPath !in d.tree
    ensures CanCarry(before, d.tree, op.oldPath, op.newPath) && Free(d.tree, op.newPath)
    ensures after == Refresh(Carried(before, op.oldPath, op.newPath, Departing(before, op.oldPath)))
    ensures d'.tree == Relocate(d.tree, op.oldPath, op.newPath)
  {
    DescribedIsTracked(before, d.tree);
    assert before[op.newPath] == MISSING;
  }

  lemma MoveIsUndone(tx: Transaction, op: Operation, before: Manifest, after: Manifest, d: Disk, d': Disk, t: Tree)
    requires op.Rename? && Happened(tx, op, before, after, d, d') && Undoable(tx, op, before, after, d, t)
    requires op.newPath !in d.tree
    ensures Undone(tx, op, before, after, d, d', t)
  {
    MovedCarry(tx, op, before, after, d, d');
    MoveUndoneFrom(tx, op, before, after, d, d', t);
  }

  lemma MoveUndoneFrom(tx: Transaction, op: Operation, before: Manifest, after: Manifest, d: Disk, d': Disk, t: Tree)
    requires op.Rename? && Prepared(tx.Artifacts(), op, before) && Undoable(tx, op, before, after, d, t)
    requires CanCarry(before, d.tree, op.oldPath, op.newPath) && Free(d.tree, op.newPath)
    requires after == Refresh(Carried(before, op.oldPath, op.newPath, Departing(before, op.oldPath)))
    requires d'.tree == Relocate(d.tree, op.oldPath, op.newPath)
    ensures Undone(tx, op, before, after, d, d', t)
  {
    var undo := UndoPath(tx.Artifacts(), op.index);
    UndoIsApart(tx.Artifacts(), op.oldPath, op.index);
    UndoIsApart(tx.Artifacts(), op.newPath, op.index);
    MoveLeavesTraces(before, d.tree, op.oldPath, op.newPath, undo);
    UndoCarry(before, d.tree, after, t, op.oldPath, op.newPath);
    MoveUndoValue(tx, op, before, after, t);
  }

  lemma MoveUndoValue(tx: Transaction, op: Operation, before: Manifest, after: Manifest, t: Tree)
    requires op.Rename? && TreeOk(t) && before != after
    requires UndoPath(tx.Artifacts(), op.index) in after && !after[UndoPath(tx.Artifacts(), op.index)].present
    ensures UndoEffect(tx, op, before, after, t) == RenameBack(t, op.newPath, op.oldPath, after)
  {
  }

  /** A move changes the manifest at its source and nothing at a path apart from it. */
  lemma MoveLeavesTraces(m: Manifest, g: Tree, from: Path, to: Path, apart: Path)
    requires CanCarry(m, g, from, to) && Disjoint(from, apart) && Disjoint(to, apart)
    requires apart in m && !m[apart].present
    ensures var after := Refresh(Carried(m, from, to, Departing(m, from)));
            && from in after && !after[from].present && m[from].present
            && apart in after && !after[apart].present
  {
    CarriedEntries(m, from, to, Departing(m, from));
    assert Bare(m[from]) == Seen(g, from, false);
  }

  /** An overwriting rename taken apart: the destination is cleared to its undo place,
      giving `m1` and `g1`, and the source is moved there. */
  ghost predicate Overwrote(
      artifacts: Path, op: Operation, m: Manifest, g: Tree, m1: Manifest, g1: Tree, after: Manifest, g2: Tree)
  {
    && op.Rename? && TreeOk(g) && Refresh(m) == m
    && Cleared(op, UndoPath(artifacts, op.index), m, g, m1, g1)
    && Trees.Rename(g1, op.oldPath, op.newPath) == Ok(g2)
    && Transferable(m1, op.oldPath)
    && after == Refresh(Carried(m1, op.oldPath, op.newPath, Departing(m1, op.oldPath)))
  }

  ghost predicate Cleared(op: Operation, undo: Path, m: Manifest, g: Tree, m1: Manifest, g1: Tree)
    requires op.Rename?
  {
    && Disjoint(op.oldPath, op.newPath) && Disjoint(op.oldPath, undo) && Disjoint(op.newPath, undo)
    && op.oldPath in m && op.newPath in g && op.newPath != [] && op.oldPath != []
    && UndoReady(m, op.newPath, undo)
    && CanCarry(m, g, op.newPath, undo) && Free(g, undo)
    && m1 == Carried(m, op.newPath, undo, Departing(m, op.newPath))
    && g1 == Relocate(g, op.newPath, undo) && TreeOk(g1)
  }

  lemma OverwriteHappened(tx: Transaction, op: Operation, before: Manifest, after: Manifest, d: Disk, d': Disk)
    returns (m1: Manifest, g1: Tree)
    requires op.Rename? && Happened(tx, op, before, after, d, d') && op.newPath in d.tree && op.overwrite
    ensures Overwrote(tx.Artifacts(), op, before, d.tree, m1, g1, after, d'.tree)
  {
    OverwriteApplied(tx.Artifacts(), op, d, IdentityAt(before, TargetPath(op)), d');
    OverwriteTransferred(tx, op, before, after, d, d');
    m1, g1 := OverwriteAssembled(tx.Artifacts(), op, before, d.tree, after, d'.tree);
  }

  lemma OverwriteAssembled(artifacts: Path, op: Operation, m: Manifest, g: Tree, after: Manifest, g2: Tree)
    returns (m1: Manifest, g1: Tree)
    requires op.Rename? && op.overwrite && TreeOk(g) && Describes(m, g) && Prepared(artifacts, op, m) && op.newPath in g
    requires var cleared := Trees.Rename(g, op.newPath, UndoPath(artifacts, op.index));
             cleared.Ok? && Trees.Rename(cleared.value, op.oldPath, op.newPath) == Ok(g2)
    requires var cleared := TransferManifest(m, op.newPath, UndoPath(artifacts, op.index));
             cleared.Ok?
             && var moved := TransferManifest(cleared.value, op.oldPath, op.newPath);
                moved.Ok? && after == Refresh(moved.value)
    ensures Overwrote(artifacts, op, m, g, m1, g1, after, g2)
  {
    var undo := UndoPath(artifacts, op.index);
    m1, g1 := ClearingAssembled(artifacts, op, m, g);
  }

  lemma ClearingAssembled(artifacts: Path, op: Operation, m: Manifest, g: Tree) returns (m1: Manifest, g1: Tree)
    requires op.Rename? && op.overwrite && TreeOk(g) && Describes(m, g) && Prepared(artifacts, op, m) && op.newPath in g
    requires Trees.Rename(g, op.newPath, UndoPath(artifacts, op.index)).Ok?
    requires TransferManifest(m, op.newPath, UndoPath(artifacts, op.index)).Ok?
    ensures Trees.Rename(g, op.newPath, UndoPath(artifacts, op.index)) == Ok(g1)
    ensures TransferManifest(m, op.newPath, UndoPath(artifacts, op.index)) == Ok(m1)
    ensures Cleared(op, UndoPath(artifacts, op.index), m, g, m1, g1)
  {
    var undo := UndoPath(artifacts, op.index);
    UndoIsApart(artifacts, op.newPath, op.index);
    UndoIsApart(artifacts, op.oldPath, op.index);
    assert op.newPath in OperationPaths(op) && op.oldPath in OperationPaths(op);
    ClearCanCarry(artifacts, op, m, g, op.newPath);
    g1 := Trees.Rename(g, op.newPath, undo).value;
    m1 := TransferManifest(m, op.newPath, undo).value;
  }

  lemma OverwriteApplied(artifacts: Path, op: Operation, d: Disk, expected: Option<nat>, d': Disk)
    requires op.Rename? && op.overwrite && TreeOk(d.tree) && op.newPath in d.tree
    requires exists handle :: ApplyEffect(artifacts, op, d, expected) == Ok((d', handle))
    ensures var cleared := Trees.Rename(d.tree, op.newPath, UndoPath(artifacts, op.index));
            cleared.Ok? && Trees.Rename(cleared.value, op.oldPath, op.newPath) == Ok(d'.tree)
  {
    var applied := ApplyEffect(artifacts, op, d, expected);
    var cleared := Trees.Rename(d.tree, op.newPath, UndoPath(artifacts, op.index));
    assert applied.Ok? && applied.value.0 == d';
    assert cleared.Ok?;
  }

  lemma OverwriteTransferred(tx: Transaction, op: Operation, before: Manifest, after: Manifest, d: Disk, d': Disk)
    requires op.Rename? && op.overwrite && Happened(tx, op, before, after, d, d') && op.newPath in d.tree
    ensures var cleared := TransferManifest(before, op.newPath, UndoPath(tx.Artifacts(), op.index));
            cleared.Ok?
            && var moved := TransferManifest(cleared.value, op.oldPath, op.newPath);
               moved.Ok? && after == Refresh(moved.value)
  {
    assert before[op.newPath].present;
  }

  lemma ClearedIsTracked(m: Manifest, g: Tree, root: Path, undo: Path, p: Path)
    requires CanCarry(m, g, root, undo) && Free(g, undo) && UndoReady(m, root, undo) && p in m
    ensures Tracks(Carried(m, root, undo, Departing(m, root)), Relocate(g, root, undo))
    ensures p in Carried(m, root, undo, Departing(m, root))
  {
    UndoNeverShadows(m, g, root, undo);
    CarryForward(m, g, root, undo);
    CarriedEntries(m, root, undo, Departing(m, root));
  }

  lemma SecondCarry(
      artifacts: Path, op: Operation, m: Manifest, g: Tree, m1: Manifest, g1: Tree, after: Manifest, g2: Tree)
    requires Overwrote(artifacts, op, m, g, m1, g1, after, g2)
    ensures CanCarry(m1, g1, op.oldPath, op.newPath) && Free(g1, op.newPath)
    ensures g2 == Relocate(g1, op.oldPath, op.newPath)
    ensures Tracks(m1, g1)
  {
    ClearedIsTracked(m, g, op.newPath, UndoPath(artifacts, op.index), op.oldPath);
  }

  /** Certificates do not matter to a carry whose result is refreshed anyway. */
  lemma RefreshBeforeCarry(m: Manifest, from: Path, to: Path)
    requires Disjoint(from, to)
    ensures Departing(Refresh(m), from) == Departing(m, from)
    ensures Refresh(Carried(Refresh(m), from, to, Departing(m, from))) ==
      Refresh(Carried(m, from, to, Departing(m, from)))
  {
    var moved := Departing(m, from);
    assert Departing(Refresh(m), from) == moved;
    CarriedAlike(Refresh(m), m, from, to, moved);
    SameShapeRefresh(Carried(Refresh(m), from, to, moved), Carried(m, from, to, moved));
  }

  ghost predicate SameShape(a: Manifest, b: Manifest) {
    a.Keys == b.Keys && forall p :: p in a ==> Bare(a[p]) == Bare(b[p]) && Certified(a[p]) == Certified(b[p])
  }

  lemma CarriedAlike(m: Manifest, n: Manifest, from: Path, to: Path, moved: set<Path>)
    requires SameShape(m, n) && moved <= m.Keys && forall p :: p in moved ==> from <= p
    ensures SameShape(Carried(m, from, to, moved), Carried(n, from, to, moved))
  {
    var a, b := Carried(m, from, to, moved), Carried(n, from, to, moved);
    CarriedEntries(m, from, to, moved);
    CarriedEntries(n, from, to, moved);
    forall p | p in a ensures Bare(a[p]) == Bare(b[p]) && Certified(a[p]) == Certified(b[p]) {
      if Arrival(moved, from, to, p) {
        assert Rebase(p, to, from) in m;
      }
    }
  }

  lemma SameShapeRefresh(a: Manifest, b: Manifest)
    requires SameShape(a, b)
    ensures Refresh(a) == Refresh(b)
  {
    forall p | p in a ensures Refresh(a)[p] == Refresh(b)[p] {
      ListedIgnoresContent(a, b, p);
    }
  }

  lemma RefreshedCanCarry(m: Manifest, g: Tree, from: Path, to: Path)
    requires CanCarry(m, g, from, to)
    ensures CanCarry(Refresh(m), g, from, to)
  {
    RefreshKeepsTracking(m, g);
    var p :| p in m && m[p].present && from <= p;
    assert Refresh(m)[p].present;
  }

  /** A carry leaves every subtree apart from it as it was, certificates included. */
  lemma CarryLeavesApart(m: Manifest, from: Path, to: Path, apart: Path)
    requires Disjoint(from, apart) && Disjoint(to, apart)
    ensures var after := Refresh(Carried(m, from, to, Departing(m, from)));
            forall p :: apart <= p ==> (p in after <==> p in m) && (p in after ==> after[p] == Refresh(m)[p])
  {
    var r := Carried(m, from, to, Departing(m, from));
    CarriedEntries(m, from, to, Departing(m, from));
    forall p | (p in r || p in m) && apart <= p ensures !(from <= p) && !(to <= p) {
      if from <= p { Comparable(from, apart, p); }
      if to <= p { Comparable(to, apart, p); }
    }
    forall p | p in r && apart <= p ensures Refresh(r)[p] == Refresh(m)[p] {
      assert p in m && r[p] == m[p];
      ListedApart(m, r, apart, p);
    }
  }

  lemma ListedApart(m: Manifest, r: Manifest, apart: Path, d: Path)
    requires apart <= d
    requires forall p :: apart <= p ==> (p in r <==> p in m) && (p in r ==> r[p] == m[p])
    ensures Listed(r, d) == Listed(m, d)
  {
    forall q | q != [] && IsChild(d, q) && (q in m || q in r) ensures apart <= q {
      BelowByParent(apart, q);
    }
  }

  lemma SameProof(t: Tree, a: Manifest, b: Manifest, from: Path, to: Path)
    requires TreeOk(t)
    requires forall p :: from <= p ==> (p in a <==> p in b) && (p in a ==> a[p] == b[p])
    ensures RenameBack(t, from, to, a) == RenameBack(t, from, to, b)
  {
    assert ReturnProof(a, from, to) == ReturnProof(b, from, to);
  }

  lemma OverwriteIsUndone(
      artifacts: Path, op: Operation, m: Manifest, g: Tree, m1: Manifest, g1: Tree, after: Manifest, g2: Tree, t: Tree)
    returns (t1: Tree, t2: Tree)
    requires Overwrote(artifacts, op, m, g, m1, g1, after, g2)
    requires TreeOk(t) && Describes(after, t)
    requires forall p ::
      p in OperationPaths(op) && p != [] && Parent(p) in g && g[Parent(p)].Dir? && Parent(p) !in m ==>
      Parent(p) in t && t[Parent(p)].Dir?
    ensures TreeOk(t1) && RenameBack(t, op.newPath, op.oldPath, after) == Ok(t1)
    ensures RenameBack(t1, UndoPath(artifacts, op.index), op.newPath, after) == Ok(t2)
    ensures Describes(m, t2)
    ensures t == g2 ==> t2 == g
  {
    var undo := UndoPath(artifacts, op.index);
    SecondCarry(artifacts, op, m, g, m1, g1, after, g2);
    t1 := UndoSecondLeg(op, undo, m, g, m1, g1, after, g2, t);
    t2 := UndoFirstLeg(op, undo, m, g, m1, after, t, t1);
    ApartProof(t1, m1, op.oldPath, op.newPath, undo);
  }

  lemma ApartProof(t: Tree, m: Manifest, from: Path, to: Path, apart: Path)
    requires TreeOk(t) && Disjoint(from, apart) && Disjoint(to, apart)
    ensures RenameBack(t, apart, to, Refresh(Carried(m, from, to, Departing(m, from)))) ==
      RenameBack(t, apart, to, Refresh(m))
  {
    CarryLeavesApart(m, from, to, apart);
    SameProof(t, Refresh(Carried(m, from, to, Departing(m, from))), Refresh(m), apart, to);
  }

  lemma UndoSecondLeg(
      op: Operation, undo: Path, m: Manifest, g: Tree, m1: Manifest, g1: Tree, after: Manifest, g2: Tree, t: Tree)
    returns (t1: Tree)
    requires op.Rename? && Disjoint(op.oldPath, op.newPath) && Disjoint(op.oldPath, undo) && op.oldPath != []
    requires Disjoint(op.newPath, undo) && Free(g, undo) && g1 == Relocate(g, op.newPath, undo)
    requires m1 == Carried(m, op.newPath, undo, Departing(m, op.newPath))
    requires CanCarry(m1, g1, op.oldPath, op.newPath) && Free(g1, op.newPath)
    requires after == Refresh(Carried(m1, op.oldPath, op.newPath, Departing(m1, op.oldPath)))
    requires g2 == Relocate(g1, op.oldPath, op.newPath)
    requires TreeOk(t) && Describes(after, t)
    requires Parent(op.oldPath) in g && g[Parent(op.oldPath)].Dir? && Parent(op.oldPath) !in m ==>
      Parent(op.oldPath) in t && t[Parent(op.oldPath)].Dir?
    ensures Free(t, op.oldPath) && t1 == Relocate(t, op.newPath, op.oldPath) && TreeOk(t1)
    ensures RenameBack(t, op.newPath, op.oldPath, after) == Ok(t1)
    ensures Describes(Refresh(m1), t1)
    ensures t == g2 ==> t1 == g1
  {
    RefreshBeforeCarry(m1, op.oldPath, op.newPath);
    RefreshedCanCarry(m1, g1, op.oldPath, op.newPath);
    RefreshIdempotent(m1);
    CarriedEntries(m, op.newPath, undo, Departing(m, op.newPath));
    BelowByParent(undo, op.oldPath);
    assert Parent(op.oldPath) in g1 && g1[Parent(op.oldPath)].Dir?;
    UndoCarry(Refresh(m1), g1, after, t, op.oldPath, op.newPath);
    t1 := Relocate(t, op.newPath, op.oldPath);
  }

  lemma UndoFirstLeg(
      op: Operation, undo: Path, m: Manifest, g: Tree, m1: Manifest, after: Manifest, t: Tree, t1: Tree)
    returns (t2: Tree)
    requires op.Rename? && Disjoint(op.oldPath, op.newPath) && op.newPath != [] && Refresh(m) == m
    requires CanCarry(m, g, op.newPath, undo) && Free(g, undo)
    requires m1 == Carried(m, op.newPath, undo, Departing(m, op.newPath))
    requires Free(t, op.oldPath) && t1 == Relocate(t, op.newPath, op.oldPath) && TreeOk(t1)
    requires Describes(Refresh(m1), t1)
    requires Parent(op.newPath) in g && g[Parent(op.newPath)].Dir? && Parent(op.newPath) !in m ==>
      Parent(op.newPath) in t && t[Parent(op.newPath)].Dir?
    ensures RenameBack(t1, undo, op.newPath, Refresh(m1)) == Ok(t2)
    ensures Free(t1, op.newPath) && t2 == Relocate(t1, undo, op.newPath) && Describes(m, t2)
    ensures t1 == Relocate(g, op.newPath, undo) ==> t2 == g
  {
    BelowByParent(op.oldPath, op.newPath);
    assert |Parent(op.newPath)| < |op.newPath|;
    assert Parent(op.newPath) in g && g[Parent(op.newPath)].Dir?;
    UndoCarry(m, g, Refresh(m1), t1, op.newPath, undo);
    t2 := Relocate(t1, undo, op.newPath);
  }

  lemma OverwriteLeavesTraces(
      artifacts: Path, op: Operation, m: Manifest, g: Tree, m1: Manifest, g1: Tree, after: Manifest, g2: Tree)
    requires Overwrote(artifacts, op, m, g, m1, g1, after, g2)
    ensures m != after
    ensures UndoPath(artifacts, op.index) in after && after[UndoPath(artifacts, op.index)].present
  {
    var undo := UndoPath(artifacts, op.index);
    SecondCarry(artifacts, op, m, g, m1, g1, after, g2);
    ClearingFillsUndo(m, g, op.newPath, undo, op.oldPath);
    UndoStays(artifacts, op, m, g, m1, g1, after, g2);
    SourceLeaves(m1, g1, op.oldPath, op.newPath);
  }

  lemma UndoStays(
      artifacts: Path, op: Operation, m: Manifest, g: Tree, m1: Manifest, g1: Tree, after: Manifest, g2: Tree)
    requires Overwrote(artifacts, op, m, g, m1, g1, after, g2)
    ensures UndoPath(artifacts, op.index) in after && after[UndoPath(artifacts, op.index)].present
  {
    var undo := UndoPath(artifacts, op.index);
    ClearingFillsUndo(m, g, op.newPath, undo, op.oldPath);
    CarryLeavesApart(m1, op.oldPath, op.newPath, undo);
  }

  lemma ClearingFillsUndo(m: Manifest, g: Tree, root: Path, undo: Path, apart: Path)
    requires CanCarry(m, g, root, undo) && Disjoint(root, apart) && Disjoint(undo, apart)
    ensures var r := Carried(m, root, undo, Departing(m, root));
            && undo in r && r[undo].present
            && (apart in r <==> apart in m) && (apart in r ==> r[apart] == m[apart])
  {
    CarriedEntries(m, root, undo, Departing(m, root));
    assert Bare(m[root]) == Seen(g, root, false);
    assert Rebase(undo, undo, root) == root;
    assert Arrival(Departing(m, root), root, undo, undo);
  }

  lemma SourceLeaves(m: Manifest, g: Tree, from: Path, to: Path)
    requires CanCarry(m, g, from, to)
    ensures m[from].present && !Refresh(Carried(m, from, to, Departing(m, from)))[from].present
  {
    CarriedEntries(m, from, to, Departing(m, from));
    assert Bare(m[from]) == Seen(g, from, false);
  }

  lemma RenameIsUndone(tx: Transaction, op: Operation, before: Manifest, after: Manifest, d: Disk, d': Disk, t: Tree)
    requires op.Rename? && Happened(tx, op, before, after, d, d') && Undoable(tx, op, before, after, d, t)
    ensures Undone(tx, op, before, after, d, d', t)
  {
    if op.newPath !in d.tree {
      MoveIsUndone(tx, op, before, after, d, d', t);
    } else if op.overwrite {
      var m1, g1 := OverwriteHappened(tx, op, before, after, d, d');
      OverwriteLeavesTraces(tx.Artifacts(), op, before, d.tree, m1, g1, after, d'.tree);
      var t1, t2 := OverwriteIsUndone(tx.Artifacts(), op, before, d.tree, m1, g1, after, d'.tree, t);
    } else {
      assert before[op.newPath].present;
    }
  }

  /** Putting back the recorded bytes and metadata of a file. */
  lemma RestoreDescribes(before: Manifest, t: Tree, p: Path, content: Option<Digest>, bytes: Bytes, meta: nat)
    requires TreeOk(t) && Refresh(before) == before && p in before
    requires Describes(Refresh(before[p := before[p].(content := content)]), t)
    requires p in t && t[p].File?
    requires before[p] == Entry(true, FileKind, Some(t[p].id), Some(OfBytes(bytes)), Some(meta))
    ensures Describes(before, Overwrite(t, p, bytes, meta))
  {
    var m := before[p := before[p].(content := content)];
    RefreshIdempotent(m);
    DescribedIsTracked(Refresh(m), t);
    RefreshKeepsTracking(m, t);
    var u := Overwrite(t, p, bytes, meta);
    forall q | q in before ensures !Blocked(u, q) && Bare(before[q]) == Seen(u, q, false) {
      assert q in m && Bare(m[q]) == Seen(t, q, false);
    }
    forall e, q | CertifiedAt(before, e) && q in u && IsChild(e, q) ensures q in before {
      assert CertifiedAt(m, e);
    }
    TrackedIsDescribed(before, u);
  }

  /** Removing a created file. */
  lemma RemoveDescribes(before: Manifest, t: Tree, p: Path, created: Entry)
    requires TreeOk(t) && Refresh(before) == before && p in before && before[p] == MISSING
    requires Describes(Refresh(before[p := created]), t) && p in t && t[p].File?
    ensures Describes(before, t - {p})
  {
    var m := before[p := created];
    RefreshIdempotent(m);
    DescribedIsTracked(Refresh(m), t);
    RefreshKeepsTracking(m, t);
    var u := t - {p};
    forall q | q in before ensures !Blocked(u, q) && Bare(before[q]) == Seen(u, q, false) {
      assert q in m && Bare(m[q]) == Seen(t, q, false);
    }
    forall e, q | CertifiedAt(before, e) && q in u && IsChild(e, q) ensures q in before {
      assert CertifiedAt(m, e);
    }
    TrackedIsDescribed(before, u);
  }

  /** A Text or an overwriting Create rewrote the bytes of one present file. */
  ghost predicate Rewrote(op: Operation, m: Manifest, g: Tree, bytes: Bytes, after: Manifest, g2: Tree) {
    && !op.Rename? && !op.Delete? && op.path in m && op.path in g && g[op.path].File?
    && m[op.path] == Entry(true, FileKind, Some(g[op.path].id), Some(OfBytes(g[op.path].bytes)), Some(g[op.path].meta))
    && after == Refresh(m[op.path := m[op.path].(content := Some(OfBytes(bytes)))])
    && g2 == g[op.path := File(g[op.path].id, bytes, g[op.path].meta)]
  }

  /** A tree described after a rewrite holds the rewritten file. */
  lemma RewrittenFile(op: Operation, m: Manifest, g: Tree, bytes: Bytes, after: Manifest, g2: Tree, t: Tree)
    requires Rewrote(op, m, g, bytes, after, g2) && Describes(after, t)
    ensures op.path in after && op.path in t && t[op.path] == File(g[op.path].id, bytes, g[op.path].meta)
    ensures after[op.path] == Entry(true, FileKind, Some(g[op.path].id), Some(OfBytes(bytes)), Some(g[op.path].meta))
    ensures RequireManifest(t, map[op.path := after[op.path]])
  {
    assert after[op.path] == Seen(t, op.path, false);
    RequireIsDescribes(t, map[op.path := after[op.path]]);
  }

  lemma RewriteIsUndone(
      tx: Transaction, op: Operation, m: Manifest, g: Tree, bytes: Bytes, after: Manifest, g2: Tree, t: Tree)
    requires Rewrote(op, m, g, bytes, after, g2) && Refresh(m) == m
    requires TreeOk(t) && Describes(after, t)
    requires RollbackTextBytes(tx, t, m[op.path]).Ok?
    ensures UndoEffect(tx, op, m, after, t).Ok?
    ensures Describes(m, UndoEffect(tx, op, m, after, t).value)
    ensures t == g2 ==> UndoEffect(tx, op, m, after, t).value == g
  {
    RewrittenFile(op, m, g, bytes, after, g2, t);
    if m[op.path] == after[op.path] {
      assert m == m[op.path := m[op.path].(content := Some(OfBytes(bytes)))];
      assert g2 == g;
    } else {
      RestoredValue(tx, op, m, after, t, g[op.path]);
      RewriteRestores(op, m, g, bytes, after, g2, t);
    }
  }

  lemma RewriteRestores(op: Operation, m: Manifest, g: Tree, bytes: Bytes, after: Manifest, g2: Tree, t: Tree)
    requires Rewrote(op, m, g, bytes, after, g2) && Refresh(m) == m
    requires TreeOk(t) && Describes(after, t)
    requires op.path in t && t[op.path] == File(g[op.path].id, bytes, g[op.path].meta)
    ensures Describes(m, Overwrite(t, op.path, g[op.path].bytes, g[op.path].meta))
    ensures t == g2 ==> Overwrite(t, op.path, g[op.path].bytes, g[op.path].meta) == g
  {
    RestoreDescribes(m, t, op.path, Some(OfBytes(bytes)), g[op.path].bytes, g[op.path].meta);
  }

  lemma RestoredValue(tx: Transaction, op: Operation, m: Manifest, after: Manifest, t: Tree, node: Node)
    requires TreeOk(t) && !op.Rename? && !op.Delete? && op.path in m && op.path in after && m[op.path] != after[op.path]
    requires node.File?
    requires m[op.path] == Entry(true, FileKind, Some(node.id), Some(OfBytes(node.bytes)), Some(node.meta))
    requires op.path in t && t[op.path].File? && t[op.path].meta == node.meta
    requires after[op.path].identity == Some(t[op.path].id) && after[op.path].content == Some(OfBytes(t[op.path].bytes))
    requires RequireManifest(t, map[op.path := after[op.path]])
    requires RollbackTextBytes(tx, t, m[op.path]).Ok?
    ensures UndoEffect(tx, op, m, after, t) == Ok(Overwrite(t, op.path, node.bytes, node.meta))
  {
  }

  lemma TextIsUndone(tx: Transaction, op: Operation, before: Manifest, after: Manifest, d: Disk, d': Disk, t: Tree)
    requires op.Text? && Happened(tx, op, before, after, d, d') && Undoable(tx, op, before, after, d, t)
    ensures Undone(tx, op, before, after, d, d', t)
  {
    var bytes := d.tree[StagedPath(tx.Artifacts(), op.index)].bytes;
    assert before[op.path] == Seen(d.tree, op.path, false);
    RewriteIsUndone(tx, op, before, d.tree, bytes, after, d'.tree, t);
  }

  lemma CreateIsUndone(tx: Transaction, op: Operation, before: Manifest, after: Manifest, d: Disk, d': Disk, t: Tree)
    requires op.Create? && Happened(tx, op, before, after, d, d') && Undoable(tx, op, before, after, d, t)
    ensures Undone(tx, op, before, after, d, d', t)
  {
    assert before[op.path] == Seen(d.tree, op.path, Certified(before[op.path]));
    if op.path in d.tree && op.overwrite {
      RewriteIsUndone(tx, op, before, d.tree, [], after, d'.tree, t);
    } else if op.path !in d.tree {
      var created := CreatedEntry(tx, op, before, after, d, d');
      CreatedIsUndone(tx, op, before, after, d, d', t, created);
    }
  }

  lemma CreatedEntry(
      tx: Transaction, op: Operation, before: Manifest, after: Manifest, d: Disk, d': Disk)
    returns (created: Entry)
    requires op.Create? && Happened(tx, op, before, after, d, d') && op.path !in d.tree
    ensures op.path in before && before[op.path] == MISSING && created == Seen(d'.tree, op.path, false)
    ensures after == Refresh(before[op.path := created])
    ensures d'.tree == d.tree[op.path := File(d.nextId, [], d.mode)]
  {
    created := Observed(d'.tree, before)[op.path];
  }

  lemma CreatedIsUndone(
      tx: Transaction, op: Operation, before: Manifest, after: Manifest, d: Disk, d': Disk, t: Tree, created: Entry)
    requires op.Create? && TreeOk(t) && Describes(after, t) && Refresh(before) == before && op.path !in d.tree
    requires op.path in before && before[op.path] == MISSING && created == Seen(d'.tree, op.path, false)
    requires after == Refresh(before[op.path := created])
    requires d'.tree == d.tree[op.path := File(d.nextId, [], d.mode)]
    ensures UndoEffect(tx, op, before, after, t) == Ok(t - {op.path})
    ensures Describes(before, t - {op.path})
    ensures t == d'.tree ==> t - {op.path} == d.tree
  {
    assert after[op.path] == created && after[op.path] == Seen(t, op.path, false);
    RemoveDescribes(before, t, op.path, created);
  }

  /** An effect that happened can be undone on any tree that still matches what it left,
      whatever became of everything untracked; on the very tree it left, the undo gives
      the very tree it started from. */
  lemma EffectIsUndone(tx: Transaction, op: Operation, before: Manifest, after: Manifest, d: Disk, d': Disk, t: Tree)
    requires Happened(tx, op, before, after, d, d') && Undoable(tx, op, before, after, d, t)
    ensures Undone(tx, op, before, after, d, d', t)
  {
    match op
    case Text(_, _, _, _, _) => TextIsUndone(tx, op, before, after, d, d', t);
    case Create(_, _, _, _) => CreateIsUndone(tx, op, before, after, d, d', t);
    case Rename(_, _, _, _, _) => RenameIsUndone(tx, op, before, after, d, d', t);
    case Delete(_, _, _, _) => DeleteIsUndone(tx, op, before, after, d, d', t);
  }
}
