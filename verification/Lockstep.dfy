/** One operation applied to the tree and, symbolically, to the manifest: the two
    results agree unless the operation collides with a tracked path. */
module Lockstep {
  import opened Paths
  import opened Results
  import opened ByteStrings
  import opened Trees
  import opened Manifests
  import opened Operations
  import opened Transactions
  import opened Simulation

  /** The manifest an operation starts from, its undo places included. */
  ghost predicate Prepared(artifacts: Path, op: Operation, m: Manifest) {
    && |artifacts| == 1
    && Refresh(m) == m
    && (forall p :: p in OperationPaths(op) ==> p in m && p != [] && !(artifacts <= p))
    && (op.Rename? ==> Disjoint(op.oldPath, op.newPath))
    && (forall p :: p in m && m[p].present && m[p].kind.DirectoryKind? && MovesAway(op, p) ==> m[p].content.Some?)
    && (RemovedRoot(op).Some? ==> UndoReady(m, RemovedRoot(op).value, UndoPath(artifacts, op.index)))
  }

  /** The tracked paths below an undo place are those below the resource it is for. */
  ghost predicate UndoReady(m: Manifest, root: Path, undo: Path) {
    && undo in m && m[undo] == MISSING
    && forall q {:trigger Rebase(q, undo, root)} :: undo <= q ==> (q in m <==> Rebase(q, undo, root) in m)
  }

  /** After the operation the disk is described by the manifest computed for it. */
  ghost predicate InStep(artifacts: Path, op: Operation, m: Manifest, d: Disk)
    requires TreeOk(d.tree)
  {
    var applied := ApplyEffect(artifacts, op, d, IdentityAt(m, TargetPath(op)));
    && applied.Ok?
    && var (d', handle) := applied.value;
       var observed := Inspect(d'.tree, m);
       if Collides(m.Keys, op, d.tree) then observed.Err?
       else
         && observed.Ok?
         && var after := OperationAfter(artifacts, op, m, observed.value, handle);
            && after.Ok?
            && Describes(after.value, d'.tree)
            && Refresh(after.value) == after.value
  }

  /** The path whose handle a Text or Create writes; for others, any path. */
  function TargetPath(op: Operation): Path {
    if op.Rename? then op.newPath else op.path
  }

  lemma ReachStep(artifacts: Path, op: Operation, m: Manifest, d: Disk, d': Disk, handle: Option<nat>, after: Manifest)
    requires TreeOk(d.tree) && !Collides(m.Keys, op, d.tree)
    requires ApplyEffect(artifacts, op, d, IdentityAt(m, TargetPath(op))) == Ok((d', handle))
    requires forall q :: q in m ==> !Blocked(d'.tree, q)
    requires OperationAfter(artifacts, op, m, Observed(d'.tree, m), handle) == Ok(after)
    requires Describes(after, d'.tree) && Refresh(after) == after
    ensures InStep(artifacts, op, m, d)
  {
    assert Inspect(d'.tree, m) == Ok(Observed(d'.tree, m));
  }

  lemma ReachCollision(artifacts: Path, op: Operation, m: Manifest, d: Disk, d': Disk, handle: Option<nat>, q: Path)
    requires TreeOk(d.tree) && Collides(m.Keys, op, d.tree)
    requires ApplyEffect(artifacts, op, d, IdentityAt(m, TargetPath(op))) == Ok((d', handle))
    requires q in m && Blocked(d'.tree, q)
    ensures InStep(artifacts, op, m, d)
  {
  }

  lemma UndoIsApart(artifacts: Path, p: Path, index: nat)
    requires |artifacts| == 1 && p != [] && !(artifacts <= p)
    ensures Disjoint(p, UndoPath(artifacts, index))
    ensures Parent(UndoPath(artifacts, index)) == artifacts
  {
    var undo := UndoPath(artifacts, index);
    assert undo[0] == artifacts[0];
    assert p[0] != artifacts[0];
  }

  /** Moving a resource to its undo place never shadows a tracked path. */
  lemma UndoNeverShadows(m: Manifest, t: Tree, root: Path, undo: Path)
    requires Tracks(m, t) && UndoReady(m, root, undo)
    ensures !Shadows(m.Keys, t, root, undo)
  {
    if Shadows(m.Keys, t, root, undo) {
      var a :| a in t && root <= a && t[a].File? && exists q | q in m.Keys :: Rebase(a, root, undo) < q;
      var q :| q in m.Keys && Rebase(a, root, undo) < q;
      RebaseBack(q, undo, root);
      RebasePrefix(a, Rebase(q, undo, root), root, undo);
    }
  }

  /** Replacing a file's bytes keeps every other observation. */
  lemma OverwriteForward(m: Manifest, t: Tree, p: Path, bytes: Bytes)
    requires TreeOk(t) && Describes(m, t) && Refresh(m) == m
    requires p in m && p in t && t[p].File?
    ensures var m' := m[p := m[p].(content := Some(OfBytes(bytes)))];
            Describes(Refresh(m'), Overwrite(t, p, bytes, t[p].meta))
    ensures forall q :: q in m ==> !Blocked(Overwrite(t, p, bytes, t[p].meta), q)
  {
    var m', t' := m[p := m[p].(content := Some(OfBytes(bytes)))], Overwrite(t, p, bytes, t[p].meta);
    DescribedIsTracked(m, t);
    forall q | q in m' ensures !Blocked(t', q) && Bare(m'[q]) == Seen(t', q, false) {
      assert Bare(m[q]) == Seen(t, q, false);
    }
    assert Tracks(m', t');
    TrackedIsDescribed(m', t');
  }

  /** Creating an empty file keeps every other observation, unless a tracked path lies
      below it. */
  lemma CreateForward(m: Manifest, t: Tree, p: Path, id: nat, mode: nat)
    requires TreeOk(t) && Describes(m, t) && Refresh(m) == m
    requires p in m && p !in t && p != [] && Parent(p) in t && t[Parent(p)].Dir?
    requires forall q :: q in m ==> !(p < q)
    ensures var t' := t[p := File(id, [], mode)];
            && (forall q :: q in m ==> !Blocked(t', q))
            && Describes(Refresh(m[p := Seen(t', p, false)]), t')
  {
    var t' := t[p := File(id, [], mode)];
    var m' := m[p := Seen(t', p, false)];
    DescribedIsTracked(m, t);
    forall q | q in m' ensures !Blocked(t', q) && Bare(m'[q]) == Seen(t', q, false) {
      assert Bare(m[q]) == Seen(t, q, false);
    }
    forall e, q | CertifiedAt(m', e) && q in t' && IsChild(e, q) ensures q in m' {
      assert CertifiedAt(m, e);
    }
    TrackedIsDescribed(m', t');
  }

  lemma TextInStep(artifacts: Path, op: Operation, m: Manifest, d: Disk)
    requires op.Text? && TreeOk(d.tree) && Describes(m, d.tree)
    requires Prepared(artifacts, op, m) && Feasible(artifacts, op, d.tree)
    ensures InStep(artifacts, op, m, d)
  {
    var bytes := d.tree[StagedPath(artifacts, op.index)].bytes;
    OverwriteForward(m, d.tree, op.path, bytes);
    var m' := m[op.path := m[op.path].(content := Some(OfBytes(bytes)))];
    RefreshIdempotent(m');
  }

  lemma CreateInStep(artifacts: Path, op: Operation, m: Manifest, d: Disk)
    requires op.Create? && TreeOk(d.tree) && Describes(m, d.tree)
    requires Prepared(artifacts, op, m) && Feasible(artifacts, op, d.tree)
    ensures InStep(artifacts, op, m, d)
  {
    if op.path in d.tree {
      OverwriteForward(m, d.tree, op.path, []);
      var m' := m[op.path := m[op.path].(content := Some(OfBytes([])))];
      RefreshIdempotent(m');
      var node := d.tree[op.path];
      ReachStep(artifacts, op, m, d, d.(tree := Overwrite(d.tree, op.path, [], node.meta)), Some(node.id), Refresh(m'));
    } else {
      CreateNewInStep(artifacts, op, m, d);
    }
  }

  lemma CreateNewInStep(artifacts: Path, op: Operation, m: Manifest, d: Disk)
    requires op.Create? && TreeOk(d.tree) && Describes(m, d.tree) && op.path !in d.tree
    requires Prepared(artifacts, op, m) && Feasible(artifacts, op, d.tree)
    ensures InStep(artifacts, op, m, d)
  {
    var t' := d.tree[op.path := File(d.nextId, [], d.mode)];
    var d', handle := Disk(t', d.nextId + 1, d.mode), Some(d.nextId);
    assert ApplyEffect(artifacts, op, d, IdentityAt(m, TargetPath(op))) == Ok((d', handle));
    if Collides(m.Keys, op, d.tree) {
      var q :| q in m.Keys && op.path < q;
      assert op.path in t' && t'[op.path].File?;
      ReachCollision(artifacts, op, m, d, d', handle, q);
    } else {
      CreateForward(m, d.tree, op.path, d.nextId, d.mode);
      var m' := m[op.path := Seen(t', op.path, false)];
      RefreshIdempotent(m');
      CreatedAfter(artifacts, op, m, Observed(t', m), handle);
      ReachStep(artifacts, op, m, d, d', handle, Refresh(m'));
    }
  }

  lemma CreatedAfter(artifacts: Path, op: Operation, m: Manifest, observed: Manifest, handle: Option<nat>)
    requires op.Create? && op.path in m && !m[op.path].present && op.path in observed
    requires observed[op.path].kind.FileKind? && observed[op.path].content == Some(OfBytes([]))
    requires handle.Some? && observed[op.path].identity == handle
    ensures OperationAfter(artifacts, op, m, observed, handle) == Ok(Refresh(m[op.path := observed[op.path]]))
  {
  }

  lemma RenamedAfter(
      artifacts: Path, op: Operation, m: Manifest, observed: Manifest, handle: Option<nat>, m1: Manifest, m2: Manifest)
    requires op.Rename? && op.newPath in m && m[op.newPath].present && op.overwrite
    requires TransferManifest(m, op.newPath, UndoPath(artifacts, op.index)) == Ok(m1)
    requires TransferManifest(m1, op.oldPath, op.newPath) == Ok(m2)
    ensures OperationAfter(artifacts, op, m, observed, handle) == Ok(Refresh(m2))
  {
  }

  lemma RenamedEffect(artifacts: Path, op: Operation, d: Disk, expected: Option<nat>, t1: Tree, t2: Tree)
    requires TreeOk(d.tree) && TreeOk(t1) && op.Rename? && op.newPath in d.tree && op.overwrite
    requires Trees.Rename(d.tree, op.newPath, UndoPath(artifacts, op.index)) == Ok(t1)
    requires Trees.Rename(t1, op.oldPath, op.newPath) == Ok(t2)
    ensures ApplyEffect(artifacts, op, d, expected) == Ok((d.(tree := t2), None))
  {
  }

  lemma ClearCanCarry(artifacts: Path, op: Operation, m: Manifest, t: Tree, root: Path)
    requires TreeOk(t) && Describes(m, t) && Prepared(artifacts, op, m)
    requires RemovedRoot(op) == Some(root) && root in t && root in OperationPaths(op)
    requires op.Rename? ==> op.overwrite
    requires artifacts in t && t[artifacts].Dir? && UndoPath(artifacts, op.index) !in t
    ensures CanCarry(m, t, root, UndoPath(artifacts, op.index))
  {
    DescribedIsTracked(m, t);
    UndoIsApart(artifacts, root, op.index);
    assert m[root].present;
  }

  lemma ClearKeepsKeys(m: Manifest, root: Path, undo: Path)
    requires UndoReady(m, root, undo)
    ensures Carried(m, root, undo, Departing(m, root)).Keys == m.Keys
  {
    var r := Carried(m, root, undo, Departing(m, root));
    CarriedEntries(m, root, undo, Departing(m, root));
    forall q ensures q in r <==> q in m {
      if Arrival(Departing(m, root), root, undo, q) {
        assert Rebase(q, undo, root) in m;
      }
    }
  }

  /** The state between the two renames that overwrite a destination. */
  lemma ClearForward(artifacts: Path, op: Operation, m: Manifest, t: Tree, root: Path)
    requires TreeOk(t) && Describes(m, t) && Prepared(artifacts, op, m)
    requires RemovedRoot(op) == Some(root) && root in t && root in OperationPaths(op)
    requires op.Rename? ==> op.overwrite
    requires artifacts in t && t[artifacts].Dir? && UndoPath(artifacts, op.index) !in t
    ensures var undo := UndoPath(artifacts, op.index);
            && CanCarry(m, t, root, undo)
            && Trees.Rename(t, root, undo).Ok?
            && TransferManifest(m, root, undo).Ok?
            && Tracks(TransferManifest(m, root, undo).value, Trees.Rename(t, root, undo).value)
            && TransferManifest(m, root, undo).value.Keys == m.Keys
  {
    var undo := UndoPath(artifacts, op.index);
    ClearCanCarry(artifacts, op, m, t, root);
    UndoNeverShadows(m, t, root, undo);
    CarryForward(m, t, root, undo);
    ClearKeepsKeys(m, root, undo);
  }

  lemma RenameInStep(artifacts: Path, op: Operation, m: Manifest, d: Disk)
    requires op.Rename? && TreeOk(d.tree) && Describes(m, d.tree)
    requires Prepared(artifacts, op, m) && Feasible(artifacts, op, d.tree)
    ensures InStep(artifacts, op, m, d)
  {
    if op.newPath in d.tree {
      OverwritingRenameInStep(artifacts, op, m, d);
    } else {
      PlainRenameInStep(artifacts, op, m, d);
    }
  }

  lemma PlainRenameInStep(artifacts: Path, op: Operation, m: Manifest, d: Disk)
    requires op.Rename? && TreeOk(d.tree) && Describes(m, d.tree) && op.newPath !in d.tree
    requires Prepared(artifacts, op, m) && Feasible(artifacts, op, d.tree)
    ensures InStep(artifacts, op, m, d)
  {
    var t := d.tree;
    DescribedIsTracked(m, t);
    SourceIsCertified(artifacts, op, m);
    assert m[op.newPath] == MISSING;
    MoveInStep(m, t, op.oldPath, op.newPath);
    var t', m' := Trees.Rename(t, op.oldPath, op.newPath).value, TransferManifest(m, op.oldPath, op.newPath).value;
    MovedEffect(artifacts, op, d, IdentityAt(m, TargetPath(op)), t');
    if Collides(m.Keys, op, t) {
      var q :| q in m && Blocked(t', q);
      ReachCollision(artifacts, op, m, d, d.(tree := t'), None, q);
    } else {
      MovedAfter(artifacts, op, m, Observed(t', m), None, m');
      ReachStep(artifacts, op, m, d, d.(tree := t'), None, Refresh(m'));
    }
  }

  lemma MovedAfter(artifacts: Path, op: Operation, m: Manifest, observed: Manifest, handle: Option<nat>, m': Manifest)
    requires op.Rename? && op.newPath in m && !m[op.newPath].present
    requires TransferManifest(m, op.oldPath, op.newPath) == Ok(m')
    ensures OperationAfter(artifacts, op, m, observed, handle) == Ok(Refresh(m'))
  {
  }

  lemma MovedEffect(artifacts: Path, op: Operation, d: Disk, expected: Option<nat>, t': Tree)
    requires TreeOk(d.tree) && op.Rename? && op.newPath !in d.tree
    requires Trees.Rename(d.tree, op.oldPath, op.newPath) == Ok(t')
    ensures ApplyEffect(artifacts, op, d, expected) == Ok((d.(tree := t'), None))
  {
  }

  lemma OverwritingRenameInStep(artifacts: Path, op: Operation, m: Manifest, d: Disk)
    requires op.Rename? && TreeOk(d.tree) && Describes(m, d.tree) && op.newPath in d.tree
    requires Prepared(artifacts, op, m) && Feasible(artifacts, op, d.tree)
    ensures InStep(artifacts, op, m, d)
  {
    var t, undo := d.tree, UndoPath(artifacts, op.index);
    var t1, m1, t2, m2 := OverwriteLegs(artifacts, op, m, t);
    assert m[op.newPath].present;
    RenamedEffect(artifacts, op, d, IdentityAt(m, TargetPath(op)), t1, t2);
    if Collides(m.Keys, op, t) {
      var q :| q in m && Blocked(t2, q);
      ReachCollision(artifacts, op, m, d, d.(tree := t2), None, q);
    } else {
      RenamedAfter(artifacts, op, m, Observed(t2, m), None, m1, m2);
      ReachStep(artifacts, op, m, d, d.(tree := t2), None, Refresh(m2));
    }
  }

  /** Both legs of an overwriting rename, on the tree and on the manifest. */
  lemma OverwriteLegs(
      artifacts: Path, op: Operation, m: Manifest, t: Tree)
    returns (t1: Tree, m1: Manifest, t2: Tree, m2: Manifest)
    requires op.Rename? && TreeOk(t) && Describes(m, t) && op.newPath in t
    requires Prepared(artifacts, op, m) && Feasible(artifacts, op, t)
    ensures TreeOk(t1)
    ensures Trees.Rename(t, op.newPath, UndoPath(artifacts, op.index)) == Ok(t1)
    ensures Trees.Rename(t1, op.oldPath, op.newPath) == Ok(t2)
    ensures TransferManifest(m, op.newPath, UndoPath(artifacts, op.index)) == Ok(m1)
    ensures TransferManifest(m1, op.oldPath, op.newPath) == Ok(m2)
    ensures if Shadows(m.Keys, t, op.oldPath, op.newPath) then exists q :: q in m && Blocked(t2, q)
            else (forall q :: q in m ==> !Blocked(t2, q)) && Describes(Refresh(m2), t2)
    ensures Refresh(Refresh(m2)) == Refresh(m2)
  {
    var undo := UndoPath(artifacts, op.index);
    ClearForward(artifacts, op, m, t, op.newPath);
    t1, m1 := Trees.Rename(t, op.newPath, undo).value, TransferManifest(m, op.newPath, undo).value;
    UndoIsApart(artifacts, op.oldPath, op.index);
    SourceIsCertified(artifacts, op, m);
    t2, m2 := SecondLeg(m, t, m1, t1, op.oldPath, op.newPath, undo);
  }

  lemma SourceIsCertified(artifacts: Path, op: Operation, m: Manifest)
    requires op.Rename? && Prepared(artifacts, op, m)
    ensures forall p :: p in m && m[p].present && m[p].kind.DirectoryKind? && op.oldPath <= p ==> m[p].content.Some?
  {
    forall p | p in m && m[p].present && m[p].kind.DirectoryKind? && op.oldPath <= p ensures m[p].content.Some? {
      assert MovesAway(op, p);
    }
  }

  lemma SecondLeg(
      m: Manifest, t: Tree, m1: Manifest, t1: Tree, from: Path, to: Path, undo: Path)
    returns (t2: Tree, m2: Manifest)
    requires CanCarry(m, t, to, undo) && Free(t, undo)
    requires m1 == Carried(m, to, undo, Departing(m, to)) && t1 == Relocate(t, to, undo)
    requires Tracks(m1, t1) && TreeOk(t1) && m1.Keys == m.Keys
    requires Disjoint(from, to) && Disjoint(from, undo) && to != []
    requires from in m && from in t && Parent(to) in t && t[Parent(to)].Dir?
    requires forall p :: p in m && m[p].present && m[p].kind.DirectoryKind? && from <= p ==> m[p].content.Some?
    ensures Trees.Rename(t1, from, to) == Ok(t2)
    ensures TransferManifest(m1, from, to) == Ok(m2)
    ensures if Shadows(m.Keys, t, from, to) then exists q :: q in m && Blocked(t2, q)
            else (forall q :: q in m ==> !Blocked(t2, q)) && Describes(Refresh(m2), t2)
    ensures Refresh(Refresh(m2)) == Refresh(m2)
  {
    SourceStays(m, t, from, to, undo);
    SourceStaysCertified(m, t, from, to, undo);
    MoveInStep(m1, t1, from, to);
    t2, m2 := Trees.Rename(t1, from, to).value, TransferManifest(m1, from, to).value;
    ShadowsAlike(m.Keys, t, t1, from, to);
  }

  /** Clearing the destination leaves the source where it was. */
  lemma SourceStays(m: Manifest, t: Tree, from: Path, to: Path, undo: Path)
    requires Disjoint(to, undo) && Free(t, undo) && Disjoint(from, to) && Disjoint(from, undo) && to != []
    requires Parent(to) in t && t[Parent(to)].Dir? && from in t
    ensures var t1 := Relocate(t, to, undo);
            && from in t1 && to !in t1
            && Parent(to) in t1 && t1[Parent(to)].Dir?
            && forall p :: from <= p ==> (p in t1 <==> p in t) && (p in t ==> t1[p] == t[p])
  {
    var t1 := Relocate(t, to, undo);
    forall p | from <= p && (p in t || p in t1) ensures !(to <= p) && !(undo <= p) {
      if to <= p { Comparable(from, to, p); }
      if undo <= p { Comparable(from, undo, p); }
    }
    BelowByParent(undo, to);
  }

  lemma SourceStaysCertified(m: Manifest, t: Tree, from: Path, to: Path, undo: Path)
    requires Disjoint(from, to) && Disjoint(from, undo)
    requires forall p :: p in m && m[p].present && m[p].kind.DirectoryKind? && from <= p ==> m[p].content.Some?
    ensures var m1 := Carried(m, to, undo, Departing(m, to));
      forall p :: p in m1 && m1[p].present && m1[p].kind.DirectoryKind? && from <= p ==> m1[p].content.Some?
  {
    CarriedEntries(m, to, undo, Departing(m, to));
    var m1 := Carried(m, to, undo, Departing(m, to));
    forall p | p in m1 && from <= p ensures !(to <= p) && !(undo <= p) {
      if to <= p { Comparable(from, to, p); }
      if undo <= p { Comparable(from, undo, p); }
    }
  }

  lemma ShadowsAlike(tracked: set<Path>, t: Tree, t1: Tree, from: Path, to: Path)
    requires forall p :: from <= p ==> (p in t1 <==> p in t) && (p in t ==> t1[p] == t[p])
    ensures Shadows(tracked, t, from, to) <==> Shadows(tracked, t1, from, to)
  {
  }

  /** The last leg of every rename. */
  lemma MoveInStep(m: Manifest, t: Tree, from: Path, to: Path)
    requires TreeOk(t) && Tracks(m, t) && Disjoint(from, to)
    requires from in m && from in t && to !in t && to != []
    requires Parent(to) in t && t[Parent(to)].Dir?
    requires forall p :: p in m && m[p].present && m[p].kind.DirectoryKind? && from <= p ==> m[p].content.Some?
    ensures Trees.Rename(t, from, to).Ok? && TransferManifest(m, from, to).Ok?
    ensures var t', m' := Trees.Rename(t, from, to).value, TransferManifest(m, from, to).value;
            if Shadows(m.Keys, t, from, to) then exists q :: q in m && Blocked(t', q)
            else (forall q :: q in m ==> !Blocked(t', q)) && Describes(Refresh(m'), t')
    ensures Refresh(Refresh(TransferManifest(m, from, to).value)) == Refresh(TransferManifest(m, from, to).value)
  {
    assert Bare(m[from]) == Seen(t, from, false);
    assert CanCarry(m, t, from, to);
    CarryForward(m, t, from, to);
    var m' := Carried(m, from, to, Departing(m, from));
    RefreshIdempotent(m');
    if Shadows(m.Keys, t, from, to) {
      ShadowBlocks(m, t, from, to);
    } else {
      TrackedIsDescribed(m', Relocate(t, from, to));
      CarriedEntries(m, from, to, Departing(m, from));
    }
  }

  lemma DeleteInStep(artifacts: Path, op: Operation, m: Manifest, d: Disk)
    requires op.Delete? && TreeOk(d.tree) && Describes(m, d.tree)
    requires Prepared(artifacts, op, m) && Feasible(artifacts, op, d.tree)
    ensures InStep(artifacts, op, m, d)
  {
    ClearForward(artifacts, op, m, d.tree, op.path);
    var undo := UndoPath(artifacts, op.index);
    var t', m' := Trees.Rename(d.tree, op.path, undo).value, TransferManifest(m, op.path, undo).value;
    TrackedIsDescribed(m', t');
    RefreshIdempotent(m');
    assert m[op.path].present;
    DeletedEffect(artifacts, op, d, IdentityAt(m, TargetPath(op)), t');
    DeletedAfter(artifacts, op, m, Observed(t', m), None, m');
    ReachStep(artifacts, op, m, d, d.(tree := t'), None, Refresh(m'));
  }

  lemma DeletedAfter(artifacts: Path, op: Operation, m: Manifest, observed: Manifest, handle: Option<nat>, m': Manifest)
    requires op.Delete? && op.path in m && m[op.path].present
    requires TransferManifest(m, op.path, UndoPath(artifacts, op.index)) == Ok(m')
    ensures OperationAfter(artifacts, op, m, observed, handle) == Ok(Refresh(m'))
  {
  }

  lemma DeletedEffect(artifacts: Path, op: Operation, d: Disk, expected: Option<nat>, t': Tree)
    requires TreeOk(d.tree) && op.Delete? && op.path in d.tree
    requires !(d.tree[op.path].Dir? && !op.recursive && !Empty(d.tree, op.path))
    requires Trees.Rename(d.tree, op.path, UndoPath(artifacts, op.index)) == Ok(t')
    ensures ApplyEffect(artifacts, op, d, expected) == Ok((d.(tree := t'), None))
  {
  }

  /** Symbolic execution is exact: a planned operation succeeds, and the manifest
      computed for it describes the tree it leaves, unless it collides. */
  lemma PlannedIsInStep(artifacts: Path, op: Operation, m: Manifest, d: Disk)
    requires TreeOk(d.tree) && Describes(m, d.tree)
    requires Prepared(artifacts, op, m) && Feasible(artifacts, op, d.tree)
    ensures InStep(artifacts, op, m, d)
  {
    match op
    case Text(_, _, _, _, _) => TextInStep(artifacts, op, m, d);
    case Create(_, _, _, _) => CreateInStep(artifacts, op, m, d);
    case Rename(_, _, _, _, _) => RenameInStep(artifacts, op, m, d);
    case Delete(_, _, _, _) => DeleteInStep(artifacts, op, m, d);
  }
}
