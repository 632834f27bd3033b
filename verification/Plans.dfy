/** What the planner promises about a whole plan, and how a plan runs on the tree when
    nobody else writes. */
module Plans {
  import opened Paths
  import opened Results
  import opened Trees
  import opened Manifests
  import opened Operations
  import opened Transactions
  import opened Simulation
  import opened Lockstep
  import opened CommitLog

  function IdentityOf(t: Tree, p: Path): Option<nat> {
    if p in t then Some(t[p].id) else None
  }

  /** One planned operation on the disk. */
  function StepDisk(tx: Transaction, op: Operation, d: Disk): (r: Disk)
    requires TreeOk(d.tree)
    ensures TreeOk(r.tree)
  {
    var applied := ApplyEffect(tx.Artifacts(), op, d, IdentityOf(d.tree, TargetPath(op)));
    if applied.Ok? then applied.value.0 else d
  }

  /** The disk after the first `k` operations. */
  function RunDisk(tx: Transaction, d: Disk, k: nat): (r: Disk)
    requires TreeOk(d.tree) && k <= |tx.operations|
    ensures TreeOk(r.tree)
  {
    if k == 0 then d else StepDisk(tx, tx.operations[k - 1], RunDisk(tx, d, k - 1))
  }

  /** The undo places an operation adds to the tracked paths. */
  function WithUndo(tx: Transaction, op: Operation, tracked: set<Path>): set<Path> {
    if RemovedRoot(op).None? then tracked
    else
      var root := RemovedRoot(op).value;
      tracked + set p | p in tracked && root <= p :: Rebase(p, root, UndoPath(tx.Artifacts(), op.index))
  }

  /** The destinations of everything a rename moves. */
  function WithMoved(op: Operation, t: Tree, tracked: set<Path>): set<Path> {
    if !op.Rename? then tracked
    else tracked + set p | p in t && op.oldPath <= p :: Rebase(p, op.oldPath, op.newPath)
  }

  /** The paths tracked before operation `k`: those of the two manifests, the undo places
      so far, and wherever a rename has put something. */
  function TrackedPaths(tx: Transaction, d: Disk, k: nat): set<Path>
    requires TreeOk(d.tree) && k <= |tx.operations|
  {
    if k == 0 then tx.before.Keys + tx.intended.Keys
    else
      var op, t := tx.operations[k - 1], RunDisk(tx, d, k - 1).tree;
      var tracked := WithUndo(tx, op, TrackedPaths(tx, d, k - 1));
      WithMoved(op, t, tracked)
  }

  /** Operation `k` puts a regular file above a tracked path. */
  ghost predicate CollidesAt(tx: Transaction, d: Disk, k: nat)
    requires TreeOk(d.tree) && k < |tx.operations|
  {
    Collides(WithUndo(tx, tx.operations[k], TrackedPaths(tx, d, k)), tx.operations[k], RunDisk(tx, d, k).tree)
  }

  /** The before manifest is exact, certified directories are enumerated, and every
      directory an operation moves is certified. */
  ghost predicate BeforeExact(tx: Transaction, t: Tree) {
    && tx.intended.Keys <= tx.before.Keys
    && Describes(tx.before, t)
    && (forall op, p ::
         op in tx.operations && p in tx.before && tx.before[p].kind.DirectoryKind? && MovesAway(op, p) ==>
          tx.before[p].content.Some?)
    && (forall d, q :: CertifiedAt(tx.before, d) && q in t && IsChild(d, q) ==> q in tx.before)
  }

  ghost predicate ValidPlan(tx: Transaction, d: Disk)
    requires TreeOk(d.tree)
  {
    && WellFormed(tx) && BeforeExact(tx, d.tree)
    && forall k :: 0 <= k < |tx.operations| ==> PlannedAt(tx, d, k)
  }

  /** Operation `k` was planned for the tree it meets. */
  ghost predicate PlannedAt(tx: Transaction, d: Disk, k: nat)
    requires TreeOk(d.tree) && k < |tx.operations|
  {
    Planned(tx.operations[k], RunDisk(tx, d, k).tree)
  }

  /** A valid plan on a disk on which staging has prepared the artifact directory. Nothing
      is asked about the artifacts once the run has begun. */
  ghost predicate Runnable(tx: Transaction, d: Disk)
    requires TreeOk(d.tree)
  {
    ValidPlan(tx, d) && EquippedFrom(tx, 0, d.tree)
  }

  /** The artifacts of every operation from `k` on are in place. */
  ghost predicate EquippedFrom(tx: Transaction, k: nat, t: Tree) {
    forall j {:trigger Equipped(tx.Artifacts(), tx.operations[j], t)} ::
      k <= j < |tx.operations| ==> Equipped(tx.Artifacts(), tx.operations[j], t)
  }

  predicate Outside(artifacts: Path, p: Path) {
    !(artifacts <= p)
  }

  /** The shape of an operation that a well-formed transaction guarantees. */
  ghost predicate Shaped(artifacts: Path, op: Operation) {
    && |artifacts| == 1
    && (forall p :: p in OperationPaths(op) ==> p != [] && Outside(artifacts, p))
    && (op.Rename? ==> Disjoint(op.oldPath, op.newPath))
  }

  predicate Same(t: Tree, p: Path, t': Tree, q: Path) {
    (p in t <==> q in t') && (p in t ==> t[p] == t'[q])
  }

  lemma PlanIsShaped(tx: Transaction, k: nat)
    requires WellFormed(tx) && k < |tx.operations|
    ensures Shaped(tx.Artifacts(), tx.operations[k])
  {
    var op := tx.operations[k];
    assert op in tx.operations;
    forall p | p in OperationPaths(op) ensures p != [] && Outside(tx.Artifacts(), p) {
      assert p in tx.before.Keys + tx.intended.Keys;
    }
  }

  /** In the artifacts an operation touches its own undo place at most. */
  lemma StepKeepsArtifacts(tx: Transaction, op: Operation, d: Disk, p: Path)
    requires TreeOk(d.tree) && Shaped(tx.Artifacts(), op)
    requires tx.Artifacts() <= p && !(UndoPath(tx.Artifacts(), op.index) <= p)
    ensures Same(d.tree, p, StepDisk(tx, op, d).tree, p)
  {
    forall r | r in OperationPaths(op) ensures !(r <= p) {
      assert r != [] && Outside(tx.Artifacts(), r);
      assert r[0] != tx.Artifacts()[0] && p[0] == tx.Artifacts()[0];
    }
    match op
    case Rename(_, oldPath, newPath, _, _) => assert oldPath in OperationPaths(op) && newPath in OperationPaths(op);
    case _ => assert op.path in OperationPaths(op);
  }

  lemma EquippedStays(tx: Transaction, op: Operation, d: Disk, later: Operation)
    requires TreeOk(d.tree) && Shaped(tx.Artifacts(), op) && later.index != op.index
    requires Equipped(tx.Artifacts(), later, d.tree)
    ensures Equipped(tx.Artifacts(), later, StepDisk(tx, op, d).tree)
  {
    var undo, next := UndoPath(tx.Artifacts(), op.index), UndoPath(tx.Artifacts(), later.index);
    assert undo[1] != next[1] && undo[1] != StagedPath(tx.Artifacts(), later.index)[1];
    StepKeepsArtifacts(tx, op, d, tx.Artifacts());
    StepKeepsArtifacts(tx, op, d, UndoPath(tx.Artifacts(), later.index));
    StepKeepsArtifacts(tx, op, d, StagedPath(tx.Artifacts(), later.index));
  }

  /** No operation disturbs what was staged for a later one. */
  lemma {:induction false} RunKeepsEquipped(tx: Transaction, d: Disk, k: nat)
    requires TreeOk(d.tree) && WellFormed(tx) && EquippedFrom(tx, 0, d.tree) && k <= |tx.operations|
    ensures EquippedFrom(tx, k, RunDisk(tx, d, k).tree)
    decreases k
  {
    if k > 0 {
      RunKeepsEquipped(tx, d, k - 1);
      PlanIsShaped(tx, k - 1);
      forall j | k <= j < |tx.operations| ensures Equipped(tx.Artifacts(), tx.operations[j], RunDisk(tx, d, k).tree) {
        assert Equipped(tx.Artifacts(), tx.operations[j], RunDisk(tx, d, k - 1).tree);
        EquippedStays(tx, tx.operations[k - 1], RunDisk(tx, d, k - 1), tx.operations[j]);
      }
    }
  }

  /** Every operation of a runnable plan can be applied when its turn comes. */
  lemma RunIsFeasible(tx: Transaction, d: Disk, k: nat)
    requires TreeOk(d.tree) && Runnable(tx, d) && k < |tx.operations|
    ensures Feasible(tx.Artifacts(), tx.operations[k], RunDisk(tx, d, k).tree)
  {
    RunKeepsEquipped(tx, d, k);
    assert Equipped(tx.Artifacts(), tx.operations[k], RunDisk(tx, d, k).tree);
    assert PlannedAt(tx, d, k);
  }


  /** The manifest the commit starts from describes the tree the plan was made for, and
      keeps every certificate of the before manifest. */
  lemma InitialIsExact(tx: Transaction, t: Tree)
    requires WellFormed(tx) && BeforeExact(tx, t)
    ensures Describes(InitialManifest(tx), t)
  {
    var planned := (map p | p in tx.intended :: MISSING) + tx.before;
    assert planned == tx.before;
    var marked := map p | p in planned ::
      if planned[p].kind.DirectoryKind? && exists op | op in tx.operations :: MovesAway(op, p)
      then planned[p].(content := Some(Placeholder)) else planned[p];
    forall p | p in marked
      ensures !Blocked(t, p) && Bare(marked[p]) == Seen(t, p, false) && Certified(marked[p]) == Certified(tx.before[p])
    {
      assert tx.before[p] == Seen(t, p, Certified(tx.before[p]));
    }
    forall d, q | CertifiedAt(marked, d) && q in t && IsChild(d, q) ensures q in marked {
      assert CertifiedAt(tx.before, d);
    }
    TrackedIsDescribed(marked, t);
  }

  /** In step, one planned operation does what `StepDisk` says, and tracks what
      `TrackedPaths` says. */
  lemma StepIsPlanned(tx: Transaction, op: Operation, m: Manifest, d: Disk)
    requires TreeOk(d.tree) && Describes(m, d.tree) && Prepared(tx.Artifacts(), op, m)
    ensures IdentityAt(m, TargetPath(op)) == IdentityOf(d.tree, TargetPath(op))
  {
    assert TargetPath(op) in OperationPaths(op);
  }

  lemma AddUndoKeys(tx: Transaction, op: Operation, m: Manifest)
    ensures AddUndo(m, tx.Artifacts(), op).Keys == WithUndo(tx, op, m.Keys)
  {
    if RemovedRoot(op).Some? {
      var root, undo := RemovedRoot(op).value, UndoPath(tx.Artifacts(), op.index);
      forall q ensures q in AddUndo(m, tx.Artifacts(), op) <==> q in WithUndo(tx, op, m.Keys) {
        if undo <= q && Rebase(q, undo, root) in m {
          RebaseBack(q, undo, root);
        } else if q in WithUndo(tx, op, m.Keys) && q !in m {
          var p :| p in m.Keys && root <= p && q == Rebase(p, root, undo);
          RebaseBack(p, root, undo);
        }
      }
    }
  }

  lemma CarriedKeys(m: Manifest, t: Tree, from: Path, to: Path)
    requires forall q :: q in Departing(m, from) <==> q in t && from <= q
    ensures Carried(m, from, to, Departing(m, from)).Keys == m.Keys + set p | p in t && from <= p :: Rebase(p, from, to)
  {
    var r := Carried(m, from, to, Departing(m, from));
    CarriedEntries(m, from, to, Departing(m, from));
    forall q ensures q in r <==> q in m.Keys + set p | p in t && from <= p :: Rebase(p, from, to) {
      if Arrival(Departing(m, from), from, to, q) {
        RebaseBack(q, to, from);
      } else if q !in m && exists p :: p in t && from <= p && q == Rebase(p, from, to) {
        var p :| p in t && from <= p && q == Rebase(p, from, to);
        RebaseBack(p, from, to);
      }
    }
  }

  /** The paths a planned operation leaves tracked. */
  lemma ResultKeys(
      tx: Transaction, op: Operation, m: Manifest, t: Tree, observed: Manifest, handle: Option<nat>, after: Manifest)
    requires TreeOk(t) && Describes(m, t) && Prepared(tx.Artifacts(), op, m) && Feasible(tx.Artifacts(), op, t)
    requires OperationAfter(tx.Artifacts(), op, m, observed, handle) == Ok(after)
    ensures after.Keys == WithMoved(op, t, m.Keys)
  {
    match op
    case Rename(_, _, _, _, _) =>
      DescribedIsTracked(m, t);
      SourceIsCertified(tx.Artifacts(), op, m);
      SubtreeDeparts(m, t, op.oldPath);
      RenameKeys(tx.Artifacts(), op, m, t, observed, handle, after);
    case Delete(index, path, _, _) =>
      ClearKeepsKeys(m, path, UndoPath(tx.Artifacts(), index));
    case _ =>
  }

  lemma RenameKeys(
      artifacts: Path, op: Operation, m: Manifest, t: Tree, observed: Manifest, handle: Option<nat>, after: Manifest)
    requires op.Rename? && Prepared(artifacts, op, m)
    requires op.newPath in m && m[op.newPath].present ==> op.overwrite
    requires forall q :: q in Departing(m, op.oldPath) <==> q in t && op.oldPath <= q
    requires OperationAfter(artifacts, op, m, observed, handle) == Ok(after)
    ensures after.Keys == WithMoved(op, t, m.Keys)
  {
    if op.newPath in m && m[op.newPath].present {
      var undo := UndoPath(artifacts, op.index);
      ClearKeepsKeys(m, op.newPath, undo);
      UndoIsApart(artifacts, op.oldPath, op.index);
      ClearKeepsDeparting(m, op.oldPath, op.newPath, undo);
      CarriedKeys(Carried(m, op.newPath, undo, Departing(m, op.newPath)), t, op.oldPath, op.newPath);
    } else {
      CarriedKeys(m, t, op.oldPath, op.newPath);
    }
  }

  lemma ClearKeepsDeparting(m: Manifest, from: Path, to: Path, undo: Path)
    requires Disjoint(from, to) && Disjoint(from, undo)
    ensures Departing(Carried(m, to, undo, Departing(m, to)), from) == Departing(m, from)
  {
    var m1 := Carried(m, to, undo, Departing(m, to));
    CarriedEntries(m, to, undo, Departing(m, to));
    forall p | (p in m || p in m1) && from <= p ensures !(to <= p) && !(undo <= p) {
      if to <= p { Comparable(from, to, p); }
      if undo <= p { Comparable(from, undo, p); }
    }
  }

  /** While a valid plan runs, disk and manifest are where the plan says, and nothing has
      collided so far. */
  ghost predicate OnPlan(tx: Transaction, start: Disk, k: nat, d: Disk, m: Manifest)
    requires TreeOk(start.tree) && k <= |tx.operations|
  {
    && d == RunDisk(tx, start, k)
    && m.Keys == TrackedPaths(tx, start, k)
    && Describes(m, d.tree)
    && forall j :: 0 <= j < k ==> !CollidesAt(tx, start, j)
  }

  lemma AddUndoDescribes(tx: Transaction, op: Operation, m: Manifest, t: Tree)
    requires TreeOk(t) && Describes(m, t) && Prepared(tx.Artifacts(), op, AddUndo(m, tx.Artifacts(), op))
    requires tx.Artifacts() in t && t[tx.Artifacts()].Dir? && UndoPath(tx.Artifacts(), op.index) !in t
    ensures Describes(AddUndo(m, tx.Artifacts(), op), t)
  {
    var before, undo := AddUndo(m, tx.Artifacts(), op), UndoPath(tx.Artifacts(), op.index);
    forall q | q in before ensures !Blocked(t, q) && before[q] == Seen(t, q, Certified(before[q])) {
      if RemovedRoot(op).Some? && undo <= q && Rebase(q, undo, RemovedRoot(op).value) in m {
        AbsentSubtree(t, undo, q);
        UndoUnblocked(tx, t, undo, q);
      }
    }
  }

  /** Nothing at or above a free undo place is a file. */
  lemma UndoUnblocked(tx: Transaction, t: Tree, undo: Path, q: Path)
    requires TreeOk(t) && tx.Artifacts() in t && t[tx.Artifacts()].Dir? && undo !in t
    requires |undo| == 2 && tx.Artifacts() <= undo && undo <= q
    ensures !Blocked(t, q)
  {
    forall a | a in t && a < q ensures t[a].Dir? {
      if undo <= a {
        AbsentSubtree(t, undo, a);
      } else {
        Comparable(a, undo, q);
        assert a == undo[..|a|];
        assert a == [] || a == tx.Artifacts();
      }
    }
  }

  /** At operation `k` of a valid plan, the step the plan describes is the one the commit
      takes. */
  lemma PlanPrepared(tx: Transaction, start: Disk, k: nat, d: Disk, m: Manifest)
    requires TreeOk(start.tree) && k < |tx.operations| && Runnable(tx, start)
    requires OnPlan(tx, start, k, d, m)
    requires Prepared(tx.Artifacts(), tx.operations[k], AddUndo(m, tx.Artifacts(), tx.operations[k]))
    ensures var before := AddUndo(m, tx.Artifacts(), tx.operations[k]);
            && Describes(before, d.tree)
            && InStep(tx.Artifacts(), tx.operations[k], before, d)
            && (CollidesAt(tx, start, k) <==> Collides(before.Keys, tx.operations[k], d.tree))
  {
    var op := tx.operations[k];
    var before := AddUndo(m, tx.Artifacts(), op);
    RunIsFeasible(tx, start, k);
    AddUndoDescribes(tx, op, m, d.tree);
    PlannedIsInStep(tx.Artifacts(), op, before, d);
    AddUndoKeys(tx, op, m);
  }

  lemma PlanAdvances(
      tx: Transaction, start: Disk, k: nat, d: Disk, m: Manifest, d': Disk, handle: Option<nat>, after: Manifest)
    requires TreeOk(start.tree) && k < |tx.operations| && Runnable(tx, start)
    requires OnPlan(tx, start, k, d, m) && !CollidesAt(tx, start, k)
    requires Prepared(tx.Artifacts(), tx.operations[k], AddUndo(m, tx.Artifacts(), tx.operations[k]))
    requires var before := AddUndo(m, tx.Artifacts(), tx.operations[k]);
             && Describes(before, d.tree)
             && ApplyEffect(tx.Artifacts(), tx.operations[k], d, IdentityAt(before, TargetPath(tx.operations[k]))) ==
                Ok((d', handle))
             && OperationAfter(tx.Artifacts(), tx.operations[k], before, Observed(d'.tree, before), handle) == Ok(after)
    requires Describes(after, d'.tree)
    ensures OnPlan(tx, start, k + 1, d', after)
  {
    var op := tx.operations[k];
    var before := AddUndo(m, tx.Artifacts(), op);
    RunIsFeasible(tx, start, k);
    StepIsPlanned(tx, op, before, d);
    AddUndoKeys(tx, op, m);
    ResultKeys(tx, op, before, d.tree, Observed(d'.tree, before), handle, after);
  }
}
