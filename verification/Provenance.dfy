/** Where the bytes of a tracked file come from: why rollback finds what each text undo
    needs after any part of a commit. */
module Provenance {
  import opened Paths
  import opened Results
  import opened ByteStrings
  import opened Trees
  import opened Manifests
  import opened Operations
  import opened Transactions
  import opened Simulation
  import opened Lockstep
  import opened Reversal
  import opened CommitLog
  import opened Plans
  import opened History
  import opened Rollback
  import Backups

  /** The entry is a resource of the before manifest with its content, or empty, or holds
      the result of some text operation. */
  ghost predicate Known(tx: Transaction, e: Entry) {
    || (exists p :: p in tx.before && SameResource(tx.before[p], e))
    || e.content == Some(OfBytes([]))
    || (exists op :: op in tx.operations && op.Text? && e.content == Some(op.after))
  }

  ghost predicate AllKnown(tx: Transaction, m: Manifest) {
    forall p :: p in m && m[p].present && !m[p].kind.DirectoryKind? ==> Known(tx, m[p])
  }

  lemma CarriedKnown(tx: Transaction, m: Manifest, from: Path, to: Path)
    requires AllKnown(tx, m)
    ensures AllKnown(tx, Carried(m, from, to, Departing(m, from)))
  {
    CarriedEntries(m, from, to, Departing(m, from));
  }

  lemma RefreshKnown(tx: Transaction, m: Manifest)
    requires AllKnown(tx, m)
    ensures AllKnown(tx, Refresh(m))
  {
  }

  lemma ResultKnown(
      tx: Transaction, op: Operation, before: Manifest, observed: Manifest, handle: Option<nat>, after: Manifest)
    requires op in tx.operations && AllKnown(tx, before)
    requires OperationAfter(tx.Artifacts(), op, before, observed, handle) == Ok(after)
    ensures AllKnown(tx, after)
  {
    match op
    case Text(_, path, _, digest, _) =>
      assert AllKnown(tx, before[path := before[path].(content := Some(digest))]);
      RefreshKnown(tx, before[path := before[path].(content := Some(digest))]);
    case Create(_, path, overwrite, _) =>
      if before[path].present && overwrite {
        RefreshKnown(tx, before[path := before[path].(content := Some(OfBytes([])))]);
      } else if !before[path].present {
        RefreshKnown(tx, before[path := observed[path]]);
      } else {
        RefreshKnown(tx, before);
      }
    case Rename(index, oldPath, newPath, overwrite, _) =>
      RenameKnown(tx, op, before, observed, handle, after);
    case Delete(index, path, _, _) =>
      if path in before && before[path].present {
        CarriedKnown(tx, before, path, UndoPath(tx.Artifacts(), index));
        RefreshKnown(tx, TransferManifest(before, path, UndoPath(tx.Artifacts(), index)).value);
      } else {
        RefreshKnown(tx, before);
      }
  }

  lemma RenameKnown(
      tx: Transaction, op: Operation, before: Manifest, observed: Manifest, handle: Option<nat>, after: Manifest)
    requires op.Rename? && AllKnown(tx, before)
    requires OperationAfter(tx.Artifacts(), op, before, observed, handle) == Ok(after)
    ensures AllKnown(tx, after)
  {
    if op.newPath in before && before[op.newPath].present {
      if op.overwrite {
        var cleared := TransferManifest(before, op.newPath, UndoPath(tx.Artifacts(), op.index)).value;
        CarriedKnown(tx, before, op.newPath, UndoPath(tx.Artifacts(), op.index));
        CarriedKnown(tx, cleared, op.oldPath, op.newPath);
        RefreshKnown(tx, TransferManifest(cleared, op.oldPath, op.newPath).value);
      }
    } else {
      CarriedKnown(tx, before, op.oldPath, op.newPath);
      RefreshKnown(tx, TransferManifest(before, op.oldPath, op.newPath).value);
    }
  }

  lemma {:induction false} ChainKnown(tx: Transaction, effects: seq<Effect>, k: nat)
    requires |effects| <= |tx.operations| && Complete(effects) && k <= |effects|
    requires Links(tx, effects)
    ensures AllKnown(tx, Proven(tx, effects, k))
    ensures k < |effects| ==> AllKnown(tx, effects[k].before)
    decreases k
  {
    if k == 0 {
      var m := InitialManifest(tx);
      forall p | p in m && m[p].present && !m[p].kind.DirectoryKind? ensures Known(tx, m[p]) {
        assert p in tx.before && tx.before[p] == m[p];
        assert SameResource(tx.before[p], tx.before[p]);
      }
    } else {
      ChainKnown(tx, effects, k - 1);
      assert Link(tx, effects, k - 1);
      var op, e := tx.operations[k - 1], effects[k - 1];
      ResultKnown(tx, op, e.before, e.after.value, RecordedHandle(op, e.after.value), e.after.value);
    }
    if k < |effects| {
      assert Link(tx, effects, k);
    }
  }

  /** Identities name resources: every node of `d` that existed in `start` still has the
      metadata it had there, and everything newer has a newer identity. */
  ghost predicate Descends(start: Disk, d: Disk) {
    && start.nextId <= d.nextId
    && forall p :: p in d.tree ==>
       d.tree[p].id < d.nextId && (d.tree[p].id < start.nextId ==> Ancestor(start.tree, d.tree[p]))
  }

  ghost predicate Ancestor(t: Tree, node: Node) {
    exists q :: q in t && t[q].id == node.id && t[q].meta == node.meta
  }

  /** The resources of the before manifest have no other names: the planner refuses hard
      links of what it inspects, and of nothing else. */
  ghost predicate UniqueIds(tx: Transaction, t: Tree) {
    forall p, q :: p in tx.before && p in t && q in t && t[p].id == t[q].id ==> p == q
  }

  lemma EffectDescends(
      tx: Transaction, op: Operation, start: Disk, d: Disk, expected: Option<nat>, d': Disk, handle: Option<nat>)
    requires TreeOk(d.tree) && Descends(start, d)
    requires ApplyEffect(tx.Artifacts(), op, d, expected) == Ok((d', handle))
    ensures Descends(start, d')
  {
    match op
    case Text(_, path, _, _, _) => RewriteDescends(start, d, path, d'.tree[path].bytes);
    case Create(_, path, _, _) =>
      if path in d.tree && op.overwrite {
        RewriteDescends(start, d, path, []);
      }
    case Rename(_, oldPath, newPath, overwrite, _) =>
      if newPath !in d.tree {
        MoveDescends(start, d, oldPath, newPath);
      } else if overwrite {
        MoveDescends(start, d, newPath, UndoPath(tx.Artifacts(), op.index));
        var cleared := Trees.Rename(d.tree, newPath, UndoPath(tx.Artifacts(), op.index)).value;
        MoveDescends(start, d.(tree := cleared), oldPath, newPath);
      }
    case Delete(_, path, _, _) =>
      if path in d.tree {
        MoveDescends(start, d, path, UndoPath(tx.Artifacts(), op.index));
      }
  }

  lemma RewriteDescends(start: Disk, d: Disk, p: Path, bytes: Bytes)
    requires TreeOk(d.tree) && Descends(start, d) && p in d.tree && d.tree[p].File?
    ensures Descends(start, d.(tree := Overwrite(d.tree, p, bytes, d.tree[p].meta)))
  {
    var t := Overwrite(d.tree, p, bytes, d.tree[p].meta);
    assert Ancestor(start.tree, d.tree[p]) ==> Ancestor(start.tree, t[p]);
  }

  lemma MoveDescends(start: Disk, d: Disk, from: Path, to: Path)
    requires TreeOk(d.tree) && Descends(start, d) && Trees.Rename(d.tree, from, to).Ok?
    ensures Descends(start, d.(tree := Trees.Rename(d.tree, from, to).value))
  {
    var t := Trees.Rename(d.tree, from, to).value;
    forall p | p in t ensures t[p].id < d.nextId && (t[p].id < start.nextId ==> Ancestor(start.tree, t[p])) {
      assert t[p] == d.tree[if to <= p then Rebase(p, to, from) else p];
    }
  }

  /** An effect leaves backups and staged texts alone. */
  lemma EffectKeepsSources(tx: Transaction, op: Operation, before: Manifest, d: Disk, d': Disk, handle: Option<nat>)
    requires TreeOk(d.tree) && Prepared(tx.Artifacts(), op, before)
    requires ApplyEffect(tx.Artifacts(), op, d, IdentityAt(before, TargetPath(op))) == Ok((d', handle))
    ensures SameSources(tx, d.tree, d'.tree)
  {
    var undo := UndoPath(tx.Artifacts(), op.index);
    forall p | IsSource(tx, p) ensures !(undo <= p) && forall r :: r in OperationPaths(op) ==> !(r <= p) {
      forall r | r in OperationPaths(op) ensures !(r <= p) {
        assert r != [] && !(tx.Artifacts() <= r);
        assert r[0] != tx.Artifacts()[0];
      }
    }
    match op
    case Rename(_, oldPath, newPath, overwrite, _) =>
      assert oldPath in OperationPaths(op) && newPath in OperationPaths(op);
      if newPath !in d.tree {
        RenameKeepsSources(tx, d.tree, oldPath, newPath);
      } else if overwrite {
        var cleared := Trees.Rename(d.tree, newPath, undo).value;
        RenameKeepsSources(tx, d.tree, newPath, undo);
        RenameKeepsSources(tx, cleared, oldPath, newPath);
      }
    case Delete(_, path, _, _) =>
      assert path in OperationPaths(op);
      if path in d.tree {
        RenameKeepsSources(tx, d.tree, path, undo);
      }
    case _ =>
      assert op.path in OperationPaths(op);
  }

  /** Backups were made before the first effect. */
  ghost predicate BackupsMade(tx: Transaction, t: Tree) {
    && Backups.Planned(tx.before, tx.Artifacts(), tx.backups) && Backups.BackedUp(tx.backups, t)
    && (set p | p in tx.order) == tx.before.Keys
  }

  ghost predicate SourcesKept(tx: Transaction, start: Disk, d: Disk) {
    SameSources(tx, start.tree, d.tree) && Descends(start, d)
  }

  /** Identities still to be given are unused. */
  ghost predicate IdsBelow(d: Disk) {
    forall p :: p in d.tree ==> d.tree[p].id < d.nextId
  }

  lemma {:induction false} RunKeepsSources(tx: Transaction, effects: seq<Effect>, history: seq<Disk>, k: nat)
    requires k <= |effects| <= |tx.operations| && |history| == |effects| + 1 && Steps(tx, effects, history)
    requires IdsBelow(history[0])
    ensures SourcesKept(tx, history[0], history[k])
    decreases k
  {
    if k == 0 {
      StartKept(tx, history[0]);
    } else {
      RunKeepsSources(tx, effects, history, k - 1);
      StepKeepsSources(tx, effects, history, history[0], k);
    }
  }

  lemma StartKept(tx: Transaction, d: Disk)
    requires IdsBelow(d)
    ensures SourcesKept(tx, d, d)
  {
    SelfDescends(d);
  }

  lemma StepKeepsSources(tx: Transaction, effects: seq<Effect>, history: seq<Disk>, start: Disk, k: nat)
    requires 0 < k <= |effects| <= |tx.operations| && |history| == |effects| + 1 && Steps(tx, effects, history)
    requires SourcesKept(tx, start, history[k - 1])
    ensures SourcesKept(tx, start, history[k])
  {
    assert Step(tx, effects, history, k - 1);
    HappenedKeepsSources(
      tx, tx.operations[k - 1], effects[k - 1].before, effects[k - 1].after.value, start, history[k - 1], history[k]);
  }

  lemma HappenedKeepsSources(
      tx: Transaction, op: Operation, before: Manifest, after: Manifest, start: Disk, d: Disk, d': Disk)
    requires Happened(tx, op, before, after, d, d')
    requires SourcesKept(tx, start, d)
    ensures SourcesKept(tx, start, d')
  {
    var handle :| ApplyEffect(tx.Artifacts(), op, d, IdentityAt(before, TargetPath(op))) == Ok((d', handle));
    EffectKeepsSources(tx, op, before, d, d', handle);
    EffectDescends(tx, op, start, d, IdentityAt(before, TargetPath(op)), d', handle);
  }

  lemma SelfDescends(d: Disk)
    requires IdsBelow(d)
    ensures Descends(d, d)
  {
    forall p | p in d.tree ensures Ancestor(d.tree, d.tree[p]) {
    }
  }

  /** The backup of an original that matches a tracked file restores exactly that file. */
  lemma OriginalAvailable(tx: Transaction, start: Disk, d: Disk, p: Path, e: Entry, q: Path)
    requires BeforeExact(tx, start.tree) && UniqueIds(tx, start.tree) && BackupsMade(tx, start.tree)
    requires forall r :: r in start.tree ==> start.tree[r].id < start.nextId
    requires Descends(start, d) && p in d.tree && d.tree[p].File? && e == Seen(d.tree, p, false)
    requires q in tx.before && SameResource(tx.before[q], e)
    ensures q in start.tree && start.tree[q].File? && Some(start.tree[q].meta) == e.metadata
    ensures Some(OfBytes(start.tree[q].bytes)) == e.content
    ensures var b := BackupPathFor(tx.backups, q);
      b.Some? && b.value in start.tree && start.tree[b.value].File?
      && start.tree[b.value].bytes == start.tree[q].bytes && start.tree[b.value].meta == start.tree[q].meta
  {
    assert tx.before[q] == Seen(start.tree, q, Certified(tx.before[q]));
    assert start.tree[q].id == d.tree[p].id;
    assert Ancestor(start.tree, d.tree[p]);
    Backups.BackupsCover(tx.before, tx.Artifacts(), tx.backups, start.tree, q);
  }

  /** A tracked file's bytes can be found in the backups or among the staged texts. */
  lemma BytesAvailable(tx: Transaction, start: Disk, d: Disk, t: Tree, p: Path, e: Entry)
    requires BeforeExact(tx, start.tree) && UniqueIds(tx, start.tree) && BackupsMade(tx, start.tree)
    requires forall r :: r in start.tree ==> start.tree[r].id < start.nextId
    requires Descends(start, d) && p in d.tree && d.tree[p].File? && e == Seen(d.tree, p, false)
    requires Known(tx, e) && SameSources(tx, start.tree, t) && BackupsPlaced(tx) && EquippedFrom(tx, 0, start.tree)
    ensures RollbackTextBytes(tx, t, e).Ok?
  {
    var original := FindOriginal(tx.order, tx.before, e);
    if original.Some? {
      OriginalAvailable(tx, start, d, p, e, original.value);
      BackupIsSource(tx, tx.backups, original.value);
    } else {
      forall q | q in tx.before ensures !SameResource(tx.before[q], e) {
        assert q in tx.before.Keys;
      }
      if e.content != Some(OfBytes([])) {
        var staged := FindStaged(tx.operations, e.content.value);
        var op :| op in tx.operations && op.Text? && op.after == e.content.value && op.index == staged.value;
        assert IsSource(tx, StagedPath(tx.Artifacts(), staged.value));
        assert Equipped(tx.Artifacts(), op, start.tree);
      }
    }
  }

  /** The first logged precondition meets the before manifest. */
  lemma FirstMeetsBefore(tx: Transaction, effects: seq<Effect>, t: Tree)
    requires WellFormed(tx) && BeforeExact(tx, t) && 0 < |effects| <= |tx.operations| && Complete(effects)
    requires Links(tx, effects)
    ensures NoMismatch(tx.before, effects[0].before)
  {
    InitialIsExact(tx, t);
    InitialIsReady(tx);
    assert Link(tx, effects, 0);
    var m := InitialManifest(tx);
    forall p | p in tx.before ensures p in effects[0].before && Matches(tx.before[p], effects[0].before[p]) {
      assert p in m && !(UndoPath(tx.Artifacts(), tx.operations[0].index) <= p);
      assert effects[0].before[p] == m[p];
      assert m[p] == Seen(t, p, Certified(m[p])) && tx.before[p] == Seen(t, p, Certified(tx.before[p]));
      if Certified(tx.before[p]) {
        InitialCertifies(tx, p);
      }
    }
  }

  lemma InitialCertifies(tx: Transaction, p: Path)
    requires p in tx.before && Certified(tx.before[p])
    ensures p in InitialManifest(tx) && Certified(InitialManifest(tx)[p])
  {
  }

  /** The disks a commit of a valid plan goes through are those of the plan. */
  lemma {:induction false} HistoryIsRun(tx: Transaction, effects: seq<Effect>, history: seq<Disk>, k: nat)
    requires Written(tx, effects, history) && Complete(effects) && |history| == |effects| + 1 && k <= |effects|
    requires TreeOk(history[0].tree)
    ensures history[k] == RunDisk(tx, history[0], k)
    decreases k
  {
    if k > 0 {
      HistoryIsRun(tx, effects, history, k - 1);
      HistoryStep(tx, effects, history, k - 1);
    }
  }

  lemma HistoryStep(tx: Transaction, effects: seq<Effect>, history: seq<Disk>, k: nat)
    requires Written(tx, effects, history) && Complete(effects) && |history| == |effects| + 1 && k < |effects|
    ensures TreeOk(history[k].tree) && history[k + 1] == StepDisk(tx, tx.operations[k], history[k])
  {
    StepAt(tx, effects, history, k);
    HappenedIsStep(tx, tx.operations[k], effects[k].before, effects[k].after.value, history[k], history[k + 1]);
  }

  lemma HappenedIsStep(tx: Transaction, op: Operation, before: Manifest, after: Manifest, d: Disk, d': Disk)
    requires Happened(tx, op, before, after, d, d')
    ensures d' == StepDisk(tx, op, d)
  {
    StepIsPlanned(tx, op, before, d);
  }

  lemma ParentsKeptByRun(tx: Transaction, effects: seq<Effect>, history: seq<Disk>)
    requires WellFormed(tx) && Written(tx, effects, history) && Complete(effects) && |history| == |effects| + 1
    requires effects != []
    ensures KeptParents(tx, effects, history, |effects|, history[|effects|].tree)
  {
    var n := |effects|;
    forall j | 0 <= j < n ensures KeepsParents(tx.operations[j], effects[j].before, history[j], history[n].tree) {
      forall p | p in OperationPaths(tx.operations[j]) && p != [] && Parent(p) in history[j].tree
        && history[j].tree[Parent(p)].Dir? && Parent(p) !in effects[j].before
        ensures Parent(p) in history[n].tree && history[n].tree[Parent(p)].Dir?
      {
        assert tx.operations[j] in tx.operations && p in tx.before.Keys + tx.intended.Keys;
        assert !(tx.Artifacts() <= Parent(p)) by { BelowByParent(tx.Artifacts(), p); }
        UntrackedAtEnd(tx, effects, history, j, Parent(p));
      }
    }
  }

  lemma UntrackedAtEnd(tx: Transaction, effects: seq<Effect>, history: seq<Disk>, j: nat, p: Path)
    requires Written(tx, effects, history) && Complete(effects) && |history| == |effects| + 1 && j < |effects|
    requires !(tx.Artifacts() <= p) && p in history[j].tree && history[j].tree[p].Dir? && p !in effects[j].before
    ensures p in history[|effects|].tree && history[|effects|].tree[p].Dir?
  {
    UntrackedLater(tx, effects, history, j, |effects| - 1, p);
    UntrackedStep(tx, effects, history, |effects| - 1, p);
  }

  lemma NeededIsKnown(tx: Transaction, effects: seq<Effect>, history: seq<Disk>, k: nat)
    requires Written(tx, effects, history) && Complete(effects) && |history| == |effects| + 1 && k < |effects|
    requires TreeOk(history[0].tree) && ValidPlan(tx, history[0])
    requires NeedsBytes(tx.operations[k], effects[k].before)
    ensures var p := tx.operations[k].path;
            && p in history[k].tree && history[k].tree[p].File?
            && effects[k].before[p] == Seen(history[k].tree, p, false)
            && Known(tx, effects[k].before[p])
  {
    var op, before, p := tx.operations[k], effects[k].before, tx.operations[k].path;
    StepAt(tx, effects, history, k);
    ChainKnown(tx, effects, k);
    assert before[p] == Seen(history[k].tree, p, Certified(before[p]));
    HistoryIsRun(tx, effects, history, k);
    assert PlannedAt(tx, history[0], k);
  }

  lemma TextsCanBeFound(tx: Transaction, effects: seq<Effect>, history: seq<Disk>)
    requires BackupsPlaced(tx) && Written(tx, effects, history) && Complete(effects) && |history| == |effects| + 1
    requires TreeOk(history[0].tree) && ValidPlan(tx, history[0])
    requires UniqueIds(tx, history[0].tree) && BackupsMade(tx, history[0].tree) && EquippedFrom(tx, 0, history[0].tree)
    requires forall p :: p in history[0].tree ==> history[0].tree[p].id < history[0].nextId
    ensures TextsAvailable(tx, effects, history[|effects|].tree)
  {
    var n := |effects|;
    RunKeepsSources(tx, effects, history, n);
    forall k | 0 <= k < n && NeedsBytes(tx.operations[k], effects[k].before)
      ensures RollbackTextBytes(tx, history[n].tree, effects[k].before[tx.operations[k].path]).Ok?
    {
      NeededIsKnown(tx, effects, history, k);
      RunKeepsSources(tx, effects, history, k);
      var p := tx.operations[k].path;
      BytesAvailable(tx, history[0], history[k], history[n].tree, p, effects[k].before[p]);
    }
  }

  /** What a transaction is when its commit begins: a valid plan, staged on a disk whose
      identities are distinct. */
  ghost predicate Staged(tx: Transaction, d: Disk) {
    && DiskOk(d) && UniqueIds(tx, d.tree) && Runnable(tx, d) && BackupsMade(tx, d.tree) && BackupsPlaced(tx)
  }

  /** After a commit stopped with no effect pending, everything rollback asks for is there. */
  lemma StoppedIsProvable(tx: Transaction, progress: Progress, history: seq<Disk>)
    requires Accepted(tx, progress) && progress.effects != []
    requires Written(tx, progress.effects, history) && Complete(progress.effects)
    requires Staged(tx, history[0])
    ensures |history| == |progress.effects| + 1
    ensures Provable(tx, Some(progress), history[|progress.effects|].tree)
  {
    LastIsDescribed(tx, progress.effects, history);
    FirstMeetsBefore(tx, progress.effects, history[0].tree);
    TextsCanBeFound(tx, progress.effects, history);
  }

  lemma LastIsDescribed(tx: Transaction, effects: seq<Effect>, history: seq<Disk>)
    requires Written(tx, effects, history) && Complete(effects) && effects != []
    ensures |history| == |effects| + 1
    ensures Describes(effects[|effects| - 1].after.value, history[|effects|].tree)
  {
    StepAt(tx, effects, history, |effects| - 1);
  }

  lemma EmptyIsRestored(tx: Transaction, t: Tree)
    requires WellFormed(tx) && BeforeExact(tx, t)
    ensures Restored(tx, t)
  {
    forall p | p in tx.before ensures Matches(tx.before[p], tx.before[p]) {
    }
    RestoredAtStart(tx, tx.before, t);
  }
}
