/** Commit and rollback of a transaction on a Workspace. Intent is logged before each
    effect, its result after it. Every write may fail, before or after it took hold; a
    crash is a failure nobody reports. */
module Workspaces {
  import opened Paths
  import opened Results
  import opened ByteStrings
  import opened Trees
  import opened Manifests
  import opened Operations
  import opened Transactions
  import opened Lockstep
  import opened Reversal
  import opened CommitLog
  import opened Plans
  import opened History
  import opened Rollback
  import opened Provenance

  class Workspace {
    var disk: Disk
    var log: Option<Progress>
    var disturbed: bool

    constructor (d: Disk)
      requires TreeOk(d.tree)
      ensures disk == d && log == None && !disturbed
    {
      disk, log, disturbed := d, None, false;
    }

    /** Replaces the progress file atomically. */
    method Persist(progress: Progress) returns (ok: bool)
      modifies this`log, this`disturbed
      ensures ok ==> log == Some(progress) && disturbed == old(disturbed)
      ensures !ok ==> disturbed && (log == old(log) || log == Some(progress))
    {
      var fails: bool := *;
      if !fails {
        log := Some(progress);
        return true;
      }
      var landed: bool := *;
      if landed {
        log := Some(progress);
      }
      disturbed := true;
      return false;
    }

    /** Renames a resource whose destination was found absent. */
    method RenameResource(from: Path, to: Path) returns (ok: bool)
      requires TreeOk(disk.tree)
      modifies this`disk, this`disturbed
      ensures TreeOk(disk.tree)
      ensures ok ==> Trees.Rename(old(disk).tree, from, to).Ok? && disturbed == old(disturbed)
      ensures ok ==> disk == old(disk).(tree := Trees.Rename(old(disk).tree, from, to).value)
      ensures !ok ==>
        disturbed || (Trees.Rename(old(disk).tree, from, to).Err? && disk == old(disk) && disturbed == old(disturbed))
      ensures disk == old(disk) || (Trees.Rename(old(disk).tree, from, to).Ok?
        && disk == old(disk).(tree := Trees.Rename(old(disk).tree, from, to).value))
    {
      var fails: bool := *;
      var renamed := Trees.Rename(disk.tree, from, to);
      if renamed.Err? && !fails {
        return false;
      }
      var landed: bool := *;
      if renamed.Ok? && (!fails || landed) {
        disk := disk.(tree := renamed.value);
      }
      if fails {
        disturbed := true;
      }
      return !fails;
    }

    /** Truncates a file and writes it anew; a failure may leave it alone or leave any
        prefix. */
    method RewriteFile(p: Path, bytes: Bytes, meta: nat) returns (ok: bool)
      requires TreeOk(disk.tree) && p in disk.tree && disk.tree[p].File?
      modifies this`disk, this`disturbed
      ensures TreeOk(disk.tree)
      ensures ok ==>
        disk == old(disk).(tree := Overwrite(old(disk).tree, p, bytes, meta)) && disturbed == old(disturbed)
      ensures !ok ==> disturbed && (disk == old(disk) || exists n: nat :: Truncated(old(disk), p, bytes, n, disk))
    {
      var fails: bool := *;
      if !fails {
        disk := disk.(tree := Overwrite(disk.tree, p, bytes, meta));
        return true;
      }
      disturbed := true;
      var began: bool := *;
      if began {
        var written: nat :| written <= |bytes|;
        assert Truncated(disk, p, bytes, written,
          disk.(tree := Overwrite(disk.tree, p, bytes[..written], disk.tree[p].meta)));
        disk := disk.(tree := Overwrite(disk.tree, p, bytes[..written], disk.tree[p].meta));
      }
      return false;
    }

    method ApplyText(artifacts: Path, op: Operation, expected: Option<nat>) returns (r: Result<Option<nat>>)
      requires op.Text? && TreeOk(disk.tree) && !disturbed
      modifies this`disk, this`disturbed
      ensures TreeOk(disk.tree)
      ensures r.Ok? ==> !disturbed && ApplyEffect(artifacts, op, old(disk), expected) == Ok((disk, r.value))
      ensures r.Err? ==> disturbed || ApplyEffect(artifacts, op, old(disk), expected).Err?
      ensures Halfway(artifacts, op, old(disk), expected, disk)
    {
      var t, p, staged := disk.tree, op.path, StagedPath(artifacts, op.index);
      if p !in t || !t[p].File? || OfBytes(t[p].bytes) != op.before {
        return Err;
      }
      if staged !in t || !t[staged].File? || OfBytes(t[staged].bytes) != op.after {
        return Err;
      }
      var identity := t[p].id;
      if expected != Some(identity) {
        return Err;
      }
      var ok := RewriteFile(p, t[staged].bytes, t[p].meta);
      return if ok then Ok(Some(identity)) else Err;
    }

    method ApplyCreate(artifacts: Path, op: Operation, expected: Option<nat>) returns (r: Result<Option<nat>>)
      requires op.Create? && TreeOk(disk.tree) && !disturbed
      modifies this`disk, this`disturbed
      ensures TreeOk(disk.tree)
      ensures r.Ok? ==> !disturbed && ApplyEffect(artifacts, op, old(disk), expected) == Ok((disk, r.value))
      ensures r.Err? ==> disturbed || ApplyEffect(artifacts, op, old(disk), expected).Err?
      ensures Halfway(artifacts, op, old(disk), expected, disk)
    {
      var t, p := disk.tree, op.path;
      if p in t {
        if op.overwrite {
          if !t[p].File? || expected != Some(t[p].id) {
            return Err;
          }
          var ok := RewriteFile(p, [], t[p].meta);
          return if ok then Ok(Some(t[p].id)) else Err;
        }
        return if op.ignoreIfExists then Ok(None) else Err;
      }
      var created := CreateFile(t, p, disk.nextId, disk.mode);
      if created.Err? {
        return Err;
      }
      var fails: bool, landed: bool := *, *;
      disturbed := fails;
      var identity := disk.nextId;
      if !fails || landed {
        disk := disk.(tree := created.value, nextId := identity + 1);
      }
      return if fails then Err else Ok(Some(identity));
    }

    method ApplyRename(artifacts: Path, op: Operation, expected: Option<nat>) returns (r: Result<Option<nat>>)
      requires op.Rename? && TreeOk(disk.tree) && !disturbed
      modifies this`disk, this`disturbed
      ensures TreeOk(disk.tree)
      ensures r.Ok? ==> !disturbed && ApplyEffect(artifacts, op, old(disk), expected) == Ok((disk, r.value))
      ensures r.Err? ==> disturbed || ApplyEffect(artifacts, op, old(disk), expected).Err?
      ensures Halfway(artifacts, op, old(disk), expected, disk)
    {
      if op.newPath in disk.tree {
        if op.overwrite {
          var cleared := RenameResource(op.newPath, UndoPath(artifacts, op.index));
          if !cleared {
            return Err;
          }
        } else {
          return if op.ignoreIfExists then Ok(None) else Err;
        }
      }
      var moved := RenameResource(op.oldPath, op.newPath);
      return if moved then Ok(None) else Err;
    }

    method ApplyDelete(artifacts: Path, op: Operation, expected: Option<nat>) returns (r: Result<Option<nat>>)
      requires op.Delete? && TreeOk(disk.tree) && !disturbed
      modifies this`disk, this`disturbed
      ensures TreeOk(disk.tree)
      ensures r.Ok? ==> !disturbed && ApplyEffect(artifacts, op, old(disk), expected) == Ok((disk, r.value))
      ensures r.Err? ==> disturbed || ApplyEffect(artifacts, op, old(disk), expected).Err?
      ensures Halfway(artifacts, op, old(disk), expected, disk)
    {
      if op.path !in disk.tree {
        return if op.ignoreIfNotExists then Ok(None) else Err;
      }
      if disk.tree[op.path].Dir? && !op.recursive && !Empty(disk.tree, op.path) {
        return Err;
      }
      var moved := RenameResource(op.path, UndoPath(artifacts, op.index));
      return if moved then Ok(None) else Err;
    }

    /** Applies one operation; without disturbance it does exactly `ApplyEffect`. */
    method Apply(artifacts: Path, op: Operation, expected: Option<nat>) returns (r: Result<Option<nat>>)
      requires TreeOk(disk.tree) && !disturbed
      modifies this`disk, this`disturbed
      ensures TreeOk(disk.tree)
      ensures r.Ok? ==> !disturbed && ApplyEffect(artifacts, op, old(disk), expected) == Ok((disk, r.value))
      ensures r.Err? ==> disturbed || ApplyEffect(artifacts, op, old(disk), expected).Err?
      ensures Halfway(artifacts, op, old(disk), expected, disk)
    {
      match op
      case Text(_, _, _, _, _) => r := ApplyText(artifacts, op, expected);
      case Create(_, _, _, _) => r := ApplyCreate(artifacts, op, expected);
      case Rename(_, _, _, _, _) => r := ApplyRename(artifacts, op, expected);
      case Delete(_, _, _, _) => r := ApplyDelete(artifacts, op, expected);
    }

    /** Every resource the operation moves is still the one the manifest names. */
    method RetainHandles(op: Operation, before: Manifest) returns (ok: bool)
      ensures Describes(before, disk.tree) ==> ok
    {
      var paths := if op.Rename? then [op.oldPath, op.newPath] else if op.Delete? then [op.path] else [];
      for i := 0 to |paths| {
        if paths[i] in before && before[paths[i]].present {
          if paths[i] !in disk.tree || before[paths[i]].identity != Some(disk.tree[paths[i]].id) {
            return false;
          }
        }
      }
      return true;
    }

    /** Records the intent to perform operation `k`. */
    method Intend(
        tx: Transaction, progress: Progress, before: Manifest, ghost history: seq<Disk>, ghost start: Disk)
      returns (ok: bool)
      requires Midway(tx, start, progress, history, disk) && |progress.effects| < |tx.operations|
      requires before ==
        AddUndo(Proven(tx, progress.effects, |progress.effects|), tx.Artifacts(), tx.operations[|progress.effects|])
      requires log == LoggedAs(progress) && !disturbed
      modifies this`log, this`disturbed
      ensures ok ==> Describes(before, disk.tree) && !disturbed && log == Some(WithIntent(tx, progress, before))
      ensures !ok ==> Truthful(tx, log, history, disk, start)
      ensures log != LoggedAs(progress) ==>
        log == Some(WithIntent(tx, progress, before)) && Describes(before, disk.tree)
      ensures Describes(before, disk.tree) && !disturbed ==> ok
    {
      RequireIsDescribes(disk.tree, before);
      MidwayIsTruthful(tx, progress, before, history, disk, start);
      if !RequireManifest(disk.tree, before) {
        return false;
      }
      ok := Persist(WithIntent(tx, progress, before));
      if ok {
        ok := RetainHandles(tx.operations[|progress.effects|], before);
      }
    }

    /** Performs operation `k`, checks what it left, and records the result. */
    method Perform(tx: Transaction, progress: Progress, before: Manifest, ghost history: seq<Disk>, ghost start: Disk)
      returns (after: Result<Manifest>, ghost history': seq<Disk>)
      requires Midway(tx, start, progress, history, disk) && |progress.effects| < |tx.operations|
      requires before ==
        AddUndo(Proven(tx, progress.effects, |progress.effects|), tx.Artifacts(), tx.operations[|progress.effects|])
      requires Describes(before, disk.tree) && Prepared(tx.Artifacts(), tx.operations[|progress.effects|], before)
      requires !disturbed && log == Some(WithIntent(tx, progress, before))
      modifies this
      ensures TreeOk(disk.tree)
      ensures after.Ok? ==> !disturbed && log == Some(WithResult(tx, progress, before, after.value))
      ensures after.Ok? ==> Midway(tx, start, log.value, history', disk)
      ensures after.Ok? ==>
        exists handle :: Did(tx, tx.operations[|progress.effects|], before, old(disk), disk, handle, after.value)
      ensures after.Err? ==> Truthful(tx, log, history', disk, start)
      ensures
        var op := tx.operations[|progress.effects|];
        Halfway(tx.Artifacts(), op, old(disk), IdentityAt(before, TargetPath(op)), disk)
      ensures !disturbed && InStep(tx.Artifacts(), tx.operations[|progress.effects|], before, old(disk)) ==>
        (after.Ok? <==> !Collides(before.Keys, tx.operations[|progress.effects|], old(disk).tree))
    {
      var k := |progress.effects|;
      var op := tx.operations[k];
      history' := history;
      ghost var inStep := InStep(tx.Artifacts(), op, before, disk);
      MidwayIsTruthful(tx, progress, before, history, disk, start);
      ghost var d := disk;
      var applied := Apply(tx.Artifacts(), op, IdentityAt(before, TargetPath(op)));
      PendingIsTruthful(tx, progress, before, history, disk, start);
      if applied.Err? {
        return Err, history';
      }
      after := Confirm(tx, op, before, applied.value);
      if inStep {
        InStepConfirms(tx, op, before, d, disk, applied.value);
      }
      if after.Err? {
        return Err, history';
      }
      assert Did(tx, op, before, d, disk, applied.value, after.value);
      var persisted;
      persisted, history' := Record(tx, progress, before, after.value, history, start, d, applied.value);
      if !persisted {
        return Err, history';
      }
    }

    /** Makes the result of operation `k` durable. */
    method Record(
        tx: Transaction, progress: Progress, before: Manifest, after: Manifest, ghost history: seq<Disk>,
        ghost start: Disk, ghost d: Disk, ghost handle: Option<nat>)
      returns (ok: bool, ghost history': seq<Disk>)
      requires Midway(tx, start, progress, history, d) && |progress.effects| < |tx.operations|
      requires before ==
        AddUndo(Proven(tx, progress.effects, |progress.effects|), tx.Artifacts(), tx.operations[|progress.effects|])
      requires Describes(before, d.tree) && Prepared(tx.Artifacts(), tx.operations[|progress.effects|], before)
      requires TreeOk(d.tree) && Did(tx, tx.operations[|progress.effects|], before, d, disk, handle, after)
      requires log == Some(WithIntent(tx, progress, before)) && !disturbed && Truthful(tx, log, history, disk, start)
      modifies this`log, this`disturbed
      ensures ok ==> !disturbed && log == Some(WithResult(tx, progress, before, after))
      ensures ok ==> Midway(tx, start, log.value, history', disk)
      ensures !ok ==> disturbed && Truthful(tx, log, history', disk, start)
    {
      var op := tx.operations[|progress.effects|];
      EffectHappened(tx, op, before, after, d, disk, handle);
      ResultIsMidway(tx, progress, before, Observed(disk.tree, before), handle, after, history, d, disk, start);
      var logged := WithResult(tx, progress, before, after);
      ok := Persist(logged);
      history' := if log == Some(logged) then history + [disk] else history;
    }

    /** The manifest an operation must have left, if the tree is what it says. */
    method Confirm(
        tx: Transaction, op: Operation, before: Manifest, handle: Option<nat>)
      returns (after: Result<Manifest>)
      requires TreeOk(disk.tree)
      ensures after.Ok? <==> Confirmed(tx, op, before, disk.tree, handle)
      ensures after.Ok? ==> after == OperationAfter(tx.Artifacts(), op, before, Observed(disk.tree, before), handle)
    {
      var observed := Inspect(disk.tree, before);
      if observed.Err? {
        return Err;
      }
      after := OperationAfter(tx.Artifacts(), op, before, observed.value, handle);
      if after.Ok? {
        RequireIsDescribes(disk.tree, after.value);
        if !RequireManifest(disk.tree, after.value) {
          return Err;
        }
      }
    }

    /** One turn of the commit loop. */
    method CommitOne(
        tx: Transaction, progress: Progress, expected: Manifest, ghost history: seq<Disk>, ghost start: Disk)
      returns (after: Result<Manifest>, before: Manifest, ghost history': seq<Disk>)
      requires WellFormed(tx) && |progress.effects| < |tx.operations|
      requires Between(tx, start, progress, expected, history, disk, log)
      requires !disturbed
      modifies this
      ensures TreeOk(disk.tree)
      ensures after.Ok? ==>
        var logged := WithResult(tx, progress, before, after.value);
        !disturbed && Between(tx, start, logged, after.value, history', disk, log)
      ensures after.Err? ==> Truthful(tx, log, history', disk, start)
      ensures Runnable(tx, start) && !disturbed ==> (after.Ok? <==> !CollidesAt(tx, start, |progress.effects|))
    {
      var op := tx.operations[|progress.effects|];
      before := AddUndo(expected, tx.Artifacts(), op);
      OneIsPrepared(tx, start, progress, expected, history, disk, log);
      ghost var d := disk;
      var intended := Intend(tx, progress, before, history, start);
      if !intended {
        return Err, before, history;
      }
      after, history' := Perform(tx, progress, before, history, start);
      if after.Ok? {
        OneIsDone(tx, start, progress, expected, history, d, history', disk, after.value);
      }
    }

    /** Runs the operations of a transaction. Wherever it stops, the log is one the
        validation accepts, it tells the truth about every result, and if no effect is
        pending the disk is exactly what the last result says. On a valid plan an
        undisturbed commit reaches the end exactly when no operation collides with a
        tracked path. */
    method CommitOperations(tx: Transaction) returns (failed: Option<nat>, ghost history: seq<Disk>)
      requires WellFormed(tx) && Stands(tx, disk) && log.None? && !disturbed
      modifies this
      ensures Truthful(tx, log, history, disk, old(disk))
      ensures failed.None? ==> !disturbed && |history| == |tx.operations| + 1 && disk == history[|tx.operations|]
      ensures failed.None? && tx.operations != [] ==>
        log.Some? && Complete(log.value.effects) && |log.value.effects| == |tx.operations|
      ensures failed.None? && Runnable(tx, old(disk)) ==> disk == RunDisk(tx, old(disk), |tx.operations|)
      ensures Runnable(tx, old(disk)) && !disturbed ==>
        (failed.None? <==> forall k :: 0 <= k < |tx.operations| ==> !CollidesAt(tx, old(disk), k))
    {
      var progress, expected := NewProgress(tx), InitialManifest(tx);
      history := [disk];
      ghost var start := disk;
      StartIsBetween(tx, disk);
      for k := 0 to |tx.operations|
        invariant |progress.effects| == k && !disturbed
        invariant Between(tx, start, progress, expected, history, disk, log)
      {
        var after, before;
        after, before, history := CommitOne(tx, progress, expected, history, start);
        if after.Err? {
          return Some(tx.operations[k].index), history;
        }
        progress := WithResult(tx, progress, before, after.value);
        expected := after.value;
      }
      return None, history;
    }

    method RemoveResource(p: Path) returns (ok: bool)
      requires TreeOk(disk.tree) && !disturbed
      modifies this`disk, this`disturbed
      ensures TreeOk(disk.tree)
      ensures ok ==> !disturbed && RemoveFile(old(disk).tree, p).Ok?
      ensures ok ==> disk == old(disk).(tree := RemoveFile(old(disk).tree, p).value)
      ensures !ok ==> disturbed || RemoveFile(old(disk).tree, p).Err?
    {
      var removed := RemoveFile(disk.tree, p);
      if removed.Err? {
        return false;
      }
      var fails: bool, landed: bool := *, *;
      if !fails || landed {
        disk := disk.(tree := removed.value);
      }
      disturbed := fails;
      return !fails;
    }

    /** One reverse rename, after a fresh check of its proof. */
    method ReturnResource(from: Path, to: Path, proof: Manifest) returns (ok: bool)
      requires TreeOk(disk.tree) && !disturbed
      modifies this`disk, this`disturbed
      ensures TreeOk(disk.tree)
      ensures ok ==> !disturbed && RenameBack(old(disk).tree, from, to, proof) == Ok(disk.tree)
      ensures !ok ==> disturbed || RenameBack(old(disk).tree, from, to, proof).Err?
    {
      if from !in proof || !proof[from].present {
        return false;
      }
      if !RequireManifest(disk.tree, ReturnProof(proof, from, to)) {
        return false;
      }
      ok := RenameResource(from, to);
    }

    /** Writes the proven bytes back into a file, with the metadata of their backup. */
    method RestoreProvenText(tx: Transaction, p: Path, before: Entry, after: Entry) returns (ok: bool)
      requires TreeOk(disk.tree) && !disturbed
      modifies this`disk, this`disturbed
      ensures TreeOk(disk.tree)
      ensures ok ==> !disturbed && RestoreText(tx, old(disk).tree, p, before, after) == Ok(disk.tree)
      ensures !ok ==> disturbed || RestoreText(tx, old(disk).tree, p, before, after).Err?
    {
      var source := RollbackTextBytes(tx, disk.tree, before);
      if source.Err? || p !in disk.tree || !disk.tree[p].File? {
        return false;
      }
      var node := disk.tree[p];
      if after.identity != Some(node.id) || after.content != Some(OfBytes(node.bytes)) {
        return false;
      }
      if !RequireManifest(disk.tree, map[p := after]) {
        return false;
      }
      ok := RewriteFile(p, source.value.0, if source.value.1.Some? then source.value.1.value else node.meta);
    }

    /** Undoes one effect; without disturbance it does exactly `UndoEffect`. */
    method UndoOne(tx: Transaction, op: Operation, before: Manifest, after: Manifest) returns (ok: bool)
      requires TreeOk(disk.tree) && !disturbed
      modifies this`disk, this`disturbed
      ensures TreeOk(disk.tree)
      ensures ok ==> !disturbed && UndoEffect(tx, op, before, after, old(disk).tree) == Ok(disk.tree)
      ensures !ok ==> disturbed || UndoEffect(tx, op, before, after, old(disk).tree).Err?
    {
      ok := true;
      var undo := UndoPath(tx.Artifacts(), op.index);
      match op {
        case Rename(_, oldPath, newPath, _, _) =>
          if before != after {
            ok := ReturnResource(newPath, oldPath, after);
            if ok {
              if undo !in after {
                ok := false;
              } else if after[undo].present {
                ok := ReturnResource(undo, newPath, after);
              }
            }
          }
        case Delete(_, path, _, _) =>
          if undo !in after {
            ok := false;
          } else if after[undo].present {
            ok := ReturnResource(undo, path, after);
          }
        case _ =>
          if op.path !in before || op.path !in after {
            ok := false;
          } else if before[op.path] != after[op.path] {
            if before[op.path].present {
              ok := RestoreProvenText(tx, op.path, before[op.path], after[op.path]);
            } else {
              ok := RemoveResource(op.path);
            }
          }
      }
    }

    /** Checks every reverse step before any of them is taken. */
    method Preflight(tx: Transaction, effects: seq<Effect>) returns (ok: bool)
      requires WellFormed(tx) && 0 < |effects| <= |tx.operations| && Complete(effects)
      requires Links(tx, effects)
      ensures ok <==> TextsAvailable(tx, effects, disk.tree) && NoMismatch(tx.before, effects[0].before)
    {
      var reversed := effects[|effects| - 1].after.value;
      var k := |effects|;
      while k > 0
        invariant 0 <= k <= |effects|
        invariant reversed == if k == 0 then effects[0].before else effects[k - 1].after.value
        invariant forall j | k <= j < |effects| :: NeedsBytes(tx.operations[j], effects[j].before) ==>
          RollbackTextBytes(tx, disk.tree, effects[j].before[tx.operations[j].path]).Ok?
      {
        k := k - 1;
        var op, effect := tx.operations[k], effects[k];
        assert reversed == effect.after.value;
        if op.Text? || op.Create? {
          TargetIsTracked(tx, effects, k);
          if effect.before[op.path].present && RollbackTextBytes(tx, disk.tree, effect.before[op.path]).Err? {
            assert NeedsBytes(tx.operations[k], effects[k].before);
            return false;
          }
        }
        reversed := effect.before;
        var previous := 0;
        while previous < |effects| && effects[previous].index != effect.index
          invariant previous <= k
        {
          DistinctIndexes(tx, effects, previous, k);
          previous := previous + 1;
        }
        DistinctIndexes(tx, effects, previous, k);
        if previous > 0 {
          UndoChainHolds(tx, effects, k);
          reversed := Restrict(reversed, effects[previous - 1].after.value.Keys);
        }
      }
      return NoMismatch(tx.before, reversed);
    }

    /** Undoes effect `k` between two comparisons of the tree with the log. */
    method UndoProven(tx: Transaction, effects: seq<Effect>, k: nat) returns (proven: bool)
      requires k < |effects| <= |tx.operations| && effects[k].after.Some? && TreeOk(disk.tree) && !disturbed
      requires Describes(effects[k].after.value, disk.tree)
      requires
        var undone := UndoEffect(tx, tx.operations[k], effects[k].before, effects[k].after.value, disk.tree);
        undone.Ok? && Describes(effects[k].before, undone.value)
      modifies this`disk, this`disturbed
      ensures TreeOk(disk.tree) && (!disturbed ==> proven) && (proven ==> !disturbed)
      ensures
        var undone := UndoEffect(tx, tx.operations[k], effects[k].before, effects[k].after.value, old(disk).tree);
        proven ==> undone == Ok(disk.tree)
    {
      RequireIsDescribes(disk.tree, effects[k].after.value);
      proven := RequireManifest(disk.tree, effects[k].after.value);
      if proven {
        proven := UndoOne(tx, tx.operations[k], effects[k].before, effects[k].after.value);
      }
      if proven {
        RequireIsDescribes(disk.tree, effects[k].before);
        proven := RequireManifest(disk.tree, effects[k].before);
      }
    }

    /** The reverse run itself. */
    method Rewind(tx: Transaction, effects: seq<Effect>, ghost history: seq<Disk>) returns (restored: bool)
      requires WellFormed(tx) && BackupsPlaced(tx) && !disturbed
      requires Written(tx, effects, history) && Complete(effects) && |history| == |effects| + 1 && effects != []
      requires TextsAvailable(tx, effects, disk.tree) && NoMismatch(tx.before, effects[0].before)
      requires Rewound(tx, effects, history, |effects|, disk.tree, disk.tree)
      modifies this`disk, this`disturbed
      ensures TreeOk(disk.tree)
      ensures !disturbed ==> restored
      ensures restored ==> Restored(tx, disk.tree)
      ensures restored && old(disk).tree == history[|effects|].tree ==> disk.tree == history[0].tree
    {
      ghost var from := disk.tree;
      var k := |effects|;
      while k > 0
        invariant 0 <= k <= |effects| && !disturbed
        invariant Rewound(tx, effects, history, k, from, disk.tree)
      {
        k := k - 1;
        RewindOne(tx, effects, history, k, from, disk.tree);
        var proven := UndoProven(tx, effects, k);
        if !proven {
          return false;
        }
      }
      FirstIsRestored(tx, effects, disk.tree);
      return Restored(tx, disk.tree);
    }

    /** Undoes everything the log proves. It either restores the before manifest or, if it
        is not itself disturbed, leaves the disk as it found it: this holds for any tree
        whatsoever, as long as untracked parent directories were kept. Started on the very
        disk the commit left, it gives back the very tree the commit began with. */
    method RollbackTransaction(tx: Transaction, ghost history: seq<Disk>) returns (restored: bool)
      requires WellFormed(tx) && BackupsPlaced(tx) && TreeOk(disk.tree) && !disturbed
      requires log.Some? ==> Written(tx, log.value.effects, history)
      requires log.Some? && Complete(log.value.effects) ==>
        KeptParents(tx, log.value.effects, history, |log.value.effects|, disk.tree)
      modifies this`disk, this`disturbed
      ensures TreeOk(disk.tree)
      ensures restored ==> Restored(tx, disk.tree)
      ensures forall start: Tree {:trigger AsInStart(tx, start, disk.tree)} ::
        Describes(tx.before, start) && restored ==> AsInStart(tx, start, disk.tree)
      ensures forall start: Tree {:trigger AsInStart(tx, start, old(disk).tree)} ::
        Describes(tx.before, start) ==> (AsInStart(tx, start, old(disk).tree) <==> Restored(tx, old(disk).tree))
      ensures !restored && !disturbed ==> disk == old(disk)
      ensures Restored(tx, old(disk).tree) ==> restored && disk == old(disk)
      ensures !disturbed && Provable(tx, log, old(disk).tree) ==> restored
      ensures log.Some? && !Complete(log.value.effects) && !Restored(tx, old(disk).tree) ==>
        !restored && !disturbed && disk == old(disk)
      ensures
        var untouched := |history| > 0 && old(disk).tree == history[|history| - 1].tree;
        untouched && restored && !Restored(tx, old(disk).tree) ==> disk.tree == history[0].tree
    {
      RestoredMeans(tx, disk.tree);
      if Restored(tx, disk.tree) {
        return true;
      }
      if log.None? {
        return false;
      }
      var accepted := ReadProgress(tx, log.value);
      if !accepted {
        return false;
      }
      var effects := log.value.effects;
      if !Complete(effects) || effects == [] {
        return false;
      }
      var last := effects[|effects| - 1].after.value;
      RequireIsDescribes(disk.tree, last);
      if !RequireManifest(disk.tree, last) {
        return false;
      }
      var ready := Preflight(tx, effects);
      if !ready {
        return false;
      }
      restored := Rewind(tx, effects, history);
      RestoredMeans(tx, disk.tree);
    }
  }

  /** Rollback inverts commit. Wherever the commit of a staged plan stops, a later rollback
      that is not itself disturbed gives back the very tree the commit began with, unless
      an effect was pending: then it changes nothing, and refuses unless the before
      manifest is met anyway. */
  method CommitThenRollback(
      workspace: Workspace, tx: Transaction)
    returns (pending: bool, restored: bool, ghost stopped: Disk)
    requires Staged(tx, workspace.disk) && Stands(tx, workspace.disk) && workspace.log.None? && !workspace.disturbed
    modifies workspace
    ensures restored ==> AsInStart(tx, old(workspace.disk).tree, workspace.disk.tree)
    ensures !workspace.disturbed && !pending ==> restored
    ensures
      var start := old(workspace.disk).tree;
      restored && !pending ==> workspace.disk.tree == if AsInStart(tx, start, stopped.tree) then stopped.tree else start
    ensures !workspace.disturbed && !restored ==> workspace.disk == stopped
    ensures pending ==>
      workspace.disk == stopped && (restored <==> AsInStart(tx, old(workspace.disk).tree, stopped.tree))
  {
    ghost var start := workspace.disk;
    var failed, history := workspace.CommitOperations(tx);
    stopped := workspace.disk;
    pending := workspace.log.Some? && !Complete(workspace.log.value.effects);
    workspace.disturbed := false;
    RestoredIsOriginal(tx, start.tree, stopped.tree);
    if workspace.log.None? || workspace.log.value.effects == [] {
      EmptyIsRestored(tx, start.tree);
    } else if !pending {
      LoggedCanReturn(tx, workspace.log.value, history);
    }
    restored := workspace.RollbackTransaction(tx, history);
  }

  /** What rollback needs holds wherever a commit stops between two effects. */
  lemma LoggedCanReturn(tx: Transaction, progress: Progress, history: seq<Disk>)
    requires Accepted(tx, progress) && progress.effects != [] && Complete(progress.effects)
    requires Written(tx, progress.effects, history) && Staged(tx, history[0])
    ensures |history| == |progress.effects| + 1
    ensures KeptParents(tx, progress.effects, history, |progress.effects|, history[|progress.effects|].tree)
    ensures Provable(tx, Some(progress), history[|progress.effects|].tree)
  {
    StoppedIsProvable(tx, progress, history);
    ParentsKeptByRun(tx, progress.effects, history);
  }
}
