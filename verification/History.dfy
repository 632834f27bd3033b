/** What a commit log says about the disks a commit really went through. */
module History {
  import opened Paths
  import opened Results
  import opened ByteStrings
  import opened Trees
  import opened Manifests
  import opened Operations
  import opened Transactions
  import opened Lockstep
  import opened Reversal
  import opened CommitLog
  import opened Plans

  /** The log describes what really happened: its complete effects led from one disk of
      `history` to the next, starting from tracked parents that only effects changed. */
  ghost predicate Written(tx: Transaction, effects: seq<Effect>, history: seq<Disk>) {
    && |effects| <= |tx.operations|
    && |history| > 0 && |effects| <= |history| <= |effects| + 1
    && (|history| == |effects| ==> !Complete(effects))
    && Links(tx, effects)
    && Steps(tx, effects, history)
    && Stands(tx, history[|history| - 1])
  }

  ghost predicate Stands(tx: Transaction, d: Disk) {
    TreeOk(d.tree) && tx.Artifacts() in d.tree && d.tree[tx.Artifacts()].Dir?
  }

  ghost predicate Step(tx: Transaction, effects: seq<Effect>, history: seq<Disk>, k: nat)
    requires k < |effects| <= |tx.operations| && k + 1 < |history|
  {
    && effects[k].after.Some?
    && Happened(tx, tx.operations[k], effects[k].before, effects[k].after.value, history[k], history[k + 1])
  }

  ghost predicate Steps(tx: Transaction, effects: seq<Effect>, history: seq<Disk>)
    requires |history| <= |effects| + 1 && |effects| <= |tx.operations|
  {
    forall k :: 0 <= k < |history| - 1 ==> Step(tx, effects, history, k)
  }

  lemma StepAt(tx: Transaction, effects: seq<Effect>, history: seq<Disk>, k: nat)
    requires Written(tx, effects, history) && Complete(effects) && k < |effects|
    ensures |history| == |effects| + 1
    ensures Happened(tx, tx.operations[k], effects[k].before, effects[k].after.value, history[k], history[k + 1])
  {
    assert Step(tx, effects, history, k);
  }

  /** A manifest before and after one effect, ready to be logged. */
  lemma EffectHappened(
      tx: Transaction, op: Operation, before: Manifest, after: Manifest, d: Disk, d': Disk, handle: Option<nat>)
    requires Stands(tx, d) && Describes(before, d.tree) && Prepared(tx.Artifacts(), op, before)
    requires ApplyEffect(tx.Artifacts(), op, d, IdentityAt(before, TargetPath(op))) == Ok((d', handle))
    requires OperationAfter(tx.Artifacts(), op, before, Observed(d'.tree, before), handle) == Ok(after)
    requires Describes(after, d'.tree)
    ensures Happened(tx, op, before, after, d, d') && Stands(tx, d')
  {
    ResultIsRefreshed(tx.Artifacts(), op, before, Observed(d'.tree, before), handle, after);
    ArtifactsStay(tx, op, before, d, d', handle);
  }

  lemma ArtifactsStay(tx: Transaction, op: Operation, before: Manifest, d: Disk, d': Disk, handle: Option<nat>)
    requires Stands(tx, d) && Prepared(tx.Artifacts(), op, before)
    requires ApplyEffect(tx.Artifacts(), op, d, IdentityAt(before, TargetPath(op))) == Ok((d', handle))
    ensures tx.Artifacts() in d'.tree && d'.tree[tx.Artifacts()].Dir?
  {
    forall p | p in OperationPaths(op) ensures !(p <= tx.Artifacts()) {
      assert p != [] && !(tx.Artifacts() <= p);
    }
    match op
    case Rename(_, oldPath, newPath, _, _) =>
      assert !(oldPath <= tx.Artifacts()) && !(newPath <= tx.Artifacts());
      if newPath in d.tree && op.overwrite {
        var cleared := Trees.Rename(d.tree, newPath, UndoPath(tx.Artifacts(), op.index)).value;
        RenameKeeps(d.tree, newPath, UndoPath(tx.Artifacts(), op.index), tx.Artifacts());
        RenameKeeps(cleared, oldPath, newPath, tx.Artifacts());
      } else if newPath !in d.tree {
        RenameKeeps(d.tree, oldPath, newPath, tx.Artifacts());
      }
    case Delete(_, path, _, _) =>
      if path in d.tree {
        RenameKeeps(d.tree, path, UndoPath(tx.Artifacts(), op.index), tx.Artifacts());
      }
    case _ =>
      assert op.path != tx.Artifacts();
  }

  lemma RenameKeeps(t: Tree, from: Path, to: Path, p: Path)
    requires TreeOk(t) && Trees.Rename(t, from, to).Ok? && p in t && !(from <= p)
    ensures p in Trees.Rename(t, from, to).value && Trees.Rename(t, from, to).value[p] == t[p]
  {
  }

  lemma AppendLinks(tx: Transaction, effects: seq<Effect>, e: Effect)
    requires |effects| < |tx.operations| && Complete(effects) && Links(tx, effects)
    requires Link(tx, effects + [e], |effects|)
    ensures Links(tx, effects + [e])
  {
    var longer := effects + [e];
    forall k | 0 <= k < |effects| ensures Link(tx, longer, k) {
      KeepLink(tx, effects, e, k);
    }
  }

  lemma KeepLink(tx: Transaction, effects: seq<Effect>, e: Effect, k: nat)
    requires k < |effects| < |tx.operations| && Complete(effects) && Link(tx, effects, k)
    ensures Link(tx, effects + [e], k)
  {
    var longer := effects + [e];
    assert longer[k] == effects[k] && effects[k].after.Some?;
    assert Proven(tx, longer, k) == Proven(tx, effects, k);
  }

  lemma KeepSteps(tx: Transaction, effects: seq<Effect>, history: seq<Disk>, e: Effect)
    requires |effects| < |tx.operations| && |history| == |effects| + 1 && Steps(tx, effects, history)
    ensures Steps(tx, effects + [e], history)
  {
    forall k | 0 <= k < |history| - 1 ensures Step(tx, effects + [e], history, k) {
      assert Step(tx, effects, history, k);
      assert (effects + [e])[k] == effects[k];
    }
  }

  lemma AppendStep(tx: Transaction, effects: seq<Effect>, history: seq<Disk>, e: Effect, d': Disk)
    requires |effects| < |tx.operations| && |history| == |effects| + 1 && Steps(tx, effects, history) && e.after.Some?
    requires Happened(tx, tx.operations[|effects|], e.before, e.after.value, history[|effects|], d')
    ensures Steps(tx, effects + [e], history + [d'])
  {
    KeepSteps(tx, effects, history, e);
    var longer, history' := effects + [e], history + [d'];
    forall k | 0 <= k < |history'| - 1 ensures Step(tx, longer, history', k) {
      if k < |effects| {
        assert Step(tx, longer, history, k);
      }
    }
  }

  /** Logging an intent keeps the log written. */
  lemma IntentWritten(tx: Transaction, effects: seq<Effect>, history: seq<Disk>)
    requires |effects| < |tx.operations| && Complete(effects) && Written(tx, effects, history)
    requires |history| == |effects| + 1
    ensures var op := tx.operations[|effects|];
            var intent := Effect(op.index, AddUndo(Proven(tx, effects, |effects|), tx.Artifacts(), op), None);
            Written(tx, effects + [intent], history)
  {
    var op := tx.operations[|effects|];
    var intent := Effect(op.index, AddUndo(Proven(tx, effects, |effects|), tx.Artifacts(), op), None);
    var longer := effects + [intent];
    assert Proven(tx, longer, |effects|) == Proven(tx, effects, |effects|);
    AppendLinks(tx, effects, intent);
    assert longer[|effects|].after.None?;
    KeepSteps(tx, effects, history, intent);
  }

  /** Logging a result keeps it written. */
  lemma ResultWritten(tx: Transaction, effects: seq<Effect>, history: seq<Disk>, before: Manifest, observed: Manifest,
    handle: Option<nat>, after: Manifest, d': Disk)
    requires |effects| < |tx.operations| && Complete(effects) && Written(tx, effects, history)
    requires |history| == |effects| + 1
    requires before == AddUndo(Proven(tx, effects, |effects|), tx.Artifacts(), tx.operations[|effects|])
    requires OperationAfter(tx.Artifacts(), tx.operations[|effects|], before, observed, handle) == Ok(after)
    requires Happened(tx, tx.operations[|effects|], before, after, history[|effects|], d') && Stands(tx, d')
    ensures Written(tx, effects + [Effect(tx.operations[|effects|].index, before, Some(after))], history + [d'])
  {
    var e := Effect(tx.operations[|effects|].index, before, Some(after));
    ResultLinks(tx, effects, before, observed, handle, after);
    AppendLinks(tx, effects, e);
    AppendStep(tx, effects, history, e, d');
  }

  lemma ResultLinks(
      tx: Transaction, effects: seq<Effect>, before: Manifest, observed: Manifest, handle: Option<nat>, after: Manifest)
    requires |effects| < |tx.operations|
    requires before == AddUndo(Proven(tx, effects, |effects|), tx.Artifacts(), tx.operations[|effects|])
    requires OperationAfter(tx.Artifacts(), tx.operations[|effects|], before, observed, handle) == Ok(after)
    ensures Link(tx, effects + [Effect(tx.operations[|effects|].index, before, Some(after))], |effects|)
  {
    var op := tx.operations[|effects|];
    var longer := effects + [Effect(op.index, before, Some(after))];
    assert Proven(tx, longer, |effects|) == Proven(tx, effects, |effects|);
    ReplayConfirms(tx.Artifacts(), op, before, observed, handle, after);
  }

  /** Between two operations: all effects so far are complete and the disk is where the
      history ends. */
  ghost predicate Midway(tx: Transaction, start: Disk, progress: Progress, history: seq<Disk>, d: Disk) {
    && Accepted(tx, progress) && Complete(progress.effects)
    && Written(tx, progress.effects, history)
    && |history| == |progress.effects| + 1 && history[0] == start && history[|progress.effects|] == d
  }

  /** The commit loop between two operations. */
  ghost predicate Between(
      tx: Transaction, start: Disk, progress: Progress, expected: Manifest, history: seq<Disk>, d: Disk,
      log: Option<Progress>)
  {
    && TreeOk(start.tree)
    && Midway(tx, start, progress, history, d)
    && expected == Proven(tx, progress.effects, |progress.effects|)
    && Ready(tx, expected, |progress.effects|)
    && log == LoggedAs(progress)
    && (Runnable(tx, start) ==> OnPlan(tx, start, |progress.effects|, d, expected))
  }

  lemma StartIsBetween(tx: Transaction, d: Disk)
    requires WellFormed(tx) && Stands(tx, d)
    ensures Between(tx, d, NewProgress(tx), InitialManifest(tx), [d], d, None)
  {
    InitialIsReady(tx);
    if BeforeExact(tx, d.tree) {
      InitialIsExact(tx, d.tree);
    }
  }

  lemma OneIsPrepared(
      tx: Transaction, start: Disk, progress: Progress, expected: Manifest, history: seq<Disk>, d: Disk,
      log: Option<Progress>)
    requires WellFormed(tx) && |progress.effects| < |tx.operations|
    requires Between(tx, start, progress, expected, history, d, log)
    ensures var op := tx.operations[|progress.effects|];
            var before := AddUndo(expected, tx.Artifacts(), op);
            && TreeOk(d.tree)
            && Prepared(tx.Artifacts(), op, before)
            && (Runnable(tx, start) ==>
                  && Describes(before, d.tree)
                  && InStep(tx.Artifacts(), op, before, d)
                  && (CollidesAt(tx, start, |progress.effects|) <==> Collides(before.Keys, op, d.tree)))
  {
    ReadyPrepares(tx, expected, |progress.effects|);
    if Runnable(tx, start) {
      PlanPrepared(tx, start, |progress.effects|, d, expected);
    }
  }

  lemma OneIsDone(tx: Transaction, start: Disk, progress: Progress, expected: Manifest, history: seq<Disk>, d: Disk,
    history': seq<Disk>, d': Disk, after: Manifest)
    requires WellFormed(tx) && |progress.effects| < |tx.operations|
    requires Between(tx, start, progress, expected, history, d, LoggedAs(progress)) && TreeOk(d.tree)
    requires var before := AddUndo(expected, tx.Artifacts(), tx.operations[|progress.effects|]);
             && Describes(before, d.tree)
             && (exists handle :: Did(tx, tx.operations[|progress.effects|], before, d, d', handle, after))
             && Midway(tx, start, WithResult(tx, progress, before, after), history', d')
    requires Runnable(tx, start) ==> !CollidesAt(tx, start, |progress.effects|)
    ensures var before := AddUndo(expected, tx.Artifacts(), tx.operations[|progress.effects|]);
            var logged := WithResult(tx, progress, before, after);
            Between(tx, start, logged, after, history', d', Some(logged))
  {
    var k := |progress.effects|;
    var before := AddUndo(expected, tx.Artifacts(), tx.operations[k]);
    var handle :| Did(tx, tx.operations[k], before, d, d', handle, after);
    ReadyPrepares(tx, expected, k);
    AddUndoFits(tx, expected, k);
    ResultIsReady(tx, k, before, Observed(d'.tree, before), handle, after);
    if Runnable(tx, start) {
      PlanAdvances(tx, start, k, d, expected, d', handle, after);
    }
  }

  /** What the durable log says is true, wherever the commit stopped. */
  ghost predicate Truthful(tx: Transaction, log: Option<Progress>, history: seq<Disk>, d: Disk, start: Disk) {
    && TreeOk(d.tree)
    && |history| > 0 && history[0] == start
    && (log.Some? ==> Accepted(tx, log.value) && Written(tx, log.value.effects, history))
    && (log.Some? && Complete(log.value.effects) ==> d == history[|history| - 1])
    && (log.Some? && !Complete(log.value.effects) ==> Pending(tx, log.value.effects, history[|history| - 1], d))
    && (log.None? ==> d == start)
  }

  /** The last intent described the disk `d`, and its operation has got no further than
      `d'`. */
  ghost predicate Pending(tx: Transaction, effects: seq<Effect>, d: Disk, d': Disk)
  {
    && 0 < |effects| <= |tx.operations| && TreeOk(d.tree)
    && var op, before := tx.operations[|effects| - 1], effects[|effects| - 1].before;
       Describes(before, d.tree) && Halfway(tx.Artifacts(), op, d, IdentityAt(before, TargetPath(op)), d')
  }

  /** The operation has not begun, has been done, or was stopped in between. */
  ghost predicate Halfway(artifacts: Path, op: Operation, d: Disk, expected: Option<nat>, d': Disk)
    requires TreeOk(d.tree)
  {
    || d' == d
    || (exists handle :: ApplyEffect(artifacts, op, d, expected) == Ok((d', handle)))
    || Underway(artifacts, op, d, d')
  }

  /** A file that is being rewritten holds a prefix of its new bytes, or an overwriting
      rename has cleared its destination. */
  ghost predicate Underway(artifacts: Path, op: Operation, d: Disk, d': Disk)
    requires TreeOk(d.tree)
  {
    match op
    case Text(index, path, _, _, _) =>
      var staged := StagedPath(artifacts, index);
      && path in d.tree && d.tree[path].File? && staged in d.tree && d.tree[staged].File?
      && exists n: nat :: Truncated(d, path, d.tree[staged].bytes, n, d')
    case Rename(index, _, newPath, _, _) =>
      var cleared := Trees.Rename(d.tree, newPath, UndoPath(artifacts, index));
      cleared.Ok? && d' == d.(tree := cleared.value)
    case _ => false
  }

  /** The file holds the first `n` of the bytes. */
  predicate Truncated(d: Disk, path: Path, bytes: Bytes, n: nat, d': Disk)
    requires TreeOk(d.tree) && path in d.tree && d.tree[path].File?
  {
    n <= |bytes| && d' == d.(tree := Overwrite(d.tree, path, bytes[..n], d.tree[path].meta))
  }

  /** However far an operation has got, everything outside its own paths and its undo place
      is as it was. */
  lemma HalfwayIsLocal(artifacts: Path, op: Operation, d: Disk, expected: Option<nat>, d': Disk, p: Path)
    requires TreeOk(d.tree) && Halfway(artifacts, op, d, expected, d')
    requires (forall r :: r in OperationPaths(op) ==> !(r <= p)) && !(UndoPath(artifacts, op.index) <= p)
    ensures Same(d.tree, p, d'.tree, p)
  {
    match op
    case Rename(_, oldPath, newPath, _, _) =>
      assert oldPath in OperationPaths(op) && newPath in OperationPaths(op);
      RenameIsLocal(artifacts, op, d, expected, d', p);
    case _ => assert op.path in OperationPaths(op);
  }

  lemma RenameIsLocal(artifacts: Path, op: Operation, d: Disk, expected: Option<nat>, d': Disk, p: Path)
    requires op.Rename? && TreeOk(d.tree) && Halfway(artifacts, op, d, expected, d')
    requires !(op.oldPath <= p) && !(op.newPath <= p) && !(UndoPath(artifacts, op.index) <= p)
    ensures Same(d.tree, p, d'.tree, p)
  {
  }

  function LoggedAs(progress: Progress): Option<Progress> {
    if progress.effects == [] then None else Some(progress)
  }

  function WithIntent(tx: Transaction, progress: Progress, before: Manifest): Progress
    requires |progress.effects| < |tx.operations|
  {
    progress.(effects := progress.effects + [Effect(tx.operations[|progress.effects|].index, before, None)])
  }

  function WithResult(tx: Transaction, progress: Progress, before: Manifest, after: Manifest): Progress
    requires |progress.effects| < |tx.operations|
  {
    progress.(effects := progress.effects + [Effect(tx.operations[|progress.effects|].index, before, Some(after))])
  }

  /** The operation took place and left the recorded result. */
  ghost predicate Did(
      tx: Transaction, op: Operation, before: Manifest, d: Disk, d': Disk, handle: Option<nat>, after: Manifest)
    requires TreeOk(d.tree)
  {
    && ApplyEffect(tx.Artifacts(), op, d, IdentityAt(before, TargetPath(op))) == Ok((d', handle))
    && OperationAfter(tx.Artifacts(), op, before, Observed(d'.tree, before), handle) == Ok(after)
    && Describes(after, d'.tree)
  }

  /** Every tracked path can be inspected, and the tree is what the operation must have
      left. */
  ghost predicate Confirmed(tx: Transaction, op: Operation, before: Manifest, t: Tree, handle: Option<nat>) {
    && (forall q :: q in before ==> !Blocked(t, q))
    && var after := OperationAfter(tx.Artifacts(), op, before, Observed(t, before), handle);
       after.Ok? && Describes(after.value, t)
  }

  lemma InStepConfirms(tx: Transaction, op: Operation, before: Manifest, d: Disk, d': Disk, handle: Option<nat>)
    requires TreeOk(d.tree) && InStep(tx.Artifacts(), op, before, d)
    requires ApplyEffect(tx.Artifacts(), op, d, IdentityAt(before, TargetPath(op))) == Ok((d', handle))
    ensures Confirmed(tx, op, before, d'.tree, handle) <==> !Collides(before.Keys, op, d.tree)
  {
  }

  lemma MidwayIsTruthful(
      tx: Transaction, progress: Progress, before: Manifest, history: seq<Disk>, d: Disk, start: Disk)
    requires Midway(tx, start, progress, history, d) && |progress.effects| < |tx.operations|
    requires before ==
      AddUndo(Proven(tx, progress.effects, |progress.effects|), tx.Artifacts(), tx.operations[|progress.effects|])
    ensures Truthful(tx, LoggedAs(progress), history, d, start)
    ensures Describes(before, d.tree) ==> Truthful(tx, Some(WithIntent(tx, progress, before)), history, d, start)
  {
    IntentWritten(tx, progress.effects, history);
    assert WithIntent(tx, progress, before).effects[|progress.effects|].after.None?;
  }

  /** While an intent is pending the log tells the truth of every disk its operation can
      be stopped at. */
  lemma PendingIsTruthful(
      tx: Transaction, progress: Progress, before: Manifest, history: seq<Disk>, d': Disk, start: Disk)
    requires |progress.effects| < |tx.operations| && |history| > 0
    requires Truthful(tx, Some(WithIntent(tx, progress, before)), history, history[|history| - 1], start)
    requires
      var op := tx.operations[|progress.effects|];
      TreeOk(history[|history| - 1].tree)
      && Halfway(tx.Artifacts(), op, history[|history| - 1], IdentityAt(before, TargetPath(op)), d')
    requires TreeOk(d'.tree)
    ensures Truthful(tx, Some(WithIntent(tx, progress, before)), history, d', start)
  {
    assert WithIntent(tx, progress, before).effects[|progress.effects|].after.None?;
  }

  lemma ResultIsMidway(tx: Transaction, progress: Progress, before: Manifest, observed: Manifest, handle: Option<nat>,
    after: Manifest, history: seq<Disk>, d: Disk, d': Disk, start: Disk)
    requires Midway(tx, start, progress, history, d) && |progress.effects| < |tx.operations|
    requires before ==
      AddUndo(Proven(tx, progress.effects, |progress.effects|), tx.Artifacts(), tx.operations[|progress.effects|])
    requires OperationAfter(tx.Artifacts(), tx.operations[|progress.effects|], before, observed, handle) == Ok(after)
    requires Happened(tx, tx.operations[|progress.effects|], before, after, d, d') && Stands(tx, d')
    ensures Midway(tx, start, WithResult(tx, progress, before, after), history + [d'], d')
    ensures Truthful(tx, Some(WithResult(tx, progress, before, after)), history + [d'], d', start)
  {
    ResultWritten(tx, progress.effects, history, before, observed, handle, after, d');
  }
}
