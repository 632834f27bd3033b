/** The commit log: what is recorded before and after every effect, how a log read back
    is validated, and what a validated log says about the effects. */
module CommitLog {
  import opened Paths
  import opened Results
  import opened ByteStrings
  import opened Trees
  import opened Manifests
  import opened Operations
  import opened Transactions
  import opened Lockstep
  import opened Reversal

  /** An absent result is a pending intent, never evidence that nothing happened. */
  datatype Effect = Effect(index: nat, before: Manifest, after: Option<Manifest>)

  /** The two digests that bind a log to its transaction stand for what they digest. */
  datatype Progress = Progress(
    version: nat,
    transaction: nat,
    operations: seq<Operation>,
    before: Manifest,
    effects: seq<Effect>)

  function NewProgress(tx: Transaction): Progress {
    Progress(1, tx.id, tx.operations, tx.before, [])
  }

  predicate Complete(effects: seq<Effect>) {
    forall k | 0 <= k < |effects| :: effects[k].after.Some?
  }

  /** What the log proves before effect `k`. */
  function Proven(tx: Transaction, effects: seq<Effect>, k: nat): Manifest
    requires k <= |effects|
  {
    if k == 0 then InitialManifest(tx)
    else if effects[k - 1].after.Some? then effects[k - 1].after.value
    else effects[k - 1].before
  }

  /** The handle a recorded result vouches for. */
  function RecordedHandle(op: Operation, after: Manifest): Option<nat> {
    if op.Rename? || op.Delete? then None else IdentityAt(after, op.path)
  }

  /** Effect `k` starts from what was proven and, if it has a result, has the one its
      operation must leave. Only the last effect may lack a result. */
  predicate Link(tx: Transaction, effects: seq<Effect>, k: nat)
    requires k < |effects| <= |tx.operations|
  {
    var e, op := effects[k], tx.operations[k];
    && e.index == op.index
    && e.before == AddUndo(Proven(tx, effects, k), tx.Artifacts(), op)
    && match e.after
       case None => k + 1 == |effects|
       case Some(after) =>
         && (op.Rename? || op.Delete? || op.path in after)
         && OperationAfter(tx.Artifacts(), op, e.before, after, RecordedHandle(op, after)) == Ok(after)
  }

  predicate Binds(tx: Transaction, progress: Progress) {
    && progress.version == 1 && progress.transaction == tx.id
    && progress.operations == tx.operations && progress.before == tx.before
    && |progress.effects| <= |tx.operations|
  }

  /** A log is accepted for the transaction that began it, and for no other. */
  lemma AcceptedForItsOwn(tx: Transaction, other: Transaction, progress: Progress)
    requires Accepted(tx, progress)
    ensures progress.(effects := []) == NewProgress(tx)
    ensures Accepted(other, progress) ==> NewProgress(other) == NewProgress(tx)
  {
  }

  predicate Links(tx: Transaction, effects: seq<Effect>)
    requires |effects| <= |tx.operations|
  {
    forall k | 0 <= k < |effects| :: Link(tx, effects, k)
  }

  /** A log bound to the transaction whose effects form a chain from its initial
      manifest. */
  predicate Accepted(tx: Transaction, progress: Progress) {
    Binds(tx, progress) && Links(tx, progress.effects)
  }

  /** The validation loop accepts exactly the bound chains. */
  method ReadProgress(tx: Transaction, progress: Progress) returns (ok: bool)
    ensures ok <==> Accepted(tx, progress)
  {
    if !Binds(tx, progress) {
      return false;
    }
    var expected, effects := InitialManifest(tx), progress.effects;
    for position := 0 to |effects|
      invariant expected == Proven(tx, effects, position)
      invariant forall k | 0 <= k < position :: Link(tx, effects, k)
    {
      var linked := CheckEffect(tx, effects, position, expected);
      if !linked {
        return false;
      }
      if effects[position].after.Some? {
        expected := effects[position].after.value;
      } else {
        expected := effects[position].before;
      }
    }
    return true;
  }

  /** One turn of the validation loop. */
  method CheckEffect(tx: Transaction, effects: seq<Effect>, position: nat, expected: Manifest) returns (ok: bool)
    requires position < |effects| <= |tx.operations| && expected == Proven(tx, effects, position)
    ensures ok <==> Link(tx, effects, position)
  {
    var op, effect := tx.operations[position], effects[position];
    var before := AddUndo(expected, tx.Artifacts(), op);
    if effect.index != op.index || effect.before != before {
      return false;
    }
    match effect.after {
      case Some(after) =>
        var handle: Option<nat> := None;
        if op.Text? || op.Create? {
          if op.path !in after {
            return false;
          }
          handle := after[op.path].identity;
        }
        var result := OperationAfter(tx.Artifacts(), op, before, after, handle);
        return result == Ok(after);
      case None =>
        return position + 1 == |effects|;
    }
  }

  /** A recorded result is confirmed again when the log is read back. */
  lemma ReplayConfirms(
      artifacts: Path, op: Operation, before: Manifest, observed: Manifest, handle: Option<nat>, after: Manifest)
    requires OperationAfter(artifacts, op, before, observed, handle) == Ok(after)
    ensures op.Rename? || op.Delete? || op.path in after
    ensures OperationAfter(artifacts, op, before, after, RecordedHandle(op, after)) == Ok(after)
  {
    match op
    case Create(_, path, _, _) =>
      if path in before && !before[path].present {
        assert after[path] == observed[path];
      }
    case _ =>
  }

  lemma ResultIsRefreshed(
      artifacts: Path, op: Operation, before: Manifest, observed: Manifest, handle: Option<nat>, after: Manifest)
    requires OperationAfter(artifacts, op, before, observed, handle) == Ok(after) && Refresh(before) == before
    ensures Refresh(after) == after
  {
    match op
    case Text(_, path, _, digest, _) => RefreshIdempotent(before[path := before[path].(content := Some(digest))]);
    case Create(_, path, overwrite, _) =>
      if before[path].present && overwrite {
        RefreshIdempotent(before[path := before[path].(content := Some(OfBytes([])))]);
      } else if !before[path].present {
        RefreshIdempotent(before[path := observed[path]]);
      }
    case Rename(index, oldPath, newPath, overwrite, _) =>
      if newPath in before && before[newPath].present {
        if overwrite {
          var cleared := TransferManifest(before, newPath, UndoPath(artifacts, index)).value;
          RefreshIdempotent(TransferManifest(cleared, oldPath, newPath).value);
        }
      } else {
        RefreshIdempotent(TransferManifest(before, oldPath, newPath).value);
      }
    case Delete(index, path, _, _) =>
      if path in before && before[path].present {
        RefreshIdempotent(TransferManifest(before, path, UndoPath(artifacts, index)).value);
      }
  }

  /** Whatever an operation still to come moves is certified as a whole, and no undo
      place still to come is tracked. */
  ghost predicate Fit(tx: Transaction, m: Manifest, k: nat) {
    tx.before.Keys <= m.Keys && CertifiedWhereMoved(tx, m) && UndoFree(tx, m, k)
  }

  ghost predicate CertifiedWhereMoved(tx: Transaction, m: Manifest) {
    forall op, p :: op in tx.operations && p in m && m[p].present && m[p].kind.DirectoryKind? && MovesAway(op, p) ==>
      m[p].content.Some?
  }

  ghost predicate UndoFree(tx: Transaction, m: Manifest, k: nat) {
    forall j, q :: k <= j < |tx.operations| && q in m ==> !(UndoPath(tx.Artifacts(), tx.operations[j].index) <= q)
  }

  /** Between two effects the manifest is ready for every operation still to come. */
  ghost predicate Ready(tx: Transaction, m: Manifest, k: nat) {
    Refresh(m) == m && Fit(tx, m, k)
  }

  lemma InitialIsReady(tx: Transaction)
    requires WellFormed(tx)
    ensures Ready(tx, InitialManifest(tx), 0)
    ensures InitialManifest(tx).Keys == tx.before.Keys + tx.intended.Keys
  {
    var planned := (map p | p in tx.intended :: MISSING) + tx.before;
    var marked := map p | p in planned ::
      if planned[p].kind.DirectoryKind? && exists op | op in tx.operations :: MovesAway(op, p)
      then planned[p].(content := Some(Placeholder)) else planned[p];
    RefreshIdempotent(marked);
    var m := InitialManifest(tx);
    assert m == Refresh(marked);
    forall j, q | 0 <= j < |tx.operations| && q in m ensures !(UndoPath(tx.Artifacts(), tx.operations[j].index) <= q) {
      assert q in tx.before.Keys + tx.intended.Keys;
    }
    forall op, p | op in tx.operations && p in m && m[p].present && m[p].kind.DirectoryKind? && MovesAway(op, p)
      ensures m[p].content.Some?
    {
      assert marked[p].content.Some?;
    }
  }

  lemma ReadyPrepares(tx: Transaction, m: Manifest, k: nat)
    requires WellFormed(tx) && k < |tx.operations| && Ready(tx, m, k)
    ensures Prepared(tx.Artifacts(), tx.operations[k], AddUndo(m, tx.Artifacts(), tx.operations[k]))
  {
    var op, artifacts := tx.operations[k], tx.Artifacts();
    var before := AddUndo(m, artifacts, op);
    assert op in tx.operations;
    AddUndoRefreshed(m, artifacts, op);
    forall p | p in OperationPaths(op) ensures p in before && p != [] && !(artifacts <= p) {
      assert p in tx.before.Keys + tx.intended.Keys;
    }
    forall p | p in before && before[p].present && before[p].kind.DirectoryKind? && MovesAway(op, p)
      ensures before[p].content.Some?
    {
      assert p in m && before[p] == m[p];
    }
    if RemovedRoot(op).Some? {
      var root, undo := RemovedRoot(op).value, UndoPath(artifacts, op.index);
      assert root in OperationPaths(op);
      assert Rebase(undo, undo, root) == root;
      assert undo in before && before[undo] == MISSING;
    }
  }

  /** Missing undo places change no certificate. */
  lemma AddUndoRefreshed(m: Manifest, artifacts: Path, op: Operation)
    requires Refresh(m) == m
    requires RemovedRoot(op).Some? ==> forall q :: q in m ==> !(UndoPath(artifacts, op.index) <= q)
    ensures Refresh(AddUndo(m, artifacts, op)) == AddUndo(m, artifacts, op)
  {
    var before := AddUndo(m, artifacts, op);
    forall p | p in before ensures Refresh(before)[p] == before[p] {
      if Certified(before[p]) {
        assert p in m && before[p] == m[p];
        assert Refresh(m)[p] == m[p];
        ListedIgnoresMissing(m, before, p);
      }
    }
  }

  lemma ListedIgnoresMissing(m: Manifest, before: Manifest, d: Path)
    requires forall q :: q in m ==> q in before && before[q] == m[q]
    requires forall q :: q in before && q !in m ==> before[q] == MISSING
    ensures Listed(before, d) == Listed(m, d)
  {
    forall x ensures x in Listed(m, d) <==> x in Listed(before, d) {
      if x in Listed(m, d) {
        var q :| q in m && m[q].present && IsChild(d, q) && x == (Last(q), m[q].kind);
        assert q in before && before[q].present;
      }
      if x in Listed(before, d) {
        var q :| q in before && before[q].present && IsChild(d, q) && x == (Last(q), before[q].kind);
        assert q in m;
      }
    }
  }

  lemma AddUndoFits(tx: Transaction, m: Manifest, k: nat)
    requires WellFormed(tx) && k < |tx.operations| && Ready(tx, m, k)
    ensures Ready(tx, AddUndo(m, tx.Artifacts(), tx.operations[k]), k + 1)
  {
    var op, before := tx.operations[k], AddUndo(m, tx.Artifacts(), tx.operations[k]);
    AddUndoRefreshed(m, tx.Artifacts(), op);
    forall o, p |
      o in tx.operations && p in before && before[p].present && before[p].kind.DirectoryKind? && MovesAway(o, p)
      ensures before[p].content.Some?
    {
      assert p in m && before[p] == m[p];
    }
    forall j, q | k + 1 <= j < |tx.operations| && q in before
      ensures !(UndoPath(tx.Artifacts(), tx.operations[j].index) <= q)
    {
      if q !in m {
        UndoPlacesDiffer(tx, k, j, q);
      }
    }
  }

  lemma UndoPlacesDiffer(tx: Transaction, k: nat, j: nat, q: Path)
    requires WellFormed(tx) && k < j < |tx.operations|
    requires UndoPath(tx.Artifacts(), tx.operations[k].index) <= q
    ensures !(UndoPath(tx.Artifacts(), tx.operations[j].index) <= q)
  {
    assert q[1] == UndoName(tx.operations[k].index);
  }

  /** A carry to a path outside the artifacts, or to the undo place of operation `k`. */
  lemma CarryFits(tx: Transaction, m: Manifest, k: nat, from: Path, to: Path)
    requires WellFormed(tx) && k < |tx.operations| && Fit(tx, m, k + 1) && Transferable(m, from)
    requires (to != [] && !(tx.Artifacts() <= to)) || to == UndoPath(tx.Artifacts(), tx.operations[k].index)
    ensures Fit(tx, Carried(m, from, to, Departing(m, from)), k + 1)
  {
    var r := Carried(m, from, to, Departing(m, from));
    CarriedEntries(m, from, to, Departing(m, from));
    forall o, p | o in tx.operations && p in r && r[p].present && r[p].kind.DirectoryKind? && MovesAway(o, p)
      ensures r[p].content.Some?
    {
      if Arrival(Departing(m, from), from, to, p) {
        assert Rebase(p, to, from) in m;
      } else {
        assert p in m && r[p] == m[p];
      }
    }
    forall j, q | k + 1 <= j < |tx.operations| && q in r
      ensures !(UndoPath(tx.Artifacts(), tx.operations[j].index) <= q)
    {
      if q !in m {
        assert to <= q;
        if to == UndoPath(tx.Artifacts(), tx.operations[k].index) {
          UndoPlacesDiffer(tx, k, j, q);
        } else {
          UndoIsApart(tx.Artifacts(), to, tx.operations[j].index);
          assert q[0] == to[0];
          assert to[0] != ArtifactName(tx.id);
        }
      }
    }
  }

  lemma RefreshFits(tx: Transaction, m: Manifest, k: nat)
    requires Fit(tx, m, k + 1)
    ensures Fit(tx, Refresh(m), k + 1)
  {
    forall o, p |
      o in tx.operations && p in m && Refresh(m)[p].present && Refresh(m)[p].kind.DirectoryKind? && MovesAway(o, p)
      ensures Refresh(m)[p].content.Some?
    {
      assert m[p].content.Some?;
    }
  }

  lemma ChangedFileFits(tx: Transaction, m: Manifest, k: nat, p: Path, e: Entry)
    requires Fit(tx, m, k + 1) && p in m
    requires e.kind.DirectoryKind? ==> m[p] == e.(content := m[p].content) && (m[p].content.Some? ==> e.content.Some?)
    ensures Fit(tx, m[p := e], k + 1)
  {
  }

  /** After its result, the manifest is ready for the next operation. */
  lemma ResultIsReady(
      tx: Transaction, k: nat, before: Manifest, observed: Manifest, handle: Option<nat>, after: Manifest)
    requires WellFormed(tx) && k < |tx.operations| && Ready(tx, before, k + 1)
    requires OperationAfter(tx.Artifacts(), tx.operations[k], before, observed, handle) == Ok(after)
    ensures Ready(tx, after, k + 1)
  {
    var op, artifacts := tx.operations[k], tx.Artifacts();
    ResultIsRefreshed(artifacts, op, before, observed, handle, after);
    match op
    case Text(_, path, _, digest, _) =>
      ChangedFileFits(tx, before, k, path, before[path].(content := Some(digest)));
      RefreshFits(tx, before[path := before[path].(content := Some(digest))], k);
    case Create(_, path, overwrite, _) =>
      if before[path].present && overwrite {
        ChangedFileFits(tx, before, k, path, before[path].(content := Some(OfBytes([]))));
        RefreshFits(tx, before[path := before[path].(content := Some(OfBytes([])))], k);
      } else if !before[path].present {
        ChangedFileFits(tx, before, k, path, observed[path]);
        RefreshFits(tx, before[path := observed[path]], k);
      }
    case Rename(index, oldPath, newPath, overwrite, _) =>
      RenameResultFits(tx, k, before, observed, handle, after);
    case Delete(index, path, _, _) =>
      if path in before && before[path].present {
        CarryFits(tx, before, k, path, UndoPath(artifacts, index));
        RefreshFits(tx, TransferManifest(before, path, UndoPath(artifacts, index)).value, k);
      }
  }

  lemma RenameResultFits(
      tx: Transaction, k: nat, before: Manifest, observed: Manifest, handle: Option<nat>, after: Manifest)
    requires WellFormed(tx) && k < |tx.operations| && Ready(tx, before, k + 1) && tx.operations[k].Rename?
    requires OperationAfter(tx.Artifacts(), tx.operations[k], before, observed, handle) == Ok(after)
    ensures Fit(tx, after, k + 1)
  {
    var op, undo := tx.operations[k], UndoPath(tx.Artifacts(), tx.operations[k].index);
    assert op in tx.operations && op.newPath in OperationPaths(op);
    assert op.newPath in tx.before.Keys + tx.intended.Keys;
    if op.newPath in before && before[op.newPath].present {
      if op.overwrite {
        var cleared := TransferManifest(before, op.newPath, undo).value;
        CarryFits(tx, before, k, op.newPath, undo);
        CarryFits(tx, cleared, k, op.oldPath, op.newPath);
        RefreshFits(tx, TransferManifest(cleared, op.oldPath, op.newPath).value, k);
      }
    } else {
      CarryFits(tx, before, k, op.oldPath, op.newPath);
      RefreshFits(tx, TransferManifest(before, op.oldPath, op.newPath).value, k);
    }
  }
}
