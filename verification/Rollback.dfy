/** The reverse run over a commit log: why no step of it can fail once its checks have
    passed, and why it ends where the commit began. */
module Rollback {
  import opened Paths
  import opened Results
  import opened Trees
  import opened Manifests
  import opened Operations
  import opened Transactions
  import opened Simulation
  import opened Lockstep
  import opened Reversal
  import opened CommitLog
  import opened History

  /** An observation meets a recorded expectation. */
  predicate Matches(expected: Entry, actual: Entry) {
    && expected.present == actual.present && expected.kind == actual.kind
    && (expected.identity.Some? ==> expected.identity == actual.identity)
    && (expected.content.Some? ==> expected.content == actual.content)
    && (expected.metadata.Some? ==> expected.metadata == actual.metadata)
  }

  predicate NoMismatch(expected: Manifest, actual: Manifest) {
    forall p | p in expected :: Matches(expected[p], if p in actual then actual[p] else MISSING)
  }

  /** What recovery inspects: every planned path, enumerating a directory that any of the
      recorded manifests certifies. */
  function Template(tx: Transaction): Manifest {
    map p | p in tx.before.Keys + tx.intended.Keys ::
      if CertifiedAt(tx.observed, p) then tx.observed[p]
      else if CertifiedAt(tx.intended, p) then tx.intended[p]
      else if CertifiedAt(tx.before, p) then tx.before[p]
      else if p in tx.intended then tx.intended[p] else tx.before[p]
  }

  /** The before manifest is met again. */
  predicate Restored(tx: Transaction, t: Tree) {
    var current := Inspect(t, Template(tx));
    current.Ok? && NoMismatch(tx.before, current.value)
  }

  /** What lies at `p` is what lay there in `start`: the same file with the same bytes, or
      the same directory, or nothing. */
  predicate SameAt(start: Tree, t: Tree, p: Path) {
    && (p in t <==> p in start)
    && (p in t ==>
          if start[p].File? then t[p] == start[p]
          else t[p].Dir? && t[p].id == start[p].id && t[p].meta == start[p].meta)
  }

  /** The directory has the children it had, files for files and directories for
      directories. */
  ghost predicate SameChildren(start: Tree, t: Tree, d: Path) {
    forall q :: IsChild(d, q) ==> (q in t <==> q in start) && (q in t ==> t[q].File? == start[q].File?)
  }

  /** Everything the before manifest tracks is as it was in `start`, down to the children
      of the directories it certifies, and every planned path can be looked up. */
  ghost predicate AsInStart(tx: Transaction, start: Tree, t: Tree) {
    && (forall p :: p in tx.before ==> SameAt(start, t, p))
    && (forall d :: d in tx.before && d in start && Certified(tx.before[d]) ==> SameChildren(start, t, d))
    && (forall p :: p in tx.before.Keys + tx.intended.Keys ==> !Blocked(t, p))
  }

  lemma MembersAreChildren(start: Tree, t: Tree, d: Path)
    ensures Members(t, d) == Members(start, d) <==> SameChildren(start, t, d)
  {
    if Members(t, d) == Members(start, d) {
      forall q | IsChild(d, q) ensures (q in t <==> q in start) && (q in t ==> t[q].File? == start[q].File?) {
        MemberIsChild(start, d, q);
        MemberIsChild(t, d, q);
        assert q in t ==> (Last(q), KindOf(t[q])) in Members(t, d);
        assert q in start ==> (Last(q), KindOf(start[q])) in Members(start, d);
      }
    } else if SameChildren(start, t, d) {
      forall x ensures x in Members(t, d) <==> x in Members(start, d) {
        ChildIsMember(start, t, d, x);
        ChildIsMember(t, start, d, x);
      }
    }
  }

  lemma MemberIsChild(t: Tree, d: Path, q: Path)
    requires IsChild(d, q)
    ensures forall kind :: (Last(q), kind) in Members(t, d) <==> q in t && KindOf(t[q]) == kind
  {
    forall c | IsChild(d, c) && Last(c) == Last(q) ensures c == q {
      assert c == Parent(c) + [Last(c)] && q == Parent(q) + [Last(q)];
    }
  }

  lemma ChildIsMember(start: Tree, t: Tree, d: Path, x: (Name, Kind))
    requires forall q :: IsChild(d, q) && q in t ==> q in start && t[q].File? == start[q].File?
    ensures x in Members(t, d) ==> x in Members(start, d)
  {
    if x in Members(t, d) {
      var q :| q in t && IsChild(d, q) && x == (Last(q), KindOf(t[q]));
      assert q in start && KindOf(start[q]) == KindOf(t[q]);
    }
  }

  /** One comparison of the before manifest of `start` with what is observed now. */
  lemma MatchIsSame(start: Tree, t: Tree, p: Path, certified: bool, watched: bool)
    requires certified ==> watched
    ensures Matches(Seen(start, p, certified), Seen(t, p, watched)) <==>
      SameAt(start, t, p) && (certified && p in start && start[p].Dir? ==> SameChildren(start, t, p))
  {
    MembersAreChildren(start, t, p);
  }

  lemma TemplateWatches(tx: Transaction, p: Path)
    requires p in tx.before && Certified(tx.before[p])
    ensures p in Template(tx) && Certified(Template(tx)[p])
  {
  }

  lemma PathIsOriginal(tx: Transaction, start: Tree, t: Tree, p: Path)
    requires Describes(tx.before, start) && p in tx.before
    ensures p in Template(tx)
    ensures Matches(tx.before[p], Seen(t, p, Certified(Template(tx)[p]))) <==>
      SameAt(start, t, p) && (p in start && Certified(tx.before[p]) ==> SameChildren(start, t, p))
  {
    var certified := Certified(tx.before[p]);
    assert tx.before[p] == Seen(start, p, certified);
    if certified { TemplateWatches(tx, p); }
    MatchIsSame(start, t, p, certified, Certified(Template(tx)[p]));
  }

  /** The comparison with the before manifest passes exactly when everything it tracks is
      what it was in the tree the manifest was made from. */
  lemma RestoredIsOriginal(tx: Transaction, start: Tree, t: Tree)
    requires Describes(tx.before, start)
    ensures Restored(tx, t) <==> AsInStart(tx, start, t)
  {
    forall p | p in tx.before
      ensures Matches(tx.before[p], Seen(t, p, Certified(Template(tx)[p]))) <==>
        SameAt(start, t, p) && (p in start && Certified(tx.before[p]) ==> SameChildren(start, t, p))
    {
      PathIsOriginal(tx, start, t, p);
    }
    ComparedAtEach(tx, t);
  }

  lemma ComparedAtEach(tx: Transaction, t: Tree)
    ensures tx.before.Keys + tx.intended.Keys == Template(tx).Keys
    ensures Restored(tx, t) <==>
      && (forall p :: p in Template(tx) ==> !Blocked(t, p))
      && (forall p :: p in tx.before ==> Matches(tx.before[p], Seen(t, p, Certified(Template(tx)[p]))))
  {
    if forall p :: p in Template(tx) ==> !Blocked(t, p) {
      var current := Observed(t, Template(tx));
      assert forall p :: p in tx.before ==> p in current && current[p] == Seen(t, p, Certified(Template(tx)[p]));
    }
  }

  lemma RestoredMeans(tx: Transaction, t: Tree)
    ensures forall start: Tree {:trigger AsInStart(tx, start, t)} ::
      Describes(tx.before, start) ==> (Restored(tx, t) <==> AsInStart(tx, start, t))
  {
    forall start: Tree | Describes(tx.before, start) ensures Restored(tx, t) <==> AsInStart(tx, start, t) {
      RestoredIsOriginal(tx, start, t);
    }
  }

  function Restrict(m: Manifest, keys: set<Path>): Manifest {
    map p | p in m && p in keys :: m[p]
  }

  /** Every accepted chain keeps the manifest ready for the next operation. */
  lemma {:induction false} ChainIsReady(tx: Transaction, effects: seq<Effect>, k: nat)
    requires WellFormed(tx) && k <= |effects| <= |tx.operations| && Complete(effects)
    requires Links(tx, effects)
    ensures Ready(tx, Proven(tx, effects, k), k)
    decreases k
  {
    if k == 0 {
      InitialIsReady(tx);
    } else {
      ChainIsReady(tx, effects, k - 1);
      NextIsReady(tx, effects, k - 1);
    }
  }

  lemma NextIsReady(tx: Transaction, effects: seq<Effect>, k: nat)
    requires WellFormed(tx) && k < |effects| <= |tx.operations| && Complete(effects) && Links(tx, effects)
    requires Ready(tx, Proven(tx, effects, k), k)
    ensures Ready(tx, Proven(tx, effects, k + 1), k + 1)
  {
    var op, e := tx.operations[k], effects[k];
    AddUndoFits(tx, Proven(tx, effects, k), k);
    LinkAt(tx, effects, k);
    ResultIsReady(tx, k, e.before, e.after.value, RecordedHandle(op, e.after.value), e.after.value);
  }

  lemma LinkAt(tx: Transaction, effects: seq<Effect>, k: nat)
    requires k < |effects| <= |tx.operations| && Links(tx, effects)
    ensures effects[k].index == tx.operations[k].index
    ensures effects[k].before == AddUndo(Proven(tx, effects, k), tx.Artifacts(), tx.operations[k])
    ensures effects[k].after.Some? ==>
      OperationAfter(tx.Artifacts(), tx.operations[k], effects[k].before, effects[k].after.value,
      RecordedHandle(tx.operations[k], effects[k].after.value)) == Ok(effects[k].after.value)
  {
    assert Link(tx, effects, k);
  }

  /** A later operation adds only missing undo places, so dropping them gives back the
      previous result: the undo chain of an accepted log never breaks. */
  lemma UndoChainHolds(tx: Transaction, effects: seq<Effect>, k: nat)
    requires WellFormed(tx) && 0 < k < |effects| <= |tx.operations| && Complete(effects)
    requires Links(tx, effects)
    ensures Restrict(effects[k].before, effects[k - 1].after.value.Keys) == effects[k - 1].after.value
  {
    ChainIsReady(tx, effects, k);
    assert Link(tx, effects, k);
    var previous := effects[k - 1].after.value;
    assert effects[k].before == AddUndo(previous, tx.Artifacts(), tx.operations[k]);
    assert forall p :: p in previous ==> p in effects[k].before && effects[k].before[p] == previous[p];
  }

  /** A tree described with the undo places of an operation is described without them. */
  lemma DropUndoDescribes(tx: Transaction, effects: seq<Effect>, k: nat, t: Tree)
    requires WellFormed(tx) && k < |effects| <= |tx.operations| && Complete(effects)
    requires Links(tx, effects)
    requires Describes(effects[k].before, t)
    ensures Describes(Proven(tx, effects, k), t)
  {
    ChainIsReady(tx, effects, k);
    assert Link(tx, effects, k);
    var m := Proven(tx, effects, k);
    forall p | p in m ensures !Blocked(t, p) && m[p] == Seen(t, p, Certified(m[p])) {
      assert p in effects[k].before && effects[k].before[p] == m[p];
    }
  }

  /** Once the first precondition is met again, the final check passes. */
  lemma RestoredAtStart(tx: Transaction, first: Manifest, t: Tree)
    requires Describes(first, t) && tx.before.Keys + tx.intended.Keys <= first.Keys
    requires NoMismatch(tx.before, first)
    ensures Restored(tx, t)
  {
    var template := Template(tx);
    assert Inspect(t, template) == Ok(Observed(t, template));
    var current := Observed(t, template);
    forall p | p in tx.before ensures Matches(tx.before[p], current[p]) {
      assert Matches(tx.before[p], first[p]);
      assert first[p] == Seen(t, p, Certified(first[p]));
      assert current[p] == Seen(t, p, Certified(template[p]));
      assert Certified(tx.before[p]) ==> Certified(template[p]);
    }
  }

  /** A parent directory no manifest tracks is out of reach of the effect... */
  lemma UntrackedSurvives(tx: Transaction, op: Operation, before: Manifest, after: Manifest, d: Disk, d': Disk, p: Path)
    requires Happened(tx, op, before, after, d, d')
    requires p in d.tree && d.tree[p].Dir? && p !in before && !(tx.Artifacts() <= p)
    ensures p in d'.tree && d'.tree[p].Dir? && p !in after
  {
    match op
    case Rename(_, oldPath, newPath, overwrite, _) =>
      if newPath !in d.tree {
        MovedCarry(tx, op, before, after, d, d');
        CarrySpares(before, d.tree, oldPath, newPath, p);
      } else if overwrite {
        var m1, g1 := OverwriteHappened(tx, op, before, after, d, d');
        OverwriteSpares(tx.Artifacts(), op, before, d.tree, m1, g1, after, d'.tree, p);
      }
    case Delete(_, path, _, _) =>
      if path in d.tree {
        DeletedCarry(tx, op, before, after, d, d');
        CarrySpares(before, d.tree, path, UndoPath(tx.Artifacts(), op.index), p);
      }
    case _ =>
  }

  lemma CarrySpares(m: Manifest, g: Tree, from: Path, to: Path, p: Path)
    requires CanCarry(m, g, from, to) && Free(g, to) && p in g && p !in m
    ensures !(from <= p) && !(to <= p)
    ensures p in Relocate(g, from, to) && Relocate(g, from, to)[p] == g[p]
    ensures p !in Carried(m, from, to, Departing(m, from))
  {
    CanCarryFree(m, g, from, to);
    CarriedEntries(m, from, to, Departing(m, from));
  }

  lemma OverwriteSpares(
      artifacts: Path, op: Operation, m: Manifest, g: Tree, m1: Manifest, g1: Tree, after: Manifest, g2: Tree, p: Path)
    requires Overwrote(artifacts, op, m, g, m1, g1, after, g2) && p in g && p !in m
    ensures !(op.newPath <= p) && !(UndoPath(artifacts, op.index) <= p) && !(op.oldPath <= p)
    ensures p in g2 && g2[p] == g[p] && p !in after
  {
    SecondCarry(artifacts, op, m, g, m1, g1, after, g2);
    CarrySpares(m, g, op.newPath, UndoPath(artifacts, op.index), p);
    CarrySpares(m1, g1, op.oldPath, op.newPath, p);
  }

  /** ... and of its undo. */
  lemma UntrackedOutlivesUndo(
      tx: Transaction, op: Operation, before: Manifest, after: Manifest, d: Disk, d': Disk, t: Tree, p: Path)
    requires Happened(tx, op, before, after, d, d') && TreeOk(t)
    requires p in d.tree && d.tree[p].Dir? && p !in before && !(tx.Artifacts() <= p)
    requires p in t && t[p].Dir?
    requires UndoEffect(tx, op, before, after, t).Ok?
    ensures p in UndoEffect(tx, op, before, after, t).value && UndoEffect(tx, op, before, after, t).value[p].Dir?
  {
    if op.Rename? && before != after {
      UntrackedIsApart(tx, op, before, after, d, d', p);
    }
    assert tx.Artifacts() <= UndoPath(tx.Artifacts(), op.index);
    UndoSpares(tx, op, before, after, t, p);
  }

  lemma UntrackedIsApart(tx: Transaction, op: Operation, before: Manifest, after: Manifest, d: Disk, d': Disk, p: Path)
    requires Happened(tx, op, before, after, d, d') && op.Rename? && before != after
    requires p in d.tree && p !in before
    ensures !(op.newPath <= p)
  {
    if op.newPath !in d.tree {
      MovedCarry(tx, op, before, after, d, d');
      CarrySpares(before, d.tree, op.oldPath, op.newPath, p);
    } else if op.overwrite {
      var m1, g1 := OverwriteHappened(tx, op, before, after, d, d');
      OverwriteSpares(tx.Artifacts(), op, before, d.tree, m1, g1, after, d'.tree, p);
    }
  }

  lemma UndoSpares(tx: Transaction, op: Operation, before: Manifest, after: Manifest, t: Tree, p: Path)
    requires TreeOk(t) && UndoEffect(tx, op, before, after, t).Ok? && p in t
    requires !(UndoPath(tx.Artifacts(), op.index) <= p)
    requires op.Rename? && before != after ==> !(op.newPath <= p)
    requires op.Text? || op.Create? ==> t[p].Dir? || p != op.path
    ensures p in UndoEffect(tx, op, before, after, t).value && UndoEffect(tx, op, before, after, t).value[p] == t[p]
  {
    var undo := UndoPath(tx.Artifacts(), op.index);
    match op
    case Rename(_, oldPath, newPath, _, _) =>
      if before != after {
        var t1 := RenameBack(t, newPath, oldPath, after).value;
        RenameKeeps(t, newPath, oldPath, p);
        if after[undo].present {
          RenameKeeps(t1, undo, newPath, p);
        }
      }
    case Delete(_, path, _, _) =>
      if after[undo].present {
        RenameKeeps(t, undo, path, p);
      }
    case _ =>
  }

  /** Backups and staged texts lie beside the undo places, in the artifact directory. */
  predicate IsSource(tx: Transaction, p: Path) {
    tx.Artifacts() <= p && |p| >= 2 && !p[1].UndoName?
  }

  ghost predicate SameSources(tx: Transaction, t: Tree, u: Tree) {
    forall p :: IsSource(tx, p) ==> (p in t <==> p in u) && (p in t ==> t[p] == u[p])
  }

  ghost predicate BackupsPlaced(tx: Transaction) {
    forall b :: b in tx.backups ==> IsSource(tx, b.backupPath)
  }

  lemma BackupIsSource(tx: Transaction, backups: seq<BackupEntry>, p: Path)
    requires forall b :: b in backups ==> IsSource(tx, b.backupPath)
    ensures BackupPathFor(backups, p).Some? ==> IsSource(tx, BackupPathFor(backups, p).value)
  {
    if backups != [] && backups[0].path <= p {
      var b := backups[0];
      assert Rebase(p, b.path, b.backupPath)[1] == b.backupPath[1];
    }
  }

  /** What a text undo restores depends on backups and staged texts only. */
  lemma SameBytes(tx: Transaction, t: Tree, u: Tree, expected: Entry)
    requires BackupsPlaced(tx) && SameSources(tx, t, u)
    ensures RollbackTextBytes(tx, t, expected) == RollbackTextBytes(tx, u, expected)
  {
    var original := FindOriginal(tx.order, tx.before, expected);
    if original.Some? {
      BackupIsSource(tx, tx.backups, original.value);
    }
    if expected.content.Some? {
      var staged := FindStaged(tx.operations, expected.content.value);
      if staged.Some? {
        assert IsSource(tx, StagedPath(tx.Artifacts(), staged.value));
      }
    }
  }

  lemma RenameKeepsSources(tx: Transaction, t: Tree, from: Path, to: Path)
    requires TreeOk(t) && Trees.Rename(t, from, to).Ok?
    requires !(exists p :: IsSource(tx, p) && (from <= p || to <= p))
    ensures SameSources(tx, t, Trees.Rename(t, from, to).value)
  {
  }

  /** Undoing an effect leaves backups and staged texts alone. */
  lemma UndoKeepsSources(tx: Transaction, op: Operation, before: Manifest, after: Manifest, t: Tree)
    requires TreeOk(t) && Prepared(tx.Artifacts(), op, before) && UndoEffect(tx, op, before, after, t).Ok?
    ensures SameSources(tx, t, UndoEffect(tx, op, before, after, t).value)
  {
    var undo := UndoPath(tx.Artifacts(), op.index);
    forall p | IsSource(tx, p) ensures !(undo <= p) && forall r :: r in OperationPaths(op) ==> !(r <= p) {
      forall r | r in OperationPaths(op) ensures !(r <= p) {
        assert r != [] && !(tx.Artifacts() <= r);
        assert r[0] != tx.Artifacts()[0];
      }
    }
    match op
    case Rename(_, oldPath, newPath, _, _) =>
      assert oldPath in OperationPaths(op) && newPath in OperationPaths(op);
      if before != after {
        var t1 := RenameBack(t, newPath, oldPath, after).value;
        RenameKeepsSources(tx, t, newPath, oldPath);
        if after[undo].present {
          RenameKeepsSources(tx, t1, undo, newPath);
        }
      }
    case Delete(_, path, _, _) =>
      assert path in OperationPaths(op);
      if after[undo].present {
        RenameKeepsSources(tx, t, undo, path);
      }
    case _ =>
      assert op.path in OperationPaths(op);
  }

  /** Once untracked, a directory stays untracked and in place for the rest of the run. */
  lemma {:induction false} UntrackedLater(
      tx: Transaction, effects: seq<Effect>, history: seq<Disk>, j: nat, k: nat, p: Path)
    requires Written(tx, effects, history) && Complete(effects) && |history| == |effects| + 1
    requires j <= k < |effects| && !(tx.Artifacts() <= p)
    requires p in history[j].tree && history[j].tree[p].Dir? && p !in effects[j].before
    ensures p in history[k].tree && history[k].tree[p].Dir? && p !in effects[k].before
    decreases k
  {
    if j < k {
      UntrackedLater(tx, effects, history, j, k - 1, p);
      UntrackedNext(tx, effects, history, k - 1, p);
    }
  }

  lemma UntrackedStep(tx: Transaction, effects: seq<Effect>, history: seq<Disk>, k: nat, p: Path)
    requires Written(tx, effects, history) && Complete(effects) && |history| == |effects| + 1
    requires k < |effects| && !(tx.Artifacts() <= p)
    requires p in history[k].tree && history[k].tree[p].Dir? && p !in effects[k].before
    ensures p in history[k + 1].tree && history[k + 1].tree[p].Dir? && p !in effects[k].after.value
  {
    StepAt(tx, effects, history, k);
    UntrackedSurvives(tx, tx.operations[k], effects[k].before, effects[k].after.value, history[k], history[k + 1], p);
  }

  lemma UntrackedNext(tx: Transaction, effects: seq<Effect>, history: seq<Disk>, k: nat, p: Path)
    requires Written(tx, effects, history) && Complete(effects) && |history| == |effects| + 1
    requires k + 1 < |effects| && !(tx.Artifacts() <= p)
    requires p in history[k].tree && history[k].tree[p].Dir? && p !in effects[k].before
    ensures p in history[k + 1].tree && history[k + 1].tree[p].Dir? && p !in effects[k + 1].before
  {
    UntrackedStep(tx, effects, history, k, p);
    NextBefore(tx, effects, k);
    NotAnUndoPlace(tx, effects[k].after.value, tx.operations[k + 1], p);
  }

  lemma NextBefore(tx: Transaction, effects: seq<Effect>, k: nat)
    requires |effects| <= |tx.operations| && Links(tx, effects) && k + 1 < |effects| && effects[k].after.Some?
    ensures effects[k + 1].before == AddUndo(effects[k].after.value, tx.Artifacts(), tx.operations[k + 1])
  {
    assert Link(tx, effects, k + 1);
  }

  lemma NotAnUndoPlace(tx: Transaction, m: Manifest, op: Operation, p: Path)
    requires p !in m && !(tx.Artifacts() <= p)
    ensures p !in AddUndo(m, tx.Artifacts(), op)
  {
    assert tx.Artifacts() <= UndoPath(tx.Artifacts(), op.index);
  }

  /** The parents of the first `n` effects' paths that no manifest tracked are still
      directories. */
  ghost predicate KeptParents(tx: Transaction, effects: seq<Effect>, history: seq<Disk>, n: nat, t: Tree)
    requires n <= |effects| <= |tx.operations| && n <= |history|
  {
    forall j :: 0 <= j < n ==> KeepsParents(tx.operations[j], effects[j].before, history[j], t)
  }

  lemma ParentsStayKept(tx: Transaction, effects: seq<Effect>, history: seq<Disk>, k: nat, t: Tree)
    requires WellFormed(tx) && Written(tx, effects, history) && Complete(effects) && |history| == |effects| + 1
    requires k < |effects| && TreeOk(t) && KeptParents(tx, effects, history, k + 1, t)
    requires UndoEffect(tx, tx.operations[k], effects[k].before, effects[k].after.value, t).Ok?
    ensures KeptParents(tx, effects, history, k,
      UndoEffect(tx, tx.operations[k], effects[k].before, effects[k].after.value, t).value)
  {
    var u := UndoEffect(tx, tx.operations[k], effects[k].before, effects[k].after.value, t).value;
    StepAt(tx, effects, history, k);
    forall j, p | 0 <= j < k && p in OperationPaths(tx.operations[j]) && p != [] && Parent(p) in history[j].tree
      && history[j].tree[Parent(p)].Dir? && Parent(p) !in effects[j].before
      ensures Parent(p) in u && u[Parent(p)].Dir?
    {
      assert KeepsParents(tx.operations[j], effects[j].before, history[j], t);
      assert tx.operations[j] in tx.operations && p in tx.before.Keys + tx.intended.Keys;
      assert !(tx.Artifacts() <= Parent(p)) by { BelowByParent(tx.Artifacts(), p); }
      UntrackedLater(tx, effects, history, j, k, Parent(p));
      UntrackedOutlivesUndo(
        tx, tx.operations[k], effects[k].before, effects[k].after.value, history[k], history[k + 1], t, Parent(p));
    }
  }

  predicate NeedsBytes(op: Operation, before: Manifest) {
    (op.Text? || op.Create?) && op.path in before && before[op.path].present
  }

  /** Every text undo can find its bytes. */
  predicate TextsAvailable(tx: Transaction, effects: seq<Effect>, t: Tree)
    requires |effects| <= |tx.operations|
  {
    forall k | 0 <= k < |effects| :: NeedsBytes(tx.operations[k], effects[k].before) ==>
      RollbackTextBytes(tx, t, effects[k].before[tx.operations[k].path]).Ok?
  }

  /** What holds once the effects from `k` on are undone, having started from `from`. */
  ghost predicate Rewound(tx: Transaction, effects: seq<Effect>, history: seq<Disk>, k: nat, from: Tree, t: Tree)
    requires k <= |effects| <= |tx.operations| && |history| == |effects| + 1
  {
    && TreeOk(t)
    && Describes(Proven(tx, effects, k), t)
    && (k < |effects| ==> Describes(effects[k].before, t))
    && KeptParents(tx, effects, history, k, t)
    && SameSources(tx, from, t)
    && (from == history[|effects|].tree ==> t == history[k].tree)
  }

  /** No step of the reverse run can fail. */
  lemma RewindOne(tx: Transaction, effects: seq<Effect>, history: seq<Disk>, k: nat, from: Tree, t: Tree)
    requires WellFormed(tx) && BackupsPlaced(tx)
    requires Written(tx, effects, history) && Complete(effects) && |history| == |effects| + 1 && k < |effects|
    requires TextsAvailable(tx, effects, from) && Rewound(tx, effects, history, k + 1, from, t)
    ensures var undone := UndoEffect(tx, tx.operations[k], effects[k].before, effects[k].after.value, t);
            undone.Ok? && Rewound(tx, effects, history, k, from, undone.value)
  {
    var op, before, after := tx.operations[k], effects[k].before, effects[k].after.value;
    StepAt(tx, effects, history, k);
    if NeedsBytes(op, before) {
      SameBytes(tx, from, t, before[op.path]);
    }
    EffectIsUndone(tx, op, before, after, history[k], history[k + 1], t);
    var u := UndoEffect(tx, op, before, after, t).value;
    DropUndoDescribes(tx, effects, k, u);
    ParentsStayKept(tx, effects, history, k, t);
    UndoKeepsSources(tx, op, before, after, t);
  }

  lemma TargetIsTracked(tx: Transaction, effects: seq<Effect>, k: nat)
    requires WellFormed(tx) && k < |effects| <= |tx.operations| && Complete(effects)
    requires Links(tx, effects)
    ensures tx.before.Keys + tx.intended.Keys <= effects[0].before.Keys
    ensures TargetPath(tx.operations[k]) in effects[k].before
  {
    ChainIsReady(tx, effects, k);
    assert Link(tx, effects, k) && Link(tx, effects, 0);
    InitialIsReady(tx);
    assert tx.operations[k] in tx.operations && TargetPath(tx.operations[k]) in OperationPaths(tx.operations[k]);
    assert TargetPath(tx.operations[k]) in tx.before.Keys;
  }

  lemma DistinctIndexes(tx: Transaction, effects: seq<Effect>, j: nat, k: nat)
    requires WellFormed(tx) && j <= k < |effects| <= |tx.operations|
    requires Links(tx, effects)
    ensures effects[j].index == effects[k].index <==> j == k
  {
    assert Link(tx, effects, j) && Link(tx, effects, k);
  }

  lemma FirstIsRestored(tx: Transaction, effects: seq<Effect>, t: Tree)
    requires WellFormed(tx) && 0 < |effects| <= |tx.operations| && Complete(effects)
    requires Links(tx, effects)
    requires Describes(effects[0].before, t) && NoMismatch(tx.before, effects[0].before)
    ensures Restored(tx, t)
  {
    TargetIsTracked(tx, effects, 0);
    RestoredAtStart(tx, effects[0].before, t);
  }

  /** The log is bound to the transaction and complete, its last result still describes the
      tree, every text can be found, and its first precondition meets the before manifest. */
  ghost predicate Provable(tx: Transaction, log: Option<Progress>, t: Tree) {
    && log.Some? && Accepted(tx, log.value)
    && var effects := log.value.effects;
       && Complete(effects) && effects != []
       && Describes(effects[|effects| - 1].after.value, t)
       && TextsAvailable(tx, effects, t)
       && NoMismatch(tx.before, effects[0].before)
  }
}
