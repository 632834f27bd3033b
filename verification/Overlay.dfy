/** Staging evaluates a plan once, before anything is written: an overlay of texts, of
    roots that are gone and of aliases stands for the tree each operation will meet. */
module Overlay {
  import opened Paths
  import opened Results
  import opened ByteStrings
  import opened Trees
  import opened TextEdits
  import opened Manifests
  import opened Operations
  import opened Transactions
  import opened Lockstep
  import opened Plans

  const U64_MAX: nat := 0xFFFF_FFFF_FFFF_FFFF

  /** Whatever is found below `virtual` was moved there from below `physical`. */
  datatype Alias = Alias(virtual: Path, physical: Path)

  datatype View = View(texts: map<Path, Bytes>, unavailable: set<Path>, aliases: seq<Alias>)

  const EMPTY_VIEW: View := View(map[], {}, [])

  function Redirect(p: Path, alias: Alias): Path {
    if alias.virtual <= p then Rebase(p, alias.virtual, alias.physical) else p
  }

  /** Later aliases apply first, and every alias applies to what the others gave. */
  function Resolve(p: Path, aliases: seq<Alias>): Path
    decreases |aliases|
  {
    if aliases == [] then p
    else Resolve(Redirect(p, aliases[|aliases| - 1]), aliases[..|aliases| - 1])
  }

  method ResolvePhysicalPath(p: Path, aliases: seq<Alias>) returns (resolved: Path)
    ensures resolved == Resolve(p, aliases)
  {
    resolved := p;
    var i := |aliases|;
    assert aliases[..i] == aliases;
    while i > 0
      invariant 0 <= i <= |aliases|
      invariant Resolve(resolved, aliases[..i]) == Resolve(p, aliases)
    {
      i := i - 1;
      ResolveThrough(resolved, aliases, i);
      if aliases[i].virtual <= resolved {
        resolved := Rebase(resolved, aliases[i].virtual, aliases[i].physical);
      }
    }
  }

  lemma ResolveThrough(p: Path, aliases: seq<Alias>, i: nat)
    requires i < |aliases|
    ensures Resolve(p, aliases[..i + 1]) == Resolve(Redirect(p, aliases[i]), aliases[..i])
  {
    assert aliases[..i + 1][..i] == aliases[..i];
  }

  /** The text staging finds at `p`, `t` being the tree on disk. */
  function VirtualText(p: Path, v: View, t: Tree): Result<Bytes> {
    if p in v.texts then Ok(v.texts[p])
    else if exists root | root in v.unavailable :: root <= p then Err
    else
      var source := Resolve(p, v.aliases);
      if source in t && t[source].File? then Ok(t[source].bytes) else Err
  }

  function Without(texts: map<Path, Bytes>, root: Path): (r: map<Path, Bytes>)
    ensures Free(r, root)
    ensures forall p :: p in r <==> p in texts && !(root <= p)
    ensures forall p :: p in r ==> r[p] == texts[p]
  {
    map p | p in texts && !(root <= p) :: texts[p]
  }

  /** The view after an operation; `after` is the text a Text operation wrote. */
  function Advance(v: View, op: Operation, after: Bytes): View
    requires op.Rename? ==> Disjoint(op.oldPath, op.newPath)
  {
    match op
    case Text(_, path, _, _, _) =>
      v.(texts := v.texts[path := after], unavailable := v.unavailable - {path})
    case Create(_, path, _, _) =>
      v.(texts := Without(v.texts, path)[path := []], unavailable := v.unavailable - {path})
    case Rename(_, oldPath, newPath, _, _) =>
      View(
        Relocate(Without(v.texts, newPath), oldPath, newPath),
        (set root | root in v.unavailable && !(newPath <= root)) + {oldPath},
        v.aliases + [Alias(newPath, Resolve(oldPath, v.aliases))])
    case Delete(_, path, _, _) =>
      v.(texts := Without(v.texts, path), unavailable := v.unavailable + {path})
  }

  /** What staging does about one operation: the text it met and the text it stages. */
  function Evaluate(op: Operation, v: View, t: Tree): Result<Option<(Bytes, Bytes)>>
    requires op.Rename? ==> Disjoint(op.oldPath, op.newPath)
  {
    if !op.Text? then Ok(None)
    else
      var before :- VirtualText(op.path, v, t);
      if OfBytes(before) != op.before || !ValidUtf8(before) || !Accepts(before, op.edits, 0) then Err
      else
        var after := Swept(before, op.edits, 0);
        if OfBytes(after) != op.after then Err else Ok(Some((before, after)))
  }

  function Written(visit: Option<(Bytes, Bytes)>): Bytes {
    if visit.Some? then visit.value.1 else []
  }

  /** The texts staged by the first `k` operations, if none of them is refused. */
  function Visits(operations: seq<Operation>, k: nat, t: Tree): (r: Result<(seq<Option<(Bytes, Bytes)>>, View)>)
    requires k <= |operations| && forall op :: op in operations && op.Rename? ==> Disjoint(op.oldPath, op.newPath)
    ensures r.Ok? ==> |r.value.0| == k
  {
    if k == 0 then Ok(([], EMPTY_VIEW))
    else
      var (visits, v) :- Visits(operations, k - 1, t);
      var visit :- Evaluate(operations[k - 1], v, t);
      Ok((visits + [visit], Advance(v, operations[k - 1], Written(visit))))
  }

  function StagedBytes(visits: seq<Option<(Bytes, Bytes)>>): nat {
    if visits == [] then 0
    else StagedBytes(visits[..|visits| - 1]) + |Written(visits[|visits| - 1])|
  }

  lemma {:induction false} StagedGrows(visits: seq<Option<(Bytes, Bytes)>>, k: nat)
    requires k <= |visits|
    ensures StagedBytes(visits[..k]) <= StagedBytes(visits)
    decreases |visits|
  {
    if k < |visits| {
      StagedGrows(visits[..|visits| - 1], k);
      assert visits[..|visits| - 1][..k] == visits[..k];
    } else {
      assert visits[..k] == visits;
    }
  }

  /** A refusal of the first operations is a refusal of the plan. */
  lemma {:induction false} RefusedEarly(operations: seq<Operation>, k: nat, n: nat, t: Tree)
    requires k <= n <= |operations| && forall op :: op in operations && op.Rename? ==> Disjoint(op.oldPath, op.newPath)
    ensures Visits(operations, n, t).Ok? ==>
      && Visits(operations, k, t).Ok?
      && Visits(operations, k, t).value.0 == Visits(operations, n, t).value.0[..k]
    decreases n
  {
    if k < n && Visits(operations, n, t).Ok? {
      RefusedEarly(operations, k, n - 1, t);
      var visits := Visits(operations, n, t).value.0;
      assert visits[..n - 1][..k] == visits[..k];
      assert visits[..n - 1] == Visits(operations, n - 1, t).value.0;
    } else if Visits(operations, n, t).Ok? {
      assert Visits(operations, n, t).value.0[..n] == Visits(operations, n, t).value.0;
    }
  }

  lemma VisitsNext(operations: seq<Operation>, k: nat, t: Tree)
    requires k < |operations| && forall op :: op in operations && op.Rename? ==> Disjoint(op.oldPath, op.newPath)
    ensures var before, after := Visits(operations, k, t), Visits(operations, k + 1, t);
      && (after.Ok? <==> before.Ok? && Evaluate(operations[k], before.value.1, t).Ok?)
      && (after.Ok? ==>
            var visit := Evaluate(operations[k], before.value.1, t).value;
            && after.value.0 == before.value.0 + [visit]
            && after.value.1 == Advance(before.value.1, operations[k], Written(visit)))
  {
  }

  lemma LimitCovers(operations: seq<Operation>, k: nat, t: Tree)
    requires k <= |operations| && forall op :: op in operations && op.Rename? ==> Disjoint(op.oldPath, op.newPath)
    requires Visits(operations, |operations|, t).Ok?
    ensures Visits(operations, k, t).Ok?
    ensures StagedBytes(Visits(operations, k, t).value.0) <= StagedBytes(Visits(operations, |operations|, t).value.0)
  {
    RefusedEarly(operations, k, |operations|, t);
    StagedGrows(Visits(operations, |operations|, t).value.0, k);
  }

  lemma StagedNext(visits: seq<Option<(Bytes, Bytes)>>, visit: Option<(Bytes, Bytes)>)
    ensures StagedBytes(visits + [visit]) == StagedBytes(visits) + |Written(visit)|
  {
    assert (visits + [visit])[..|visits|] == visits;
  }

  /** What a pass that stops after `k` operations shows about the whole plan. */
  lemma PassEnds(operations: seq<Operation>, k: nat, t: Tree)
    requires k <= |operations| && forall op :: op in operations && op.Rename? ==> Disjoint(op.oldPath, op.newPath)
    ensures
      var all, some := Visits(operations, |operations|, t), Visits(operations, k, t);
      && (all.Ok? ==> some.Ok?)
      && (all.Ok? && some.Ok? ==> StagedBytes(some.value.0) <= StagedBytes(all.value.0))
  {
    if Visits(operations, |operations|, t).Ok? {
      LimitCovers(operations, k, t);
    }
  }

  /** One pass over the operations stages exactly the texts of `Visits`, unless together
      they exceed the limit. The byte counter saturates at 64 bits. */
  method VisitCanonicalTextOutputs(
      operations: seq<Operation>, t: Tree, limit: nat)
    returns (r: Result<seq<Option<(Bytes, Bytes)>>>)
    requires limit < U64_MAX
    requires forall op :: op in operations && op.Rename? ==> Disjoint(op.oldPath, op.newPath)
    ensures var all := Visits(operations, |operations|, t);
      && (r.Ok? <==> all.Ok? && StagedBytes(all.value.0) <= limit)
      && (r.Ok? ==> r.value == all.value.0)
  {
    var v, visits, staged: nat := EMPTY_VIEW, [], 0;
    for k := 0 to |operations|
      invariant Visits(operations, k, t) == Ok((visits, v))
      invariant staged == StagedBytes(visits) <= limit
    {
      var visit := VisitOne(operations[k], v, t);
      VisitsNext(operations, k, t);
      PassEnds(operations, k + 1, t);
      if visit.Err? {
        return Err;
      }
      StagedNext(visits, visit.value);
      staged := if staged + |Written(visit.value)| > U64_MAX then U64_MAX else staged + |Written(visit.value)|;
      if staged > limit {
        return Err;
      }
      v := Advance(v, operations[k], Written(visit.value));
      visits := visits + [visit.value];
    }
    return Ok(visits);
  }

  method VisitOne(op: Operation, v: View, t: Tree) returns (r: Result<Option<(Bytes, Bytes)>>)
    requires op.Rename? ==> Disjoint(op.oldPath, op.newPath)
    ensures r == Evaluate(op, v, t)
  {
    if !op.Text? {
      return Ok(None);
    }
    var before := FindText(op.path, v, t);
    if before.Err? || OfBytes(before.value) != op.before {
      return Err;
    }
    var after := ApplyCanonicalTextEdits(before.value, op.edits);
    if after.Err? || OfBytes(after.value) != op.after {
      return Err;
    }
    return Ok(Some((before.value, after.value)));
  }

  method FindText(p: Path, v: View, t: Tree) returns (r: Result<Bytes>)
    ensures r == VirtualText(p, v, t)
  {
    if p in v.texts {
      return Ok(v.texts[p]);
    }
    if exists root | root in v.unavailable :: root <= p {
      return Err;
    }
    var source := ResolvePhysicalPath(p, v.aliases);
    return if source in t && t[source].File? then Ok(t[source].bytes) else Err;
  }

  /** Where the resource now at `p` was before operation `k - 1`. */
  function BeforeLast(operations: seq<Operation>, k: nat, p: Path): Path
    requires 0 < k <= |operations|
  {
    var op := operations[k - 1];
    if op.Rename? && op.newPath <= p then Rebase(p, op.newPath, op.oldPath) else p
  }

  /** Where the resource now at `p` was before the first `k` operations. */
  function Lineage(operations: seq<Operation>, k: nat, p: Path): Path
    requires k <= |operations|
  {
    if k == 0 then p else Lineage(operations, k - 1, BeforeLast(operations, k, p))
  }

  /** A planned operation moves, writes or removes exactly what it says, as far as paths
      outside the artifacts are concerned. */
  ghost predicate Stepped(artifacts: Path, op: Operation, t: Tree, t': Tree) {
    forall p :: Outside(artifacts, p) ==> SteppedAt(op, t, t', p)
  }

  ghost predicate SteppedAt(op: Operation, t: Tree, t': Tree, p: Path) {
    match op
    case Text(_, path, _, after, _) =>
      if p == path then p in t' && t'[p].File? && OfBytes(t'[p].bytes) == after else Same(t, p, t', p)
    case Create(_, path, _, _) =>
      if p == path then p in t' && t'[p].File? && t'[p].bytes == [] else Same(t, p, t', p)
    case Rename(_, oldPath, newPath, _, _) =>
      if newPath <= p then Same(t, Rebase(p, newPath, oldPath), t', p)
      else if oldPath <= p then p !in t'
      else Same(t, p, t', p)
    case Delete(_, path, _, _) => if path <= p then p !in t' else Same(t, p, t', p)
  }

  lemma PlannedSteps(tx: Transaction, op: Operation, d: Disk)
    requires TreeOk(d.tree) && Shaped(tx.Artifacts(), op) && Feasible(tx.Artifacts(), op, d.tree)
    ensures Stepped(tx.Artifacts(), op, d.tree, StepDisk(tx, op, d).tree)
  {
    match op
    case Rename(_, _, newPath, _, _) =>
      if newPath in d.tree {
        OverwritingSteps(tx, op, d);
      } else {
        MovingSteps(tx, op, d);
      }
    case Delete(_, _, _, _) => DeletingSteps(tx, op, d);
    case _ =>
  }

  lemma MovingSteps(tx: Transaction, op: Operation, d: Disk)
    requires op.Rename? && op.newPath !in d.tree
    requires TreeOk(d.tree) && Shaped(tx.Artifacts(), op) && Feasible(tx.Artifacts(), op, d.tree)
    ensures Stepped(tx.Artifacts(), op, d.tree, StepDisk(tx, op, d).tree)
  {
    var t' := Trees.Rename(d.tree, op.oldPath, op.newPath).value;
    MovedEffect(tx.Artifacts(), op, d, IdentityOf(d.tree, TargetPath(op)), t');
    forall p | Outside(tx.Artifacts(), p) ensures SteppedAt(op, d.tree, t', p) {
    }
  }

  lemma DeletingSteps(tx: Transaction, op: Operation, d: Disk)
    requires op.Delete? && TreeOk(d.tree) && Shaped(tx.Artifacts(), op) && Feasible(tx.Artifacts(), op, d.tree)
    ensures Stepped(tx.Artifacts(), op, d.tree, StepDisk(tx, op, d).tree)
  {
    var undo := UndoPath(tx.Artifacts(), op.index);
    assert op.path in OperationPaths(op);
    UndoIsApart(tx.Artifacts(), op.path, op.index);
    OutsideUndo(tx.Artifacts(), op.index);
    var t' := Trees.Rename(d.tree, op.path, undo).value;
    DeletedEffect(tx.Artifacts(), op, d, IdentityOf(d.tree, TargetPath(op)), t');
    forall p | Outside(tx.Artifacts(), p) ensures SteppedAt(op, d.tree, t', p) {
    }
  }

  lemma OutsideUndo(artifacts: Path, index: nat)
    ensures forall p :: Outside(artifacts, p) ==> !(UndoPath(artifacts, index) <= p)
  {
    assert artifacts <= UndoPath(artifacts, index);
  }

  lemma OverwritingSteps(tx: Transaction, op: Operation, d: Disk)
    requires op.Rename? && op.newPath in d.tree
    requires TreeOk(d.tree) && Shaped(tx.Artifacts(), op) && Feasible(tx.Artifacts(), op, d.tree)
    ensures Stepped(tx.Artifacts(), op, d.tree, StepDisk(tx, op, d).tree)
  {
    var t1 := OverwrittenTree(tx, op, d);
    OutsideUndo(tx.Artifacts(), op.index);
    forall p | Outside(tx.Artifacts(), p) ensures SteppedAt(op, d.tree, StepDisk(tx, op, d).tree, p) {
    }
  }

  /** The tree between the two renames of an overwriting one, and the tree after them. */
  lemma OverwrittenTree(tx: Transaction, op: Operation, d: Disk) returns (t1: Tree)
    requires op.Rename? && op.newPath in d.tree
    requires TreeOk(d.tree) && Shaped(tx.Artifacts(), op) && Feasible(tx.Artifacts(), op, d.tree)
    ensures
      var undo := UndoPath(tx.Artifacts(), op.index);
      && Disjoint(op.newPath, undo) && Free(d.tree, undo) && t1 == Relocate(d.tree, op.newPath, undo)
      && Free(t1, op.newPath) && StepDisk(tx, op, d).tree == Relocate(t1, op.oldPath, op.newPath)
    ensures forall p :: op.oldPath <= p ==> (p in t1 <==> p in d.tree) && (p in t1 ==> t1[p] == d.tree[p])
  {
    var t, undo := d.tree, UndoPath(tx.Artifacts(), op.index);
    assert op.newPath in OperationPaths(op) && op.oldPath in OperationPaths(op);
    UndoIsApart(tx.Artifacts(), op.newPath, op.index);
    UndoIsApart(tx.Artifacts(), op.oldPath, op.index);
    assert Trees.Rename(t, op.newPath, undo).Ok?;
    t1 := Trees.Rename(t, op.newPath, undo).value;
    SourceStays(map[], t, op.oldPath, op.newPath, undo);
    RenamedEffect(
      tx.Artifacts(), op, d, IdentityOf(t, TargetPath(op)), t1, Trees.Rename(t1, op.oldPath, op.newPath).value);
  }

  /** The aliases after the first `k` operations. */
  function Aliases(operations: seq<Operation>, k: nat): seq<Alias>
    requires k <= |operations|
  {
    if k == 0 then []
    else
      var op, earlier := operations[k - 1], Aliases(operations, k - 1);
      if op.Rename? then earlier + [Alias(op.newPath, Resolve(op.oldPath, earlier))] else earlier
  }

  /** One of the first `k` operations wrote the text that is now at `p`. */
  predicate Overlaid(operations: seq<Operation>, k: nat, p: Path)
    requires k <= |operations|
  {
    k > 0 &&
    match operations[k - 1]
    case Text(_, path, _, _, _) => p == path || Overlaid(operations, k - 1, p)
    case Create(_, path, _, _) => p == path || (!(path <= p) && Overlaid(operations, k - 1, p))
    case Rename(_, oldPath, newPath, _, _) =>
      if newPath <= p then Overlaid(operations, k - 1, Rebase(p, newPath, oldPath))
      else !(oldPath <= p) && Overlaid(operations, k - 1, p)
    case Delete(_, path, _, _) => !(path <= p) && Overlaid(operations, k - 1, p)
  }

  /** What the view claims about the tree `t` reached from `g`. */
  ghost predicate Reflects(artifacts: Path, operations: seq<Operation>, k: nat, v: View, g: Tree, t: Tree)
    requires k <= |operations|
  {
    && (forall p {:trigger p in v.texts} :: p in v.texts <==> Overlaid(operations, k, p))
    && v.aliases == Aliases(operations, k)
    && KeepsClaims(artifacts, operations, k, v, g, t)
  }

  /** Its texts are there, its unavailable roots are not, and every other file holds the
      bytes of the file it comes from. */
  ghost predicate KeepsClaims(artifacts: Path, operations: seq<Operation>, k: nat, v: View, g: Tree, t: Tree)
    requires k <= |operations|
  {
    && (forall p :: p in v.texts ==> Outside(artifacts, p) && p in t && t[p].File? && t[p].bytes == v.texts[p])
    && (forall root :: root in v.unavailable ==> Outside(artifacts, root) && root !in t)
    && (forall p :: p in t && Outside(artifacts, p) && p !in v.texts && t[p].File? ==>
         Originates(artifacts, g, Lineage(operations, k, p), t[p].bytes))
  }

  ghost predicate Originates(artifacts: Path, g: Tree, origin: Path, bytes: Bytes) {
    Outside(artifacts, origin) && origin in g && g[origin].File? && g[origin].bytes == bytes
  }

  lemma RebaseOutside(artifacts: Path, p: Path, from: Path, to: Path)
    requires |artifacts| == 1 && from <= p && to != [] && Outside(artifacts, to)
    ensures Outside(artifacts, Rebase(p, from, to))
  {
    assert Rebase(p, from, to)[0] == to[0];
  }

  lemma TextsAdvance(operations: seq<Operation>, k: nat, v: View, after: Bytes)
    requires k < |operations| && (operations[k].Rename? ==> Disjoint(operations[k].oldPath, operations[k].newPath))
    requires forall p :: p in v.texts <==> Overlaid(operations, k, p)
    requires v.aliases == Aliases(operations, k)
    ensures var v' := Advance(v, operations[k], after);
      && (forall p :: p in v'.texts <==> Overlaid(operations, k + 1, p))
      && v'.aliases == Aliases(operations, k + 1)
  {
    var op, v' := operations[k], Advance(v, operations[k], after);
    forall p ensures p in v'.texts <==> Overlaid(operations, k + 1, p) {
      if op.Rename? && op.newPath <= p {
        var q := Rebase(p, op.newPath, op.oldPath);
        if op.newPath <= q { Comparable(op.newPath, op.oldPath, q); }
      }
    }
  }

  lemma OthersAdvance(
      artifacts: Path, operations: seq<Operation>, k: nat, v: View, g: Tree, t: Tree, t': Tree, after: Bytes)
    requires k < |operations| && !operations[k].Rename? && Shaped(artifacts, operations[k])
    requires Reflects(artifacts, operations, k, v, g, t) && Stepped(artifacts, operations[k], t, t')
    requires operations[k].Text? ==> operations[k].after == OfBytes(after)
    requires TreeOk(t)
    requires WritesFile(operations[k], t)
    ensures KeepsClaims(artifacts, operations, k + 1, Advance(v, operations[k], after), g, t')
  {
    var op, v' := operations[k], Advance(v, operations[k], after);
    assert op.path in OperationPaths(op);
    forall p | p in v'.texts ensures Outside(artifacts, p) && p in t' && t'[p].File? && t'[p].bytes == v'.texts[p] {
      assert SteppedAt(op, t, t', p);
    }
    forall root | root in v'.unavailable ensures Outside(artifacts, root) && root !in t' {
      assert SteppedAt(op, t, t', root);
    }
    forall p | p in t' && Outside(artifacts, p) && p !in v'.texts && t'[p].File?
      ensures Originates(artifacts, g, Lineage(operations, k + 1, p), t'[p].bytes)
    {
      assert SteppedAt(op, t, t', p);
      if op.Create? && op.path < p {
        NothingBelow(t, op.path, p);
      }
      assert p !in v.texts;
    }
  }

  lemma NothingBelow(t: Tree, path: Path, p: Path)
    requires TreeOk(t) && path < p && (path in t ==> t[path].File?)
    ensures p !in t
  {
    if p in t {
      AncestorsAreDirectories(t, path, p);
    }
  }

  lemma BelowOne(a: Path, b: Path, p: Path)
    requires Disjoint(a, b) && a <= p
    ensures !(b <= p)
  {
    if b <= p { Comparable(a, b, p); }
  }

  lemma RenameAdvances(
      artifacts: Path, operations: seq<Operation>, k: nat, v: View, g: Tree, t: Tree, t': Tree, after: Bytes)
    requires k < |operations| && operations[k].Rename? && Shaped(artifacts, operations[k])
    requires Reflects(artifacts, operations, k, v, g, t) && Stepped(artifacts, operations[k], t, t')
    ensures KeepsClaims(artifacts, operations, k + 1, Advance(v, operations[k], after), g, t')
  {
    var op, v' := operations[k], Advance(v, operations[k], after);
    assert op.newPath in OperationPaths(op) && op.oldPath in OperationPaths(op);
    forall p | p in v'.texts ensures Outside(artifacts, p) && p in t' && t'[p].File? && t'[p].bytes == v'.texts[p] {
      if op.newPath <= p {
        RebaseBack(p, op.newPath, op.oldPath);
        RebaseOutside(artifacts, Rebase(p, op.newPath, op.oldPath), op.oldPath, op.newPath);
      }
      assert SteppedAt(op, t, t', p);
    }
    forall root | root in v'.unavailable ensures Outside(artifacts, root) && root !in t' {
      assert SteppedAt(op, t, t', root);
    }
    forall p | p in t' && Outside(artifacts, p) && p !in v'.texts && t'[p].File?
      ensures Originates(artifacts, g, Lineage(operations, k + 1, p), t'[p].bytes)
    {
      assert SteppedAt(op, t, t', p);
      if op.newPath <= p {
        var q := Rebase(p, op.newPath, op.oldPath);
        RebaseOutside(artifacts, p, op.newPath, op.oldPath);
        BelowOne(op.oldPath, op.newPath, q);
        assert q !in v.texts;
      }
    }
  }

  /** The plan is valid on the staged disk, and staging reads a tree that differs from it
      in the artifacts only. */
  ghost predicate Stageable(tx: Transaction, d: Disk, g: Tree)
  {
    && TreeOk(d.tree) && Runnable(tx, d)
    && (forall p :: Outside(tx.Artifacts(), p) ==> Same(g, p, d.tree, p))
    && forall op :: op in tx.operations && op.Text? ==> EditsFit(op)
  }

  /** The planner derived the second digest of a text from the first and the edits. */
  ghost predicate EditsFit(op: Operation)
    requires op.Text?
  {
    && op.before.OfBytes? && ValidUtf8(op.before.bytes) && Accepts(op.before.bytes, op.edits, 0)
    && op.after == OfBytes(Swept(op.before.bytes, op.edits, 0))
  }

  /** The run does what its operation says, as far as paths outside the artifacts go. */
  lemma RunSteps(tx: Transaction, d: Disk, n: nat)
    requires TreeOk(d.tree) && Runnable(tx, d) && 0 < n <= |tx.operations|
    ensures Shaped(tx.Artifacts(), tx.operations[n - 1])
    ensures Stepped(tx.Artifacts(), tx.operations[n - 1], RunDisk(tx, d, n - 1).tree, RunDisk(tx, d, n).tree)
    ensures WritesFile(tx.operations[n - 1], RunDisk(tx, d, n - 1).tree)
  {
    PlanIsShaped(tx, n - 1);
    RunIsFeasible(tx, d, n - 1);
    PlannedSteps(tx, tx.operations[n - 1], RunDisk(tx, d, n - 1));
  }

  /** What a text or a creation writes to is a file, if it is there. */
  predicate WritesFile(op: Operation, t: Tree) {
    (op.Text? || op.Create?) && op.path in t ==> t[op.path].File?
  }

  /** One operation keeps the claims. */
  lemma ViewAdvances(
      artifacts: Path, operations: seq<Operation>, n: nat, v: View, after: Bytes, v': View, g: Tree, t: Tree, t': Tree)
    requires 0 < n <= |operations| && Shaped(artifacts, operations[n - 1]) && v' == Advance(v, operations[n - 1], after)
    requires Reflects(artifacts, operations, n - 1, v, g, t) && Stepped(artifacts, operations[n - 1], t, t')
    requires operations[n - 1].Text? ==> operations[n - 1].after == OfBytes(after)
    requires TreeOk(t) && WritesFile(operations[n - 1], t)
    ensures Reflects(artifacts, operations, n, v', g, t')
  {
    TextsAdvance(operations, n - 1, v, after);
    if operations[n - 1].Rename? {
      RenameAdvances(artifacts, operations, n - 1, v, g, t, t', after);
    } else {
      OthersAdvance(artifacts, operations, n - 1, v, g, t, t', after);
    }
  }

  ghost predicate ReflectsAt(tx: Transaction, d: Disk, g: Tree, k: nat)
    requires TreeOk(d.tree) && WellFormed(tx) && k <= |tx.operations|
  {
    var visits := Visits(tx.operations, k, g);
    visits.Ok? ==> Reflects(tx.Artifacts(), tx.operations, k, visits.value.1, g, RunDisk(tx, d, k).tree)
  }

  lemma ReflectsNext(tx: Transaction, d: Disk, g: Tree, n: nat)
    requires TreeOk(d.tree) && Runnable(tx, d) && 0 < n <= |tx.operations| && ReflectsAt(tx, d, g, n - 1)
    ensures ReflectsAt(tx, d, g, n)
  {
    if Visits(tx.operations, n, g).Ok? {
      var v, after := LastVisit(tx.operations, n, g);
      RunSteps(tx, d, n);
      ViewAdvances(
        tx.Artifacts(), tx.operations, n, v, after, Visits(tx.operations, n, g).value.1,
        g, RunDisk(tx, d, n - 1).tree, RunDisk(tx, d, n).tree);
    }
  }

  /** The view before the last operation, and the text that one wrote. */
  lemma LastVisit(operations: seq<Operation>, n: nat, t: Tree) returns (v: View, after: Bytes)
    requires 0 < n <= |operations| && forall op :: op in operations && op.Rename? ==> Disjoint(op.oldPath, op.newPath)
    requires Visits(operations, n, t).Ok?
    ensures Visits(operations, n - 1, t).Ok? && v == Visits(operations, n - 1, t).value.1
    ensures operations[n - 1].Text? ==> operations[n - 1].after == OfBytes(after)
    ensures operations[n - 1].Rename? ==> Disjoint(operations[n - 1].oldPath, operations[n - 1].newPath)
    ensures Visits(operations, n, t).value.1 == Advance(v, operations[n - 1], after)
  {
    v := Visits(operations, n - 1, t).value.1;
    after := Written(Evaluate(operations[n - 1], v, t).value);
  }

  lemma ReflectsAtStart(tx: Transaction, d: Disk, g: Tree)
    requires Stageable(tx, d, g)
    ensures ReflectsAt(tx, d, g, 0)
  {
    forall p | p in d.tree && Outside(tx.Artifacts(), p) && d.tree[p].File?
      ensures Originates(tx.Artifacts(), g, Lineage(tx.operations, 0, p), d.tree[p].bytes)
    {
      assert Same(g, p, d.tree, p);
    }
  }

  /** As long as nothing is refused, the view reflects the tree the run has reached. */
  lemma {:induction false} ViewReflects(tx: Transaction, d: Disk, g: Tree, n: nat)
    requires Stageable(tx, d, g) && n <= |tx.operations|
    ensures ReflectsAt(tx, d, g, n)
    decreases n
  {
    if n == 0 {
      ReflectsAtStart(tx, d, g);
    } else {
      ViewReflects(tx, d, g, n - 1);
      ReflectsNext(tx, d, g, n);
    }
  }

  /** Text operation `k` finds its text: an earlier operation wrote it, or the file its
      target resolves to holds the same bytes as the file that was really moved there. */
  ghost predicate FindsText(operations: seq<Operation>, k: nat, g: Tree)
    requires k < |operations|
  {
    operations[k].Text? ==>
    var p := operations[k].path;
    var source, origin := Resolve(p, Aliases(operations, k)), Lineage(operations, k, p);
    Overlaid(operations, k, p)
    || (source in g && g[source].File? && origin in g && g[origin].File? && g[source].bytes == g[origin].bytes)
  }

  lemma TextIsRead(tx: Transaction, d: Disk, g: Tree, k: nat)
    requires Stageable(tx, d, g) && k < |tx.operations| && tx.operations[k].Text? && Visits(tx.operations, k, g).Ok?
    ensures var op, t := tx.operations[k], RunDisk(tx, d, k).tree;
      && op.path in t && t[op.path].File? && op.before == OfBytes(t[op.path].bytes)
      && (FindsText(tx.operations, k, g) <==>
           VirtualText(op.path, Visits(tx.operations, k, g).value.1, g) == Ok(t[op.path].bytes))
  {
    var op, t, v := tx.operations[k], RunDisk(tx, d, k).tree, Visits(tx.operations, k, g).value.1;
    ViewReflects(tx, d, g, k);
    RunIsFeasible(tx, d, k);
    PlanIsShaped(tx, k);
    assert op.path in OperationPaths(op);
    forall root | root in v.unavailable ensures !(root <= op.path) {
      if root <= op.path { AbsentSubtree(t, root, op.path); }
    }
    if op.path !in v.texts {
      assert Originates(tx.Artifacts(), g, Lineage(tx.operations, k, op.path), t[op.path].bytes);
    }
  }

  /** Staging met and wrote, for operation `k`, what the run finds and leaves there. */
  ghost predicate StagesRun(tx: Transaction, d: Disk, k: nat, visit: Option<(Bytes, Bytes)>)
    requires TreeOk(d.tree) && k < |tx.operations|
  {
    tx.operations[k].Text? ==>
    var p, t, t' := tx.operations[k].path, RunDisk(tx, d, k).tree, RunDisk(tx, d, k + 1).tree;
    && p in t && t[p].File? && p in t' && t'[p].File?
    && visit == Some((t[p].bytes, t'[p].bytes))
  }

  lemma TextIsStaged(tx: Transaction, d: Disk, g: Tree, k: nat)
    requires Stageable(tx, d, g) && k < |tx.operations| && tx.operations[k].Text? && Visits(tx.operations, k, g).Ok?
    ensures FindsText(tx.operations, k, g) <==> Visits(tx.operations, k + 1, g).Ok?
    ensures Visits(tx.operations, k + 1, g).Ok? ==> StagesRun(tx, d, k, Visits(tx.operations, k + 1, g).value.0[k])
  {
    var op, d0 := tx.operations[k], RunDisk(tx, d, k);
    TextIsRead(tx, d, g, k);
    assert op in tx.operations && EditsFit(op);
    PlanIsShaped(tx, k);
    RunIsFeasible(tx, d, k);
    PlannedSteps(tx, op, d0);
    assert op.path in OperationPaths(op);
    assert SteppedAt(op, d0.tree, RunDisk(tx, d, k + 1).tree, op.path);
  }

  ghost predicate TextsFound(operations: seq<Operation>, n: nat, g: Tree)
    requires n <= |operations|
  {
    n == 0 || (TextsFound(operations, n - 1, g) && FindsText(operations, n - 1, g))
  }

  ghost predicate AllStageRun(tx: Transaction, d: Disk, n: nat, visits: seq<Option<(Bytes, Bytes)>>)
    requires TreeOk(d.tree) && n == |visits| <= |tx.operations|
  {
    n == 0 || (AllStageRun(tx, d, n - 1, visits[..n - 1]) && StagesRun(tx, d, n - 1, visits[n - 1]))
  }

  lemma StagedIfFound(tx: Transaction, d: Disk, g: Tree, n: nat)
    requires Stageable(tx, d, g) && 0 < n <= |tx.operations|
    ensures Visits(tx.operations, n, g).Ok? <==>
      Visits(tx.operations, n - 1, g).Ok? && FindsText(tx.operations, n - 1, g)
  {
    if tx.operations[n - 1].Text? && Visits(tx.operations, n - 1, g).Ok? {
      TextIsStaged(tx, d, g, n - 1);
    }
  }

  lemma LastStagesRun(tx: Transaction, d: Disk, g: Tree, n: nat)
    requires Stageable(tx, d, g) && 0 < n <= |tx.operations| && Visits(tx.operations, n, g).Ok?
    ensures Visits(tx.operations, n - 1, g).Ok?
    ensures Visits(tx.operations, n, g).value.0[..n - 1] == Visits(tx.operations, n - 1, g).value.0
    ensures StagesRun(tx, d, n - 1, Visits(tx.operations, n, g).value.0[n - 1])
  {
    if tx.operations[n - 1].Text? {
      TextIsStaged(tx, d, g, n - 1);
    }
  }

  lemma RefinesNext(tx: Transaction, d: Disk, g: Tree, n: nat)
    requires Stageable(tx, d, g) && 0 < n <= |tx.operations|
    requires Visits(tx.operations, n - 1, g).Ok? <==> TextsFound(tx.operations, n - 1, g)
    requires Visits(tx.operations, n - 1, g).Ok? ==>
      AllStageRun(tx, d, n - 1, Visits(tx.operations, n - 1, g).value.0)
    ensures Visits(tx.operations, n, g).Ok? <==> TextsFound(tx.operations, n, g)
    ensures Visits(tx.operations, n, g).Ok? ==> AllStageRun(tx, d, n, Visits(tx.operations, n, g).value.0)
  {
    StagedIfFound(tx, d, g, n);
    if Visits(tx.operations, n, g).Ok? {
      LastStagesRun(tx, d, g, n);
    }
  }

  /** Staging succeeds exactly when every text finds its bytes, and then it stages for
      each Text operation what the run finds and leaves at its path. */
  lemma {:induction false} StagingRefinesRun(tx: Transaction, d: Disk, g: Tree, n: nat)
    requires Stageable(tx, d, g) && n <= |tx.operations|
    ensures Visits(tx.operations, n, g).Ok? <==> TextsFound(tx.operations, n, g)
    ensures Visits(tx.operations, n, g).Ok? ==> AllStageRun(tx, d, n, Visits(tx.operations, n, g).value.0)
    decreases n
  {
    if n > 0 {
      StagingRefinesRun(tx, d, g, n - 1);
      RefinesNext(tx, d, g, n);
    }
  }

  /** No destination of a rename so far lies strictly above another. */
  predicate Flat(aliases: seq<Alias>) {
    forall a, b :: a in aliases && b in aliases ==> !(a.virtual < b.virtual)
  }

  predicate Clear(p: Path, aliases: seq<Alias>) {
    forall a :: a in aliases ==> Disjoint(p, a.virtual)
  }

  /** A rename takes a resource that is where it started, or, if no destination so far lies
      above another, one that started apart from all of them. */
  predicate TakesStraight(operations: seq<Operation>, k: nat)
    requires k < |operations|
  {
    operations[k].Rename? ==>
    var aliases := Aliases(operations, k);
    var source := Resolve(operations[k].oldPath, aliases);
    source == operations[k].oldPath || (Flat(aliases) && Clear(source, aliases))
  }

  predicate Straight(operations: seq<Operation>, n: nat)
    requires n <= |operations|
  {
    n == 0 || (TakesStraight(operations, n - 1) && Straight(operations, n - 1))
  }

  lemma {:induction false} Unredirected(p: Path, aliases: seq<Alias>)
    requires forall a :: a in aliases ==> !(a.virtual <= p)
    ensures Resolve(p, aliases) == p
    decreases |aliases|
  {
    if aliases != [] {
      var last := aliases[|aliases| - 1];
      assert last in aliases;
      Unredirected(p, aliases[..|aliases| - 1]);
    }
  }

  lemma NotBetween(p: Path, below: Path, aliases: seq<Alias>, all: seq<Alias>)
    requires aliases != [] && (forall a :: a in aliases ==> a in all) && Flat(all) && Clear(Resolve(p, aliases), all)
    requires !(aliases[|aliases| - 1].virtual <= p)
    ensures !(aliases[|aliases| - 1].virtual <= p + below)
  {
    var last := aliases[|aliases| - 1];
    assert last in aliases;
    if last.virtual <= p + below {
      Comparable(p, last.virtual, p + below);
      if forall a :: a in aliases ==> !(a.virtual <= p) {
        Unredirected(p, aliases);
      }
    }
  }

  /** Resolution carries whole subtrees as long as destinations are flat. */
  lemma {:induction false} ResolveBelow(p: Path, below: Path, aliases: seq<Alias>, all: seq<Alias>)
    requires (forall a :: a in aliases ==> a in all) && Flat(all) && Clear(Resolve(p, aliases), all)
    ensures Resolve(p + below, aliases) == Resolve(p, aliases) + below
    decreases |aliases|
  {
    if aliases != [] {
      var last, earlier := aliases[|aliases| - 1], aliases[..|aliases| - 1];
      assert last in aliases;
      if last.virtual <= p {
        assert Redirect(p + below, last) == Redirect(p, last) + below;
      } else {
        NotBetween(p, below, aliases, all);
      }
      ResolveBelow(Redirect(p, last), below, earlier, all);
    }
  }

  /** A path the last rename brought resolves as the path it was brought from. */
  lemma BroughtResolves(operations: seq<Operation>, k: nat, below: Path)
    requires k < |operations| && operations[k].Rename? && TakesStraight(operations, k)
    ensures
      var op, earlier := operations[k], Aliases(operations, k);
      Resolve(Resolve(op.oldPath, earlier) + below, earlier) == Resolve(op.oldPath + below, earlier)
  {
    var op, earlier := operations[k], Aliases(operations, k);
    var source := Resolve(op.oldPath, earlier);
    if source != op.oldPath {
      ResolveBelow(op.oldPath, below, earlier, earlier);
      forall a | a in earlier ensures !(a.virtual <= source + below) {
        if a.virtual <= source + below { Comparable(a.virtual, source, source + below); }
      }
      Unredirected(source + below, earlier);
    }
  }

  /** With a straight newest rename, resolution starts from where that one took the path. */
  lemma ResolveLast(operations: seq<Operation>, k: nat, p: Path)
    requires 0 < k <= |operations| && TakesStraight(operations, k - 1)
    ensures Resolve(p, Aliases(operations, k)) == Resolve(BeforeLast(operations, k, p), Aliases(operations, k - 1))
  {
    var op, earlier := operations[k - 1], Aliases(operations, k - 1);
    if op.Rename? {
      var aliases := earlier + [Alias(op.newPath, Resolve(op.oldPath, earlier))];
      assert aliases[..|aliases| - 1] == earlier;
      if op.newPath <= p {
        BroughtResolves(operations, k - 1, p[|op.newPath|..]);
      }
    }
  }

  /** Two ways to follow a path back that take the same steps end at the same place. */
  lemma {:induction false} SameSteps(
      f: (nat, Path) -> Path, g: (nat, Path) -> Path, back: (nat, Path) -> Path, k: nat, p: Path)
    requires forall q :: f(0, q) == g(0, q)
    requires forall j: nat, q {:trigger back(j, q)} ::
      0 < j <= k ==> f(j, q) == f(j - 1, back(j, q)) && g(j, q) == g(j - 1, back(j, q))
    ensures f(k, p) == g(k, p)
    decreases k
  {
    if k > 0 {
      SameSteps(f, g, back, k - 1, back(k, p));
    }
  }

  lemma {:induction false} StraightEarlier(operations: seq<Operation>, k: nat, j: nat)
    requires j < k <= |operations| && Straight(operations, k)
    ensures TakesStraight(operations, j)
    decreases k
  {
    if j < k - 1 {
      StraightEarlier(operations, k - 1, j);
    }
  }

  /** Resolution starts from where operation `j - 1` took the path. */
  ghost predicate ResolvesBack(operations: seq<Operation>, j: nat, q: Path)
    requires 0 < j <= |operations|
  {
    Resolve(q, Aliases(operations, j)) == Resolve(BeforeLast(operations, j, q), Aliases(operations, j - 1))
  }

  lemma StraightResolvesBack(operations: seq<Operation>, k: nat, j: nat, q: Path)
    requires 0 < j <= k <= |operations| && Straight(operations, k)
    ensures ResolvesBack(operations, j, q)
  {
    StraightEarlier(operations, k, j - 1);
    ResolveLast(operations, j, q);
  }

  lemma BackOne(operations: seq<Operation>, j: nat, q: Path)
    requires 0 < j <= |operations| && ResolvesBack(operations, j, q)
    ensures Resolve(q, Aliases(operations, j)) == Resolve(BeforeLast(operations, j, q), Aliases(operations, j - 1))
    ensures Lineage(operations, j, q) == Lineage(operations, j - 1, BeforeLast(operations, j, q))
  {
  }

  lemma BackToLineage(operations: seq<Operation>, k: nat, p: Path)
    requires k <= |operations|
    requires forall j: nat, q {:trigger ResolvesBack(operations, j, q)} :: 0 < j <= k ==> ResolvesBack(operations, j, q)
    ensures Resolve(p, Aliases(operations, k)) == Lineage(operations, k, p)
  {
    var n := |operations|;
    var resolved := (j: nat, q: Path) => if j <= n then Resolve(q, Aliases(operations, j)) else q;
    var origin := (j: nat, q: Path) => if j <= n then Lineage(operations, j, q) else q;
    var back := (j: nat, q: Path) => if 0 < j <= n then BeforeLast(operations, j, q) else q;
    forall j: nat, q | 0 < j <= k
      ensures resolved(j, q) == resolved(j - 1, back(j, q)) && origin(j, q) == origin(j - 1, back(j, q))
    {
      BackOne(operations, j, q);
    }
    SameSteps(resolved, origin, back, k, p);
  }

  /** With straight renames, resolution finds where every path comes from. */
  lemma ResolveIsLineage(operations: seq<Operation>, k: nat, p: Path)
    requires k <= |operations| && Straight(operations, k)
    ensures Resolve(p, Aliases(operations, k)) == Lineage(operations, k, p)
  {
    forall j: nat, q | 0 < j <= k ensures ResolvesBack(operations, j, q) {
      StraightResolvesBack(operations, k, j, q);
    }
    BackToLineage(operations, k, p);
  }

  /** If every rename is straight, staging refines the run without reservation. */
  lemma StraightPlansAreStaged(tx: Transaction, d: Disk, g: Tree)
    requires Stageable(tx, d, g) && Straight(tx.operations, |tx.operations|)
    ensures Visits(tx.operations, |tx.operations|, g).Ok?
    ensures AllStageRun(tx, d, |tx.operations|, Visits(tx.operations, |tx.operations|, g).value.0)
  {
    StagedUpTo(tx, d, g, |tx.operations|);
    StagingRefinesRun(tx, d, g, |tx.operations|);
  }

  lemma {:induction false} StagedUpTo(tx: Transaction, d: Disk, g: Tree, n: nat)
    requires Stageable(tx, d, g) && n <= |tx.operations| && Straight(tx.operations, n)
    ensures Visits(tx.operations, n, g).Ok?
    decreases n
  {
    if n > 0 {
      StagedUpTo(tx, d, g, n - 1);
      StraightIsFound(tx, d, g, n);
      StagedOneMore(tx, d, g, n);
    }
  }

  lemma StraightIsFound(tx: Transaction, d: Disk, g: Tree, n: nat)
    requires Stageable(tx, d, g) && 0 < n <= |tx.operations| && Straight(tx.operations, n)
    requires Visits(tx.operations, n - 1, g).Ok?
    ensures FindsText(tx.operations, n - 1, g)
  {
    if tx.operations[n - 1].Text? {
      ResolveIsLineage(tx.operations, n - 1, tx.operations[n - 1].path);
      StraightFinds(tx, d, g, n - 1);
    }
  }

  lemma StagedOneMore(tx: Transaction, d: Disk, g: Tree, n: nat)
    requires Stageable(tx, d, g) && 0 < n <= |tx.operations|
    requires Visits(tx.operations, n - 1, g).Ok? && FindsText(tx.operations, n - 1, g)
    ensures Visits(tx.operations, n, g).Ok?
  {
    if tx.operations[n - 1].Text? {
      FoundIsStaged(tx, d, g, n);
    } else {
      VisitsNext(tx.operations, n - 1, g);
    }
  }

  lemma FoundIsStaged(tx: Transaction, d: Disk, g: Tree, n: nat)
    requires Stageable(tx, d, g) && 0 < n <= |tx.operations| && tx.operations[n - 1].Text?
    requires Visits(tx.operations, n - 1, g).Ok? && FindsText(tx.operations, n - 1, g)
    ensures Visits(tx.operations, n, g).Ok?
  {
    TextIsStaged(tx, d, g, n - 1);
  }

  lemma StraightFinds(tx: Transaction, d: Disk, g: Tree, k: nat)
    requires Stageable(tx, d, g) && k < |tx.operations| && tx.operations[k].Text? && Visits(tx.operations, k, g).Ok?
    requires Resolve(tx.operations[k].path, Aliases(tx.operations, k)) ==
      Lineage(tx.operations, k, tx.operations[k].path)
    ensures FindsText(tx.operations, k, g)
  {
    var op, t := tx.operations[k], RunDisk(tx, d, k).tree;
    ViewReflects(tx, d, g, k);
    TextIsRead(tx, d, g, k);
    PlanIsShaped(tx, k);
    assert op.path in OperationPaths(op);
    if !Overlaid(tx.operations, k, op.path) {
      assert Originates(tx.Artifacts(), g, Lineage(tx.operations, k, op.path), t[op.path].bytes);
    }
  }

  /** With distinct contents, a text finds its bytes only if its target resolves to where
      it comes from. */
  lemma FindsTextExactly(tx: Transaction, d: Disk, g: Tree, k: nat)
    requires Stageable(tx, d, g) && k < |tx.operations| && tx.operations[k].Text? && Visits(tx.operations, k, g).Ok?
    requires forall p, q :: p in g && q in g && g[p].File? && g[q].File? && g[p].bytes == g[q].bytes ==> p == q
    ensures var p := tx.operations[k].path;
      FindsText(tx.operations, k, g) <==>
        Overlaid(tx.operations, k, p) || Resolve(p, Aliases(tx.operations, k)) == Lineage(tx.operations, k, p)
  {
    if Resolve(tx.operations[k].path, Aliases(tx.operations, k)) == Lineage(tx.operations, k, tx.operations[k].path) {
      StraightFinds(tx, d, g, k);
    }
  }
}
