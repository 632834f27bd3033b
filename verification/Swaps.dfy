/** A plan whose texts are not where staging looks: two files are exchanged through a third
    name, and a text is edited at one of them. */
module Swaps {
  import opened Paths
  import opened Results
  import opened ByteStrings
  import opened Trees
  import opened TextEdits
  import opened Manifests
  import opened Operations
  import opened Transactions
  import opened Plans
  import opened Overlay

  const A: Path := [Plain("a")]
  const B: Path := [Plain("b")]
  const C: Path := [Plain("c")]
  const AREA: Path := [ArtifactName(0)]

  const OPERATIONS: seq<Operation> := [
    Rename(0, A, C, false, false),
    Rename(1, B, A, false, false),
    Rename(2, C, B, false, false),
    Text(3, B, OfBytes([97]), OfBytes([65, 97]), [TextEdit(0, 0, [65])])]

  const BEFORE: Manifest := map[
    A := Entry(true, FileKind, Some(1), Some(OfBytes([97])), Some(0)),
    B := Entry(true, FileKind, Some(2), Some(OfBytes([98])), Some(0)),
    C := MISSING]

  const PLAN: Transaction := Transaction(0, OPERATIONS, BEFORE, map[], map[], [], [A, B, C])

  const TREE: Tree := map[[] := Dir(0, 0), A := File(1, [97], 0), B := File(2, [98], 0)]
  const DISK: Disk := Disk(TREE[AREA := Dir(3, 0)][StagedPath(AREA, 3) := File(4, [65, 97], 0)], 5, 0)

  lemma NamesAreApart()
    ensures Disjoint(A, B) && Disjoint(A, C) && Disjoint(B, C)
    ensures forall p :: p in {A, B, C} ==> p != [] && Parent(p) == [] && !(AREA <= p)
    ensures PLAN.Artifacts() == AREA && |OPERATIONS| == 4
  {
    assert A[0].text[0] != B[0].text[0] && A[0].text[0] != C[0].text[0] && B[0].text[0] != C[0].text[0];
  }

  predicate Holds(t: Tree, p: Path, bytes: Bytes) {
    p in t && t[p].File? && t[p].bytes == bytes
  }

  predicate InRoot(t: Tree) {
    [] in t && t[[]].Dir?
  }

  lemma PlanIsWellFormed()
    ensures WellFormed(PLAN)
  {
    NamesAreApart();
  }

  lemma StartIsReady()
    ensures TreeOk(DISK.tree) && BeforeExact(PLAN, DISK.tree) && EquippedFrom(PLAN, 0, DISK.tree)
    ensures InRoot(DISK.tree) && Holds(DISK.tree, A, [97]) && Holds(DISK.tree, B, [98]) && C !in DISK.tree
  {
    NamesAreApart();
    assert Parent(AREA) == [] && Parent(StagedPath(AREA, 3)) == AREA;
    ArtifactsAreStaged();
    StartIsDescribed();
  }

  lemma ArtifactsAreStaged()
    ensures EquippedFrom(PLAN, 0, DISK.tree)
  {
    forall j | 0 <= j < |PLAN.operations| ensures Equipped(PLAN.Artifacts(), PLAN.operations[j], DISK.tree) {
      assert UndoPath(AREA, OPERATIONS[j].index)[1] != StagedPath(AREA, 3)[1];
    }
  }

  lemma StartIsDescribed()
    ensures Describes(BEFORE, DISK.tree)
  {
    NamesAreApart();
    forall p | p in BEFORE ensures !Blocked(DISK.tree, p) {
      assert forall a :: a in DISK.tree && a < p ==> a == [];
    }
    assert C !in DISK.tree && DISK.tree[A] == File(1, [97], 0) && DISK.tree[B] == File(2, [98], 0);
  }

  /** One of the three renames, on a tree that has its source and not its destination. */
  lemma Moved(k: nat, from: Path, to: Path, other: Path)
    requires k < 3 && OPERATIONS[k] == Rename(k, from, to, false, false)
    requires from in {A, B, C} && to in {A, B, C} && other in {A, B, C} && from != to && other != from && other != to
    requires TreeOk(DISK.tree) && InRoot(RunDisk(PLAN, DISK, k).tree)
    requires from in RunDisk(PLAN, DISK, k).tree && to !in RunDisk(PLAN, DISK, k).tree
    ensures
      var t, t' := RunDisk(PLAN, DISK, k).tree, RunDisk(PLAN, DISK, k + 1).tree;
      && PlannedAt(PLAN, DISK, k) && InRoot(t')
      && Same(t, from, t', to) && from !in t' && Same(t, other, t', other)
  {
    var d := RunDisk(PLAN, DISK, k);
    NamesAreApart();
    PlanIsWellFormed();
    StartIsReady();
    RunKeepsEquipped(PLAN, DISK, k);
    PlanIsShaped(PLAN, k);
    assert Equipped(AREA, OPERATIONS[k], d.tree);
    PlannedSteps(PLAN, OPERATIONS[k], d);
    var t' := RunDisk(PLAN, DISK, k + 1).tree;
    assert t' == StepDisk(PLAN, OPERATIONS[k], d).tree;
    assert Rebase(to, to, from) == from;
    assert SteppedAt(OPERATIONS[k], d.tree, t', to) && SteppedAt(OPERATIONS[k], d.tree, t', from);
    assert SteppedAt(OPERATIONS[k], d.tree, t', other) && SteppedAt(OPERATIONS[k], d.tree, t', []);
  }

  /** The files are exchanged when the text's turn comes. */
  lemma Exchanged()
    ensures TreeOk(DISK.tree) && forall k :: 0 <= k < 3 ==> PlannedAt(PLAN, DISK, k)
    ensures Holds(RunDisk(PLAN, DISK, 3).tree, B, [97])
  {
    StartIsReady();
    NamesAreApart();
    assert RunDisk(PLAN, DISK, 0) == DISK;
    Moved(0, A, C, B);
    MovedOn();
  }

  lemma MovedOn()
    requires
      var t := RunDisk(PLAN, DISK, 1).tree;
      TreeOk(DISK.tree) && InRoot(t) && Holds(t, C, [97]) && Holds(t, B, [98]) && A !in t
    ensures PlannedAt(PLAN, DISK, 1) && PlannedAt(PLAN, DISK, 2) && Holds(RunDisk(PLAN, DISK, 3).tree, B, [97])
  {
    Moved(1, B, A, C);
    Moved(2, C, B, A);
  }

  lemma PlanIsStageable()
    ensures Stageable(PLAN, DISK, TREE)
  {
    StartIsReady();
    PlanIsWellFormed();
    Exchanged();
    assert PlannedAt(PLAN, DISK, 3);
    EditFits();
  }

  lemma EditFits()
    ensures EditsFit(OPERATIONS[3])
  {
    var edits := [TextEdit(0, 0, [65])];
    assert edits[1..] == [];
    assert Swept([97], edits, 0) == [97][0..0] + [65] + Swept([97], [], 0);
    assert Swept([97], [], 0) == [97];
    assert [97][1..] == [];
  }

  lemma AliasOfB()
    ensures Resolve(B, Aliases(OPERATIONS, 3)) == B
  {
    var first, second, third := Alias(C, A), Alias(A, B), Alias(B, A);
    NamesAreApart();
    assert Aliases(OPERATIONS, 0) == [];
    assert Aliases(OPERATIONS, 1) == [first];
    ResolveOne(B, first);
    assert Aliases(OPERATIONS, 2) == [first, second];
    ResolveTwo(C, first, second);
    assert Rebase(C, C, A) == A && Resolve(C, [first, second]) == A;
    assert Aliases(OPERATIONS, 3) == [first, second] + [third];
    assert [first, second, third][..2] == [first, second];
    ResolveTwo(A, first, second);
  }

  lemma ResolveOne(p: Path, first: Alias)
    ensures Resolve(p, [first]) == Redirect(p, first)
  {
  }

  lemma ResolveTwo(p: Path, first: Alias, second: Alias)
    ensures Resolve(p, [first, second]) == Redirect(Redirect(p, second), first)
  {
    assert [first, second][..1] == [first];
    ResolveOne(Redirect(p, second), first);
  }

  lemma LineageOfB()
    ensures Lineage(OPERATIONS, 3, B) == A && !Overlaid(OPERATIONS, 3, B)
  {
    NamesAreApart();
    assert Rebase(B, B, C) == C && Rebase(C, C, A) == A;
    assert Lineage(OPERATIONS, 1, C) == Lineage(OPERATIONS, 0, A);
    assert Lineage(OPERATIONS, 2, C) == Lineage(OPERATIONS, 1, C);
    assert !Overlaid(OPERATIONS, 1, C);
  }

  lemma RenamesAreStaged()
    requires Stageable(PLAN, DISK, TREE)
    ensures Visits(OPERATIONS, 3, TREE).Ok?
  {
    assert TextsFound(OPERATIONS, 0, TREE);
    assert FindsText(OPERATIONS, 0, TREE) && FindsText(OPERATIONS, 1, TREE) && FindsText(OPERATIONS, 2, TREE);
    assert TextsFound(OPERATIONS, 1, TREE) && TextsFound(OPERATIONS, 2, TREE);
    StagingRefinesRun(PLAN, DISK, TREE, 3);
  }

  /** What staging reads at `b`. */
  lemma ReadsOther(v: View, t: Tree)
    requires TreeOk(t) && Reflects(AREA, OPERATIONS, 3, v, TREE, t) && B in t
    ensures VirtualText(B, v, TREE) == Ok([98])
  {
    AliasOfB();
    LineageOfB();
    forall root | root in v.unavailable ensures !(root <= B) {
      assert root !in t;
      if root <= B { AbsentSubtree(t, root, B); }
    }
  }

  /** The plan is valid and staged, the first three operations are staged, and the text is
      refused: it is `a` when its turn comes, while staging reads `b`. */
  lemma SwapMisleads()
    ensures Stageable(PLAN, DISK, TREE) && Holds(RunDisk(PLAN, DISK, 3).tree, B, [97])
    ensures Visits(OPERATIONS, 3, TREE).Ok? && VirtualText(B, Visits(OPERATIONS, 3, TREE).value.1, TREE) == Ok([98])
    ensures Visits(OPERATIONS, 4, TREE).Err?
  {
    PlanIsStageable();
    Exchanged();
    RenamesAreStaged();
    ViewReflects(PLAN, DISK, TREE, 3);
    ReadsOther(Visits(OPERATIONS, 3, TREE).value.1, RunDisk(PLAN, DISK, 3).tree);
    VisitsNext(OPERATIONS, 3, TREE);
  }
}
