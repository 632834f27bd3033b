/** A plan the planner accepts and no commit can finish: delete a directory that holds a
    file, then create a file in its place. */
module Collision {
  import opened Paths
  import opened Results
  import opened Trees
  import opened Manifests
  import opened Operations
  import opened Transactions
  import opened CommitLog
  import opened Plans

  const FOLDER: Path := [Plain("a")]
  const INNER: Path := [Plain("a"), Plain("x")]
  const AREA: Path := [ArtifactName(0)]

  const START_TREE: Tree := map[[] := Dir(0, 0), FOLDER := Dir(1, 0), INNER := File(2, [], 0), AREA := Dir(3, 0)]
  const START_DISK: Disk := Disk(START_TREE, 4, 0)
  const BEFORE: Manifest := map[
    FOLDER := Entry(true, DirectoryKind, Some(1), Some(OfMembers({(Plain("x"), FileKind)})), Some(0)),
    INNER := Entry(true, FileKind, Some(2), Some(OfBytes([])), Some(0))]
  const PLAN: Transaction := Transaction(
    0, [Delete(0, FOLDER, true, false), Create(1, FOLDER, false, false)], BEFORE, map[], map[], [], [FOLDER, INNER])

  lemma StartIsTree()
    ensures TreeOk(START_TREE)
    ensures Members(START_TREE, FOLDER) == {(Plain("x"), FileKind)}
    ensures Describes(BEFORE, START_TREE)
  {
    assert Parent(INNER) == FOLDER && Parent(FOLDER) == [] && Parent(AREA) == [];
    assert IsChild(FOLDER, INNER) && Last(INNER) == Plain("x");
    forall p | p in START_TREE && IsChild(FOLDER, p) ensures p == INNER {
    }
    assert (Last(INNER), KindOf(START_TREE[INNER])) in Members(START_TREE, FOLDER);
    assert Members(START_TREE, FOLDER) == {(Plain("x"), FileKind)};
    PresentIsUnblocked(START_TREE, INNER);
    PresentIsUnblocked(START_TREE, FOLDER);
  }

  lemma FolderIsDeleted()
    ensures TreeOk(START_TREE)
    ensures var t := RunDisk(PLAN, START_DISK, 1).tree;
      FOLDER !in t && [] in t && t[[]].Dir? && AREA in t && t[AREA].Dir? && UndoPath(AREA, 1) !in t
  {
    StartIsTree();
    var undo := UndoPath(AREA, 0);
    assert Parent(undo) == AREA && undo !in START_TREE;
    assert RunDisk(PLAN, START_DISK, 1) == StepDisk(PLAN, PLAN.operations[0], RunDisk(PLAN, START_DISK, 0));
    assert Trees.Rename(START_TREE, FOLDER, undo).Ok?;
    var t := Trees.Rename(START_TREE, FOLDER, undo).value;
    assert RunDisk(PLAN, START_DISK, 1).tree == t;
    assert Disjoint(FOLDER, undo) && !(FOLDER <= AREA) && !(FOLDER <= []);
    assert undo != UndoPath(AREA, 1) && !(undo <= UndoPath(AREA, 1));
  }

  lemma PlanIsRunnable()
    ensures TreeOk(START_TREE) && Runnable(PLAN, START_DISK)
  {
    StartIsTree();
    FolderIsDeleted();
    StartIsExact();
    PlanIsWellFormed();
    assert PlannedAt(PLAN, START_DISK, 0);
    assert Parent(FOLDER) == [];
    assert PlannedAt(PLAN, START_DISK, 1);
  }

  lemma ArtifactsAreStaged()
    ensures EquippedFrom(PLAN, 0, START_TREE)
  {
    forall j | 0 <= j < |PLAN.operations| ensures Equipped(PLAN.Artifacts(), PLAN.operations[j], START_TREE) {
      assert UndoPath(AREA, j)[0] != INNER[0] && |UndoPath(AREA, j)| == 2;
    }
  }

  lemma StartIsExact()
    ensures BeforeExact(PLAN, START_TREE) && EquippedFrom(PLAN, 0, START_TREE)
  {
    StartIsTree();
    ArtifactsAreStaged();
    forall d, q | CertifiedAt(BEFORE, d) && q in START_TREE && IsChild(d, q) ensures q in BEFORE {
    }
  }

  lemma PlanIsWellFormed()
    ensures WellFormed(PLAN)
  {
    assert FOLDER[0] != AREA[0] && INNER[0] != AREA[0];
  }

  /** The plan keeps every promise of the planner and everything is staged, but its second
      operation collides, so that no commit of it completes. */
  lemma ValidPlanCanCollide()
    ensures TreeOk(START_TREE) && Runnable(PLAN, START_DISK) && CollidesAt(PLAN, START_DISK, 1)
  {
    PlanIsRunnable();
    FolderIsDeleted();
    var tracked := TrackedPaths(PLAN, START_DISK, 1);
    assert INNER in TrackedPaths(PLAN, START_DISK, 0);
    assert INNER in tracked && FOLDER < INNER;
  }
}
