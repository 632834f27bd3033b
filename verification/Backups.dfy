/** The backups planned for a transaction: one for every topmost present path of the
    before manifest. */
module Backups {
  import opened Paths
  import opened Results
  import opened Trees
  import opened Manifests
  import opened Transactions
  import opened Reversal

  /** A present path with no other present path above it. */
  predicate IsRoot(before: Manifest, p: Path) {
    p in before && before[p].present && forall q | q in before :: before[q].present && q <= p ==> q == p
  }

  /** One backup per root, in manifest order, at distinct places of the artifacts. */
  ghost predicate Planned(before: Manifest, artifacts: Path, backups: seq<BackupEntry>) {
    && (forall i :: 0 <= i < |backups| ==>
         IsRoot(before, backups[i].path) && backups[i].backupPath == artifacts + [BackupName(i)])
    && (forall i, j :: 0 <= i < j < |backups| ==> backups[i].path != backups[j].path)
    && (forall p :: IsRoot(before, p) ==> exists i :: 0 <= i < |backups| && backups[i].path == p)
  }

  /** The roots among `order`, in that order. */
  function Roots(before: Manifest, order: seq<Path>): (roots: seq<Path>)
    ensures forall p :: p in roots <==> p in order && IsRoot(before, p)
  {
    if order == [] then []
    else if IsRoot(before, order[0]) then [order[0]] + Roots(before, order[1..])
    else Roots(before, order[1..])
  }

  function PlannedBackups(before: Manifest, order: seq<Path>, artifacts: Path): seq<BackupEntry> {
    var roots := Roots(before, order);
    seq(|roots|, i requires 0 <= i < |roots| => BackupEntry(roots[i], artifacts + [BackupName(i)]))
  }

  lemma {:induction false} RootsAreDistinct(before: Manifest, order: seq<Path>)
    requires forall i, j :: 0 <= i < j < |order| ==> order[i] != order[j]
    ensures forall i, j :: 0 <= i < j < |Roots(before, order)| ==> Roots(before, order)[i] != Roots(before, order)[j]
  {
    if order != [] {
      RootsAreDistinct(before, order[1..]);
      assert order[0] !in order[1..];
    }
  }

  lemma BackupsArePlanned(before: Manifest, order: seq<Path>, artifacts: Path)
    requires (set p | p in order) == before.Keys
    requires forall i, j :: 0 <= i < j < |order| ==> order[i] != order[j]
    ensures Planned(before, artifacts, PlannedBackups(before, order, artifacts))
  {
    var roots, backups := Roots(before, order), PlannedBackups(before, order, artifacts);
    RootsAreDistinct(before, order);
    forall p | IsRoot(before, p) ensures exists i :: 0 <= i < |backups| && backups[i].path == p {
      assert p in before.Keys;
      var i :| 0 <= i < |roots| && roots[i] == p;
      assert backups[i].path == p;
    }
  }

  /** Every present path lies below a root. */
  lemma {:induction false} RootAbove(before: Manifest, p: Path) returns (root: Path)
    requires p in before && before[p].present
    ensures IsRoot(before, root) && root <= p
    decreases |p|
  {
    if IsRoot(before, p) {
      root := p;
    } else {
      var q :| q in before && before[q].present && q <= p && q != p;
      assert |q| == |p| ==> q == p;
      root := RootAbove(before, q);
    }
  }

  /** Roots form an antichain. */
  lemma RootsAreApart(before: Manifest, a: Path, b: Path, p: Path)
    requires IsRoot(before, a) && IsRoot(before, b) && a <= p && b <= p
    ensures a == b
  {
    Comparable(a, b, p);
  }

  /** The lookup for a present path ends at the backup of the only root above it. */
  lemma {:induction false} BackupFound(before: Manifest, backups: seq<BackupEntry>, p: Path, root: Path, i: nat)
    requires forall b :: b in backups ==> IsRoot(before, b.path)
    requires IsRoot(before, root) && root <= p && i < |backups| && backups[i].path == root
    requires forall j, k :: 0 <= j < k < |backups| ==> backups[j].path != backups[k].path
    ensures BackupPathFor(backups, p) == Some(Rebase(p, root, backups[i].backupPath))
    decreases i
  {
    if backups[0].path <= p {
      RootsAreApart(before, backups[0].path, root, p);
    } else {
      assert i > 0;
      BackupFound(before, backups[1..], p, root, i - 1);
    }
  }

  /** Same kind, bytes and metadata; a copy has an identity of its own. */
  predicate CopyOf(copy: Node, original: Node) {
    match original
    case File(_, bytes, meta) => copy.File? && copy.bytes == bytes && copy.meta == meta
    case Dir(_, meta) => copy.Dir? && copy.meta == meta
  }

  /** Each root has been copied, with everything below it, to its backup place. */
  ghost predicate BackedUp(backups: seq<BackupEntry>, t: Tree) {
    forall i, p :: 0 <= i < |backups| && p in t && backups[i].path <= p ==>
      var copy := Rebase(p, backups[i].path, backups[i].backupPath);
      copy in t && CopyOf(t[copy], t[p])
  }

  /** Every present path of the before manifest can be found in the backups. */
  lemma BackupsCover(before: Manifest, artifacts: Path, backups: seq<BackupEntry>, t: Tree, p: Path)
    requires Planned(before, artifacts, backups) && BackedUp(backups, t)
    requires p in before && before[p].present && p in t
    ensures BackupPathFor(backups, p).Some?
    ensures BackupPathFor(backups, p).value in t && CopyOf(t[BackupPathFor(backups, p).value], t[p])
  {
    var root := RootAbove(before, p);
    var i :| 0 <= i < |backups| && backups[i].path == root;
    BackupFound(before, backups, p, root, i);
  }
}
