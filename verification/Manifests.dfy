/** Manifests: what the planner, the commit log and recovery record about tracked
    paths. The path-sorted vector of the original is a map from paths to entries.
    Digests are collision free, so a digest is modelled by what it digests. */
module Manifests {
  import opened Paths
  import opened Results
  import opened ByteStrings
  import opened Trees

  datatype Kind = FileKind | DirectoryKind | MissingKind

  datatype Digest =
    | OfBytes(bytes: Bytes)
    | OfMembers(members: set<(Name, Kind)>)
    | Placeholder

  datatype Entry = Entry(
    present: bool,
    kind: Kind,
    identity: Option<nat>,
    content: Option<Digest>,
    metadata: Option<nat>)

  type Manifest = map<Path, Entry>

  const MISSING: Entry := Entry(false, MissingKind, None, None, None)

  function KindOf(node: Node): Kind {
    if node.File? then FileKind else DirectoryKind
  }

  /** A directory entry with a content digest certifies its exact set of children. */
  predicate Certified(e: Entry) {
    e.kind.DirectoryKind? && e.content.Some?
  }

  /** The names and kinds of the children of a directory. */
  function Members(t: Tree, d: Path): set<(Name, Kind)> {
    set q | q in t && IsChild(d, q) :: (Last(q), KindOf(t[q]))
  }

  /** What a lookup of `p` records; only a certified directory is enumerated. */
  function Seen(t: Tree, p: Path, certified: bool): Entry {
    if p !in t then MISSING
    else match t[p]
      case File(id, bytes, meta) => Entry(true, FileKind, Some(id), Some(OfBytes(bytes)), Some(meta))
      case Dir(id, meta) =>
        Entry(true, DirectoryKind, Some(id), if certified then Some(OfMembers(Members(t, p))) else None, Some(meta))
  }

  function CertifiedAt(m: Manifest, p: Path): bool {
    p in m && Certified(m[p])
  }

  function Observed(t: Tree, template: Manifest): Manifest {
    map p | p in template :: Seen(t, p, Certified(template[p]))
  }

  /** Observes the paths of `template`. A path below a regular file cannot be
      inspected. */
  function Inspect(t: Tree, template: Manifest): Result<Manifest> {
    if exists p | p in template :: Blocked(t, p) then Err else Ok(Observed(t, template))
  }

  /** The check made before and after every effect. */
  predicate RequireManifest(t: Tree, m: Manifest) {
    Inspect(t, m) == Ok(m)
  }

  /** `m` is exactly what inspection of `t` yields. */
  ghost predicate Describes(m: Manifest, t: Tree) {
    forall p :: p in m ==> !Blocked(t, p) && m[p] == Seen(t, p, Certified(m[p]))
  }

  lemma RequireIsDescribes(t: Tree, m: Manifest)
    ensures RequireManifest(t, m) <==> Describes(m, t)
  {
    if RequireManifest(t, m) {
      forall p | p in m ensures !Blocked(t, p) && m[p] == Seen(t, p, Certified(m[p])) {
        assert Inspect(t, m).value[p] == m[p];
      }
    }
    if Describes(m, t) {
      assert Observed(t, m) == m;
    }
  }

  /** Children the manifest itself lists for a directory. */
  function Listed(m: Manifest, d: Path): set<(Name, Kind)> {
    set q | q in m && m[q].present && IsChild(d, q) :: (Last(q), m[q].kind)
  }

  /** Recomputes every membership certificate from the manifest's own entries. */
  function Refresh(m: Manifest): (r: Manifest)
    ensures r.Keys == m.Keys
  {
    map p | p in m :: if Certified(m[p]) then m[p].(content := Some(OfMembers(Listed(m, p)))) else m[p]
  }

  lemma ListedIgnoresContent(m: Manifest, n: Manifest, d: Path)
    requires m.Keys == n.Keys
    requires forall p :: p in m ==> m[p].present == n[p].present && m[p].kind == n[p].kind
    ensures Listed(m, d) == Listed(n, d)
  {
    assert forall q :: q in m && m[q].present && IsChild(d, q) ==> (Last(q), m[q].kind) == (Last(q), n[q].kind);
    forall x ensures x in Listed(m, d) <==> x in Listed(n, d) {
      if x in Listed(m, d) {
        var q :| q in m && m[q].present && IsChild(d, q) && x == (Last(q), m[q].kind);
        assert q in n && n[q].present;
      }
      if x in Listed(n, d) {
        var q :| q in n && n[q].present && IsChild(d, q) && x == (Last(q), n[q].kind);
        assert q in m && m[q].present;
      }
    }
  }

  /** The in-place loop computes `Refresh`, in whatever order it visits directories. */
  method RefreshMembership(m: Manifest) returns (r: Manifest)
    ensures r == Refresh(m)
  {
    r := m;
    var todo := m.Keys;
    while todo != {}
      invariant todo <= m.Keys == r.Keys
      invariant forall p :: p in todo ==> r[p] == m[p]
      invariant forall p :: p in m && p !in todo ==> r[p] == Refresh(m)[p]
    {
      var p :| p in todo;
      todo := todo - {p};
      if Certified(r[p]) {
        ListedIgnoresContent(m, r, p);
        r := r[p := r[p].(content := Some(OfMembers(Listed(r, p))))];
      }
    }
  }

  lemma RefreshIdempotent(m: Manifest)
    ensures Refresh(Refresh(m)) == Refresh(m)
  {
    var r := Refresh(m);
    forall p | p in r ensures Refresh(r)[p] == r[p] {
      ListedIgnoresContent(m, r, p);
    }
  }

  /** An entry without its membership certificate. */
  function Bare(e: Entry): Entry {
    if e.kind.DirectoryKind? then e.(content := None) else e
  }

  /** Existence, kind, identity, file content and metadata agree with the tree, and
      the children of every certified directory are tracked. */
  ghost predicate Agrees(m: Manifest, t: Tree) {
    forall p :: p in m ==> !Blocked(t, p) && Bare(m[p]) == Seen(t, p, false)
  }

  ghost predicate Covers(m: Manifest, t: Tree) {
    forall d, q :: CertifiedAt(m, d) && q in t && IsChild(d, q) ==> q in m
  }

  ghost predicate Tracks(m: Manifest, t: Tree) {
    Agrees(m, t) && Covers(m, t)
  }

  lemma ListedIsMembers(m: Manifest, t: Tree, d: Path)
    requires Tracks(m, t) && CertifiedAt(m, d)
    ensures Listed(m, d) == Members(t, d)
  {
    forall x ensures x in Listed(m, d) <==> x in Members(t, d) {
      if x in Listed(m, d) {
        var q :| q in m && m[q].present && IsChild(d, q) && x == (Last(q), m[q].kind);
        assert Bare(m[q]) == Seen(t, q, false);
        assert q in t && KindOf(t[q]) == m[q].kind;
      }
      if x in Members(t, d) {
        var q :| q in t && IsChild(d, q) && x == (Last(q), KindOf(t[q]));
        assert q in m && Bare(m[q]) == Seen(t, q, false);
      }
    }
  }

  /** A manifest with fresh certificates describes the tree as soon as it tracks it. */
  lemma TrackedIsDescribed(m: Manifest, t: Tree)
    requires Tracks(m, t)
    ensures Describes(Refresh(m), t)
  {
    var r := Refresh(m);
    forall p | p in r ensures !Blocked(t, p) && r[p] == Seen(t, p, Certified(r[p])) {
      assert Bare(m[p]) == Seen(t, p, false);
      if Certified(m[p]) {
        ListedIsMembers(m, t, p);
      }
    }
  }

  /** Conversely, a described manifest whose certificates list its own entries tracks
      every child of a certified directory. */
  lemma DescribedIsTracked(m: Manifest, t: Tree)
    requires Describes(m, t) && Refresh(m) == m
    ensures Tracks(m, t)
  {
    forall d, q | CertifiedAt(m, d) && q in t && IsChild(d, q) ensures q in m {
      assert Refresh(m)[d] == m[d];
      assert (Last(q), KindOf(t[q])) in Members(t, d);
      assert m[d].content == Some(OfMembers(Listed(m, d)));
      assert m[d].content == Some(OfMembers(Members(t, d)));
      var c :| c in m && m[c].present && IsChild(d, c) && (Last(q), KindOf(t[q])) == (Last(c), m[c].kind);
      assert c == Parent(c) + [Last(c)] && q == Parent(q) + [Last(q)];
    }
  }

  lemma RefreshKeepsTracking(m: Manifest, t: Tree)
    ensures Tracks(m, t) <==> Tracks(Refresh(m), t)
  {
    var r := Refresh(m);
    assert forall p :: p in m ==> Bare(m[p]) == Bare(r[p]) && Certified(m[p]) == Certified(r[p]);
  }

  /** In a tracked tree, a tracked subtree whose directories are all certified is
      tracked completely. */
  lemma {:induction false} SubtreeIsTracked(m: Manifest, t: Tree, root: Path, q: Path)
    requires TreeOk(t) && Tracks(m, t) && root in m && q in t && root <= q
    requires forall p :: p in m && root <= p && m[p].kind.DirectoryKind? ==> Certified(m[p])
    ensures q in m && m[q].present
    decreases |q|
  {
    if q == root {
      assert Bare(m[q]) == Seen(t, q, false);
    } else {
      assert q != [] by { assert |root| == |q| ==> root == q; }
      BelowByParent(root, q);
      SubtreeIsTracked(m, t, root, Parent(q));
      ChildIsTracked(m, t, q);
    }
  }

  lemma ChildIsTracked(m: Manifest, t: Tree, q: Path)
    requires TreeOk(t) && Tracks(m, t) && q in t && q != [] && Parent(q) in m
    requires m[Parent(q)].kind.DirectoryKind? ==> Certified(m[Parent(q)])
    ensures q in m && m[q].present
  {
    assert Bare(m[Parent(q)]) == Seen(t, Parent(q), false);
    assert CertifiedAt(m, Parent(q));
    assert Bare(m[q]) == Seen(t, q, false);
  }
}
