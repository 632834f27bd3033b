/** The symbolic transfer of a subtree tracks the real rename, in both directions. */
module Simulation {
  import opened Paths
  import opened Results
  import opened Trees
  import opened Manifests
  import opened Operations
  import opened Transactions

  /** What carrying `from` to `to` needs of a tree and of the manifest tracking it. */
  ghost predicate CanCarry(m: Manifest, t: Tree, from: Path, to: Path) {
    && TreeOk(t) && Tracks(m, t)
    && Disjoint(from, to)
    && from in m && from in t && to !in t
    && to != [] && Parent(to) in t && t[Parent(to)].Dir?
    && Transferable(m, from)
  }


  lemma CanCarryFree(m: Manifest, t: Tree, from: Path, to: Path)
    requires CanCarry(m, t, from, to)
    ensures Free(t, to)
    ensures TreeOk(Relocate(t, from, to))
    ensures forall q :: q in Departing(m, from) <==> q in t && from <= q
  {
    forall p | p in t ensures !(to <= p) {
      if to <= p { AbsentSubtree(t, to, p); }
    }
    RelocateKeepsTree(t, from, to);
    SubtreeDeparts(m, t, from);
  }

  /** The tracked present entries of a certified subtree are exactly its resources. */
  lemma SubtreeDeparts(m: Manifest, t: Tree, from: Path)
    requires TreeOk(t) && Tracks(m, t) && from in m
    requires forall p :: p in m && m[p].present && from <= p && m[p].kind.DirectoryKind? ==> m[p].content.Some?
    ensures forall q :: q in Departing(m, from) <==> q in t && from <= q
  {
    forall q ensures q in Departing(m, from) <==> q in t && from <= q {
      if q in Departing(m, from) {
        assert Bare(m[q]) == Seen(t, q, false);
      }
      if q in t && from <= q {
        forall p | p in m && from <= p && m[p].kind.DirectoryKind? ensures Certified(m[p]) {
          assert Bare(m[p]) == Seen(t, p, false);
        }
        SubtreeIsTracked(m, t, from, q);
      }
    }
  }

  lemma CarryAgreesAt(m: Manifest, t: Tree, from: Path, to: Path, p: Path)
    requires CanCarry(m, t, from, to) && Free(t, to) && TreeOk(Relocate(t, from, to))
    requires forall q :: q in Departing(m, from) <==> q in t && from <= q
    requires p in Carried(m, from, to, Departing(m, from))
    ensures Bare(Carried(m, from, to, Departing(m, from))[p]) == Seen(Relocate(t, from, to), p, false)
    ensures !Shadows(m.Keys, t, from, to) ==> !Blocked(Relocate(t, from, to), p)
  {
    var t', r := Relocate(t, from, to), Carried(m, from, to, Departing(m, from));
    CarriedEntries(m, from, to, Departing(m, from));
    if p in t' {
      PresentIsUnblocked(t', p);
      if Arrival(Departing(m, from), from, to, p) {
        var p0 := Rebase(p, to, from);
        assert Bare(m[p0]) == Seen(t, p0, false);
      } else {
        assert Bare(m[p]) == Seen(t, p, false);
      }
    } else {
      if p !in Departing(m, from) {
        assert Bare(m[p]) == Seen(t, p, false);
      }
      assert Bare(r[p]) == MISSING;
      if !Shadows(m.Keys, t, from, to) && Blocked(t', p) {
        var a :| a in t' && a < p && t'[a].File?;
        if to <= a {
          RebaseBack(a, to, from);
        } else {
          assert Blocked(t, p);
        }
      }
    }
  }

  /** Carrying a subtree keeps a manifest in step with the tree. */
  lemma CarryForward(m: Manifest, t: Tree, from: Path, to: Path)
    requires CanCarry(m, t, from, to)
    ensures Free(t, to) && TreeOk(Relocate(t, from, to))
    ensures forall p :: p in Carried(m, from, to, Departing(m, from)) ==>
      Bare(Carried(m, from, to, Departing(m, from))[p]) == Seen(Relocate(t, from, to), p, false)
    ensures Covers(Carried(m, from, to, Departing(m, from)), Relocate(t, from, to))
    ensures !Shadows(m.Keys, t, from, to) ==> Tracks(Carried(m, from, to, Departing(m, from)), Relocate(t, from, to))
  {
    CanCarryFree(m, t, from, to);
    var t', r := Relocate(t, from, to), Carried(m, from, to, Departing(m, from));
    forall p | p in r
      ensures Bare(r[p]) == Seen(t', p, false)
      ensures !Shadows(m.Keys, t, from, to) ==> !Blocked(t', p)
    {
      CarryAgreesAt(m, t, from, to, p);
    }
    CarriedEntries(m, from, to, Departing(m, from));
    forall d, q | CertifiedAt(r, d) && q in t' && IsChild(d, q) ensures q in r {
      BelowByParent(to, q);
      BelowByParent(from, q);
      if to <= d {
        RebaseParent(q, to, from);
        assert Arrival(Departing(m, from), from, to, q);
      } else if to != q {
        assert !Arrival(Departing(m, from), from, to, d);
        assert CertifiedAt(m, d);
        assert q in t;
      } else {
        assert Arrival(Departing(m, from), from, to, q);
      }
    }
  }

  /** A tracked path under a file that was just moved can no longer be inspected. */
  lemma ShadowBlocks(m: Manifest, t: Tree, from: Path, to: Path)
    requires CanCarry(m, t, from, to) && Free(t, to) && Shadows(m.Keys, t, from, to)
    ensures exists q :: q in m && Blocked(Relocate(t, from, to), q)
  {
    var a :| a in t && from <= a && t[a].File? && exists q | q in m.Keys :: Rebase(a, from, to) < q;
    var q :| q in m.Keys && Rebase(a, from, to) < q;
    RebaseBack(a, from, to);
    assert Rebase(a, from, to) in Relocate(t, from, to);
  }

  /** What is left to undo a carry: some tree once matched `m`, the present tree matches
      the carried manifest, and the place to return to has its directory. */
  ghost predicate CanReturn(m: Manifest, g: Tree, t: Tree, from: Path, to: Path) {
    && CanCarry(m, g, from, to)
    && TreeOk(t) && Tracks(Carried(m, from, to, Departing(m, from)), t)
    && from != [] && Parent(from) in t && t[Parent(from)].Dir?
  }

  /** Before the carry, nothing tracked was present at its destination. */
  lemma DestinationWasMissing(m: Manifest, g: Tree, from: Path, to: Path, p: Path)
    requires CanCarry(m, g, from, to) && p in m && to <= p
    ensures m[p] == MISSING
  {
    AbsentSubtree(g, to, p);
    assert Bare(m[p]) == Seen(g, p, false);
  }

  /** Everything that was carried is still there. */
  lemma DepartedArrives(m: Manifest, g: Tree, t: Tree, from: Path, to: Path, p: Path)
    requires CanReturn(m, g, t, from, to) && p in Departing(m, from)
    ensures Rebase(p, from, to) in t
    ensures Seen(t, Rebase(p, from, to), false) == Bare(m[p])
  {
    CarriedEntries(m, from, to, Departing(m, from));
    RebaseBack(p, from, to);
    var q, r := Rebase(p, from, to), Carried(m, from, to, Departing(m, from));
    assert Bare(r[q]) == Seen(t, q, false);
  }

  lemma PlaceIsFree(m: Manifest, g: Tree, t: Tree, from: Path, to: Path)
    requires CanReturn(m, g, t, from, to)
    ensures from !in t && to in t && Free(t, from) && TreeOk(Relocate(t, to, from))
  {
    var r := Carried(m, from, to, Departing(m, from));
    CarriedEntries(m, from, to, Departing(m, from));
    assert from in Departing(m, from) by {
      assert Bare(m[from]) == Seen(g, from, false);
    }
    DepartedArrives(m, g, t, from, to, from);
    assert Rebase(from, from, to) == to;
    assert Bare(r[from]) == Seen(t, from, false);
    forall p | p in t ensures !(from <= p) {
      if from <= p { AbsentSubtree(t, from, p); }
    }
    RelocateKeepsTree(t, to, from);
  }

  /** Nothing else is there. */
  lemma ArrivedDeparted(m: Manifest, g: Tree, t: Tree, from: Path, to: Path, q: Path)
    requires CanReturn(m, g, t, from, to) && to in t && q in t && to <= q
    ensures Arrival(Departing(m, from), from, to, q)
  {
    var r := Carried(m, from, to, Departing(m, from));
    CarriedEntries(m, from, to, Departing(m, from));
    forall p | p in r && to <= p && r[p].kind.DirectoryKind? ensures Certified(r[p]) {
      if !Arrival(Departing(m, from), from, to, p) {
        DestinationWasMissing(m, g, from, to, p);
      }
    }
    assert to in r by {
      assert from in Departing(m, from) by { assert Bare(m[from]) == Seen(g, from, false); }
      assert Rebase(to, to, from) == from;
      assert Arrival(Departing(m, from), from, to, to);
    }
    SubtreeIsTracked(r, t, to, q);
    if !Arrival(Departing(m, from), from, to, q) {
      DestinationWasMissing(m, g, from, to, q);
    }
  }

  lemma ReturnAgreesAt(m: Manifest, g: Tree, t: Tree, from: Path, to: Path, p: Path)
    requires CanReturn(m, g, t, from, to) && Free(t, from) && to in t && p in m
    ensures Bare(m[p]) == Seen(Relocate(t, to, from), p, false)
  {
    var r := Carried(m, from, to, Departing(m, from));
    CarriedEntries(m, from, to, Departing(m, from));
    if to <= p {
      DestinationWasMissing(m, g, from, to, p);
    } else if from <= p {
      RebaseBack(p, from, to);
      if p in Departing(m, from) {
        DepartedArrives(m, g, t, from, to, p);
      } else {
        assert Bare(m[p]) == Seen(g, p, false);
        if Rebase(p, from, to) in t {
          ArrivedDeparted(m, g, t, from, to, Rebase(p, from, to));
        }
      }
    } else {
      assert Bare(r[p]) == Seen(t, p, false);
    }
  }

  lemma ReturnUnblockedAt(m: Manifest, g: Tree, t: Tree, from: Path, to: Path, p: Path)
    requires CanReturn(m, g, t, from, to) && Free(t, from) && to in t && p in m
    ensures !Blocked(Relocate(t, to, from), p)
  {
    var u := Relocate(t, to, from);
    if Blocked(u, p) {
      var a :| a in u && a < p && u[a].File?;
      if from <= a {
        RebaseBack(a, from, to);
        ArrivedDeparted(m, g, t, from, to, Rebase(a, from, to));
        ReturnAgreesAt(m, g, t, from, to, a);
      } else {
        CarriedEntries(m, from, to, Departing(m, from));
      }
    }
  }

  /** Carrying the subtree back makes the tree match the earlier manifest again, even if
      everything untracked was changed in between. */
  lemma CarryBackward(m: Manifest, g: Tree, t: Tree, from: Path, to: Path)
    requires CanReturn(m, g, t, from, to)
    ensures from !in t && to in t && Free(t, from) && TreeOk(Relocate(t, to, from))
    ensures Tracks(m, Relocate(t, to, from))
  {
    PlaceIsFree(m, g, t, from, to);
    var r, u := Carried(m, from, to, Departing(m, from)), Relocate(t, to, from);
    forall p | p in m ensures !Blocked(u, p) && Bare(m[p]) == Seen(u, p, false) {
      ReturnAgreesAt(m, g, t, from, to, p);
      ReturnUnblockedAt(m, g, t, from, to, p);
    }
    forall d, q | CertifiedAt(m, d) && q in u && IsChild(d, q) ensures q in m {
      ReturnCoversAt(m, g, t, from, to, d, q);
    }
  }

  lemma ReturnCoversAt(m: Manifest, g: Tree, t: Tree, from: Path, to: Path, d: Path, q: Path)
    requires CanReturn(m, g, t, from, to) && Free(t, from) && to in t
    requires CertifiedAt(m, d) && q in Relocate(t, to, from) && IsChild(d, q)
    ensures q in m
  {
    CarriedEntries(m, from, to, Departing(m, from));
    if from <= q {
      RebaseBack(q, from, to);
      ArrivedDeparted(m, g, t, from, to, Rebase(q, from, to));
    } else {
      BelowByParent(from, q);
      BelowByParent(to, q);
      if to <= d {
        DestinationWasMissing(m, g, from, to, d);
      }
    }
  }
}
