/** Pruning the state store. Directory listings are in path order; a file may fail to be
    removed. */
module MutationState {
  import opened Results
  import opened Receipts

  datatype PreviewFile = PreviewFile(expires: int, reserved: bool)

  datatype Target = PreviewTarget | ReceiptTarget

  function Without(records: seq<Receipt>, ids: set<Id>): (r: seq<Receipt>)
    ensures forall x :: x in r <==> x in records && x.id !in ids
    ensures |r| <= |records|
  {
    if records == [] then []
    else (if records[0].id in ids then [] else [records[0]]) + Without(records[1..], ids)
  }

  lemma {:induction false} WithoutTwice(records: seq<Receipt>, a: set<Id>, b: set<Id>)
    ensures Without(Without(records, a), b) == Without(records, a + b)
  {
    if records != [] {
      WithoutTwice(records[1..], a, b);
      var head, tail := if records[0].id in a then [] else [records[0]], Without(records[1..], a);
      assert Without(records, a) == head + tail;
      assert [] + tail == tail;
      assert head != [] ==> (head + tail)[1..] == tail;
      assert [] + Without(tail, b) == Without(tail, b);
    }
  }

  lemma {:induction false} WithoutNothing(records: seq<Receipt>)
    ensures Without(records, {}) == records
  {
    if records != [] {
      WithoutNothing(records[1..]);
    }
  }

  function Ids(records: seq<Receipt>): set<Id> {
    set r | r in records :: r.id
  }

  /** The Receipts expiry may remove: their whole chain has expired and is unprotected. */
  ghost predicate Spent(records: seq<Receipt>, id: Id, now: int) {
    ExpiredFrom(records, id, now) && !ProtectedFrom(records, id)
  }

  ghost function SpentIds(records: seq<Receipt>, now: int): set<Id> {
    set r | r in records && Spent(records, r.id, now) :: r.id
  }

  /** A set of record identifiers that holds whole chains only. */
  ghost predicate WholeChains(records: seq<Receipt>, ids: set<Id>) {
    forall a, b {:trigger Connected(records, a.id, b.id)} ::
      a in records && b in records && Connected(records, a.id, b.id) && a.id in ids ==> b.id in ids
  }

  /** What expiry removes is never part of a chain only. */
  lemma SpentIsWhole(records: seq<Receipt>, now: int)
    ensures WholeChains(records, SpentIds(records, now))
  {
    forall a, b | a in records && b in records && Connected(records, a.id, b.id) && a.id in SpentIds(records, now)
      ensures b.id in SpentIds(records, now)
    {
      var a' :| a' in records && Spent(records, a'.id, now) && a'.id == a.id;
      ChainIsShared(records, a.id, b.id);
      assert Spent(records, b.id, now);
    }
  }

  /** Removing whole chains leaves every remaining chain as it was. */
  lemma RestIsUntouched(records: seq<Receipt>, ids: set<Id>, a: Receipt, b: Receipt)
    requires WholeChains(records, ids) && a in records && b in records && a.id !in ids && Connected(records, a.id, b.id)
    ensures b in Without(records, ids)
  {
    ConnectedSym(records, a.id, b.id);
  }

  lemma OneMoreId(chain: seq<Receipt>, i: nat)
    requires i < |chain|
    ensures Ids(chain[..i + 1]) == Ids(chain[..i]) + {chain[i].id}
    ensures Ids(chain[..i]) <= Ids(chain)
  {
    assert chain[..i + 1] == chain[..i] + [chain[i]];
  }

  /** At most expired Previews that are not reserved are gone. */
  ghost predicate CurrentKept(before: map<Id, PreviewFile>, after: map<Id, PreviewFile>, now: int) {
    && (forall id :: id in after ==> id in before && after[id] == before[id])
    && (forall id :: id in before && (before[id].expires > now || before[id].reserved) ==> id in after)
  }

  function TargetsOf(paths: map<Id, Target>, target: Target): set<Id> {
    set id | id in paths && paths[id] == target
  }

  lemma TargetsGrow(paths: map<Id, Target>, id: Id, target: Target)
    requires id !in paths
    ensures TargetsOf(paths[id := target], target) == TargetsOf(paths, target) + {id}
    ensures forall t :: t != target ==> TargetsOf(paths[id := target], t) == TargetsOf(paths, t)
  {
  }

  lemma PickedSplit(previews: map<Id, PreviewFile>, records: seq<Receipt>, requested: seq<Id>, paths: map<Id, Target>)
    requires Picked(previews, records, requested, paths)
    ensures TargetsOf(paths, PreviewTarget) == AskedPreviews(previews, requested)
    ensures TargetsOf(paths, ReceiptTarget) == AskedReceipts(previews, records, requested)
  {
  }

  /** A requested identifier that names a Preview stands for that Preview; any other one
      stands for the chain of the Receipt it names. */
  predicate AsksForPreview(previews: map<Id, PreviewFile>, id: Id) {
    id.PreviewId? && id in previews
  }

  /** The request may be granted as far as `id` is concerned. */
  ghost predicate Grantable(previews: map<Id, PreviewFile>, records: seq<Receipt>, id: Id, now: int) {
    if AsksForPreview(previews, id) then previews[id].expires > now && !previews[id].reserved
    else (id.PreviewId? || id.ReceiptId?) && id in Ids(records) && !ProtectedFrom(records, id)
  }

  ghost function AskedPreviews(previews: map<Id, PreviewFile>, requested: seq<Id>): set<Id> {
    set id | id in requested && AsksForPreview(previews, id)
  }

  ghost function AskedReceipts(previews: map<Id, PreviewFile>, records: seq<Receipt>, requested: seq<Id>): set<Id> {
    set id, r | id in requested && !AsksForPreview(previews, id) && r in records && Connected(records, id, r.id) :: r.id
  }

  /** A Preview that shares its identifier with a Receipt is reserved. */
  ghost predicate SharedAreReserved(previews: map<Id, PreviewFile>, records: seq<Receipt>) {
    forall id :: id in previews && id in Ids(records) ==> previews[id].reserved
  }

  /** The files picked for removal are those asked for. */
  ghost predicate Picked(
      previews: map<Id, PreviewFile>, records: seq<Receipt>, requested: seq<Id>, paths: map<Id, Target>)
  {
    PickedSets(AskedPreviews(previews, requested), AskedReceipts(previews, records, requested), paths)
  }

  ghost predicate PickedSets(previews: set<Id>, receipts: set<Id>, paths: map<Id, Target>) {
    && paths.Keys == previews + receipts
    && (forall id :: id in previews ==> paths[id].PreviewTarget?)
    && (forall id :: id in receipts ==> paths[id].ReceiptTarget?)
  }

  lemma PickedMore(previews: set<Id>, receipts: set<Id>, paths: map<Id, Target>, chain: set<Id>)
    requires PickedSets(previews, receipts, paths) && previews !! chain
    ensures PickedSets(previews, receipts + chain, paths + map c | c in chain :: ReceiptTarget)
  {
  }

  /** What a granted request removes is never part of a chain only. */
  lemma AskedIsWhole(previews: map<Id, PreviewFile>, records: seq<Receipt>, requested: seq<Id>)
    ensures WholeChains(records, AskedReceipts(previews, records, requested))
  {
    var asked := AskedReceipts(previews, records, requested);
    forall a, b | a in records && b in records && Connected(records, a.id, b.id) && a.id in asked
      ensures b.id in asked
    {
      var id, r :|
        && id in requested && !AsksForPreview(previews, id)
        && r in records && Connected(records, id, r.id) && r.id == a.id;
      ConnectedTrans(records, id, a.id, b.id);
    }
  }

  lemma PickPreview(
      previews: map<Id, PreviewFile>, records: seq<Receipt>, requested: seq<Id>, paths: map<Id, Target>, id: Id,
      now: int)
    requires Picked(previews, records, requested, paths) && SharedAreReserved(previews, records)
    requires AsksForPreview(previews, id) && Grantable(previews, records, id, now)
    ensures Picked(previews, records, requested + [id], paths[id := PreviewTarget])
  {
    assert AskedPreviews(previews, requested + [id]) == AskedPreviews(previews, requested) + {id};
    assert AskedReceipts(previews, records, requested + [id]) == AskedReceipts(previews, records, requested);
    assert id !in Ids(records);
  }

  lemma AskedChain(previews: map<Id, PreviewFile>, records: seq<Receipt>, requested: seq<Id>, id: Id)
    requires !AsksForPreview(previews, id)
    ensures AskedPreviews(previews, requested + [id]) == AskedPreviews(previews, requested)
    ensures AskedReceipts(previews, records, requested + [id]) ==
      AskedReceipts(previews, records, requested) + Chain(records, id)
  {
  }

  lemma PickChain(
      previews: map<Id, PreviewFile>, records: seq<Receipt>, requested: seq<Id>, paths: map<Id, Target>, id: Id,
      now: int)
    requires Picked(previews, records, requested, paths) && SharedAreReserved(previews, records)
    requires !AsksForPreview(previews, id)
    requires forall p :: p in AskedPreviews(previews, requested) ==> !previews[p].reserved
    ensures Picked(previews, records, requested + [id], paths + map c | c in Chain(records, id) :: ReceiptTarget)
  {
    AskedChain(previews, records, requested, id);
    forall p | p in AskedPreviews(previews, requested) ensures p !in Chain(records, id) {
      assert p in previews && !previews[p].reserved;
    }
    PickedMore(
      AskedPreviews(previews, requested), AskedReceipts(previews, records, requested), paths, Chain(records, id));
  }

  /** Of the chains visited so far, all of each, the spent ones are removed. */
  ghost predicate Swept(records: seq<Receipt>, now: int, visited: set<Id>, removed: set<Id>) {
    && WholeChains(records, visited) && visited <= Ids(records)
    && removed == SpentIds(records, now) * visited
  }

  lemma StartsSwept(records: seq<Receipt>, now: int)
    ensures Swept(records, now, {}, {})
  {
  }

  lemma SweptAll(records: seq<Receipt>, now: int, visited: set<Id>, removed: set<Id>)
    requires Swept(records, now, visited, removed) && Ids(records) <= visited
    ensures removed == SpentIds(records, now)
  {
  }

  lemma SweptFurther(
      records: seq<Receipt>, r: Receipt, chain: set<Id>, visited: set<Id>, removed: set<Id>, more: set<Id>, now: int)
    requires Swept(records, now, visited, removed) && r in records && chain == Chain(records, r.id)
    requires more <= if Spent(records, r.id, now) then chain else {}
    ensures r.id in chain && removed + more <= SpentIds(records, now)
    ensures more == (if Spent(records, r.id, now) then chain else {}) ==>
      Swept(records, now, visited + chain, removed + more)
  {
    ChainIsWhole(records, r.id, chain, visited, now);
    ConnectedRefl(records, r.id);
  }

  /** A chain met for the first time is spent as a whole or not at all. */
  lemma ChainIsWhole(records: seq<Receipt>, start: Id, chain: set<Id>, visited: set<Id>, now: int)
    requires chain == Chain(records, start) && WholeChains(records, visited) && visited <= Ids(records)
    ensures WholeChains(records, visited + chain) && visited + chain <= Ids(records)
    ensures SpentIds(records, now) * (visited + chain)
      == SpentIds(records, now) * visited + (if Spent(records, start, now) then chain else {})
  {
    forall a, b | a in records && b in records && Connected(records, a.id, b.id) && a.id in visited + chain
      ensures b.id in visited + chain
    {
      if a.id in chain {
        var r :| r in records && Connected(records, start, r.id) && r.id == a.id;
        ConnectedTrans(records, start, a.id, b.id);
      }
    }
    forall id | id in chain ensures Spent(records, id, now) <==> Spent(records, start, now) {
      var r :| r in records && Connected(records, start, r.id) && r.id == id;
      ChainIsShared(records, start, id);
    }
    forall id | id in chain ensures id in SpentIds(records, now) <==> Spent(records, start, now) {
      var r :| r in records && Connected(records, start, r.id) && r.id == id;
    }
  }

  class MutationStateStore {
    var previews: map<Id, PreviewFile>
    var receipts: seq<Receipt>
    var journals: set<Id>

    constructor ()
      ensures previews == map[] && receipts == [] && journals == {}
    {
      previews, receipts, journals := map[], [], {};
    }

    /** Reading removes an expired Preview, unless an Application has reserved it. */
    method ReadPreview(id: Id, now: int) returns (r: Result<PreviewFile>)
      modifies this`previews
      ensures r.Ok? ==> id in old(previews) && r.value == old(previews)[id] && previews == old(previews)
      ensures r.Ok? <==> id in old(previews) && (old(previews)[id].expires > now || old(previews)[id].reserved)
      ensures r.Err? ==> previews == old(previews) || previews == old(previews) - {id}
    {
      if id !in previews {
        return Err;
      }
      var preview := previews[id];
      if preview.expires <= now && !preview.reserved {
        var fails: bool := *;
        if !fails {
          previews := previews - {id};
        }
        return Err;
      }
      return Ok(preview);
    }

    method RemoveReceipt(id: Id) returns (ok: bool)
      modifies this`receipts
      ensures ok ==> receipts == Without(old(receipts), {id})
      ensures !ok ==> receipts == old(receipts)
    {
      var fails: bool := *;
      if fails {
        return false;
      }
      receipts := Without(receipts, {id});
      return true;
    }

    method RemoveReceipts(chain: seq<Receipt>) returns (ok: bool, ghost removed: set<Id>)
      modifies this`receipts
      ensures removed <= Ids(chain) && (ok ==> removed == Ids(chain))
      ensures receipts == Without(old(receipts), removed)
    {
      WithoutNothing(receipts);
      removed := {};
      for i := 0 to |chain|
        invariant removed == Ids(chain[..i])
        invariant receipts == Without(old(receipts), removed)
      {
        WithoutTwice(old(receipts), removed, {chain[i].id});
        OneMoreId(chain, i);
        var gone := RemoveReceipt(chain[i].id);
        if !gone {
          return false, removed;
        }
        removed := removed + {chain[i].id};
      }
      assert chain[..|chain|] == chain;
      return true, removed;
    }

    /** Removes the chain of `start` if it is spent. */
    method PruneChain(
        records: seq<Receipt>, start: Id, ghost gone: set<Id>, now: int)
      returns (chain: set<Id>, ok: bool, ghost removed: set<Id>)
      requires receipts == Without(records, gone)
      modifies this`receipts
      ensures chain == Chain(records, start)
      ensures removed <= (if Spent(records, start, now) then chain else {})
      ensures ok ==> removed == if Spent(records, start, now) then chain else {}
      ensures receipts == Without(records, gone + removed)
    {
      var members := ReceiptChain(records, start);
      chain := Ids(members);
      ProtectedIsProtectedFrom(records, start, members);
      removed, ok := {}, true;
      assert gone + {} == gone;
      if (forall r | r in members :: r.expires <= now) && !Protected(members) {
        ok, removed := RemoveReceipts(members);
        WithoutTwice(records, gone, removed);
      }
    }

    /** Removes the chains that have expired as a whole and are unprotected, each of them
        once. */
    method PruneExpiredReceipts(now: int) returns (ok: bool, ghost removed: set<Id>)
      modifies this`receipts
      ensures removed <= SpentIds(old(receipts), now) && (ok ==> removed == SpentIds(old(receipts), now))
      ensures receipts == Without(old(receipts), removed)
    {
      var records := receipts;
      var visited: set<Id> := {};
      WithoutNothing(records);
      StartsSwept(records, now);
      removed := {};
      for i := 0 to |records|
        invariant Swept(records, now, visited, removed)
        invariant Ids(records[..i]) <= visited
        invariant receipts == Without(records, removed)
      {
        ok, visited, removed := PruneNext(records, records[i], visited, removed, now);
        if !ok {
          return;
        }
        OneMoreId(records, i);
      }
      assert records[..|records|] == records;
      SweptAll(records, now, visited, removed);
      ok := true;
    }

    method PruneNext(records: seq<Receipt>, r: Receipt, visited: set<Id>, ghost removed: set<Id>, now: int)
      returns (ok: bool, visited': set<Id>, ghost removed': set<Id>)
      requires Swept(records, now, visited, removed) && r in records && receipts == Without(records, removed)
      modifies this`receipts
      ensures ok ==> Swept(records, now, visited', removed') && visited <= visited' && r.id in visited'
      ensures removed' <= SpentIds(records, now) && receipts == Without(records, removed')
    {
      ok, visited', removed' := true, visited, removed;
      if r.id !in visited {
        var chain;
        ghost var more;
        chain, ok, more := PruneChain(records, r.id, removed, now);
        SweptFurther(records, r, chain, visited, removed, more, now);
        removed' := removed + more;
        visited' := visited + chain;
      }
    }

    /** One part of a request: the file or files it stands for, unless it is not granted. */
    method PickOne(id: Id, now: int) returns (picked: Result<map<Id, Target>>)
      modifies this`previews
      ensures picked.Ok? <==> Grantable(old(previews), receipts, id, now)
      ensures picked.Ok? ==> previews == old(previews)
      ensures CurrentKept(old(previews), previews, now)
      ensures picked.Ok? ==> picked.value == if AsksForPreview(previews, id) then map[id := PreviewTarget]
                                             else map c | c in Chain(receipts, id) :: ReceiptTarget
    {
      if id.PreviewId? && id in previews {
        var preview := ReadPreview(id, now);
        return if preview.Err? || preview.value.reserved then Err else Ok(map[id := PreviewTarget]);
      }
      if !(id.PreviewId? || id.ReceiptId?) || !(exists r | r in receipts :: r.id == id) {
        return Err;
      }
      var chain := ReceiptChain(receipts, id);
      ProtectedIsProtectedFrom(receipts, id, chain);
      if Protected(chain) {
        return Err;
      }
      return Ok(map c | c in Ids(chain) :: ReceiptTarget);
    }

    /** Picks the files a request asks for, unless some part of it cannot be granted. */
    method PickPaths(requested: seq<Id>, now: int) returns (paths: Result<map<Id, Target>>)
      requires SharedAreReserved(previews, receipts)
      modifies this`previews
      ensures paths.Err? <==> exists id :: id in requested && !Grantable(old(previews), receipts, id, now)
      ensures paths.Ok? ==> previews == old(previews) && Picked(previews, receipts, requested, paths.value)
      ensures CurrentKept(old(previews), previews, now)
    {
      var picked: map<Id, Target>, problems := map[], false;
      ghost var before := previews;
      for i := 0 to |requested|
        invariant problems <==> exists id :: id in requested[..i] && !Grantable(before, receipts, id, now)
        invariant CurrentKept(before, previews, now)
        invariant !problems ==> previews == before && Picked(before, receipts, requested[..i], picked)
      {
        var id := requested[i];
        assert requested[..i + 1] == requested[..i] + [id];
        var one := PickOne(id, now);
        if one.Err? {
          problems := true;
        } else {
          if !problems {
            if AsksForPreview(before, id) {
              PickPreview(before, receipts, requested[..i], picked, id, now);
            } else {
              PickChain(before, receipts, requested[..i], picked, id, now);
            }
            assert picked + map[id := PreviewTarget] == picked[id := PreviewTarget];
          }
          picked := picked + one.value;
        }
      }
      assert requested[..|requested|] == requested;
      return if problems then Err else Ok(picked);
    }

    /** Removes exactly what was asked for, or refuses before anything is removed; a file
        that cannot be removed ends it half way, with nothing removed that was not asked
        for. */
    method PruneState(
        requested: seq<Id>, now: int)
      returns (ok: bool, refused: bool, ghost dropped: set<Id>, ghost removed: set<Id>)
      requires SharedAreReserved(previews, receipts) && requested != []
      modifies this`previews, this`receipts
      ensures refused <==> exists id :: id in requested && !Grantable(old(previews), old(receipts), id, now)
      ensures refused ==> !ok && receipts == old(receipts) && CurrentKept(old(previews), previews, now)
      ensures !refused ==> dropped <= AskedPreviews(old(previews), requested) && previews == old(previews) - dropped
      ensures !refused ==>
        removed <= AskedReceipts(old(previews), old(receipts), requested) && receipts == Without(old(receipts), removed)
      ensures ok ==> dropped == AskedPreviews(old(previews), requested)
      ensures ok ==> removed == AskedReceipts(old(previews), old(receipts), requested)
    {
      dropped, removed := {}, {};
      var paths := PickPaths(requested, now);
      if paths.Err? {
        return false, true, dropped, removed;
      }
      ghost var gone;
      ok, gone := RemovePaths(paths.value);
      refused := false;
      PickedSplit(old(previews), old(receipts), requested, paths.value);
      dropped, removed := TargetsOf(gone, PreviewTarget), TargetsOf(gone, ReceiptTarget);
    }

    method RemovePaths(paths: map<Id, Target>) returns (ok: bool, ghost gone: map<Id, Target>)
      modifies this`previews, this`receipts
      ensures forall target :: TargetsOf(gone, target) <= TargetsOf(paths, target)
      ensures previews == old(previews) - TargetsOf(gone, PreviewTarget)
      ensures receipts == Without(old(receipts), TargetsOf(gone, ReceiptTarget))
      ensures ok ==> gone == paths
    {
      var todo := paths.Keys;
      gone := map[];
      WithoutNothing(receipts);
      assert TargetsOf(gone, PreviewTarget) == {} && TargetsOf(gone, ReceiptTarget) == {};
      while todo != {}
        invariant todo <= paths.Keys && gone == map id | id in paths && id !in todo :: paths[id]
        invariant previews == old(previews) - TargetsOf(gone, PreviewTarget)
        invariant receipts == Without(old(receipts), TargetsOf(gone, ReceiptTarget))
      {
        var id :| id in todo;
        var fails: bool := *;
        if fails {
          return false, gone;
        }
        if paths[id].PreviewTarget? {
          previews := previews - {id};
        } else {
          WithoutTwice(old(receipts), TargetsOf(gone, ReceiptTarget), {id});
          receipts := Without(receipts, {id});
        }
        TargetsGrow(gone, id, paths[id]);
        gone := gone[id := paths[id]];
        todo := todo - {id};
      }
      assert gone == paths;
      return true, gone;
    }
  }
}
