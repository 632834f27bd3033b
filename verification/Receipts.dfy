/** Receipts and the chains their links form. */
module Receipts {
  import opened Results

  /** Previews and the Receipts they become share their identifiers. */
  datatype Id = PreviewId(n: nat) | ReceiptId(n: nat) | TransactionId(n: nat) | Unrecognised(text: string)

  datatype Outcome = Applied | RolledBack | RecoveryNeeded | Restored | AcceptedCurrent

  datatype Receipt = Receipt(
    id: Id,
    linked: Option<Id>,
    recovery: bool,
    outcome: Outcome,
    cleanupPending: bool,
    expires: int)

  predicate Links(r: Receipt, a: Id, b: Id) {
    r.linked.Some? && ((r.id == a && r.linked.value == b) || (r.id == b && r.linked.value == a))
  }

  /** Two identifiers are joined by the link of some record, whether or not each of them
      has a record of its own. */
  predicate Adjacent(records: seq<Receipt>, a: Id, b: Id) {
    exists r | r in records :: Links(r, a, b)
  }

  predicate IsPath(records: seq<Receipt>, path: seq<Id>, a: Id, b: Id) {
    && path != [] && path[0] == a && path[|path| - 1] == b
    && forall i | 0 <= i < |path| - 1 :: Adjacent(records, path[i], path[i + 1])
  }

  ghost predicate Connected(records: seq<Receipt>, a: Id, b: Id) {
    exists path :: IsPath(records, path, a, b)
  }

  lemma ConnectedRefl(records: seq<Receipt>, a: Id)
    ensures Connected(records, a, a)
  {
    assert IsPath(records, [a], a, a);
  }

  lemma ConnectedTrans(records: seq<Receipt>, a: Id, b: Id, c: Id)
    requires Connected(records, a, b) && Connected(records, b, c)
    ensures Connected(records, a, c)
  {
    var p :| IsPath(records, p, a, b);
    var q :| IsPath(records, q, b, c);
    var joined := p + q[1..];
    forall i | 0 <= i < |joined| - 1 ensures Adjacent(records, joined[i], joined[i + 1]) {
      if i >= |p| - 1 {
        assert joined[i] == q[i - (|p| - 1)] && joined[i + 1] == q[i - (|p| - 1) + 1];
      } else {
        assert Adjacent(records, p[i], p[i + 1]);
      }
    }
    assert IsPath(records, joined, a, c);
  }

  lemma ConnectedSym(records: seq<Receipt>, a: Id, b: Id)
    requires Connected(records, a, b)
    ensures Connected(records, b, a)
  {
    var p :| IsPath(records, p, a, b);
    var n := |p|;
    var back := seq(n, i requires 0 <= i < n => p[n - 1 - i]);
    forall i | 0 <= i < n - 1 ensures Adjacent(records, back[i], back[i + 1]) {
      assert Adjacent(records, p[n - 2 - i], p[n - 2 - i + 1]);
      var r :| r in records && Links(r, p[n - 2 - i], p[n - 1 - i]);
      assert Links(r, back[i], back[i + 1]);
    }
    assert IsPath(records, back, b, a);
  }

  lemma LinkConnects(records: seq<Receipt>, start: Id, r: Receipt)
    requires r in records
    requires Connected(records, start, r.id) || (r.linked.Some? && Connected(records, start, r.linked.value))
    ensures Connected(records, start, r.id) && (r.linked.Some? ==> Connected(records, start, r.linked.value))
  {
    if r.linked.Some? {
      assert Links(r, r.id, r.linked.value) && Links(r, r.linked.value, r.id);
      assert IsPath(records, [r.id, r.linked.value], r.id, r.linked.value);
      assert IsPath(records, [r.linked.value, r.id], r.linked.value, r.id);
      if Connected(records, start, r.id) {
        ConnectedTrans(records, start, r.id, r.linked.value);
      } else {
        ConnectedTrans(records, start, r.linked.value, r.id);
      }
    }
  }

  predicate Closed(records: seq<Receipt>, ids: set<Id>) {
    forall r | r in records :: r.id in ids || (r.linked.Some? && r.linked.value in ids) ==>
      r.id in ids && (r.linked.Some? ==> r.linked.value in ids)
  }

  /** A closed set holds everything connected to its members. */
  lemma {:induction false} ClosedHolds(records: seq<Receipt>, ids: set<Id>, path: seq<Id>, a: Id, b: Id)
    requires Closed(records, ids) && a in ids && IsPath(records, path, a, b)
    ensures b in ids
    decreases |path|
  {
    if |path| > 1 {
      assert Adjacent(records, path[0], path[1]);
      var r :| r in records && Links(r, path[0], path[1]);
      forall i | 0 <= i < |path[1..]| - 1 ensures Adjacent(records, path[1..][i], path[1..][i + 1]) {
        assert Adjacent(records, path[i + 1], path[i + 2]);
      }
      ClosedHolds(records, ids, path[1..], path[1], b);
    }
  }

  function AllIds(records: seq<Receipt>): set<Id> {
    (set r | r in records :: r.id) + (set r | r in records && r.linked.Some? :: r.linked.value)
  }

  /** Every identifier connected to `start`, by rounds over the records until nothing new
      is found. */
  method ChainIdentifiers(records: seq<Receipt>, start: Id) returns (ids: set<Id>)
    ensures forall b :: b in ids <==> Connected(records, start, b)
  {
    ids := {start};
    ConnectedRefl(records, start);
    var grew := true;
    while grew
      invariant start in ids && ids <= AllIds(records) + {start}
      invariant forall b :: b in ids ==> Connected(records, start, b)
      invariant grew || Closed(records, ids)
      decreases |AllIds(records) + {start} - ids|, grew
    {
      var before := |ids|;
      ghost var was := ids;
      for i := 0 to |records|
        invariant was <= ids <= AllIds(records) + {start}
        invariant forall b :: b in ids ==> Connected(records, start, b)
        invariant ids == was ==> Closed(records[..i], ids)
      {
        var r := records[i];
        assert records[..i + 1] == records[..i] + [r];
        if r.id in ids || (r.linked.Some? && r.linked.value in ids) {
          LinkConnects(records, start, r);
          ids := ids + {r.id};
          if r.linked.Some? {
            ids := ids + {r.linked.value};
          }
        }
      }
      assert records[..|records|] == records;
      grew := |ids| != before;
      Grown(AllIds(records) + {start}, was, ids);
    }
    forall b | Connected(records, start, b) ensures b in ids {
      var path :| IsPath(records, path, start, b);
      ClosedHolds(records, ids, path, start, b);
    }
  }

  lemma Grown(all: set<Id>, was: set<Id>, ids: set<Id>)
    requires was <= ids <= all
    ensures |ids| == |was| <==> ids == was
    ensures ids != was ==> |all - ids| < |all - was|
  {
    assert |ids| == |was| + |ids - was| by { assert ids == was + (ids - was); }
    if ids != was {
      assert exists x :: x in ids && x !in was;
      assert ids - was != {};
      assert all - was == (all - ids) + (ids - was);
    }
  }

  /** The identifiers of the records connected to `start`. */
  ghost function Chain(records: seq<Receipt>, start: Id): set<Id> {
    set r | r in records && Connected(records, start, r.id) :: r.id
  }

  method ReceiptChain(records: seq<Receipt>, start: Id) returns (chain: seq<Receipt>)
    ensures forall r :: r in chain <==> r in records && Connected(records, start, r.id)
    ensures (set r | r in chain :: r.id) == Chain(records, start)
  {
    var ids := ChainIdentifiers(records, start);
    chain := [];
    for i := 0 to |records|
      invariant forall r :: r in chain <==> r in records[..i] && r.id in ids
    {
      if records[i].id in ids {
        chain := chain + [records[i]];
      }
      assert records[..i + 1] == records[..i] + [records[i]];
    }
    assert records[..|records|] == records;
  }

  predicate TerminalRecovery(r: Receipt) {
    r.recovery && (r.outcome.Restored? || r.outcome.AcceptedCurrent?) && !r.cleanupPending
  }

  /** A chain is protected while some record of it waits for cleanup and no finished
      recovery has superseded it. */
  predicate Protected(chain: seq<Receipt>) {
    !(exists r | r in chain :: TerminalRecovery(r)) && exists r | r in chain :: r.cleanupPending
  }

  /** The same, of all records connected to `start`: no recovery among them has restored the
      tree or accepted it as it is, and has nothing left to clean up. */
  ghost predicate ProtectedFrom(records: seq<Receipt>, start: Id) {
    && (forall r :: r in records && Connected(records, start, r.id) && r.recovery ==>
          r.cleanupPending || r.outcome !in {Restored, AcceptedCurrent})
    && exists r :: r in records && Connected(records, start, r.id) && r.cleanupPending
  }

  ghost predicate ExpiredFrom(records: seq<Receipt>, start: Id, now: int) {
    forall r :: r in records && Connected(records, start, r.id) ==> r.expires <= now
  }

  lemma ProtectedIsProtectedFrom(records: seq<Receipt>, start: Id, chain: seq<Receipt>)
    requires forall r :: r in chain <==> r in records && Connected(records, start, r.id)
    ensures Protected(chain) <==> ProtectedFrom(records, start)
  {
  }

  /** All members of a chain see the same chain. */
  lemma ChainIsShared(records: seq<Receipt>, a: Id, b: Id)
    requires Connected(records, a, b)
    ensures forall c :: Connected(records, a, c) <==> Connected(records, b, c)
  {
    ConnectedSym(records, a, b);
    forall c ensures Connected(records, a, c) <==> Connected(records, b, c) {
      if Connected(records, a, c) { ConnectedTrans(records, b, a, c); }
      if Connected(records, b, c) { ConnectedTrans(records, a, b, c); }
    }
  }
}
