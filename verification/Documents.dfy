/** The bounded store of open Documents and the stream of open and close notifications it
    must agree with. A Document's digest stands for its text. */
module Documents {
  import opened Results
  import opened ByteStrings

  const U64_MAX: nat := 0xFFFF_FFFF_FFFF_FFFF
  const I64_MAX: nat := 0x7FFF_FFFF_FFFF_FFFF

  type Uri = string

  datatype Snapshot = Snapshot(uri: Uri, language: string, version: nat, text: Bytes)

  datatype Event = DidOpen(snapshot: Snapshot) | DidClose(uri: Uri)

  datatype OpenDocument = OpenDocument(snapshot: Snapshot, lastUsed: nat)

  /** What reading a file gives: its canonical URI and text, or only the URI of the path as
      it was given, if that path has one. */
  datatype Read = Contents(uri: Uri, text: Bytes) | Failed(given: Option<Uri>)

  datatype Outcome = Outcome(snapshot: Snapshot, events: seq<Event>)

  /** What a server holds open after the events, unless one of them opens an open URI or
      closes a closed one. */
  function Replay(events: seq<Event>): Result<map<Uri, Snapshot>>
    decreases |events|
  {
    if events == [] then Ok(map[])
    else
      var open :- Replay(events[..|events| - 1]);
      match events[|events| - 1]
      case DidOpen(snapshot) => if snapshot.uri in open then Err else Ok(open[snapshot.uri := snapshot])
      case DidClose(uri) => if uri !in open then Err else Ok(open - {uri})
  }

  lemma ReplayNext(events: seq<Event>, e: Event)
    ensures Replay(events + [e]) ==
      if Replay(events).Err? then Err
      else match e
        case DidOpen(snapshot) =>
          if snapshot.uri in Replay(events).value then Err else Ok(Replay(events).value[snapshot.uri := snapshot])
        case DidClose(uri) => if uri !in Replay(events).value then Err else Ok(Replay(events).value - {uri})
  {
    assert (events + [e])[..|events|] == events;
  }

  predicate Reopens(a: Event, b: Event) {
    a.DidOpen? && b.DidOpen? && a.snapshot.uri == b.snapshot.uri
  }

  /** Versions of one URI increase from open to open, until they saturate. */
  ghost predicate VersionsIncrease(events: seq<Event>) {
    forall i, j {:trigger Reopens(events[i], events[j])} :: 0 <= i < j < |events| && Reopens(events[i], events[j]) ==>
      events[i].snapshot.version < events[j].snapshot.version || events[j].snapshot.version == I64_MAX
  }

  /** An unchanged Document keeps its version; any other gets the next one of its URI. */
  ghost predicate Renewed(documents: map<Uri, OpenDocument>, versions: map<Uri, nat>, snapshot: Snapshot) {
    var uri := snapshot.uri;
    if uri in documents && documents[uri].snapshot.(version := snapshot.version) == snapshot
    then snapshot == documents[uri].snapshot
    else snapshot.version == Saturating(if uri in versions then versions[uri] else 0, I64_MAX)
  }

  /** No version in the stream exceeds the last one drawn for its URI. */
  ghost predicate VersionsDrawn(events: seq<Event>, nextVersions: map<Uri, nat>) {
    && (forall e {:trigger Drawn(e, nextVersions)} :: e in events ==> Drawn(e, nextVersions))
    && (forall uri :: uri in nextVersions ==> nextVersions[uri] <= I64_MAX)
  }

  predicate Drawn(e: Event, nextVersions: map<Uri, nat>) {
    e.DidOpen? ==> e.snapshot.uri in nextVersions && e.snapshot.version <= nextVersions[e.snapshot.uri]
  }

  lemma CloseKeepsVersions(events: seq<Event>, uri: Uri)
    requires VersionsIncrease(events)
    ensures VersionsIncrease(events + [DidClose(uri)])
  {
    var longer := events + [DidClose(uri)];
    forall i, j | 0 <= i < j < |longer| && Reopens(longer[i], longer[j])
      ensures longer[i].snapshot.version < longer[j].snapshot.version || longer[j].snapshot.version == I64_MAX
    {
      assert longer[i] == events[i] && longer[j] == events[j];
    }
  }

  lemma OpenKeepsVersions(events: seq<Event>, snapshot: Snapshot)
    requires VersionsIncrease(events)
    requires forall e :: e in events && Reopens(e, DidOpen(snapshot)) ==>
      e.snapshot.version < snapshot.version || snapshot.version == I64_MAX
    ensures VersionsIncrease(events + [DidOpen(snapshot)])
  {
    var longer := events + [DidOpen(snapshot)];
    forall i, j | 0 <= i < j < |longer| && Reopens(longer[i], longer[j])
      ensures longer[i].snapshot.version < longer[j].snapshot.version || longer[j].snapshot.version == I64_MAX
    {
      assert longer[i] == events[i];
      if j == |events| {
        assert longer[i] in events;
      } else {
        assert longer[j] == events[j];
      }
    }
  }

  lemma DrawMore(events: seq<Event>, nextVersions: map<Uri, nat>, uri: Uri, version: nat)
    requires VersionsDrawn(events, nextVersions)
    requires version == Saturating(if uri in nextVersions then nextVersions[uri] else 0, I64_MAX)
    ensures VersionsDrawn(events, nextVersions[uri := version])
    ensures forall e, s: Snapshot :: e in events && s.uri == uri && Reopens(e, DidOpen(s)) ==>
      e.snapshot.version < version || version == I64_MAX
  {
    forall e | e in events
      ensures Drawn(e, nextVersions[uri := version])
      ensures e.DidOpen? && e.snapshot.uri == uri ==> e.snapshot.version < version || version == I64_MAX
    {
      assert Drawn(e, nextVersions);
    }
  }

  /** Documents that are gone, other than the active one, were used no later than every
      survivor, and earlier as long as the clock has not saturated. */
  ghost predicate LeastRecent(before: map<Uri, OpenDocument>, after: map<Uri, OpenDocument>, active: Uri, clock: nat) {
    && (active in before ==> active in after)
    && (forall kept :: kept in after && kept != active ==> kept in before)
    && (forall gone, kept {:trigger UsedBefore(before[gone], after[kept], clock)} ::
          gone in before && gone !in after && kept in after && kept != active ==>
            UsedBefore(before[gone], after[kept], clock))
  }

  predicate SameTime(a: OpenDocument, b: OpenDocument) {
    a.lastUsed == b.lastUsed
  }

  predicate UsedBefore(gone: OpenDocument, kept: OpenDocument, clock: nat) {
    gone.lastUsed <= kept.lastUsed && (clock < U64_MAX ==> gone.lastUsed < kept.lastUsed)
  }

  lemma EvictOne(before: map<Uri, OpenDocument>, now: map<Uri, OpenDocument>, active: Uri, clock: nat, victim: Uri)
    requires LeastRecent(before, now, active, clock) && victim in now && victim != active
    requires forall uri :: uri in now ==> uri in before && now[uri] == before[uri]
    requires forall uri :: uri in now && uri != active && uri != victim ==> UsedBefore(now[victim], now[uri], clock)
    requires active in now
    ensures LeastRecent(before, now - {victim}, active, clock)
  {
    var after := now - {victim};
    forall gone, kept | gone in before && gone !in after && kept in after && kept != active
      ensures UsedBefore(before[gone], after[kept], clock)
    {
      assert gone !in now ==> UsedBefore(before[gone], now[kept], clock);
    }
  }

  /** Nobody was evicted, or whoever was evicted last could not have stayed: with it the
      survivors would exceed a limit. The others had been evicted before it, in the order in
      which they were used. */
  ghost predicate EvictedAsNeeded(
      before: map<Uri, OpenDocument>, after: map<Uri, OpenDocument>, clock: nat, maxDocuments: nat, maxBytes: nat)
  {
    && (forall uri :: uri in after ==> uri in before && after[uri] == before[uri])
    && (after == before || exists last ::
          last in before && last !in after && GoneLast(last, before, after, clock)
          && NoRoomFor(before[last], after, maxDocuments, maxBytes))
  }

  ghost predicate NoRoomFor(open: OpenDocument, after: map<Uri, OpenDocument>, maxDocuments: nat, maxBytes: nat) {
    |after| + 1 > maxDocuments || TotalBytes(after) + |open.snapshot.text| > maxBytes
  }

  ghost predicate GoneLast(last: Uri, before: map<Uri, OpenDocument>, after: map<Uri, OpenDocument>, clock: nat) {
    last in before && forall uri :: uri in before && uri !in after && uri != last ==>
      UsedBefore(before[uri], before[last], clock)
  }

  lemma EvictNeeded(
      before: map<Uri, OpenDocument>, now: map<Uri, OpenDocument>, active: Uri, clock: nat, victim: Uri,
      maxDocuments: nat, maxBytes: nat)
    requires LeastRecent(before, now, active, clock) && victim in now && victim != active
    requires forall uri :: uri in now ==> uri in before && now[uri] == before[uri]
    requires |now| > maxDocuments || TotalBytes(now) > maxBytes
    ensures EvictedAsNeeded(before, now - {victim}, clock, maxDocuments, maxBytes)
  {
    var after := now - {victim};
    TotalWithout(now, victim);
    assert after.Keys == now.Keys - {victim};
    forall uri | uri in before && uri !in after && uri != victim
      ensures UsedBefore(before[uri], before[victim], clock)
    {
      assert UsedBefore(before[uri], now[victim], clock);
    }
    assert GoneLast(victim, before, after, clock) && NoRoomFor(before[victim], after, maxDocuments, maxBytes);
  }

  function Saturating(n: nat, max: nat): nat {
    if n < max then n + 1 else max
  }

  /** The bytes of all stored texts. */
  ghost function TotalBytes(documents: map<Uri, OpenDocument>): nat {
    if documents == map[] then 0
    else
      var uri :| uri in documents;
      |documents[uri].snapshot.text| + TotalBytes(documents - {uri})
  }

  lemma {:induction false} TotalWithout(documents: map<Uri, OpenDocument>, uri: Uri)
    requires uri in documents
    ensures TotalBytes(documents) == |documents[uri].snapshot.text| + TotalBytes(documents - {uri})
    decreases |documents|
  {
    var first :|
      first in documents && TotalBytes(documents) == |documents[first].snapshot.text| + TotalBytes(documents - {first});
    if first != uri {
      TotalWithout(documents - {first}, uri);
      TotalWithout(documents - {uri}, first);
      assert documents - {first} - {uri} == documents - {uri} - {first};
    }
  }

  lemma TotalWith(documents: map<Uri, OpenDocument>, uri: Uri, open: OpenDocument)
    requires uri !in documents
    ensures TotalBytes(documents[uri := open]) == |open.snapshot.text| + TotalBytes(documents)
  {
    TotalWithout(documents[uri := open], uri);
    assert documents[uri := open] - {uri} == documents;
  }

  function SnapshotsOf(documents: map<Uri, OpenDocument>): map<Uri, Snapshot> {
    map uri | uri in documents :: documents[uri].snapshot
  }

  function EventsOf(outcomes: seq<Outcome>): seq<Event> {
    if outcomes == [] then [] else EventsOf(outcomes[..|outcomes| - 1]) + outcomes[|outcomes| - 1].events
  }

  /** Every new event belongs to an outcome or waits, and to one place only. */
  ghost predicate HandedOver(news: seq<Event>, outcomes: seq<Outcome>, waiting: seq<Event>) {
    multiset(news) == multiset(EventsOf(outcomes)) + multiset(waiting)
  }

  lemma HandOver(
      news: seq<Event>, outcomes: seq<Outcome>, waiting: seq<Event>, r: Result<Outcome>, more: seq<Event>,
      later: seq<Event>)
    requires HandedOver(news, outcomes, waiting)
    requires if r.Ok? then more == r.value.events && later == [] else more == later
    ensures HandedOver(news + more, if r.Ok? then outcomes + [r.value] else outcomes, waiting + later)
  {
    if r.Ok? {
      assert (outcomes + [r.value])[..|outcomes|] == outcomes;
    }
  }

  lemma Longer(a: seq<Event>, b: seq<Event>, n: nat)
    requires n <= |a| && a <= b
    ensures b[n..] == a[n..] + b[|a|..]
  {
  }

  class DocumentStore {
    var documents: map<Uri, OpenDocument>
    var nextVersions: map<Uri, nat>
    var useClock: nat
    const maxOpenDocuments: nat
    const maxTotalTextBytes: nat
    const openClose: bool
    var totalTextBytes: nat
    var pendingEvents: seq<Event>
    ghost var stream: seq<Event>  // every event ever generated, in order

    constructor (maxOpenDocuments: nat, maxTotalTextBytes: nat, openClose: bool)
      requires maxTotalTextBytes <= U64_MAX
      ensures Valid() && documents == map[] && stream == [] && pendingEvents == []
    {
      this.maxOpenDocuments, this.maxTotalTextBytes, this.openClose := maxOpenDocuments, maxTotalTextBytes, openClose;
      documents, nextVersions, useClock, totalTextBytes, pendingEvents := map[], map[], 0, 0, [];
      stream := [];
    }

    ghost function Snapshots(): map<Uri, Snapshot>
      reads this`documents
    {
      SnapshotsOf(documents)
    }

    /** The stream is well formed and replays to exactly the stored snapshots. */
    ghost predicate InStep()
      reads this
    {
      && (if openClose then Replay(stream) == Ok(Snapshots()) else stream == [])
      && VersionsIncrease(stream) && VersionsDrawn(stream, nextVersions)
    }

    ghost predicate Counted()
      reads this
    {
      && (forall uri :: uri in documents ==> documents[uri].snapshot.uri == uri)
      && totalTextBytes == TotalBytes(documents)
    }

    /** No two Documents were last used at one time, until the clock saturates. */
    ghost predicate Timed()
      reads this
    {
      && useClock <= U64_MAX
      && (forall uri :: uri in documents ==> documents[uri].lastUsed <= useClock)
      && (forall a, b {:trigger SameTime(documents[a], documents[b])} :: a in documents && b in documents && a != b ==>
            (SameTime(documents[a], documents[b]) ==> documents[a].lastUsed == U64_MAX))
    }

    ghost predicate WithinLimits()
      reads this
    {
      |documents| <= maxOpenDocuments && totalTextBytes <= maxTotalTextBytes
    }

    ghost predicate Valid()
      reads this
    {
      maxTotalTextBytes <= U64_MAX && InStep() && Counted() && Timed() && WithinLimits()
    }

    /** All texts are in memory at once, so their sizes never add up to more than 64 bits. */
    predicate FitsMemory(read: Read)
      reads this
    {
      read.Contents? ==> totalTextBytes + |read.text| <= U64_MAX
    }

    method Generate(e: Event) returns (events: seq<Event>)
      requires openClose
      modifies this`stream
      ensures stream == old(stream) + [e] && events == [e]
    {
      stream := stream + [e];
      events := [e];
    }

    /** Removes a Document; the caller announces it. */
    method Remove(uri: Uri)
      requires Counted() && Timed() && uri in documents
      modifies this`documents, this`totalTextBytes
      ensures documents == old(documents) - {uri} && Counted() && Timed()
      ensures totalTextBytes <= old(totalTextBytes)
    {
      TotalWithout(documents, uri);
      totalTextBytes := totalTextBytes - |documents[uri].snapshot.text|;
      documents := documents - {uri};
    }

    method Close(uri: Uri) returns (events: seq<Event>)
      requires InStep() && Counted() && Timed() && uri in documents
      modifies this`documents, this`totalTextBytes, this`stream
      ensures documents == old(documents) - {uri} && InStep() && Counted() && Timed()
      ensures totalTextBytes <= old(totalTextBytes)
      ensures events == (if openClose then [DidClose(uri)] else []) && stream == old(stream) + events
    {
      Remove(uri);
      events := [];
      if openClose {
        ReplayNext(stream, DidClose(uri));
        CloseKeepsVersions(stream, uri);
        events := Generate(DidClose(uri));
        assert Snapshots() == old(Snapshots()) - {uri};
      }
    }

    /** A Document that cannot be read any more is closed at once; the event waits. */
    method CloseFailedDocument(given: Option<Uri>)
      requires Valid()
      modifies this`documents, this`totalTextBytes, this`stream, this`pendingEvents
      ensures Valid()
      ensures documents == if given.Some? then old(documents) - {given.value} else old(documents)
      ensures old(stream) <= stream && old(pendingEvents) <= pendingEvents
      ensures stream[|old(stream)|..] == pendingEvents[|old(pendingEvents)|..]
    {
      if given.Some? && given.value in documents {
        assert |documents - {given.value}| <= |documents| by {
          assert (documents - {given.value}).Keys == documents.Keys - {given.value};
        }
        var closed := Close(given.value);
        pendingEvents := pendingEvents + closed;
      } else {
        assert given.Some? ==> documents - {given.value} == documents;
      }
    }

    method AllocateVersion(uri: Uri) returns (version: nat)
      requires InStep()
      modifies this`nextVersions
      ensures InStep()
      ensures uri in nextVersions && version == nextVersions[uri]
      ensures version == Saturating(if uri in old(nextVersions) then old(nextVersions)[uri] else 0, I64_MAX)
      ensures forall e, s: Snapshot :: e in stream && s.uri == uri && Reopens(e, DidOpen(s)) ==>
        e.snapshot.version < version || version == I64_MAX
    {
      var last := if uri in nextVersions then nextVersions[uri] else 0;
      version := Saturating(last, I64_MAX);
      DrawMore(stream, nextVersions, uri, version);
      nextVersions := nextVersions[uri := version];
    }

    /** Reads a file; what it holds is beyond this model. */
    method ReadDocument(path: string) returns (read: Read)
      ensures FitsMemory(read)
    {
      read := *;
      if !FitsMemory(read) {
        read := Failed(None);
      }
    }

    /** Opens a Document with a new version, closing an earlier one first. */
    method Reopen(uri: Uri, language: string, text: Bytes) returns (snapshot: Snapshot, events: seq<Event>)
      requires InStep() && Counted() && Timed() && totalTextBytes <= maxTotalTextBytes
      requires totalTextBytes + |text| <= U64_MAX
      modifies this`documents, this`nextVersions, this`totalTextBytes, this`stream
      ensures documents == old(documents) - {uri} && Announced(snapshot)
      ensures totalTextBytes <= old(totalTextBytes)
      ensures snapshot.uri == uri && snapshot.language == language && snapshot.text == text
      ensures snapshot.version == Saturating(if uri in old(nextVersions) then old(nextVersions)[uri] else 0, I64_MAX)
      ensures stream == old(stream) + events
    {
      events := [];
      if uri in documents {
        events := Close(uri);
      } else {
        assert documents - {uri} == documents;
      }
      var version := AllocateVersion(uri);
      snapshot := Snapshot(uri, language, version, text);
      if openClose {
        var begun := Open(snapshot);
        events := events + begun;
      }
    }

    method Open(snapshot: Snapshot) returns (events: seq<Event>)
      requires InStep() && openClose && snapshot.uri !in documents
      requires snapshot.uri in nextVersions && snapshot.version <= nextVersions[snapshot.uri]
      requires forall e :: e in stream && Reopens(e, DidOpen(snapshot)) ==>
        e.snapshot.version < snapshot.version || snapshot.version == I64_MAX
      modifies this`stream
      ensures stream == old(stream) + events && VersionsIncrease(stream) && VersionsDrawn(stream, nextVersions)
      ensures Replay(stream) == Ok(Snapshots()[snapshot.uri := snapshot])
    {
      ReplayNext(stream, DidOpen(snapshot));
      OpenKeepsVersions(stream, snapshot);
      events := Generate(DidOpen(snapshot));
    }

    method Store(snapshot: Snapshot)
      requires Counted() && Timed() && snapshot.uri !in documents && totalTextBytes + |snapshot.text| <= U64_MAX
      modifies this`documents, this`useClock, this`totalTextBytes
      ensures useClock == Saturating(old(useClock), U64_MAX)
      ensures documents == old(documents)[snapshot.uri := OpenDocument(snapshot, useClock)]
      ensures Counted() && Timed()
    {
      useClock := Saturating(useClock, U64_MAX);
      TotalWith(documents, snapshot.uri, OpenDocument(snapshot, useClock));
      totalTextBytes := totalTextBytes + |snapshot.text|;
      documents := documents[snapshot.uri := OpenDocument(snapshot, useClock)];
    }

    method LeastRecentlyUsed(active: Uri) returns (victim: Option<Uri>)
      ensures victim.None? ==> documents.Keys <= {active}
      requires Timed()
      ensures victim.Some? ==>
        && victim.value in documents && victim.value != active
        && forall uri :: uri in documents && uri != active && uri != victim.value ==>
           UsedBefore(documents[victim.value], documents[uri], useClock)
    {
      victim := None;
      var todo := documents.Keys - {active};
      while todo != {}
        invariant todo <= documents.Keys - {active}
        invariant victim.None? ==> todo == documents.Keys - {active}
        invariant victim.Some? ==>
          && victim.value in documents && victim.value != active
          && forall uri :: uri in documents && uri != active && uri !in todo ==>
             documents[victim.value].lastUsed <= documents[uri].lastUsed
      {
        var uri :| uri in todo;
        if victim.None? || documents[uri].lastUsed < documents[victim.value].lastUsed {
          victim := Some(uri);
        }
        todo := todo - {uri};
      }
      if victim.Some? {
        forall uri | uri in documents && uri != active && uri != victim.value
          ensures UsedBefore(documents[victim.value], documents[uri], useClock)
        {
          assert SameTime(documents[victim.value], documents[uri]) ==> documents[uri].lastUsed == U64_MAX;
        }
      }
    }

    /** Evicts one Document. The active one alone never exceeds the limits, so there is
        always a victim. */
    method EvictNext(active: Uri, ghost before: map<Uri, OpenDocument>) returns (events: seq<Event>)
      requires Evicting(active, before) && !WithinLimits()
      modifies this`documents, this`totalTextBytes, this`stream
      ensures Evicting(active, before) && documents.Keys < old(documents).Keys
      ensures EvictedAsNeeded(before, documents, useClock, maxOpenDocuments, maxTotalTextBytes)
      ensures stream == old(stream) + events
    {
      var victim := LeastRecentlyUsed(active);
      if victim.None? {
        OnlyActive(documents, active);
        assert false;
      } else {
        EvictOne(before, documents, active, useClock, victim.value);
        EvictNeeded(before, documents, active, useClock, victim.value, maxOpenDocuments, maxTotalTextBytes);
        events := Close(victim.value);
        assert documents.Keys == old(documents).Keys - {victim.value};
      }
    }

    /** On the way from `before` to the limits. */
    ghost predicate Evicting(active: Uri, before: map<Uri, OpenDocument>)
      reads this
    {
      && InStep() && Counted() && Timed()
      && maxOpenDocuments > 0
      && active in documents && |documents[active].snapshot.text| <= maxTotalTextBytes
      && LeastRecent(before, documents, active, useClock)
      && (forall uri :: uri in documents ==> uri in before && documents[uri] == before[uri])
    }

    /** Evicts until the limits hold, and no further. */
    method EvictToLimits(active: Uri) returns (events: seq<Event>)
      requires Evicting(active, documents)
      modifies this`documents, this`totalTextBytes, this`stream
      ensures Evicting(active, old(documents)) && WithinLimits()
      ensures EvictedAsNeeded(old(documents), documents, useClock, maxOpenDocuments, maxTotalTextBytes)
      ensures stream == old(stream) + events
    {
      events := [];
      while |documents| > maxOpenDocuments || totalTextBytes > maxTotalTextBytes
        invariant Evicting(active, old(documents))
        invariant EvictedAsNeeded(old(documents), documents, useClock, maxOpenDocuments, maxTotalTextBytes)
        invariant stream == old(stream) + events
        decreases documents.Keys
      {
        var closed := EvictNext(active, old(documents));
        events := events + closed;
      }
    }

    /** Brings one Document up to date. On success the limits hold, the Document is stored and
        only Documents used less recently than every other survivor were evicted. */
    method Refresh(path: string, language: string) returns (r: Result<Outcome>)
      requires Valid()
      modifies this`documents, this`nextVersions, this`useClock, this`totalTextBytes, this`stream, this`pendingEvents
      ensures Valid()
      ensures r.Ok? ==>
        r.value.snapshot.uri in documents && documents[r.value.snapshot.uri] == OpenDocument(r.value.snapshot, useClock)
      ensures r.Ok? ==> stream == old(stream) + r.value.events && pendingEvents == old(pendingEvents)
      ensures r.Ok? ==> LeastRecent(old(documents), documents, r.value.snapshot.uri, useClock)
      ensures r.Ok? ==>
        var stored := old(documents)[r.value.snapshot.uri := OpenDocument(r.value.snapshot, useClock)];
        EvictedAsNeeded(stored, documents, useClock, maxOpenDocuments, maxTotalTextBytes)
      ensures r.Ok? ==> Renewed(old(documents), old(nextVersions), r.value.snapshot)
      ensures r.Ok? ==> r.value.snapshot.language == language
      ensures r.Err? ==> documents == old(documents) || exists uri :: documents == old(documents) - {uri}
      ensures r.Err? ==> old(stream) <= stream && old(pendingEvents) <= pendingEvents
      ensures r.Err? ==> stream[|old(stream)|..] == pendingEvents[|old(pendingEvents)|..]
    {
      var read := ReadDocument(path);
      if read.Failed? {
        CloseFailedDocument(read.given);
        return Err;
      }
      var uri, text := read.uri, read.text;
      if maxOpenDocuments == 0 || |text| > maxTotalTextBytes {
        CloseFailedDocument(Some(uri));
        return Err;
      }
      r := RefreshContents(uri, language, text);
    }

    method RefreshContents(uri: Uri, language: string, text: Bytes) returns (r: Result<Outcome>)
      requires Valid() && totalTextBytes + |text| <= U64_MAX && maxOpenDocuments > 0 && |text| <= maxTotalTextBytes
      modifies this`documents, this`nextVersions, this`useClock, this`totalTextBytes, this`stream
      ensures Valid() && r.Ok? && stream == old(stream) + r.value.events
      ensures r.value.snapshot.uri == uri && r.value.snapshot.text == text && r.value.snapshot.language == language
      ensures uri in documents && documents[uri] == OpenDocument(r.value.snapshot, useClock)
      ensures LeastRecent(old(documents), documents, uri, useClock)
      ensures
        var stored := old(documents)[uri := OpenDocument(r.value.snapshot, useClock)];
        EvictedAsNeeded(stored, documents, useClock, maxOpenDocuments, maxTotalTextBytes)
      ensures Renewed(old(documents), old(nextVersions), r.value.snapshot)
    {
      var snapshot, events := Renew(uri, language, text);
      ghost var renewed := documents;
      var evictions := EvictToLimits(uri);
      SinceRenewal(old(documents), renewed, documents, uri, useClock);
      return Ok(Outcome(snapshot, events + evictions));
    }

    /** What is promised between withdrawing a Document and storing it again. */
    ghost predicate Announced(snapshot: Snapshot)
      reads this
    {
      && snapshot.uri !in documents
      && (if openClose then Replay(stream) == Ok(Snapshots()[snapshot.uri := snapshot]) else stream == [])
      && VersionsIncrease(stream) && VersionsDrawn(stream, nextVersions)
      && Counted() && Timed()
    }

    /** Stores the text, with a new version if text or language changed. */
    method Renew(uri: Uri, language: string, text: Bytes) returns (snapshot: Snapshot, events: seq<Event>)
      requires Valid() && totalTextBytes + |text| <= U64_MAX
      modifies this`documents, this`nextVersions, this`useClock, this`totalTextBytes, this`stream
      ensures InStep() && Counted() && Timed()
      ensures snapshot.uri == uri && snapshot.text == text && snapshot.language == language
      ensures documents == old(documents)[uri := OpenDocument(snapshot, useClock)]
      ensures useClock == Saturating(old(useClock), U64_MAX)
      ensures stream == old(stream) + events
      ensures Renewed(old(documents), old(nextVersions), snapshot)
    {
      if uri in documents && documents[uri].snapshot.text == text && documents[uri].snapshot.language == language {
        snapshot := Retain(uri);
        events := [];
      } else {
        snapshot, events := Reopen(uri, language, text);
      }
      SnapshotsWith(documents, uri, OpenDocument(snapshot, Saturating(useClock, U64_MAX)));
      Store(snapshot);
      assert documents == old(documents)[uri := OpenDocument(snapshot, useClock)];
    }

    /** Takes an unchanged Document out, to store it again under a new time. */
    method Retain(uri: Uri) returns (snapshot: Snapshot)
      requires Valid() && uri in documents
      modifies this`documents, this`totalTextBytes
      ensures documents == old(documents) - {uri} && snapshot == old(documents)[uri].snapshot
      ensures Announced(snapshot) && totalTextBytes <= old(totalTextBytes)
    {
      snapshot := documents[uri].snapshot;
      ghost var before := Snapshots();
      Remove(uri);
      assert before == Snapshots()[uri := snapshot];
    }

    /** Refreshes every stored Document in turn. Every event is handed over once: with the
        outcome it belongs to, or it waits. */
    method RefreshOpenDocuments(paths: map<Uri, string>) returns (refreshed: seq<Outcome>)
      requires Valid()
      modifies this`documents, this`nextVersions, this`useClock, this`totalTextBytes, this`stream, this`pendingEvents
      ensures Valid()
      ensures old(stream) <= stream && old(pendingEvents) <= pendingEvents
      ensures HandedOver(stream[|old(stream)|..], refreshed, pendingEvents[|old(pendingEvents)|..])
    {
      refreshed := [];
      var inputs := documents;
      var todo := inputs.Keys;
      while todo != {}
        invariant Valid() && todo <= inputs.Keys
        invariant old(stream) <= stream && old(pendingEvents) <= pendingEvents
        invariant HandedOver(stream[|old(stream)|..], refreshed, pendingEvents[|old(pendingEvents)|..])
      {
        var uri :| uri in todo;
        ghost var before, waiting := stream, pendingEvents;
        var outcome := Refresh(if uri in paths then paths[uri] else uri, inputs[uri].snapshot.language);
        Longer(before, stream, |old(stream)|);
        Longer(waiting, pendingEvents, |old(pendingEvents)|);
        HandOver(
          before[|old(stream)|..], refreshed, waiting[|old(pendingEvents)|..], outcome, stream[|before|..],
          pendingEvents[|waiting|..]);
        if outcome.Ok? {
          refreshed := refreshed + [outcome.value];
        }
        todo := todo - {uri};
      }
    }

    /** Closes everything, in whatever order. */
    method CloseAll() returns (events: seq<Event>)
      requires Valid()
      modifies this`documents, this`totalTextBytes, this`stream
      ensures Valid() && documents == map[] && stream == old(stream) + events
    {
      events := [];
      while documents != map[]
        invariant Valid() && stream == old(stream) + events
        decreases documents.Keys
      {
        var uri :| uri in documents;
        assert |documents - {uri}| <= |documents| by {
          assert (documents - {uri}).Keys == documents.Keys - {uri};
        }
        var closed := Close(uri);
        events := events + closed;
      }
    }

    method DrainPendingEvents() returns (events: seq<Event>)
      requires Valid()
      modifies this`pendingEvents
      ensures Valid() && events == old(pendingEvents) && pendingEvents == []
    {
      events := pendingEvents;
      pendingEvents := [];
    }
  }

  lemma SnapshotsWith(documents: map<Uri, OpenDocument>, uri: Uri, open: OpenDocument)
    ensures SnapshotsOf(documents[uri := open]) == SnapshotsOf(documents)[uri := open.snapshot]
  {
  }

  lemma SinceRenewal(
      before: map<Uri, OpenDocument>, renewed: map<Uri, OpenDocument>, after: map<Uri, OpenDocument>, uri: Uri,
      clock: nat)
    requires uri in renewed && renewed == before[uri := renewed[uri]] && uri in after
    requires LeastRecent(renewed, after, uri, clock)
    requires forall u :: u in after ==> u in renewed && after[u] == renewed[u]
    ensures LeastRecent(before, after, uri, clock)
  {
    forall gone, kept | gone in before && gone !in after && kept in after && kept != uri
      ensures UsedBefore(before[gone], after[kept], clock)
    {
      assert UsedBefore(renewed[gone], after[kept], clock);
    }
  }

  /** A store of the active Document alone is within its limits. */
  lemma OnlyActive(documents: map<Uri, OpenDocument>, active: Uri)
    requires active in documents && documents.Keys <= {active}
    ensures |documents| == 1 && TotalBytes(documents) == |documents[active].snapshot.text|
  {
    assert documents.Keys == {active};
    TotalWithout(documents, active);
    assert documents - {active} == map[];
    assert |documents| == |documents.Keys|;
  }
}
