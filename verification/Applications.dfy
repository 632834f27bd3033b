/** Applications, discards, prunes and recoveries of many processes on one state store.
    Every file of the store is read, replaced or removed atomically; a write may fail
    before or after it took hold, and a process may crash between any two steps. */
module Applications {
  datatype Phase = Staged | Committing | RecoveryRequired | CleanupPending

  datatype Preview = Preview(workspace: nat, reserved: bool)

  datatype Journal = Journal(preview: nat, workspace: nat, phase: Phase)

  /** Where a process stands in applying a Preview. */
  datatype Stage =
    | Waiting       // the Preview was read, the Workspace lock is awaited
    | Locked        // the lock is held
    | Reserving     // the Preview was found unreserved
    | Reserved      // its reservation was written
    | Cleared       // no journal of the Workspace was found
    | ReadingBack   // the first journal write failed
    | Journaled     // the journal was written
    | Dropping      // staging failed and left nothing behind
    | Running       // the journal says Committing
    | Sealed        // the outcome is in the journal
    | Receipted     // the Receipt is written
    | Cleaning      // the Preview was removed, if that worked
    | Retired       // the Preview is known to be gone
    | Releasing     // the reservation must be given back

  /** `clean` as long as every write of this Application worked. */
  datatype Ticket = Ticket(stage: Stage, preview: nat, workspace: nat, transaction: nat, clean: bool)

  datatype Process =
    | Idle
    | Applying(ticket: Ticket)
    | DiscardWaiting(preview: nat, workspace: nat)
    | DiscardHolding(preview: nat, workspace: nat)
    | Unlinking(preview: nat)
    | RecoverWaiting(transaction: nat, workspace: nat, rollback: bool)
    | RecoverHolding(transaction: nat, workspace: nat, rollback: bool)
    | RecoverReceipted(transaction: nat, workspace: nat, preview: nat)
    | RecoverRetired(transaction: nat, workspace: nat, preview: nat)
    | ReconcileHolding(transaction: nat, workspace: nat)

  /** A Preview becomes the Receipt of the same identifier. `homes` and `transactions`
      remember the Workspace of every identifier ever drawn; `commits` lists the Previews
      whose journal ever became Committing, in order; `unfinished` are the transactions whose
      commit began and is not known to have been completed or rolled back; `recovered` those
      a recovery was granted for. */
  datatype State = State(
    previews: map<nat, Preview>,
    receipts: set<nat>,
    journals: map<nat, Journal>,
    locks: map<nat, nat>,
    processes: map<nat, Process>,
    homes: map<nat, nat>,
    transactions: map<nat, nat>,
    commits: seq<nat>,
    unfinished: set<nat>,
    recovered: set<nat>)

  /** How a write, replacement or removal of one file ends. */
  datatype Write = Works | FailsBefore | FailsAfter

  datatype Event =
    | CreatePreview(preview: nat, workspace: nat)
    | StartApply(process: nat, preview: nat)
    | StartDiscard(process: nat, preview: nat)
    | StartPrune(process: nat, preview: nat)
    | StartRecover(process: nat, transaction: nat, rollback: bool)
    | StartReconcile(process: nat, transaction: nat)
    | PruneReceipt(preview: nat)
    | Continue(process: nat, write: Write, refused: bool, stuck: bool, drawn: nat)
    | Crash(process: nat)

  const START: State := State(map[], {}, map[], map[], map[], map[], map[], [], {}, {})

  function ProcessOf(s: State, id: nat): Process {
    if id in s.processes then s.processes[id] else Idle
  }

  /** The Workspace whose lock a process in this place holds. */
  function Holds(process: Process): set<nat> {
    match process
    case Applying(ticket) => if ticket.stage.Waiting? then {} else {ticket.workspace}
    case DiscardHolding(_, workspace) => {workspace}
    case RecoverHolding(_, workspace, _) => {workspace}
    case RecoverReceipted(_, workspace, _) => {workspace}
    case RecoverRetired(_, workspace, _) => {workspace}
    case ReconcileHolding(_, workspace) => {workspace}
    case _ => {}
  }

  function Enter(s: State, id: nat, process: Process): State {
    s.(processes := s.processes[id := process])
  }

  /** The process takes the lock if it is free, and otherwise gives up. */
  function Acquire(s: State, id: nat, workspace: nat, process: Process): State {
    if workspace in s.locks then Enter(s, id, Idle)
    else Enter(s.(locks := s.locks[workspace := id]), id, process)
  }

  /** The process gives back its lock. */
  function Leave(s: State, id: nat, process: Process): State {
    Enter(s.(locks := s.locks - Holds(ProcessOf(s, id))), id, process)
  }

  function Return(s: State, id: nat): State {
    Leave(s, id, Idle)
  }

  predicate Lands(write: Write) {
    write != FailsBefore
  }

  function WritePreview(s: State, preview: nat, file: Preview, write: Write): State {
    if Lands(write) then s.(previews := s.previews[preview := file]) else s
  }

  function RemovePreview(s: State, preview: nat, write: Write): State {
    if Lands(write) then s.(previews := s.previews - {preview}) else s
  }

  function WriteJournal(s: State, transaction: nat, journal: Journal, write: Write): State {
    if Lands(write) then
      s.(journals := s.journals[transaction := journal],
         commits := if journal.phase.Committing? then s.commits + [journal.preview] else s.commits,
         unfinished := if journal.phase.Committing? then s.unfinished + {transaction} else s.unfinished)
    else s
  }

  function WriteReceipt(s: State, preview: nat, write: Write): State {
    if Lands(write) then s.(receipts := s.receipts + {preview}) else s
  }

  function RemoveJournal(s: State, transaction: nat, write: Write): State {
    if Lands(write) then s.(journals := s.journals - {transaction}) else s
  }

  predicate AnyJournal(s: State, workspace: nat) {
    exists t | t in s.journals :: s.journals[t].workspace == workspace
  }

  predicate JournalNames(s: State, preview: nat) {
    exists t | t in s.journals :: s.journals[t].preview == preview
  }

  /** Goes on to another stage; the process stays clean only if its write worked. */
  function Advance(s: State, id: nat, ticket: Ticket, stage: Stage, write: Write): State {
    Enter(s, id, Applying(ticket.(stage := stage, clean := ticket.clean && write.Works?)))
  }

  /** The next step of an Application. `refused` stands for every failure that is not one
      of the store: authorisation, staleness, capacity, deadlines, staging, commit; `stuck`
      for artifacts that cannot be removed. */
  function ApplyStep(s: State, id: nat, ticket: Ticket, write: Write, refused: bool, stuck: bool, drawn: nat): State
  {
    var p, w, t := ticket.preview, ticket.workspace, ticket.transaction;
    match ticket.stage
    case Waiting => if refused then Enter(s, id, Idle) else Acquire(s, id, w, Applying(ticket.(stage := Locked)))
    case Locked =>
      if refused || p !in s.previews || s.previews[p].reserved then Return(s, id)
      else Advance(s, id, ticket, Reserving, Works)
    case Reserving =>
      var s' := WritePreview(s, p, Preview(w, true), write);
      Advance(s', id, ticket, if write.Works? then Reserved else Releasing, write)
    case Reserved => Advance(s, id, ticket, if refused || AnyJournal(s, w) then Releasing else Cleared, Works)
    case Cleared =>
      if drawn in s.transactions then s
      else
        var drawing := s.(transactions := s.transactions[drawn := w]);
        var s' := WriteJournal(drawing, drawn, Journal(p, w, Phase.Staged), write);
        Advance(s', id, ticket.(transaction := drawn), if write.Works? then Journaled else ReadingBack, write)
    case ReadingBack =>
      if refused || t in s.journals then Return(s, id) else Advance(s, id, ticket, Releasing, Works)
    case Journaled =>
      if !refused then
        var s' := WriteJournal(s, t, Journal(p, w, Committing), write);
        if write.Works? then Advance(s', id, ticket, Running, Works) else Return(s', id)
      else if stuck then Return(WriteJournal(s, t, Journal(p, w, RecoveryRequired), write), id)
      else Advance(s, id, ticket, Dropping, Works)
    case Dropping => Advance(RemoveJournal(s, t, write), id, ticket, Releasing, write)
    case Running =>
      var known := if refused then s else s.(unfinished := s.unfinished - {t});
      var s' := WriteJournal(known, t, Journal(p, w, if refused then RecoveryRequired else CleanupPending), write);
      if write.Works? then Advance(s', id, ticket, Sealed, Works) else Return(s', id)
    case Sealed =>
      var s' := WriteReceipt(s, p, write);
      if write.Works? then Advance(s', id, ticket, Receipted, Works) else Return(s', id)
    case Receipted =>
      var s' := RemovePreview(s, p, write);
      if !write.Works? && refused then Return(s', id) else Advance(s', id, ticket, Cleaning, write)
    case Cleaning =>
      if stuck || t !in s.journals || s.journals[t].phase.RecoveryRequired? then Return(s, id)
      else
        var s' := RemovePreview(s, p, write);
        if write.Works? then Advance(s', id, ticket, Retired, Works) else Return(s', id)
    case Retired => Return(RemoveJournal(s, t, write), id)
    case Releasing => Return(WritePreview(s, p, Preview(w, false), write), id)
  }

  /** The next step of a discard, prune, recovery or reconciliation. */
  function OtherStep(s: State, id: nat, process: Process, write: Write, refused: bool, stuck: bool): State
    requires !process.Applying?
  {
    match process
    case DiscardWaiting(p, w) => Acquire(s, id, w, DiscardHolding(p, w))
    case DiscardHolding(p, _) =>
      if JournalNames(s, p) then Return(s, id) else Leave(s, id, Unlinking(p))
    case Unlinking(p) => Return(RemovePreview(s, p, write), id)
    case RecoverWaiting(t, w, rollback) => Acquire(s, id, w, RecoverHolding(t, w, rollback))
    case RecoverHolding(t, w, rollback) =>
      if t !in s.journals || (s.journals[t].phase.CleanupPending? && rollback) || refused || !write.Works?
      then Return(s, id)
      else Enter(s.(recovered := s.recovered + {t}), id, RecoverReceipted(t, w, s.journals[t].preview))
    case RecoverReceipted(t, w, p) =>
      if write.Works? then Enter(RemovePreview(s, p, Works), id, RecoverRetired(t, w, p))
      else Return(RemovePreview(s, p, write), id)
    case RecoverRetired(t, w, p) => if stuck then Return(s, id) else Return(RemoveJournal(s, t, write), id)
    case ReconcileHolding(t, w) =>
      if t !in s.journals || (!s.journals[t].phase.Staged? && !s.journals[t].phase.Committing?) then Return(s, id)
      else if s.journals[t].phase.Committing? || refused then
        Return(WriteJournal(s, t, s.journals[t].(phase := RecoveryRequired), write), id)
      else Return(s, id)
    case _ => s
  }

  function Next(s: State, e: Event): State {
    match e
    case CreatePreview(p, w) =>
      if p in s.homes then s
      else s.(previews := s.previews[p := Preview(w, false)], homes := s.homes[p := w])
    case PruneReceipt(p) => s.(receipts := s.receipts - {p})
    case Crash(id) => if id in s.processes then Return(s, id) else s
    case Continue(id, write, refused, stuck, drawn) =>
      var process := ProcessOf(s, id);
      if process.Applying? then ApplyStep(s, id, process.ticket, write, refused, stuck, drawn)
      else OtherStep(s, id, process, write, refused, stuck)
    case StartApply(id, p) =>
      if ProcessOf(s, id).Idle? && p in s.previews
      then Enter(s, id, Applying(Ticket(Waiting, p, s.previews[p].workspace, 0, true))) else s
    case StartDiscard(id, p) =>
      if ProcessOf(s, id).Idle? && p in s.previews then
        Enter(s, id, if s.previews[p].reserved then DiscardWaiting(p, s.previews[p].workspace) else Unlinking(p))
      else s
    case StartPrune(id, p) =>
      if ProcessOf(s, id).Idle? && p in s.previews && !s.previews[p].reserved then Enter(s, id, Unlinking(p)) else s
    case StartRecover(id, t, rollback) =>
      if ProcessOf(s, id).Idle? && t in s.journals
      then Enter(s, id, RecoverWaiting(t, s.journals[t].workspace, rollback)) else s
    case StartReconcile(id, t) =>
      if ProcessOf(s, id).Idle? && t in s.journals then
        Acquire(s, id, s.journals[t].workspace, ReconcileHolding(t, s.journals[t].workspace))
      else s
  }

  function Run(s: State, events: seq<Event>): State
    decreases |events|
  {
    if events == [] then s else Run(Next(s, events[0]), events[1..])
  }

  /** No commit of `p` has begun, or the journal of one still names it. */
  predicate FreshOrJournaled(s: State, p: nat) {
    p !in s.commits || JournalNames(s, p)
  }

  predicate KeptReserved(s: State, p: nat) {
    p in s.previews ==> s.previews[p].reserved
  }

  predicate OnlyJournal(s: State, p: nat, w: nat, t: nat) {
    forall u | u in s.journals :: s.journals[u].workspace == w ==> u == t && s.journals[u].preview == p
  }

  predicate OwnJournal(s: State, p: nat, w: nat, t: nat) {
    t in s.journals && s.journals[t].preview == p && s.journals[t].workspace == w
  }

  /** What a process knows while it holds its lock. */
  predicate Knows(s: State, process: Process) {
    match process
    case Applying(Ticket(stage, p, w, t, clean)) =>
      && p in s.homes && s.homes[p] == w
      && (match stage
          case Waiting => true
          case Locked => true
          case Reserving => FreshOrJournaled(s, p) && p !in s.receipts
          case Reserved => FreshOrJournaled(s, p) && p !in s.receipts && KeptReserved(s, p)
          case Releasing => FreshOrJournaled(s, p) && p !in s.receipts
          case Cleared => p !in s.commits && p !in s.receipts && !AnyJournal(s, w) && KeptReserved(s, p)
          case ReadingBack => !clean && p !in s.commits && p !in s.receipts && OnlyJournal(s, p, w, t)
          case Dropping => p !in s.commits && p !in s.receipts && OwnJournal(s, p, w, t)
          case Journaled => p !in s.commits && p !in s.receipts && OwnJournal(s, p, w, t) && KeptReserved(s, p)
          case Retired => OwnJournal(s, p, w, t) && p !in s.previews
          case _ => OwnJournal(s, p, w, t) && KeptReserved(s, p))
    case DiscardWaiting(p, w) => p in s.homes && s.homes[p] == w
    case DiscardHolding(p, w) => p in s.homes && s.homes[p] == w
    case RecoverWaiting(t, w, _) => t in s.transactions && s.transactions[t] == w
    case RecoverHolding(t, w, _) => t in s.transactions && s.transactions[t] == w
    case ReconcileHolding(t, w) => t in s.transactions && s.transactions[t] == w
    case RecoverReceipted(t, w, p) => OwnJournal(s, p, w, t)
    case RecoverRetired(t, w, p) => OwnJournal(s, p, w, t) && p !in s.previews
    case _ => true
  }

  /** Identifiers keep their Workspace, a Workspace has one journal at most, a Preview that
      was committed is gone or named by a journal, and one that has a Receipt is reserved. */
  ghost predicate StoreOk(s: State) {
    && (forall p :: p in s.previews ==> p in s.homes && s.homes[p] == s.previews[p].workspace)
    && JournalsOk(s) && CommitsOk(s)
    && (forall p :: p in s.receipts ==> p in s.homes && KeptReserved(s, p))
    && (forall i, j :: 0 <= i < j < |s.commits| ==> s.commits[i] != s.commits[j])
  }

  ghost predicate JournalsOk(s: State) {
    && (forall t :: t in s.journals ==>
          && t in s.transactions && s.transactions[t] == s.journals[t].workspace
          && s.journals[t].preview in s.homes && s.homes[s.journals[t].preview] == s.journals[t].workspace)
    && (forall t, u :: t in s.journals && u in s.journals && s.journals[t].workspace == s.journals[u].workspace ==>
         t == u)
  }

  ghost predicate CommitsOk(s: State) {
    forall p :: p in s.commits ==> p in s.homes && (p in s.previews ==> JournalNames(s, p))
  }

  ghost predicate LocksOk(s: State) {
    && (forall w :: w in s.locks ==> w in Holds(ProcessOf(s, s.locks[w])))
    && (forall id, w :: w in Holds(ProcessOf(s, id)) ==> w in s.locks && s.locks[w] == id)
  }

  ghost predicate Invariant(s: State) {
    && StoreOk(s) && LocksOk(s)
    && forall id :: id in s.processes ==> Knows(s, s.processes[id])
  }

  /** A step by the holder of the Workspaces `ws` leaves everything about others alone,
      except that any Preview may disappear. */
  ghost predicate Within(s: State, s': State, ws: set<nat>) {
    && s'.locks == s.locks && s'.processes == s.processes
    && (forall p :: p in s.homes ==> p in s'.homes && s'.homes[p] == s.homes[p])
    && (forall t :: t in s.transactions ==> t in s'.transactions && s'.transactions[t] == s.transactions[t])
    && (forall p :: p in s'.previews && p in s.homes && s.homes[p] !in ws ==>
         p in s.previews && s'.previews[p] == s.previews[p])
    && (forall p :: p in s'.receipts ==> p in s.receipts || (p in s.homes && s.homes[p] in ws))
    && (forall t :: t in s.journals && s.journals[t].workspace !in ws ==>
         t in s'.journals && s'.journals[t] == s.journals[t])
    && (forall t :: t in s'.journals && s'.journals[t].workspace !in ws ==>
         t in s.journals && s'.journals[t] == s.journals[t])
    && (forall p :: p in s'.commits ==> p in s.commits || (p in s.homes && s.homes[p] in ws))
  }

  /** What a process knows outlives the steps of others. */
  lemma KnowsFrame(s: State, s': State, ws: set<nat>, process: Process)
    requires StoreOk(s) && Within(s, s', ws) && Knows(s, process) && (forall w :: w in Holds(process) ==> w !in ws)
    ensures Knows(s', process)
  {
    match process
    case Applying(Ticket(stage, p, w, t, _)) =>
      if !stage.Waiting? {
        assert w in Holds(process) && w !in ws;
        if JournalNames(s, p) {
          var u :| u in s.journals && s.journals[u].preview == p;
          assert u in s'.journals && s'.journals[u].preview == p;
        }
      }
    case RecoverReceipted(t, w, p) => assert w in Holds(process) && w !in ws;
    case RecoverRetired(t, w, p) => assert w in Holds(process) && w !in ws;
    case _ =>
  }

  lemma OthersKnow(s: State, s1: State, id: nat, other: nat)
    requires Invariant(s) && Within(s, s1, Holds(ProcessOf(s, id))) && other in s.processes && other != id
    ensures Knows(s1, s.processes[other])
  {
    forall w | w in Holds(s.processes[other]) ensures w !in Holds(ProcessOf(s, id)) {
      assert s.processes[other] == ProcessOf(s, other);
      assert s.locks[w] == other;
    }
    KnowsFrame(s, s1, Holds(ProcessOf(s, id)), s.processes[other]);
  }

  /** The process goes on, keeping its lock. */
  lemma Entered(s: State, s1: State, id: nat, process: Process)
    requires Invariant(s) && StoreOk(s1) && Within(s, s1, Holds(ProcessOf(s, id)))
    requires Holds(process) == Holds(ProcessOf(s, id)) && Knows(s1, process)
    ensures Invariant(Enter(s1, id, process))
  {
    var s' := Enter(s1, id, process);
    AllKnow(s, s1, s', id, process);
    EnterKeepsLocks(s, s', id, process);
    StoreAlone(s1, s');
  }

  lemma StoreAlone(s: State, s': State)
    requires StoreOk(s) && s' == s.(locks := s'.locks, processes := s'.processes)
    ensures StoreOk(s')
  {
    CommitsStay(s, s');
  }

  lemma AllKnow(s: State, s1: State, s': State, id: nat, process: Process)
    requires Invariant(s) && Within(s, s1, Holds(ProcessOf(s, id))) && Knows(s1, process)
    requires s' == s1.(locks := s'.locks, processes := s.processes[id := process])
    ensures forall other :: other in s'.processes ==> Knows(s', s'.processes[other])
  {
    forall other | other in s'.processes ensures Knows(s', s'.processes[other]) {
      if other != id {
        OthersKnow(s, s1, id, other);
        SameStore(s1, s', s.processes[other]);
      } else {
        SameStore(s1, s', process);
      }
    }
  }

  lemma EnterKeepsLocks(s: State, s': State, id: nat, process: Process)
    requires LocksOk(s) && Holds(process) == Holds(ProcessOf(s, id))
    requires s'.locks == s.locks && s'.processes == s.processes[id := process]
    ensures LocksOk(s')
  {
    assert forall i :: Holds(ProcessOf(s', i)) == Holds(ProcessOf(s, i));
  }

  lemma SameStore(s: State, s': State, process: Process)
    requires s' == s.(locks := s'.locks, processes := s'.processes) && Knows(s, process)
    ensures Knows(s', process)
  {
  }

  /** The process returns, or goes on without its lock. */
  lemma Returned(s: State, s1: State, id: nat, process: Process)
    requires Invariant(s) && StoreOk(s1) && Within(s, s1, Holds(ProcessOf(s, id)))
    requires Holds(process) == {} && Knows(s1, process)
    ensures Invariant(Leave(s1, id, process))
  {
    var s' := Leave(s1, id, process);
    AllKnow(s, s1, s', id, process);
    ReturnKeepsLocks(s, s', id, process);
    StoreAlone(s1, s');
  }

  lemma ReturnKeepsLocks(s: State, s': State, id: nat, process: Process)
    requires LocksOk(s) && Holds(process) == {}
    requires s'.locks == s.locks - Holds(ProcessOf(s, id)) && s'.processes == s.processes[id := process]
    ensures LocksOk(s')
  {
    assert forall i :: i != id ==> ProcessOf(s', i) == ProcessOf(s, i);
    forall i, w | w in Holds(ProcessOf(s', i)) ensures w in s'.locks && s'.locks[w] == i {
      assert w in Holds(ProcessOf(s, i)) && s.locks[w] == i && i != id;
    }
    forall w | w in s'.locks ensures w in Holds(ProcessOf(s', s'.locks[w])) {
      assert w in Holds(ProcessOf(s, s.locks[w]));
    }
  }

  lemma Acquired(s: State, id: nat, w: nat, process: Process)
    requires Invariant(s) && Holds(ProcessOf(s, id)) == {} && Holds(process) == {w} && Knows(s, process)
    ensures Invariant(Acquire(s, id, w, process))
  {
    if w in s.locks {
      Entered(s, s, id, Idle);
    } else {
      var s' := Acquire(s, id, w, process);
      forall other | other in s'.processes ensures Knows(s', s'.processes[other]) {
        SameStore(s, s', s'.processes[other]);
      }
      forall i, v | v in Holds(ProcessOf(s', i)) ensures v in s'.locks && s'.locks[v] == i {
        if i != id {
          assert v in Holds(ProcessOf(s, i));
        }
      }
      forall v | v in s'.locks ensures v in Holds(ProcessOf(s', s'.locks[v])) {
        if v != w {
          assert v in Holds(ProcessOf(s, s.locks[v]));
        }
      }
    }
  }

  lemma NamesStay(s: State, s': State, p: nat)
    requires JournalNames(s, p)
    requires forall t :: t in s.journals ==> t in s'.journals && s'.journals[t].preview == s.journals[t].preview
    ensures JournalNames(s', p)
  {
    var t :| t in s.journals && s.journals[t].preview == p;
    assert t in s'.journals && s'.journals[t].preview == p;
  }

  lemma CommitsStay(s: State, s': State)
    requires CommitsOk(s) && s'.commits == s.commits && (forall p :: p in s.homes ==> p in s'.homes)
    requires forall t :: t in s.journals ==> t in s'.journals && s'.journals[t].preview == s.journals[t].preview
    requires forall p :: p in s.commits && p in s'.previews && p !in s.previews ==> JournalNames(s, p)
    ensures CommitsOk(s')
  {
    forall p | p in s'.commits && p in s'.previews ensures JournalNames(s', p) {
      NamesStay(s, s', p);
    }
  }

  lemma PreviewWritten(s: State, p: nat, w: nat, reserved: bool, write: Write)
    requires StoreOk(s) && p in s.homes && s.homes[p] == w && FreshOrJournaled(s, p) && p !in s.receipts
    ensures var s' := WritePreview(s, p, Preview(w, reserved), write);
      StoreOk(s') && Within(s, s', {w}) && FreshOrJournaled(s', p)
  {
    PreviewWithin(s, p, w, reserved, write);
    PreviewStored(s, WritePreview(s, p, Preview(w, reserved), write), p, w, reserved);
  }

  lemma PreviewWithin(s: State, p: nat, w: nat, reserved: bool, write: Write)
    requires p in s.homes && s.homes[p] == w
    ensures Within(s, WritePreview(s, p, Preview(w, reserved), write), {w})
  {
  }

  lemma PreviewStored(s: State, s': State, p: nat, w: nat, reserved: bool)
    requires StoreOk(s) && p in s.homes && s.homes[p] == w && FreshOrJournaled(s, p) && p !in s.receipts
    requires s' == s || s' == s.(previews := s.previews[p := Preview(w, reserved)])
    ensures StoreOk(s') && FreshOrJournaled(s', p)
  {
    CommitsStay(s, s');
    if p in s.commits {
      NamesStay(s, s', p);
    }
  }

  lemma PreviewRemoved(s: State, p: nat, write: Write)
    requires StoreOk(s)
    ensures StoreOk(RemovePreview(s, p, write)) && forall ws :: Within(s, RemovePreview(s, p, write), ws)
  {
    var s' := RemovePreview(s, p, write);
    CommitsStay(s, s');
  }

  lemma ReceiptWritten(s: State, p: nat, w: nat, write: Write)
    requires StoreOk(s) && p in s.homes && s.homes[p] == w && KeptReserved(s, p)
    ensures StoreOk(WriteReceipt(s, p, write)) && Within(s, WriteReceipt(s, p, write), {w})
  {
    var s' := WriteReceipt(s, p, write);
    CommitsStay(s, s');
  }

  lemma JournalAdded(s: State, t: nat, p: nat, w: nat, write: Write)
    requires StoreOk(s) && t !in s.transactions && p in s.homes && s.homes[p] == w && !AnyJournal(s, w)
    ensures var s' := WriteJournal(s.(transactions := s.transactions[t := w]), t, Journal(p, w, Phase.Staged), write);
      && StoreOk(s') && Within(s, s', {w}) && s'.commits == s.commits
      && OnlyJournal(s', p, w, t) && (write.Works? ==> OwnJournal(s', p, w, t))
  {
    var s' := WriteJournal(s.(transactions := s.transactions[t := w]), t, Journal(p, w, Phase.Staged), write);
    assert t !in s.journals;
    JournalAddedWithin(s, s', t, p, w);
    JournalsDiffer(s, s', t, p, w);
    CommitsStay(s, s');
  }

  lemma JournalAddedWithin(s: State, s': State, t: nat, p: nat, w: nat)
    requires t !in s.transactions && t !in s.journals
    requires s' == s.(transactions := s.transactions[t := w], journals := s'.journals)
    requires s'.journals == s.journals || s'.journals == s.journals[t := Journal(p, w, Phase.Staged)]
    ensures Within(s, s', {w})
  {
  }

  lemma JournalsDiffer(s: State, s': State, t: nat, p: nat, w: nat)
    requires StoreOk(s) && t !in s.journals && !AnyJournal(s, w)
    requires s'.journals == s.journals || s'.journals == s.journals[t := Journal(p, w, Phase.Staged)]
    ensures forall u, v ::
      u in s'.journals && v in s'.journals && s'.journals[u].workspace == s'.journals[v].workspace ==> u == v
    ensures OnlyJournal(s', p, w, t)
  {
    forall u, v | u in s'.journals && v in s'.journals && s'.journals[u].workspace == s'.journals[v].workspace
      ensures u == v
    {
      assert u != t ==> u in s.journals && s.journals[u].workspace == s'.journals[u].workspace;
      assert v != t ==> v in s.journals && s.journals[v].workspace == s'.journals[v].workspace;
    }
  }

  lemma RewrittenJournals(s: State, s': State, t: nat, journal: Journal)
    requires JournalsOk(s) && OwnJournal(s, journal.preview, journal.workspace, t)
    requires s'.journals == s.journals || s'.journals == s.journals[t := journal]
    requires s'.homes == s.homes && s'.transactions == s.transactions
    ensures JournalsOk(s')
    ensures forall u :: u in s.journals ==> u in s'.journals && s'.journals[u].preview == s.journals[u].preview
  {
    forall u, v | u in s'.journals && v in s'.journals && s'.journals[u].workspace == s'.journals[v].workspace
      ensures u == v
    {
      assert s.journals[u].workspace == s.journals[v].workspace;
    }
  }

  lemma RewrittenWithin(s: State, s': State, t: nat, journal: Journal)
    requires OwnJournal(s, journal.preview, journal.workspace, t)
    requires journal.preview in s.homes && s.homes[journal.preview] == journal.workspace
    requires s' == s.(journals := s.journals[t := journal], commits := s'.commits, unfinished := s'.unfinished)
    requires s'.commits == s.commits || s'.commits == s.commits + [journal.preview]
    ensures Within(s, s', {journal.workspace})
  {
  }

  lemma JournalRewritten(s: State, t: nat, p: nat, w: nat, phase: Phase, write: Write)
    requires StoreOk(s) && OwnJournal(s, p, w, t) && !phase.Committing?
    ensures var s' := WriteJournal(s, t, Journal(p, w, phase), write);
      StoreOk(s') && Within(s, s', {w}) && OwnJournal(s', p, w, t)
  {
    var s' := WriteJournal(s, t, Journal(p, w, phase), write);
    if Lands(write) {
      RewrittenJournals(s, s', t, Journal(p, w, phase));
      RewrittenWithin(s, s', t, Journal(p, w, phase));
      CommitsStay(s, s');
    }
  }

  lemma CommitWritten(s: State, t: nat, p: nat, w: nat, write: Write)
    requires StoreOk(s) && OwnJournal(s, p, w, t) && p !in s.commits
    ensures var s' := WriteJournal(s, t, Journal(p, w, Committing), write);
      StoreOk(s') && Within(s, s', {w}) && OwnJournal(s', p, w, t)
  {
    var s' := WriteJournal(s, t, Journal(p, w, Committing), write);
    if Lands(write) {
      RewrittenJournals(s, s', t, Journal(p, w, Committing));
      RewrittenWithin(s, s', t, Journal(p, w, Committing));
      CommitAppended(s, s', t, p);
    }
  }

  lemma CommitAppended(s: State, s': State, t: nat, p: nat)
    requires CommitsOk(s) && s'.homes == s.homes && s'.previews == s.previews && p in s.homes
    requires s'.commits == s.commits + [p] && t in s'.journals && s'.journals[t].preview == p
    requires forall u :: u in s.journals ==> u in s'.journals && s'.journals[u].preview == s.journals[u].preview
    ensures CommitsOk(s')
  {
    forall q | q in s'.commits && q in s'.previews ensures JournalNames(s', q) {
      if q in s.commits {
        NamesStay(s, s', q);
      }
    }
  }

  lemma JournalRemoved(s: State, t: nat, p: nat, w: nat, write: Write)
    requires StoreOk(s) && (p !in s.previews || p !in s.commits)
    requires t in s.journals ==> s.journals[t].preview == p && s.journals[t].workspace == w
    ensures StoreOk(RemoveJournal(s, t, write)) && Within(s, RemoveJournal(s, t, write), {w})
  {
    var s' := RemoveJournal(s, t, write);
    forall q | q in s'.commits ensures q in s'.homes && (q in s'.previews ==> JournalNames(s', q)) {
      if q in s'.previews {
        var u :| u in s.journals && s.journals[u].preview == q;
        assert u in s'.journals && s'.journals[u].preview == q;
      }
    }
  }

  lemma Begins(s: State, id: nat, ticket: Ticket)
    requires Invariant(s) && ProcessOf(s, id) == Applying(ticket)
    ensures Knows(s, Applying(ticket))
    ensures ticket.preview in s.homes && s.homes[ticket.preview] == ticket.workspace
  {
    assert id in s.processes;
  }

  lemma NothingMoves(s: State, ws: set<nat>)
    ensures Within(s, s, ws)
  {
  }

  /** From the lock to the first journal. */
  lemma ReservingKeeps(s: State, id: nat, ticket: Ticket, write: Write, refused: bool, stuck: bool, drawn: nat)
    requires Invariant(s) && ProcessOf(s, id) == Applying(ticket)
    requires ticket.stage in {Waiting, Locked, Reserving, Reserved, Releasing}
    ensures Invariant(ApplyStep(s, id, ticket, write, refused, stuck, drawn))
  {
    if ticket.stage.Waiting? || ticket.stage.Locked? {
      LockingKeeps(s, id, ticket, write, refused, stuck, drawn);
    } else if ticket.stage.Reserved? {
      ReservedKeeps(s, id, ticket, write, refused, stuck, drawn);
    } else {
      ReservationKeeps(s, id, ticket, write, refused, stuck, drawn);
    }
  }

  lemma LockingKeeps(s: State, id: nat, ticket: Ticket, write: Write, refused: bool, stuck: bool, drawn: nat)
    requires Invariant(s) && ProcessOf(s, id) == Applying(ticket) && (ticket.stage.Waiting? || ticket.stage.Locked?)
    ensures Invariant(ApplyStep(s, id, ticket, write, refused, stuck, drawn))
  {
    var p, w := ticket.preview, ticket.workspace;
    Begins(s, id, ticket);
    NothingMoves(s, Holds(ProcessOf(s, id)));
    if ticket.stage.Waiting? {
      if refused { Entered(s, s, id, Idle); } else { Acquired(s, id, w, Applying(ticket.(stage := Locked))); }
    } else if refused || p !in s.previews || s.previews[p].reserved {
      Returned(s, s, id, Idle);
    } else {
      Entered(s, s, id, Applying(ticket.(stage := Reserving)));
    }
  }

  lemma ReservedKeeps(s: State, id: nat, ticket: Ticket, write: Write, refused: bool, stuck: bool, drawn: nat)
    requires Invariant(s) && ProcessOf(s, id) == Applying(ticket) && ticket.stage.Reserved?
    ensures Invariant(ApplyStep(s, id, ticket, write, refused, stuck, drawn))
  {
    Begins(s, id, ticket);
    NothingMoves(s, Holds(ProcessOf(s, id)));
    if refused || AnyJournal(s, ticket.workspace) {
      Entered(s, s, id, Applying(ticket.(stage := Releasing)));
    } else {
      assert !JournalNames(s, ticket.preview);
      Entered(s, s, id, Applying(ticket.(stage := Cleared)));
    }
  }

  lemma ReservationKeeps(s: State, id: nat, ticket: Ticket, write: Write, refused: bool, stuck: bool, drawn: nat)
    requires Invariant(s) && ProcessOf(s, id) == Applying(ticket)
    requires (ticket.stage.Reserving? || ticket.stage.Releasing?)
    ensures Invariant(ApplyStep(s, id, ticket, write, refused, stuck, drawn))
  {
    var p, w := ticket.preview, ticket.workspace;
    Begins(s, id, ticket);
    PreviewWritten(s, p, w, ticket.stage.Reserving?, write);
    var s' := WritePreview(s, p, Preview(w, ticket.stage.Reserving?), write);
    if ticket.stage.Reserving? {
      Entered(s, s', id,
        Applying(
          ticket.(stage := if write.Works? then Reserved else Releasing, clean := ticket.clean && write.Works?)));
    } else {
      Returned(s, s', id, Idle);
    }
  }

  /** From the first journal to the commit. */
  lemma JournalingKeeps(s: State, id: nat, ticket: Ticket, write: Write, refused: bool, stuck: bool, drawn: nat)
    requires Invariant(s) && ProcessOf(s, id) == Applying(ticket)
    requires ticket.stage in {Cleared, ReadingBack, Journaled, Dropping}
    ensures Invariant(ApplyStep(s, id, ticket, write, refused, stuck, drawn))
  {
    var p, w, t := ticket.preview, ticket.workspace, ticket.transaction;
    Begins(s, id, ticket);
    NothingMoves(s, Holds(ProcessOf(s, id)));
    match ticket.stage
    case Cleared => ClearedKeeps(s, id, ticket, write, refused, stuck, drawn);
    case ReadingBack =>
      if refused || t in s.journals {
        Returned(s, s, id, Idle);
      } else {
        Entered(s, s, id, Applying(ticket.(stage := Releasing)));
      }
    case Journaled => StagedKeeps(s, id, ticket, write, refused, stuck, drawn);
    case Dropping =>
      JournalRemoved(s, t, p, w, write);
      Entered(
        s, RemoveJournal(s, t, write), id,
        Applying(ticket.(stage := Releasing, clean := ticket.clean && write.Works?)));
  }

  lemma ClearedKeeps(
      s: State, id: nat, ticket: Ticket, write: Write, refused: bool, stuck: bool, drawn: nat)
    requires Invariant(s) && ProcessOf(s, id) == Applying(ticket) && ticket.stage == Cleared
    ensures Invariant(ApplyStep(s, id, ticket, write, refused, stuck, drawn))
  {
    var p, w := ticket.preview, ticket.workspace;
    Begins(s, id, ticket);
    if drawn !in s.transactions {
      JournalAdded(s, drawn, p, w, write);
      var drawing := s.(transactions := s.transactions[drawn := w]);
      var s' := WriteJournal(drawing, drawn, Journal(p, w, Phase.Staged), write);
      var stage := if write.Works? then Journaled else ReadingBack;
      var clean := ticket.clean && write.Works?;
      Entered(s, s', id, Applying(ticket.(transaction := drawn, stage := stage, clean := clean)));
    }
  }

  lemma StagedKeeps(s: State, id: nat, ticket: Ticket, write: Write, refused: bool, stuck: bool, drawn: nat)
    requires Invariant(s) && ProcessOf(s, id) == Applying(ticket) && ticket.stage == Journaled
    ensures Invariant(ApplyStep(s, id, ticket, write, refused, stuck, drawn))
  {
    var p, w, t := ticket.preview, ticket.workspace, ticket.transaction;
    Begins(s, id, ticket);
    NothingMoves(s, Holds(ProcessOf(s, id)));
    if !refused {
      CommittingKeeps(s, id, ticket, write, stuck, drawn);
    } else if stuck {
      JournalRewritten(s, t, p, w, RecoveryRequired, write);
      Returned(s, WriteJournal(s, t, Journal(p, w, RecoveryRequired), write), id, Idle);
    } else {
      Entered(s, s, id, Applying(ticket.(stage := Dropping)));
    }
  }

  /** After a write, the process goes on if it worked and returns otherwise. */
  lemma GoneOnOrReturned(s: State, s1: State, id: nat, ticket: Ticket, stage: Stage, works: bool)
    requires Invariant(s) && StoreOk(s1) && Within(s, s1, Holds(ProcessOf(s, id)))
    requires ProcessOf(s, id) == Applying(ticket) && !ticket.stage.Waiting? && !stage.Waiting?
    requires Knows(s1, Applying(ticket.(stage := stage)))
    ensures Invariant(if works then Enter(s1, id, Applying(ticket.(stage := stage))) else Return(s1, id))
  {
    if works {
      Entered(s, s1, id, Applying(ticket.(stage := stage)));
    } else {
      Returned(s, s1, id, Idle);
    }
  }

  lemma CommittingKeeps(s: State, id: nat, ticket: Ticket, write: Write, stuck: bool, drawn: nat)
    requires Invariant(s) && ProcessOf(s, id) == Applying(ticket) && ticket.stage == Journaled
    ensures Invariant(ApplyStep(s, id, ticket, write, false, stuck, drawn))
  {
    var p, w, t := ticket.preview, ticket.workspace, ticket.transaction;
    Begins(s, id, ticket);
    CommitWritten(s, t, p, w, write);
    GoneOnOrReturned(s, WriteJournal(s, t, Journal(p, w, Committing), write), id, ticket, Running, write.Works?);
  }

  /** From the commit to the end. */
  lemma FinishingKeeps(s: State, id: nat, ticket: Ticket, write: Write, refused: bool, stuck: bool, drawn: nat)
    requires Invariant(s) && ProcessOf(s, id) == Applying(ticket)
    requires ticket.stage in {Running, Sealed, Receipted, Cleaning, Retired}
    ensures Invariant(ApplyStep(s, id, ticket, write, refused, stuck, drawn))
  {
    var p, w, t := ticket.preview, ticket.workspace, ticket.transaction;
    Begins(s, id, ticket);
    NothingMoves(s, Holds(ProcessOf(s, id)));
    match ticket.stage
    case Running => CommittedKeeps(s, id, ticket, write, refused, stuck, drawn);
    case Sealed =>
      ReceiptWritten(s, p, w, write);
      GoneOnOrReturned(s, WriteReceipt(s, p, write), id, ticket, Receipted, write.Works?);
    case Receipted => RemovingKeeps(s, id, ticket, write, refused, stuck, drawn);
    case Cleaning => RemovingKeeps(s, id, ticket, write, refused, stuck, drawn);
    case Retired =>
      JournalRemoved(s, t, p, w, write);
      Returned(s, RemoveJournal(s, t, write), id, Idle);
  }

  lemma CommittedKeeps(s: State, id: nat, ticket: Ticket, write: Write, refused: bool, stuck: bool, drawn: nat)
    requires Invariant(s) && ProcessOf(s, id) == Applying(ticket) && ticket.stage == Running
    ensures Invariant(ApplyStep(s, id, ticket, write, refused, stuck, drawn))
  {
    var p, w, t := ticket.preview, ticket.workspace, ticket.transaction;
    Begins(s, id, ticket);
    var phase := if refused then RecoveryRequired else CleanupPending;
    var known := if refused then s else s.(unfinished := s.unfinished - {t});
    SealWritten(s, known, t, p, w, phase, write);
    GoneOnOrReturned(s, WriteJournal(known, t, Journal(p, w, phase), write), id, ticket, Sealed, write.Works?);
  }

  lemma SealWritten(s: State, known: State, t: nat, p: nat, w: nat, phase: Phase, write: Write)
    requires StoreOk(s) && OwnJournal(s, p, w, t) && !phase.Committing?
    requires known == s.(unfinished := known.unfinished)
    ensures
      var s1 := WriteJournal(known, t, Journal(p, w, phase), write);
      StoreOk(s1) && Within(s, s1, {w}) && OwnJournal(s1, p, w, t)
  {
    LedgerAside(s, known, {w});
    JournalRewritten(known, t, p, w, phase, write);
  }

  /** What is remembered of transactions matters to nobody's step. */
  lemma LedgerAside(s: State, s': State, ws: set<nat>)
    requires s' == s.(unfinished := s'.unfinished, recovered := s'.recovered)
    ensures StoreOk(s) ==> StoreOk(s') && Within(s, s', ws)
  {
    if StoreOk(s) {
      CommitsStay(s, s');
    }
  }

  lemma RemovingKeeps(s: State, id: nat, ticket: Ticket, write: Write, refused: bool, stuck: bool, drawn: nat)
    requires Invariant(s) && ProcessOf(s, id) == Applying(ticket)
    requires ticket.stage in {Receipted, Cleaning}
    ensures Invariant(ApplyStep(s, id, ticket, write, refused, stuck, drawn))
  {
    var p := ticket.preview;
    Begins(s, id, ticket);
    NothingMoves(s, Holds(ProcessOf(s, id)));
    PreviewRemoved(s, p, write);
    var s1 := RemovePreview(s, p, write);
    if ticket.stage.Receipted? {
      if !write.Works? && refused {
        Returned(s, s1, id, Idle);
      } else {
        Entered(s, s1, id, Applying(ticket.(stage := Cleaning, clean := ticket.clean && write.Works?)));
      }
    } else if stuck || ticket.transaction !in s.journals || s.journals[ticket.transaction].phase.RecoveryRequired? {
      Returned(s, s, id, Idle);
    } else if write.Works? {
      Entered(s, s1, id, Applying(ticket.(stage := Retired)));
    } else {
      Returned(s, s1, id, Idle);
    }
  }

  lemma OtherKeeps(s: State, id: nat, process: Process, write: Write, refused: bool, stuck: bool)
    requires Invariant(s) && ProcessOf(s, id) == process && !process.Applying?
    ensures Invariant(OtherStep(s, id, process, write, refused, stuck))
  {
    if id in s.processes {
      NothingMoves(s, Holds(process));
      match process
      case DiscardWaiting(p, w) => Acquired(s, id, w, DiscardHolding(p, w));
      case DiscardHolding(p, _) => Returned(s, s, id, if JournalNames(s, p) then Idle else Unlinking(p));
      case Unlinking(p) =>
        PreviewRemoved(s, p, write);
        Returned(s, RemovePreview(s, p, write), id, Idle);
      case RecoverWaiting(t, w, rollback) => Acquired(s, id, w, RecoverHolding(t, w, rollback));
      case RecoverHolding(t, w, rollback) => RecoverKeeps(s, id, process, write, refused, stuck);
      case RecoverReceipted(t, w, p) => RecoverKeeps(s, id, process, write, refused, stuck);
      case RecoverRetired(t, w, p) => RecoverKeeps(s, id, process, write, refused, stuck);
      case ReconcileHolding(t, w) => ReconcileKeeps(s, id, t, w, write, refused, stuck);
      case _ =>
    }
  }

  lemma RecoverKeeps(s: State, id: nat, process: Process, write: Write, refused: bool, stuck: bool)
    requires Invariant(s) && ProcessOf(s, id) == process && id in s.processes
    requires process.RecoverHolding? || process.RecoverReceipted? || process.RecoverRetired?
    ensures Invariant(OtherStep(s, id, process, write, refused, stuck))
  {
    NothingMoves(s, Holds(process));
    match process
    case RecoverHolding(t, w, rollback) =>
      if t !in s.journals || (s.journals[t].phase.CleanupPending? && rollback) || refused || !write.Works? {
        Returned(s, s, id, Idle);
      } else {
        LedgerAside(s, s.(recovered := s.recovered + {t}), Holds(process));
        Entered(s, s.(recovered := s.recovered + {t}), id, RecoverReceipted(t, w, s.journals[t].preview));
      }
    case RecoverReceipted(_, _, _) => ReceiptedKeeps(s, id, process, write, refused, stuck);
    case RecoverRetired(_, _, _) => RetiredKeeps(s, id, process, write, refused, stuck);
  }

  lemma ReceiptedKeeps(s: State, id: nat, process: Process, write: Write, refused: bool, stuck: bool)
    requires Invariant(s) && ProcessOf(s, id) == process && id in s.processes && process.RecoverReceipted?
    ensures Invariant(OtherStep(s, id, process, write, refused, stuck))
  {
    var p := process.preview;
    PreviewRemoved(s, p, write);
    if write.Works? {
      Entered(s, RemovePreview(s, p, Works), id, RecoverRetired(process.transaction, process.workspace, p));
    } else {
      Returned(s, RemovePreview(s, p, write), id, Idle);
    }
  }

  lemma RetiredKeeps(s: State, id: nat, process: Process, write: Write, refused: bool, stuck: bool)
    requires Invariant(s) && ProcessOf(s, id) == process && id in s.processes && process.RecoverRetired?
    ensures Invariant(OtherStep(s, id, process, write, refused, stuck))
  {
    NothingMoves(s, Holds(process));
    JournalRemoved(s, process.transaction, process.preview, process.workspace, write);
    Returned(s, if stuck then s else RemoveJournal(s, process.transaction, write), id, Idle);
  }

  lemma ReconcileKeeps(s: State, id: nat, t: nat, w: nat, write: Write, refused: bool, stuck: bool)
    requires Invariant(s) && ProcessOf(s, id) == ReconcileHolding(t, w) && id in s.processes
    ensures Invariant(OtherStep(s, id, ReconcileHolding(t, w), write, refused, stuck))
  {
    NothingMoves(s, Holds(ProcessOf(s, id)));
    if t !in s.journals || (!s.journals[t].phase.Staged? && !s.journals[t].phase.Committing?) {
      Returned(s, s, id, Idle);
    } else {
      JournalRewritten(s, t, s.journals[t].preview, w, RecoveryRequired, write);
      Returned(s, if s.journals[t].phase.Committing? || refused
                  then WriteJournal(s, t, s.journals[t].(phase := RecoveryRequired), write) else s, id, Idle);
    }
  }

  /** Every step of every process keeps the invariant. */
  lemma StepKeeps(s: State, e: Event)
    requires Invariant(s)
    ensures Invariant(Next(s, e))
  {
    match e
    case CreatePreview(p, w) =>
      if p !in s.homes {
        CreationKeeps(s, p, w);
      }
    case PruneReceipt(p) => PruningKeeps(s, p);
    case Crash(id) =>
      if id in s.processes {
        NothingMoves(s, Holds(ProcessOf(s, id)));
        Returned(s, s, id, Idle);
      }
    case Continue(id, write, refused, stuck, drawn) =>
      var process := ProcessOf(s, id);
      match process {
        case Applying(ticket) =>
          if ticket.stage in {Waiting, Locked, Reserving, Reserved, Releasing} {
            ReservingKeeps(s, id, ticket, write, refused, stuck, drawn);
          } else if ticket.stage in {Cleared, ReadingBack, Journaled, Dropping} {
            JournalingKeeps(s, id, ticket, write, refused, stuck, drawn);
          } else {
            FinishingKeeps(s, id, ticket, write, refused, stuck, drawn);
          }
        case _ => OtherKeeps(s, id, process, write, refused, stuck);
      }
    case _ => StartKeeps(s, e);
  }

  lemma CreationKeeps(s: State, p: nat, w: nat)
    requires Invariant(s) && p !in s.homes
    ensures Invariant(Next(s, Event.CreatePreview(p, w)))
  {
    var s' := s.(previews := s.previews[p := Preview(w, false)], homes := s.homes[p := w]);
    CreationStored(s, s', p, w);
    CreationKnown(s, s');
    SameLocks(s, s');
  }

  lemma SameLocks(s: State, s': State)
    requires LocksOk(s) && s'.locks == s.locks && s'.processes == s.processes
    ensures LocksOk(s')
  {
    assert forall i :: ProcessOf(s', i) == ProcessOf(s, i);
  }

  lemma CreationKnown(s: State, s': State)
    requires Invariant(s) && StoreOk(s') && Within(s, s', {})
    ensures forall id :: id in s'.processes ==> Knows(s', s'.processes[id])
  {
    forall id | id in s'.processes ensures Knows(s', s'.processes[id]) {
      KnowsFrame(s, s', {}, s.processes[id]);
    }
  }

  lemma CreationStored(s: State, s': State, p: nat, w: nat)
    requires StoreOk(s) && p !in s.homes
    requires s' == s.(previews := s.previews[p := Preview(w, false)], homes := s.homes[p := w])
    ensures StoreOk(s') && Within(s, s', {})
  {
    assert p !in s.previews && p !in s.commits && p !in s.receipts;
    CommitsStay(s, s');
  }

  lemma PruningKeeps(s: State, p: nat)
    requires Invariant(s)
    ensures Invariant(Next(s, PruneReceipt(p)))
  {
    var s' := s.(receipts := s.receipts - {p});
    CommitsStay(s, s');
    forall id | id in s'.processes ensures Knows(s', s'.processes[id]) {
      PruningKnows(s, p, s.processes[id]);
    }
    assert forall i :: ProcessOf(s', i) == ProcessOf(s, i);
  }

  lemma PruningKnows(s: State, p: nat, process: Process)
    requires Knows(s, process)
    ensures Knows(s.(receipts := s.receipts - {p}), process)
  {
  }

  lemma StartKeeps(s: State, e: Event)
    requires Invariant(s) && (e.StartApply? || e.StartDiscard? || e.StartPrune? || e.StartRecover? || e.StartReconcile?)
    ensures Invariant(Next(s, e))
  {
    NothingMoves(s, {});
    if ProcessOf(s, e.process).Idle? {
      match e
      case StartApply(id, p) =>
        if p in s.previews { Entered(s, s, id, Applying(Ticket(Waiting, p, s.previews[p].workspace, 0, true))); }
      case StartDiscard(id, p) =>
        if p in s.previews {
          Entered(
            s, s, id, if s.previews[p].reserved then DiscardWaiting(p, s.previews[p].workspace) else Unlinking(p));
        }
      case StartPrune(id, p) =>
        if p in s.previews && !s.previews[p].reserved { Entered(s, s, id, Unlinking(p)); }
      case StartRecover(id, t, rollback) =>
        if t in s.journals { Entered(s, s, id, RecoverWaiting(t, s.journals[t].workspace, rollback)); }
      case StartReconcile(id, t) =>
        if t in s.journals { Acquired(s, id, s.journals[t].workspace, ReconcileHolding(t, s.journals[t].workspace)); }
    }
  }

  lemma {:induction false} RunKeeps(s: State, events: seq<Event>)
    requires Invariant(s)
    ensures Invariant(Run(s, events))
    decreases |events|
  {
    if events != [] {
      StepKeeps(s, events[0]);
      RunKeeps(Next(s, events[0]), events[1..]);
    }
  }

  function Count(commits: seq<nat>, p: nat): nat {
    if commits == [] then 0 else (if commits[0] == p then 1 else 0) + Count(commits[1..], p)
  }

  lemma {:induction false} DistinctCount(commits: seq<nat>, p: nat)
    requires forall i, j :: 0 <= i < j < |commits| ==> commits[i] != commits[j]
    ensures Count(commits, p) <= 1
    ensures p !in commits ==> Count(commits, p) == 0
  {
    if commits != [] {
      DistinctCount(commits[1..], p);
      assert commits[0] !in commits[1..];
    }
  }

  /** Over every run, whatever fails or crashes: no Preview is committed twice, no Workspace
      has two journals, and no two processes run a commit on one Workspace. */
  lemma AtMostOnce(events: seq<Event>, p: nat)
    ensures var s := Run(START, events);
      && Count(s.commits, p) <= 1
      && (forall t, u :: t in s.journals && u in s.journals && s.journals[t].workspace == s.journals[u].workspace ==>
           t == u)
      && (forall i, j, w :: w in Holds(ProcessOf(s, i)) && w in Holds(ProcessOf(s, j)) ==> i == j)
  {
    RunKeeps(START, events);
    var s := Run(START, events);
    DistinctCount(s.commits, p);
    forall i, j, w | w in Holds(ProcessOf(s, i)) && w in Holds(ProcessOf(s, j)) ensures i == j {
      assert s.locks[w] == i && s.locks[w] == j;
    }
  }

  /** Over every run, a Preview that shares its identifier with a Receipt is reserved. */
  lemma ReceiptsKeepReservations(events: seq<Event>, p: nat)
    ensures var s := Run(START, events);
      p in s.receipts && p in s.previews ==> s.previews[p].reserved
  {
    RunKeeps(START, events);
  }

  /** Unreserved, gone, or named by a journal. */
  predicate Settled(s: State, p: nat) {
    p !in s.previews || !s.previews[p].reserved || JournalNames(s, p)
  }

  /** The process is past the check that the Preview is free, and has not returned. */
  predicate Attends(process: Process, p: nat) {
    process.Applying? && process.ticket.preview == p && !process.ticket.stage.Waiting? && !process.ticket.stage.Locked?
  }

  lemma ReservedIsSettled(s: State, id: nat, ticket: Ticket, write: Write, refused: bool, stuck: bool, drawn: nat)
    requires Invariant(s) && ProcessOf(s, id) == Applying(ticket)
    requires Attends(Applying(ticket), ticket.preview) && ticket.clean && write.Works?
    requires ProcessOf(ApplyStep(s, id, ticket, write, refused, stuck, drawn), id).Idle?
    ensures Settled(ApplyStep(s, id, ticket, write, refused, stuck, drawn), ticket.preview)
  {
    Begins(s, id, ticket);
    var s', t := ApplyStep(s, id, ticket, write, refused, stuck, drawn), ticket.transaction;
    if ticket.stage in {Journaled, Running, Sealed, Receipted, Cleaning} {
      assert t in s'.journals && s'.journals[t].preview == ticket.preview;
    }
  }

  /** An Application whose writes all worked leaves its Preview settled when it returns,
      exactly if it had begun to reserve it or found it settled. */
  lemma ReturnIsSettled(s: State, id: nat, ticket: Ticket, write: Write, refused: bool, stuck: bool, drawn: nat)
    requires Invariant(s) && ProcessOf(s, id) == Applying(ticket) && ticket.clean && write.Works?
    requires ProcessOf(ApplyStep(s, id, ticket, write, refused, stuck, drawn), id).Idle?
    ensures Settled(ApplyStep(s, id, ticket, write, refused, stuck, drawn), ticket.preview) <==>
      (!ticket.stage.Waiting? && !ticket.stage.Locked?) || Settled(s, ticket.preview)
  {
    if Attends(Applying(ticket), ticket.preview) {
      ReservedIsSettled(s, id, ticket, write, refused, stuck, drawn);
    } else {
      var s' := ApplyStep(s, id, ticket, write, refused, stuck, drawn);
      assert s'.previews == s.previews && s'.journals == s.journals;
    }
  }

  // Runs in which nothing crashes and every write works

  predicate Calm(e: Event) {
    !e.Crash? && (e.Continue? ==> e.write.Works?)
  }

  ghost predicate AllClean(s: State) {
    forall id :: ProcessOf(s, id).Applying? ==> ProcessOf(s, id).ticket.clean
  }

  /** Every unsettled Preview is in the hands of an Application. */
  ghost predicate Attended(s: State) {
    forall p {:trigger Settled(s, p)} :: !Settled(s, p) ==> exists id :: Attends(ProcessOf(s, id), p)
  }

  /** Journals that name a Preview still do, and the Preview is as it was, if it is there. */
  ghost predicate Spares(s: State, s': State, p: nat) {
    && (p in s'.previews ==> p in s.previews && s'.previews[p] == s.previews[p])
    && (forall t :: t in s.journals && s.journals[t].preview == p ==> t in s'.journals && s'.journals[t].preview == p)
  }

  lemma SparedSettled(s: State, s': State, p: nat)
    requires Spares(s, s', p) && Settled(s, p)
    ensures Settled(s', p)
  {
    if JournalNames(s, p) {
      var t :| t in s.journals && s.journals[t].preview == p;
      assert t in s'.journals && s'.journals[t].preview == p;
    }
  }

  predicate ElsewhereSame(s: State, s': State, id: nat) {
    s'.processes - {id} == s.processes - {id}
  }

  lemma ElsewhereGoOn(s: State, s': State, id: nat, other: nat)
    requires ElsewhereSame(s, s', id) && other != id
    ensures ProcessOf(s', other) == ProcessOf(s, other)
  {
    assert other in s.processes <==> other in (s.processes - {id});
    assert other in s'.processes <==> other in (s'.processes - {id});
    assert other in s.processes ==> (s.processes - {id})[other] == s.processes[other];
    assert other in s'.processes ==> (s'.processes - {id})[other] == s'.processes[other];
  }

  /** The Application returns or goes on with the same Preview; nothing else changes hands. */
  ghost predicate OwnStep(s: State, s': State, id: nat, ticket: Ticket) {
    && ElsewhereSame(s, s', id)
    && var after := ProcessOf(s', id);
       after.Idle?
       || (after.Applying? && after.ticket.preview == ticket.preview && after.ticket.clean == ticket.clean
           && (Attends(after, ticket.preview)
               || (ticket.stage.Waiting? && s'.previews == s.previews && s'.journals == s.journals)))
  }

  lemma ReservingIsOwn(s: State, id: nat, ticket: Ticket, refused: bool, stuck: bool, drawn: nat)
    requires ProcessOf(s, id) == Applying(ticket) && ticket.stage in {Waiting, Locked, Reserving, Reserved, Releasing}
    ensures OwnStep(s, ApplyStep(s, id, ticket, Works, refused, stuck, drawn), id, ticket)
  {
  }

  lemma JournalingIsOwn(s: State, id: nat, ticket: Ticket, refused: bool, stuck: bool, drawn: nat)
    requires ProcessOf(s, id) == Applying(ticket) && ticket.stage in {Cleared, ReadingBack, Journaled, Dropping}
    ensures OwnStep(s, ApplyStep(s, id, ticket, Works, refused, stuck, drawn), id, ticket)
  {
  }

  lemma FinishingIsOwn(s: State, id: nat, ticket: Ticket, refused: bool, stuck: bool, drawn: nat)
    requires ProcessOf(s, id) == Applying(ticket) && ticket.stage in {Running, Sealed, Receipted, Cleaning, Retired}
    ensures OwnStep(s, ApplyStep(s, id, ticket, Works, refused, stuck, drawn), id, ticket)
  {
  }

  lemma ReservingSpares(s: State, id: nat, ticket: Ticket, refused: bool, stuck: bool, drawn: nat, p: nat)
    requires p != ticket.preview && ticket.stage in {Waiting, Locked, Reserving, Reserved, Releasing}
    ensures Spares(s, ApplyStep(s, id, ticket, Works, refused, stuck, drawn), p)
  {
  }

  lemma JournalingSpares(s: State, id: nat, ticket: Ticket, refused: bool, stuck: bool, drawn: nat, p: nat)
    requires StoreOk(s) && Knows(s, Applying(ticket)) && p != ticket.preview
    requires ticket.stage in {Cleared, ReadingBack, Journaled, Dropping}
    ensures Spares(s, ApplyStep(s, id, ticket, Works, refused, stuck, drawn), p)
  {
    if ticket.stage == Cleared {
      ClearedSpares(s, id, ticket, refused, stuck, drawn, p);
    }
  }

  lemma ClearedSpares(s: State, id: nat, ticket: Ticket, refused: bool, stuck: bool, drawn: nat, p: nat)
    requires StoreOk(s) && p != ticket.preview && ticket.stage == Cleared
    ensures Spares(s, ApplyStep(s, id, ticket, Works, refused, stuck, drawn), p)
  {
    assert drawn in s.journals ==> drawn in s.transactions;
  }

  lemma FinishingSpares(s: State, id: nat, ticket: Ticket, refused: bool, stuck: bool, drawn: nat, p: nat)
    requires Knows(s, Applying(ticket)) && p != ticket.preview
    requires ticket.stage in {Running, Sealed, Receipted, Cleaning, Retired}
    ensures Spares(s, ApplyStep(s, id, ticket, Works, refused, stuck, drawn), p)
  {
  }

  lemma ApplyIsOwn(s: State, id: nat, ticket: Ticket, refused: bool, stuck: bool, drawn: nat, p: nat)
    requires Invariant(s) && ProcessOf(s, id) == Applying(ticket)
    ensures OwnStep(s, ApplyStep(s, id, ticket, Works, refused, stuck, drawn), id, ticket)
    ensures p != ticket.preview ==> Spares(s, ApplyStep(s, id, ticket, Works, refused, stuck, drawn), p)
  {
    Begins(s, id, ticket);
    if ticket.stage in {Waiting, Locked, Reserving, Reserved, Releasing} {
      ReservingIsOwn(s, id, ticket, refused, stuck, drawn);
      if p != ticket.preview { ReservingSpares(s, id, ticket, refused, stuck, drawn, p); }
    } else if ticket.stage in {Cleared, ReadingBack, Journaled, Dropping} {
      JournalingIsOwn(s, id, ticket, refused, stuck, drawn);
      if p != ticket.preview { JournalingSpares(s, id, ticket, refused, stuck, drawn, p); }
    } else {
      FinishingIsOwn(s, id, ticket, refused, stuck, drawn);
      if p != ticket.preview { FinishingSpares(s, id, ticket, refused, stuck, drawn, p); }
    }
  }

  /** A step of an Application unsettles its own Preview at most, and does not return with
      it unsettled. */
  lemma ApplyAttends(s: State, id: nat, ticket: Ticket, refused: bool, stuck: bool, drawn: nat, p: nat)
    requires Invariant(s) && ProcessOf(s, id) == Applying(ticket) && ticket.clean
    requires Attends(Applying(ticket), p) || Settled(s, p)
    ensures
      var s' := ApplyStep(s, id, ticket, Works, refused, stuck, drawn);
      Settled(s', p) || Attends(ProcessOf(s', id), p)
  {
    var s' := ApplyStep(s, id, ticket, Works, refused, stuck, drawn);
    ApplyIsOwn(s, id, ticket, refused, stuck, drawn, p);
    if p != ticket.preview {
      SparedSettled(s, s', p);
    } else if ProcessOf(s', id).Idle? {
      ReturnIsSettled(s, id, ticket, Works, refused, stuck, drawn);
    }
  }

  lemma OtherElsewhere(s: State, id: nat, process: Process, refused: bool, stuck: bool)
    requires ProcessOf(s, id) == process && !process.Applying?
    ensures ElsewhereSame(s, OtherStep(s, id, process, Works, refused, stuck), id)
    ensures !ProcessOf(OtherStep(s, id, process, Works, refused, stuck), id).Applying?
  {
  }

  /** No other step unsettles a Preview. */
  lemma OthersSpare(s: State, id: nat, process: Process, refused: bool, stuck: bool, p: nat)
    requires Invariant(s) && ProcessOf(s, id) == process && !process.Applying? && Settled(s, p)
    ensures Settled(OtherStep(s, id, process, Works, refused, stuck), p)
  {
    assert id !in s.processes ==> process.Idle?;
    OtherSpares(s, id, process, refused, stuck, p);
    if !process.RecoverRetired? || process.preview != p {
      SparedSettled(s, OtherStep(s, id, process, Works, refused, stuck), p);
    }
  }

  lemma OtherSpares(s: State, id: nat, process: Process, refused: bool, stuck: bool, p: nat)
    requires Knows(s, process) && ProcessOf(s, id) == process && !process.Applying?
    ensures
      var s' := OtherStep(s, id, process, Works, refused, stuck);
      if process.RecoverRetired? && process.preview == p then p !in s'.previews else Spares(s, s', p)
  {
    if process.RecoverRetired? || process.ReconcileHolding? {
      JournalKeeperSpares(s, id, process, refused, stuck, p);
    }
  }

  lemma JournalKeeperSpares(s: State, id: nat, process: Process, refused: bool, stuck: bool, p: nat)
    requires Knows(s, process) && (process.RecoverRetired? || process.ReconcileHolding?)
    ensures
      var s' := OtherStep(s, id, process, Works, refused, stuck);
      if process.RecoverRetired? && process.preview == p then p !in s'.previews else Spares(s, s', p)
  {
    if process.ReconcileHolding? {
      ReconcileSpares(s, id, process, refused, stuck, p);
    }
  }

  lemma ReconcileSpares(s: State, id: nat, process: Process, refused: bool, stuck: bool, p: nat)
    requires process.ReconcileHolding?
    ensures Spares(s, OtherStep(s, id, process, Works, refused, stuck), p)
  {
  }

  lemma StartElsewhere(s: State, e: Event, id: nat)
    requires !e.Crash? && !e.Continue?
    ensures !ProcessOf(s, id).Idle? ==> ProcessOf(Next(s, e), id) == ProcessOf(s, id)
    ensures ProcessOf(s, id).Idle? && ProcessOf(Next(s, e), id).Applying? ==> ProcessOf(Next(s, e), id).ticket.clean
  {
  }

  /** In a calm step, everyone else goes on as before. */
  lemma OthersGoOn(s: State, e: Event, id: nat)
    requires Invariant(s) && Calm(e) && !(e.Continue? && e.process == id) && !ProcessOf(s, id).Idle?
    ensures ProcessOf(Next(s, e), id) == ProcessOf(s, id)
  {
    if e.Continue? {
      StepElsewhere(s, e);
      ElsewhereGoOn(s, Next(s, e), e.process, id);
    } else {
      StartElsewhere(s, e, id);
    }
  }

  lemma StepElsewhere(s: State, e: Event)
    requires Invariant(s) && e.Continue? && e.write.Works?
    ensures ElsewhereSame(s, Next(s, e), e.process)
  {
    if ProcessOf(s, e.process).Applying? {
      ApplyIsOwn(s, e.process, ProcessOf(s, e.process).ticket, e.refused, e.stuck, e.drawn, 0);
    } else {
      OtherElsewhere(s, e.process, ProcessOf(s, e.process), e.refused, e.stuck);
    }
  }

  lemma CleanStays(s: State, e: Event)
    requires Invariant(s) && AllClean(s) && Calm(e)
    ensures AllClean(Next(s, e))
  {
    forall id | ProcessOf(Next(s, e), id).Applying? ensures ProcessOf(Next(s, e), id).ticket.clean {
      CleanOne(s, e, id);
    }
  }

  lemma CleanOne(s: State, e: Event, id: nat)
    requires Invariant(s) && Calm(e) && (ProcessOf(s, id).Applying? ==> ProcessOf(s, id).ticket.clean)
    ensures ProcessOf(Next(s, e), id).Applying? ==> ProcessOf(Next(s, e), id).ticket.clean
  {
    if e.Continue? && e.process == id {
      if ProcessOf(s, id).Applying? {
        ApplyIsOwn(s, id, ProcessOf(s, id).ticket, e.refused, e.stuck, e.drawn, 0);
      } else {
        OtherElsewhere(s, id, ProcessOf(s, id), e.refused, e.stuck);
      }
    } else if e.Continue? {
      StepElsewhere(s, e);
      ElsewhereGoOn(s, Next(s, e), e.process, id);
    } else {
      StartElsewhere(s, e, id);
    }
  }

  /** Who attends to a Preview before a step. */
  lemma StepAttends(s: State, e: Event, p: nat)
    requires Invariant(s) && AllClean(s) && Attended(s) && Calm(e) && !Settled(Next(s, e), p)
    ensures exists id :: Attends(ProcessOf(Next(s, e), id), p)
  {
    var s' := Next(s, e);
    if !Settled(s, p) {
      var id :| Attends(ProcessOf(s, id), p);
      if e.Continue? && e.process == id {
        ApplyAttends(s, id, ProcessOf(s, id).ticket, e.refused, e.stuck, e.drawn, p);
      } else {
        OthersGoOn(s, e, id);
      }
      assert Attends(ProcessOf(s', id), p);
    } else if e.Continue? && ProcessOf(s, e.process).Applying? {
      ApplyAttends(s, e.process, ProcessOf(s, e.process).ticket, e.refused, e.stuck, e.drawn, p);
    } else if e.Continue? {
      OthersSpare(s, e.process, ProcessOf(s, e.process), e.refused, e.stuck, p);
    } else {
      StartsSpare(s, e, p);
    }
  }

  lemma StartsSpare(s: State, e: Event, p: nat)
    requires !e.Crash? && !e.Continue? && Settled(s, p)
    ensures Settled(Next(s, e), p)
  {
  }

  /** Over every run in which nothing crashes and every write works, a Preview is unsettled
      only while an Application that has begun to reserve it is under way. */
  lemma {:induction false} CalmRunsSettle(s: State, events: seq<Event>)
    requires Invariant(s) && AllClean(s) && Attended(s) && forall k :: 0 <= k < |events| ==> Calm(events[k])
    ensures Attended(Run(s, events))
    decreases |events|
  {
    if events != [] {
      var s' := Next(s, events[0]);
      StepKeeps(s, events[0]);
      CleanStays(s, events[0]);
      forall p | !Settled(s', p) ensures exists id :: Attends(ProcessOf(s', id), p) {
        StepAttends(s, events[0], p);
      }
      CalmRunsSettle(s', events[1..]);
    }
  }

  /** A process that crashes between its reservation and its journal leaves a Preview that
      is reserved and that no journal names... */
  lemma AbandonedReservation(s: State, id: nat, p: nat)
    requires ProcessOf(s, id).Idle? && p in s.previews && !s.previews[p].reserved
    requires !JournalNames(s, p) && s.previews[p].workspace !in s.locks
    ensures var go := Continue(id, Works, false, false, 0);
      var s' := Next(Next(Next(Next(Next(s, StartApply(id, p)), go), go), go), Crash(id));
      ProcessOf(s', id).Idle? && s'.locks == s.locks && !Settled(s', p)
  {
    var go := Continue(id, Works, false, false, 0);
    var s2 := Next(Next(s, StartApply(id, p)), go);
    LocksFirst(s, id, p);
    ThenReserves(s2, id, p);
  }

  lemma LocksFirst(s: State, id: nat, p: nat)
    requires ProcessOf(s, id).Idle? && p in s.previews && s.previews[p].workspace !in s.locks
    ensures
      var w, s' := s.previews[p].workspace, Next(Next(s, StartApply(id, p)), Continue(id, Works, false, false, 0));
      && ProcessOf(s', id) == Applying(Ticket(Locked, p, w, 0, true)) && s'.locks == s.locks[w := id]
      && s'.previews == s.previews && s'.journals == s.journals
  {
    assert ProcessOf(Next(s, StartApply(id, p)), id) == Applying(Ticket(Waiting, p, s.previews[p].workspace, 0, true));
  }

  lemma ThenReserves(s: State, id: nat, p: nat)
    requires p in s.previews && !s.previews[p].reserved
    requires ProcessOf(s, id) == Applying(Ticket(Locked, p, s.previews[p].workspace, 0, true))
    ensures
      var go := Continue(id, Works, false, false, 0);
      var s' := Next(Next(s, go), go);
      && ProcessOf(s', id) == Applying(Ticket(Reserved, p, s.previews[p].workspace, 0, true)) && s'.locks == s.locks
      && p in s'.previews && s'.previews[p].reserved && s'.journals == s.journals
  {
    var s1 := Next(s, Continue(id, Works, false, false, 0));
    assert ProcessOf(s1, id) == Applying(Ticket(Reserving, p, s.previews[p].workspace, 0, true));
    assert s1.locks == s.locks && s1.journals == s.journals;
  }

  /** ... and later Applications find it busy and change nothing. */
  lemma BusyReturns(s: State, id: nat, ticket: Ticket, write: Write, refused: bool, stuck: bool, drawn: nat)
    requires ticket.stage == Locked && ticket.preview in s.previews && s.previews[ticket.preview].reserved
    requires ProcessOf(s, id) == Applying(ticket)
    ensures var s' := ApplyStep(s, id, ticket, write, refused, stuck, drawn);
      ProcessOf(s', id).Idle? && s'.previews == s.previews && s'.journals == s.journals
  {
  }

  /** Discarding clears such a reservation as soon as its Workspace is unlocked. */
  lemma DiscardClears(s: State, id: nat, p: nat)
    requires ProcessOf(s, id).Idle? && p in s.previews && !Settled(s, p)
    requires s.previews[p].workspace !in s.locks
    ensures var go := Continue(id, Works, false, false, 0);
      p !in Next(Next(Next(Next(s, StartDiscard(id, p)), go), go), go).previews
  {
    var go := Continue(id, Works, false, false, 0);
    var s1 := Next(s, StartDiscard(id, p));
    var s2 := Next(s1, go);
    var s3 := Next(s2, go);
    assert ProcessOf(s1, id) == DiscardWaiting(p, s.previews[p].workspace);
    assert ProcessOf(s2, id) == DiscardHolding(p, s.previews[p].workspace);
    assert !JournalNames(s2, p);
    assert ProcessOf(s3, id) == Unlinking(p);
  }
}
