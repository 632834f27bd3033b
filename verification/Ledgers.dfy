/** What becomes of a transaction whose commit has begun: over every run it is completed,
    rolled back, or kept for a recovery. */
module Ledgers {
  import opened Applications

  /** The journal of a transaction that is not known to be finished asks for recovery, or will
      once it is found abandoned, until a recovery was granted for it. */
  predicate Kept(s: State, t: nat) {
    t in s.recovered
    || (t in s.journals && (s.journals[t].phase.Committing? || s.journals[t].phase.RecoveryRequired?))
  }

  ghost predicate LedgerOk(s: State) {
    && (forall t :: t in s.unfinished ==> t in s.transactions && Kept(s, t))
    && (forall t :: t in s.unfinished && t in s.journals ==> s.journals[t].preview in s.commits)
  }

  /** What an Application that has begun its commit has put into its journal. */
  predicate Accounts(s: State, process: Process) {
    match process
    case Applying(Ticket(stage, p, w, t, _)) => (
      match stage
      case Running => t in s.journals && s.journals[t].phase.Committing? && t in s.unfinished
      case Sealed => Concluded(s, t)
      case Receipted => Concluded(s, t)
      case Cleaning => Concluded(s, t)
      case Retired => Concluded(s, t) && t !in s.unfinished
      case _ => true
    )
    case RecoverReceipted(t, _, _) => t in s.recovered
    case RecoverRetired(t, _, _) => t in s.recovered
    case _ => true
  }

  /** A finished transaction is marked for cleanup, any other one for recovery. */
  predicate Concluded(s: State, t: nat) {
    t in s.journals && s.journals[t].phase == if t in s.unfinished then RecoveryRequired else CleanupPending
  }

  ghost predicate Ledger(s: State) {
    LedgerOk(s) && forall id :: id in s.processes ==> Accounts(s, s.processes[id])
  }

  /** A step by the holder of the Workspaces `ws` decides about their transactions only. */
  ghost predicate Decides(s: State, s': State, ws: set<nat>) {
    && Within(s, s', ws) && s.recovered <= s'.recovered
    && forall t :: t in s.journals && s.journals[t].workspace !in ws ==> (t in s'.unfinished <==> t in s.unfinished)
  }

  lemma AccountsFrame(s: State, s': State, ws: set<nat>, process: Process)
    requires Decides(s, s', ws) && Knows(s, process) && Accounts(s, process)
    requires forall w :: w in Holds(process) ==> w !in ws
    ensures Accounts(s', process)
  {
    match process
    case Applying(Ticket(stage, p, w, t, _)) =>
      if !stage.Waiting? {
        assert w in Holds(process);
      }
    case _ =>
  }

  lemma OthersAccount(s: State, s1: State, id: nat, other: nat)
    requires Invariant(s) && Ledger(s) && Decides(s, s1, Holds(ProcessOf(s, id))) && other in s.processes && other != id
    ensures Accounts(s1, s.processes[other])
  {
    forall w | w in Holds(s.processes[other]) ensures w !in Holds(ProcessOf(s, id)) {
      assert s.processes[other] == ProcessOf(s, other);
      assert s.locks[w] == other;
    }
    AccountsFrame(s, s1, Holds(ProcessOf(s, id)), s.processes[other]);
  }

  lemma SameAccounts(s: State, s': State, process: Process)
    requires s' == s.(locks := s'.locks, processes := s'.processes) && Accounts(s, process)
    ensures Accounts(s', process)
  {
  }

  /** The process changes the store and goes on. */
  lemma Booked(s: State, s1: State, s': State, id: nat, process: Process)
    requires Invariant(s) && Ledger(s) && Decides(s, s1, Holds(ProcessOf(s, id)))
    requires LedgerOk(s1) && Accounts(s1, process)
    requires s' == s1.(locks := s'.locks, processes := s.processes[id := process])
    ensures Ledger(s')
  {
    forall other | other in s'.processes ensures Accounts(s', s'.processes[other]) {
      if other != id {
        OthersAccount(s, s1, id, other);
        SameAccounts(s1, s', s.processes[other]);
      } else {
        SameAccounts(s1, s', process);
      }
    }
  }

  lemma SameBooks(s: State, s1: State)
    requires LedgerOk(s) && s1 == s.(previews := s1.previews, receipts := s1.receipts)
    ensures LedgerOk(s1)
  {
  }

  /** A journal that is not that of an unfinished transaction may change, or any journal be
      marked for recovery. */
  lemma OneJournal(s: State, s1: State, t: nat)
    requires LedgerOk(s) && s.recovered <= s1.recovered && s.transactions.Keys <= s1.transactions.Keys
    requires s1.journals - {t} == s.journals - {t} && s1.unfinished - {t} == s.unfinished - {t}
    requires forall p :: p in s.commits ==> p in s1.commits
    requires t in s1.unfinished ==> t in s1.transactions && Kept(s1, t)
    requires t in s1.unfinished && t in s1.journals ==> s1.journals[t].preview in s1.commits
    ensures LedgerOk(s1)
  {
    forall u | u in s1.unfinished
      ensures u in s1.transactions && Kept(s1, u) && (u in s1.journals ==> s1.journals[u].preview in s1.commits)
    {
      if u != t {
        assert u in s1.unfinished - {t} && u in s.unfinished && Kept(s, u);
        SameElsewhere(s, s1, t, u);
      }
    }
  }

  lemma SameElsewhere(s: State, s1: State, t: nat, u: nat)
    requires s1.journals - {t} == s.journals - {t} && u != t
    ensures (u in s1.journals <==> u in s.journals) && (u in s.journals ==> s1.journals[u] == s.journals[u])
  {
    assert u in s.journals <==> u in s.journals - {t};
    assert u in s1.journals <==> u in s1.journals - {t};
    assert u in s.journals ==> (s.journals - {t})[u] == s.journals[u];
    assert u in s1.journals ==> (s1.journals - {t})[u] == s1.journals[u];
  }

  /** A transaction is unfinished only after its commit has begun. */
  lemma NotBegun(s: State, p: nat, w: nat, t: nat)
    requires LedgerOk(s) && OwnJournal(s, p, w, t) && p !in s.commits
    ensures t !in s.unfinished
  {
  }

  ghost predicate Acts(s: State, id: nat, ticket: Ticket) {
    Invariant(s) && Ledger(s) && ProcessOf(s, id) == Applying(ticket)
  }

  lemma Begun(s: State, id: nat, ticket: Ticket)
    requires Acts(s, id, ticket)
    ensures Knows(s, Applying(ticket)) && Accounts(s, Applying(ticket))
    ensures ticket.preview in s.homes && s.homes[ticket.preview] == ticket.workspace
    ensures !ticket.stage.Waiting? ==> Holds(ProcessOf(s, id)) == {ticket.workspace}
  {
    Begins(s, id, ticket);
  }

  lemma BookedOn(s: State, s1: State, id: nat, ticket: Ticket, next: Ticket)
    requires Acts(s, id, ticket) && Decides(s, s1, Holds(ProcessOf(s, id)))
    requires LedgerOk(s1) && Accounts(s1, Applying(next))
    ensures Ledger(Enter(s1, id, Applying(next)))
  {
    Booked(s, s1, Enter(s1, id, Applying(next)), id, Applying(next));
  }

  lemma BookedReturn(s: State, s1: State, id: nat, ticket: Ticket)
    requires Acts(s, id, ticket) && Decides(s, s1, Holds(ProcessOf(s, id))) && LedgerOk(s1)
    ensures Ledger(Return(s1, id))
  {
    Booked(s, s1, Return(s1, id), id, Idle);
  }

  /** After a write, the process goes on if it worked and returns otherwise. */
  lemma BookedIfWorks(s: State, s1: State, id: nat, ticket: Ticket, stage: Stage, works: bool)
    requires Acts(s, id, ticket) && Decides(s, s1, Holds(ProcessOf(s, id))) && LedgerOk(s1)
    requires works ==> Accounts(s1, Applying(ticket.(stage := stage)))
    ensures Ledger(if works then Enter(s1, id, Applying(ticket.(stage := stage))) else Return(s1, id))
  {
    if works {
      BookedOn(s, s1, id, ticket, ticket.(stage := stage));
    } else {
      BookedReturn(s, s1, id, ticket);
    }
  }

  // The stages of an Application

  lemma WaitingBooks(
      s: State, id: nat, ticket: Ticket, write: Write, refused: bool, stuck: bool, drawn: nat)
    requires Acts(s, id, ticket) && (ticket.stage.Waiting? || ticket.stage.Locked?)
    ensures Ledger(ApplyStep(s, id, ticket, write, refused, stuck, drawn))
  {
    var s' := ApplyStep(s, id, ticket, write, refused, stuck, drawn);
    NothingMoves(s, Holds(ProcessOf(s, id)));
    Booked(s, s, s', id, ProcessOf(s', id));
  }

  lemma LookingBooks(
      s: State, id: nat, ticket: Ticket, write: Write, refused: bool, stuck: bool, drawn: nat)
    requires Acts(s, id, ticket) && (ticket.stage.Reserved? || ticket.stage.ReadingBack?)
    ensures Ledger(ApplyStep(s, id, ticket, write, refused, stuck, drawn))
  {
    NothingMoves(s, Holds(ProcessOf(s, id)));
    if ticket.stage.Reserved? {
      var blocked := refused || AnyJournal(s, ticket.workspace);
      BookedOn(s, s, id, ticket, ticket.(stage := if blocked then Releasing else Cleared));
    } else if refused || ticket.transaction in s.journals {
      BookedReturn(s, s, id, ticket);
    } else {
      BookedOn(s, s, id, ticket, ticket.(stage := Releasing));
    }
  }

  lemma PreviewBooks(
      s: State, id: nat, ticket: Ticket, write: Write, refused: bool, stuck: bool, drawn: nat)
    requires Acts(s, id, ticket) && ticket.stage in {Reserving, Releasing}
    ensures Ledger(ApplyStep(s, id, ticket, write, refused, stuck, drawn))
  {
    var s' := ApplyStep(s, id, ticket, write, refused, stuck, drawn);
    var p, w := ticket.preview, ticket.workspace;
    Begun(s, id, ticket);
    PreviewWithin(s, p, w, ticket.stage.Reserving?, write);
    var s1 := WritePreview(s, p, Preview(w, ticket.stage.Reserving?), write);
    SameBooks(s, s1);
    Booked(s, s1, s', id, ProcessOf(s', id));
  }

  lemma AddingDecides(s: State, t: nat, p: nat, w: nat, write: Write)
    requires StoreOk(s) && LedgerOk(s) && t !in s.transactions && p in s.homes && s.homes[p] == w && !AnyJournal(s, w)
    ensures
      var s1 := WriteJournal(s.(transactions := s.transactions[t := w]), t, Journal(p, w, Phase.Staged), write);
      LedgerOk(s1) && Decides(s, s1, {w})
  {
    JournalAdded(s, t, p, w, write);
    OneJournal(s, WriteJournal(s.(transactions := s.transactions[t := w]), t, Journal(p, w, Phase.Staged), write), t);
  }

  lemma ClearedBooks(
      s: State, id: nat, ticket: Ticket, write: Write, refused: bool, stuck: bool, drawn: nat)
    requires Acts(s, id, ticket) && ticket.stage == Cleared
    ensures Ledger(ApplyStep(s, id, ticket, write, refused, stuck, drawn))
  {
    var p, w := ticket.preview, ticket.workspace;
    Begun(s, id, ticket);
    if drawn !in s.transactions {
      AddingDecides(s, drawn, p, w, write);
      var s1 := WriteJournal(s.(transactions := s.transactions[drawn := w]), drawn, Journal(p, w, Phase.Staged), write);
      var stage := if write.Works? then Journaled else ReadingBack;
      BookedOn(s, s1, id, ticket, ticket.(transaction := drawn, stage := stage, clean := ticket.clean && write.Works?));
    }
  }

  lemma CommitDecides(s: State, t: nat, p: nat, w: nat, write: Write)
    requires StoreOk(s) && LedgerOk(s) && OwnJournal(s, p, w, t) && p !in s.commits
    ensures
      var s1 := WriteJournal(s, t, Journal(p, w, Committing), write);
      && LedgerOk(s1) && Decides(s, s1, {w})
      && (write.Works? ==> t in s1.journals && s1.journals[t].phase.Committing? && t in s1.unfinished)
  {
    CommitWritten(s, t, p, w, write);
    OneJournal(s, WriteJournal(s, t, Journal(p, w, Committing), write), t);
  }

  lemma StuckDecides(s: State, t: nat, p: nat, w: nat, write: Write)
    requires StoreOk(s) && LedgerOk(s) && OwnJournal(s, p, w, t) && p !in s.commits
    ensures
      var s1 := WriteJournal(s, t, Journal(p, w, RecoveryRequired), write);
      LedgerOk(s1) && Decides(s, s1, {w})
  {
    NotBegun(s, p, w, t);
    JournalRewritten(s, t, p, w, RecoveryRequired, write);
    OneJournal(s, WriteJournal(s, t, Journal(p, w, RecoveryRequired), write), t);
  }

  lemma JournaledBooks(
      s: State, id: nat, ticket: Ticket, write: Write, refused: bool, stuck: bool, drawn: nat)
    requires Acts(s, id, ticket) && ticket.stage == Journaled
    ensures Ledger(ApplyStep(s, id, ticket, write, refused, stuck, drawn))
  {
    var p, w, t := ticket.preview, ticket.workspace, ticket.transaction;
    Begun(s, id, ticket);
    if !refused {
      CommitDecides(s, t, p, w, write);
      BookedIfWorks(s, WriteJournal(s, t, Journal(p, w, Committing), write), id, ticket, Running, write.Works?);
    } else if stuck {
      StuckDecides(s, t, p, w, write);
      BookedReturn(s, WriteJournal(s, t, Journal(p, w, RecoveryRequired), write), id, ticket);
    } else {
      NothingMoves(s, Holds(ProcessOf(s, id)));
      BookedOn(s, s, id, ticket, ticket.(stage := Dropping));
    }
  }

  lemma JournalGoes(s: State, id: nat, ticket: Ticket, write: Write)
    requires Acts(s, id, ticket)
    requires ticket.stage.Dropping? || ticket.stage.Retired?
    ensures
      var s1 := RemoveJournal(s, ticket.transaction, write);
      Ledger(s) && LedgerOk(s1) && Decides(s, s1, {ticket.workspace})
  {
    var p, w, t := ticket.preview, ticket.workspace, ticket.transaction;
    Begun(s, id, ticket);
    if ticket.stage.Dropping? {
      NotBegun(s, p, w, t);
    }
    JournalRemoved(s, t, p, w, write);
    OneJournal(s, RemoveJournal(s, t, write), t);
  }

  lemma DroppingBooks(
      s: State, id: nat, ticket: Ticket, write: Write, refused: bool, stuck: bool, drawn: nat)
    requires Acts(s, id, ticket) && ticket.stage in {Dropping, Retired}
    ensures Ledger(ApplyStep(s, id, ticket, write, refused, stuck, drawn))
  {
    var t := ticket.transaction;
    JournalGoes(s, id, ticket, write);
    var s1 := RemoveJournal(s, t, write);
    if ticket.stage.Dropping? {
      BookedOn(s, s1, id, ticket, ticket.(stage := Releasing, clean := ticket.clean && write.Works?));
    } else {
      BookedReturn(s, s1, id, ticket);
    }
  }

  lemma SealDecides(s: State, t: nat, p: nat, w: nat, refused: bool, write: Write)
    requires StoreOk(s) && LedgerOk(s) && OwnJournal(s, p, w, t) && t in s.unfinished
    requires s.journals[t].phase.Committing?
    ensures
      var known := if refused then s else s.(unfinished := s.unfinished - {t});
      var phase := if refused then RecoveryRequired else CleanupPending;
      var s1 := WriteJournal(known, t, Journal(p, w, phase), write);
      LedgerOk(s1) && Decides(s, s1, {w}) && (write.Works? ==> Concluded(s1, t))
  {
    var known := if refused then s else s.(unfinished := s.unfinished - {t});
    var phase := if refused then RecoveryRequired else CleanupPending;
    SealWritten(s, known, t, p, w, phase, write);
    OneJournal(s, WriteJournal(known, t, Journal(p, w, phase), write), t);
  }

  lemma RunningBooks(
      s: State, id: nat, ticket: Ticket, write: Write, refused: bool, stuck: bool, drawn: nat)
    requires Acts(s, id, ticket) && ticket.stage == Running
    ensures Ledger(ApplyStep(s, id, ticket, write, refused, stuck, drawn))
  {
    var p, w, t := ticket.preview, ticket.workspace, ticket.transaction;
    Begun(s, id, ticket);
    SealDecides(s, t, p, w, refused, write);
    var known := if refused then s else s.(unfinished := s.unfinished - {t});
    var phase := if refused then RecoveryRequired else CleanupPending;
    BookedIfWorks(s, WriteJournal(known, t, Journal(p, w, phase), write), id, ticket, Sealed, write.Works?);
  }

  lemma SealedBooks(
      s: State, id: nat, ticket: Ticket, write: Write, refused: bool, stuck: bool, drawn: nat)
    requires Acts(s, id, ticket) && ticket.stage == Sealed
    ensures Ledger(ApplyStep(s, id, ticket, write, refused, stuck, drawn))
  {
    Begun(s, id, ticket);
    ReceiptWritten(s, ticket.preview, ticket.workspace, write);
    var s1 := WriteReceipt(s, ticket.preview, write);
    SameBooks(s, s1);
    BookedIfWorks(s, s1, id, ticket, Receipted, write.Works?);
  }

  lemma ReceiptedBooks(
      s: State, id: nat, ticket: Ticket, write: Write, refused: bool, stuck: bool, drawn: nat)
    requires Acts(s, id, ticket) && ticket.stage == Receipted
    ensures Ledger(ApplyStep(s, id, ticket, write, refused, stuck, drawn))
  {
    Begun(s, id, ticket);
    PreviewRemoved(s, ticket.preview, write);
    var s1 := RemovePreview(s, ticket.preview, write);
    SameBooks(s, s1);
    if !write.Works? && refused {
      BookedReturn(s, s1, id, ticket);
    } else {
      BookedOn(s, s1, id, ticket, ticket.(stage := Cleaning, clean := ticket.clean && write.Works?));
    }
  }

  lemma CleaningBooks(
      s: State, id: nat, ticket: Ticket, write: Write, refused: bool, stuck: bool, drawn: nat)
    requires Acts(s, id, ticket) && ticket.stage == Cleaning
    ensures Ledger(ApplyStep(s, id, ticket, write, refused, stuck, drawn))
  {
    Begun(s, id, ticket);
    if stuck || s.journals[ticket.transaction].phase.RecoveryRequired? {
      NothingMoves(s, Holds(ProcessOf(s, id)));
      BookedReturn(s, s, id, ticket);
    } else {
      PreviewRemoved(s, ticket.preview, write);
      var s1 := RemovePreview(s, ticket.preview, write);
      SameBooks(s, s1);
      BookedIfWorks(s, s1, id, ticket, Retired, write.Works?);
    }
  }

  lemma ApplyBooks(
      s: State, id: nat, ticket: Ticket, write: Write, refused: bool, stuck: bool, drawn: nat)
    requires Acts(s, id, ticket)
    ensures Ledger(ApplyStep(s, id, ticket, write, refused, stuck, drawn))
  {
    match ticket.stage
    case Reserving => PreviewBooks(s, id, ticket, write, refused, stuck, drawn);
    case Releasing => PreviewBooks(s, id, ticket, write, refused, stuck, drawn);
    case Cleared => ClearedBooks(s, id, ticket, write, refused, stuck, drawn);
    case Journaled => JournaledBooks(s, id, ticket, write, refused, stuck, drawn);
    case Dropping => DroppingBooks(s, id, ticket, write, refused, stuck, drawn);
    case Retired => DroppingBooks(s, id, ticket, write, refused, stuck, drawn);
    case Running => RunningBooks(s, id, ticket, write, refused, stuck, drawn);
    case Sealed => SealedBooks(s, id, ticket, write, refused, stuck, drawn);
    case Receipted => ReceiptedBooks(s, id, ticket, write, refused, stuck, drawn);
    case Cleaning => CleaningBooks(s, id, ticket, write, refused, stuck, drawn);
    case Reserved => LookingBooks(s, id, ticket, write, refused, stuck, drawn);
    case ReadingBack => LookingBooks(s, id, ticket, write, refused, stuck, drawn);
    case _ => WaitingBooks(s, id, ticket, write, refused, stuck, drawn);
  }

  // The other processes

  lemma DiscardBooks(s: State, id: nat, process: Process, write: Write, refused: bool, stuck: bool)
    requires Invariant(s) && Ledger(s) && ProcessOf(s, id) == process
    requires process.DiscardWaiting? || process.DiscardHolding? || process.RecoverWaiting? || process.Unlinking?
    ensures Ledger(OtherStep(s, id, process, write, refused, stuck))
  {
    var s' := OtherStep(s, id, process, write, refused, stuck);
    NothingMoves(s, Holds(process));
    if process.Unlinking? {
      PreviewRemoved(s, process.preview, write);
      SameBooks(s, RemovePreview(s, process.preview, write));
      Booked(s, RemovePreview(s, process.preview, write), s', id, Idle);
    } else {
      Booked(s, s, s', id, ProcessOf(s', id));
    }
  }

  lemma GrantBooks(s: State, id: nat, process: Process, write: Write, refused: bool, stuck: bool)
    requires Invariant(s) && Ledger(s) && ProcessOf(s, id) == process && process.RecoverHolding?
    ensures Ledger(OtherStep(s, id, process, write, refused, stuck))
  {
    var s' := OtherStep(s, id, process, write, refused, stuck);
    var t := process.transaction;
    NothingMoves(s, Holds(process));
    if t !in s.journals || (s.journals[t].phase.CleanupPending? && process.rollback) || refused || !write.Works? {
      Booked(s, s, s', id, Idle);
    } else {
      var s1 := s.(recovered := s.recovered + {t});
      LedgerAside(s, s1, Holds(process));
      OneJournal(s, s1, t);
      Booked(s, s1, s', id, RecoverReceipted(t, process.workspace, s.journals[t].preview));
    }
  }

  lemma RecoveryBooks(s: State, id: nat, process: Process, write: Write, refused: bool, stuck: bool)
    requires Invariant(s) && Ledger(s) && ProcessOf(s, id) == process && process.RecoverReceipted?
    ensures Ledger(OtherStep(s, id, process, write, refused, stuck))
  {
    var s' := OtherStep(s, id, process, write, refused, stuck);
    var t, p, w := process.transaction, process.preview, process.workspace;
    PreviewRemoved(s, p, write);
    SameBooks(s, RemovePreview(s, p, write));
    assert id in s.processes;
    Booked(s, RemovePreview(s, p, write), s', id, if write.Works? then RecoverRetired(t, w, p) else Idle);
  }

  lemma RemovalBooks(s: State, id: nat, process: Process, write: Write, refused: bool, stuck: bool)
    requires Invariant(s) && Ledger(s) && ProcessOf(s, id) == process && process.RecoverRetired?
    ensures Ledger(OtherStep(s, id, process, write, refused, stuck))
  {
    var s' := OtherStep(s, id, process, write, refused, stuck);
    var t, p, w := process.transaction, process.preview, process.workspace;
    assert id in s.processes;
    if stuck {
      NothingMoves(s, Holds(process));
      Booked(s, s, s', id, Idle);
    } else {
      JournalRemoved(s, t, p, w, write);
      OneJournal(s, RemoveJournal(s, t, write), t);
      Booked(s, RemoveJournal(s, t, write), s', id, Idle);
    }
  }

  lemma AbandonDecides(s: State, t: nat, w: nat, write: Write)
    requires StoreOk(s) && LedgerOk(s) && t in s.journals && s.journals[t].workspace == w
    ensures
      var s1 := WriteJournal(s, t, s.journals[t].(phase := RecoveryRequired), write);
      LedgerOk(s1) && Decides(s, s1, {w})
  {
    JournalRewritten(s, t, s.journals[t].preview, w, RecoveryRequired, write);
    OneJournal(s, WriteJournal(s, t, s.journals[t].(phase := RecoveryRequired), write), t);
  }

  lemma ReconcileBooks(s: State, id: nat, process: Process, write: Write, refused: bool, stuck: bool)
    requires Invariant(s) && Ledger(s) && ProcessOf(s, id) == process && id in s.processes && process.ReconcileHolding?
    ensures Ledger(OtherStep(s, id, process, write, refused, stuck))
  {
    var s' := OtherStep(s, id, process, write, refused, stuck);
    var t, w := process.transaction, process.workspace;
    NothingMoves(s, Holds(process));
    if t in s.journals && (s.journals[t].phase.Committing? || (s.journals[t].phase.Staged? && refused)) {
      AbandonDecides(s, t, w, write);
      Booked(s, WriteJournal(s, t, s.journals[t].(phase := RecoveryRequired), write), s', id, Idle);
    } else {
      Booked(s, s, s', id, Idle);
    }
  }

  lemma OtherBooks(s: State, id: nat, process: Process, write: Write, refused: bool, stuck: bool)
    requires Invariant(s) && Ledger(s) && ProcessOf(s, id) == process && !process.Applying?
    ensures Ledger(OtherStep(s, id, process, write, refused, stuck))
  {
    match process
    case Idle =>
    case RecoverHolding(_, _, _) => GrantBooks(s, id, process, write, refused, stuck);
    case RecoverReceipted(_, _, _) => RecoveryBooks(s, id, process, write, refused, stuck);
    case RecoverRetired(_, _, _) => RemovalBooks(s, id, process, write, refused, stuck);
    case ReconcileHolding(_, _) => ReconcileBooks(s, id, process, write, refused, stuck);
    case _ => DiscardBooks(s, id, process, write, refused, stuck);
  }

  // Runs

  lemma QuietBooks(s: State, e: Event)
    requires Invariant(s) && Ledger(s) && (e.CreatePreview? || e.PruneReceipt? || e.Crash?)
    ensures Ledger(Next(s, e))
  {
    var s' := Next(s, e);
    forall other | other in s'.processes ensures Accounts(s', s'.processes[other]) {
      assert e.Crash? && other == e.process ==> s'.processes[other].Idle?;
    }
  }

  lemma StartBooks(s: State, e: Event)
    requires Invariant(s) && Ledger(s)
    requires e.StartApply? || e.StartDiscard? || e.StartPrune? || e.StartRecover? || e.StartReconcile?
    ensures Ledger(Next(s, e))
  {
    NothingMoves(s, {});
    if ProcessOf(s, e.process).Idle? && Next(s, e) != s {
      Starts(s, e);
      Booked(s, s, Next(s, e), e.process, ProcessOf(Next(s, e), e.process));
    }
  }

  lemma Starts(s: State, e: Event)
    requires e.StartApply? || e.StartDiscard? || e.StartPrune? || e.StartRecover? || e.StartReconcile?
    requires ProcessOf(s, e.process).Idle? && Next(s, e) != s
    ensures
      var s', process := Next(s, e), ProcessOf(Next(s, e), e.process);
      && s' == s.(locks := s'.locks, processes := s.processes[e.process := process])
      && Accounts(s, process)
  {
  }

  /** Every step keeps the books. */
  lemma StepBooks(s: State, e: Event)
    requires Invariant(s) && Ledger(s)
    ensures Ledger(Next(s, e))
  {
    match e
    case Continue(id, write, refused, stuck, drawn) =>
      var process := ProcessOf(s, id);
      if process.Applying? {
        ApplyBooks(s, id, process.ticket, write, refused, stuck, drawn);
      } else {
        OtherBooks(s, id, process, write, refused, stuck);
      }
    case CreatePreview(_, _) => QuietBooks(s, e);
    case PruneReceipt(_) => QuietBooks(s, e);
    case Crash(_) => QuietBooks(s, e);
    case _ => StartBooks(s, e);
  }

  lemma {:induction false} RunBooks(s: State, events: seq<Event>)
    requires Invariant(s) && Ledger(s)
    ensures Invariant(Run(s, events)) && Ledger(Run(s, events))
    decreases |events|
  {
    if events != [] {
      StepKeeps(s, events[0]);
      StepBooks(s, events[0]);
      RunBooks(Next(s, events[0]), events[1..]);
    }
  }

  // What the books say

  /** An Application finishes its own transaction at most, and recovers none. */
  predicate FinishesOwn(s: State, s': State, ticket: Ticket, refused: bool) {
    && s'.recovered == s.recovered
    && (s.unfinished <= s'.unfinished
        || (ticket.stage.Running? && !refused && s.unfinished - {ticket.transaction} <= s'.unfinished))
  }

  lemma ReservingFinishes(
      s: State, id: nat, ticket: Ticket, write: Write, refused: bool, stuck: bool, drawn: nat)
    requires ticket.stage in {Waiting, Locked, Reserving, Reserved, Releasing}
    ensures FinishesOwn(s, ApplyStep(s, id, ticket, write, refused, stuck, drawn), ticket, refused)
  {
  }

  lemma JournalingFinishes(
      s: State, id: nat, ticket: Ticket, write: Write, refused: bool, stuck: bool, drawn: nat)
    requires ticket.stage in {Cleared, ReadingBack, Journaled, Dropping}
    ensures FinishesOwn(s, ApplyStep(s, id, ticket, write, refused, stuck, drawn), ticket, refused)
  {
  }

  lemma EndingFinishes(
      s: State, id: nat, ticket: Ticket, write: Write, refused: bool, stuck: bool, drawn: nat)
    requires ticket.stage in {Running, Sealed, Receipted, Cleaning, Retired}
    ensures FinishesOwn(s, ApplyStep(s, id, ticket, write, refused, stuck, drawn), ticket, refused)
  {
  }

  lemma ApplyFinishes(
      s: State, id: nat, ticket: Ticket, write: Write, refused: bool, stuck: bool, drawn: nat)
    ensures FinishesOwn(s, ApplyStep(s, id, ticket, write, refused, stuck, drawn), ticket, refused)
  {
    if ticket.stage in {Waiting, Locked, Reserving, Reserved, Releasing} {
      ReservingFinishes(s, id, ticket, write, refused, stuck, drawn);
    } else if ticket.stage in {Cleared, ReadingBack, Journaled, Dropping} {
      JournalingFinishes(s, id, ticket, write, refused, stuck, drawn);
    } else {
      assert ticket.stage.Running? || ticket.stage.Sealed? || ticket.stage.Receipted? || ticket.stage.Cleaning?
        || ticket.stage.Retired?;
      EndingFinishes(s, id, ticket, write, refused, stuck, drawn);
    }
  }

  /** The other processes finish no transaction, and recover only the one they were granted. */
  lemma OtherFinishes(s: State, id: nat, process: Process, write: Write, refused: bool, stuck: bool)
    requires !process.Applying?
    ensures
      var s' := OtherStep(s, id, process, write, refused, stuck);
      && s.unfinished <= s'.unfinished
      && (s'.recovered == s.recovered
          || (process.RecoverHolding? && !refused && write.Works? && process.transaction in s.journals
              && !(process.rollback && s.journals[process.transaction].phase.CleanupPending?)
              && s'.recovered == s.recovered + {process.transaction}))
  {
    if !process.RecoverHolding? {
      NothingGranted(s, id, process, write, refused, stuck);
    }
  }

  lemma NothingGranted(s: State, id: nat, process: Process, write: Write, refused: bool, stuck: bool)
    requires !process.Applying? && !process.RecoverHolding?
    ensures
      var s' := OtherStep(s, id, process, write, refused, stuck);
      s'.recovered == s.recovered && s.unfinished <= s'.unfinished
  {
    if process.ReconcileHolding? {
      NothingReconciled(s, id, process, write, refused, stuck);
    }
  }

  lemma NothingReconciled(s: State, id: nat, process: Process, write: Write, refused: bool, stuck: bool)
    requires process.ReconcileHolding?
    ensures
      var s' := OtherStep(s, id, process, write, refused, stuck);
      s'.recovered == s.recovered && s'.unfinished == s.unfinished
  {
  }

  lemma StartFinishes(s: State, e: Event)
    requires !e.Continue?
    ensures Next(s, e).unfinished == s.unfinished && Next(s, e).recovered == s.recovered
  {
  }

  /** A transaction is finished only by its own Application, once it knows that its commit
      was completed or rolled back. */
  lemma FinishedByItself(s: State, e: Event, t: nat)
    requires t in s.unfinished && t !in Next(s, e).unfinished
    ensures e.Continue? && !e.refused && ProcessOf(s, e.process).Applying?
    ensures
      var ticket := ProcessOf(s, e.process).ticket;
      ticket.stage.Running? && ticket.transaction == t
  {
    if !e.Continue? {
      StartFinishes(s, e);
    } else if ProcessOf(s, e.process).Applying? {
      ApplyFinishes(s, e.process, ProcessOf(s, e.process).ticket, e.write, e.refused, e.stuck, e.drawn);
    } else {
      OtherFinishes(s, e.process, ProcessOf(s, e.process), e.write, e.refused, e.stuck);
    }
  }

  /** A recovery is granted only to the holder of the lock, for a journal that is there, when
      nothing speaks against it and its Receipt was written; a transaction that only waits
      for cleanup is never rolled back. */
  lemma RecoveredIfGranted(s: State, e: Event, t: nat)
    requires t !in s.recovered && t in Next(s, e).recovered
    ensures e.Continue? && !e.refused && e.write.Works? && t in s.journals
    ensures
      var process := ProcessOf(s, e.process);
      && process.RecoverHolding? && process.transaction == t
      && !(process.rollback && s.journals[t].phase.CleanupPending?)
  {
    if !e.Continue? {
      StartFinishes(s, e);
    } else if ProcessOf(s, e.process).Applying? {
      ApplyFinishes(s, e.process, ProcessOf(s, e.process).ticket, e.write, e.refused, e.stuck, e.drawn);
    } else {
      OtherFinishes(s, e.process, ProcessOf(s, e.process), e.write, e.refused, e.stuck);
    }
  }

  /** Over every run, a transaction whose commit began and was neither completed nor rolled
      back keeps its journal, Committing or asking for recovery, until a recovery is
      granted. */
  lemma UnfinishedIsKept(events: seq<Event>, t: nat)
    ensures
      var s := Run(START, events);
      t in s.unfinished && t !in s.recovered ==>
        t in s.journals && (s.journals[t].phase.Committing? || s.journals[t].phase.RecoveryRequired?)
  {
    RunBooks(START, events);
    assert t in Run(START, events).unfinished ==> Kept(Run(START, events), t);
  }

  /** Before its end, whatever happens in between, an Application that can remove its
      artifacts goes on to remove its journal exactly if its commit is finished; otherwise it
      returns and leaves the journal to recovery. */
  lemma CleaningConcludes(s: State, id: nat, ticket: Ticket, refused: bool, drawn: nat)
    requires Acts(s, id, ticket) && ticket.stage == Cleaning
    ensures
      var s', t := ApplyStep(s, id, ticket, Works, refused, false, drawn), ticket.transaction;
      if t in s.unfinished then
        ProcessOf(s', id).Idle? && t in s'.journals && s'.journals[t].phase.RecoveryRequired?
      else ProcessOf(s', id) == Applying(ticket.(stage := Retired)) && ticket.preview !in s'.previews
  {
    Begun(s, id, ticket);
  }

  lemma RetiredConcludes(s: State, id: nat, ticket: Ticket, refused: bool, stuck: bool, drawn: nat)
    requires Acts(s, id, ticket) && ticket.stage == Retired
    ensures
      var s' := ApplyStep(s, id, ticket, Works, refused, stuck, drawn);
      && ProcessOf(s', id).Idle? && ticket.preview !in s'.previews
      && ticket.transaction !in s'.journals && ticket.transaction !in s'.unfinished
  {
    Begun(s, id, ticket);
  }

  /** One undisturbed step of the process. */
  function Go(s: State, id: nat, refused: bool): State {
    Next(s, Continue(id, Works, refused, false, 0))
  }

  /** An Application whose commit was completed or rolled back, and that goes on undisturbed,
      ends with its Receipt there and its Preview and journal gone. */
  lemma FinishedConcludes(s: State, id: nat, ticket: Ticket)
    requires Acts(s, id, ticket) && ticket.stage == Running
    ensures
      var s' := Go(Go(Go(Go(Go(s, id, false), id, false), id, false), id, false), id, false);
      && ProcessOf(s', id).Idle? && ticket.workspace !in s'.locks
      && ticket.preview in s'.receipts && ticket.preview !in s'.previews
      && ticket.transaction !in s'.journals && ticket.transaction !in s'.unfinished
  {
    var s2 := Go(Go(s, id, false), id, false);
    SealsAndReports(s, id, ticket, false);
    RemovesAll(s2, id, ticket.(stage := Receipted));
  }

  /** One whose commit and rollback both failed ends with its Receipt there and its journal
      asking for recovery. */
  lemma UnfinishedConcludes(s: State, id: nat, ticket: Ticket)
    requires Acts(s, id, ticket) && ticket.stage == Running
    ensures
      var s', t := Go(Go(Go(Go(s, id, true), id, false), id, false), id, false), ticket.transaction;
      && ProcessOf(s', id).Idle? && ticket.workspace !in s'.locks
      && ticket.preview in s'.receipts && t in s'.unfinished
      && t in s'.journals && s'.journals[t] == Journal(ticket.preview, ticket.workspace, RecoveryRequired)
  {
    var s2 := Go(Go(s, id, true), id, false);
    SealsAndReports(s, id, ticket, true);
    LeavesJournal(s2, id, ticket.(stage := Receipted));
  }

  /** The first two steps after the commit: the outcome is sealed, then reported. */
  lemma SealsAndReports(s: State, id: nat, ticket: Ticket, refused: bool)
    requires Acts(s, id, ticket) && ticket.stage == Running
    ensures
      var s2, t := Go(Go(s, id, refused), id, false), ticket.transaction;
      var phase := if refused then RecoveryRequired else CleanupPending;
      && ProcessOf(s2, id) == Applying(ticket.(stage := Receipted)) && s2.locks == s.locks
      && ticket.preview in s2.receipts && (t in s2.unfinished <==> refused) && t in s2.journals
      && s2.journals[t] == Journal(ticket.preview, ticket.workspace, phase)
  {
    Begun(s, id, ticket);
    var s1 := Go(s, id, refused);
    assert ProcessOf(s1, id) == Applying(ticket.(stage := Sealed)) && s1.locks == s.locks;
  }

  lemma RemovesAll(s: State, id: nat, ticket: Ticket)
    requires ProcessOf(s, id) == Applying(ticket) && ticket.stage == Receipted
    requires ticket.transaction in s.journals && s.journals[ticket.transaction].phase.CleanupPending?
    ensures
      var s' := Go(Go(Go(s, id, false), id, false), id, false);
      && ProcessOf(s', id).Idle? && s'.locks == s.locks - {ticket.workspace}
      && s'.receipts == s.receipts && s'.unfinished == s.unfinished
      && s'.previews == s.previews - {ticket.preview} && s'.journals == s.journals - {ticket.transaction}
  {
    var s1 := Go(s, id, false);
    assert ProcessOf(s1, id) == Applying(ticket.(stage := Cleaning)) && s1.locks == s.locks;
    var s2 := Go(s1, id, false);
    assert ProcessOf(s2, id) == Applying(ticket.(stage := Retired)) && s2.locks == s.locks;
  }

  lemma LeavesJournal(s: State, id: nat, ticket: Ticket)
    requires ProcessOf(s, id) == Applying(ticket) && ticket.stage == Receipted
    requires ticket.transaction in s.journals && s.journals[ticket.transaction].phase.RecoveryRequired?
    ensures
      var s' := Go(Go(s, id, false), id, false);
      && ProcessOf(s', id).Idle? && s'.locks == s.locks - {ticket.workspace}
      && s'.receipts == s.receipts && s'.unfinished == s.unfinished && s'.journals == s.journals
  {
    var s1 := Go(s, id, false);
    assert ProcessOf(s1, id) == Applying(ticket.(stage := Cleaning)) && s1.locks == s.locks;
  }

  lemma SealingStep(s: State, id: nat, t: nat, w: nat, changed: bool)
    requires ProcessOf(s, id) == ReconcileHolding(t, w) && t in s.journals
    ensures
      var s', phase := Go(s, id, changed), s.journals[t].phase;
      var sealed := phase.Committing? || (phase.Staged? && changed);
      && ProcessOf(s', id).Idle? && s'.locks == s.locks - {w}
      && s'.journals == if sealed then s.journals[t := s.journals[t].(phase := RecoveryRequired)] else s.journals
  {
  }

  /** A look at the status of an abandoned commit, whose Workspace nobody has locked, seals it
      for recovery; one that was only staged is sealed if the tree has changed. */
  lemma AbandonedIsSealed(s: State, id: nat, t: nat, changed: bool)
    requires ProcessOf(s, id).Idle? && t in s.journals && s.journals[t].workspace !in s.locks
    ensures
      var s', phase := Go(Next(s, StartReconcile(id, t)), id, changed), s.journals[t].phase;
      && ProcessOf(s', id).Idle? && s'.locks == s.locks && s'.journals - {t} == s.journals - {t}
      && t in s'.journals && s'.journals[t].preview == s.journals[t].preview
      && s'.journals[t].phase ==
         if phase.Committing? || (phase.Staged? && changed) then RecoveryRequired else phase
  {
    var w := s.journals[t].workspace;
    var s1 := Next(s, StartReconcile(id, t));
    assert ProcessOf(s1, id) == ReconcileHolding(t, w) && s1.locks == s.locks[w := id];
    SealingStep(s1, id, t, w, changed);
    assert s1.locks - {w} == s.locks && s1.journals == s.journals;
  }
}
