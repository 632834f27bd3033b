/** The installation of a bundle of files over an older one, with a journal that lets an
    interrupted installation be finished later. */
module SkillInstalls {
  import opened Results
  import opened ByteStrings

  type Name = string
  type Files = map<Name, Bytes>
  type Id = string

  datatype Version = Semantic(order: real, text: string) | Malformed(text: string)

  /** Digests are injective; a digest nobody computed may still be spelled like one. */
  datatype Digest = Of(files: Files) | Unknown(text: string, wellFormed: bool)

  datatype Marker = Marker(formatVersion: nat, manager: string, version: Version, digest: Digest)

  /** What stands at a path: nothing, something that is not a plain directory tree, or a
      directory with its parsed marker, its other files, and whether it is flat. */
  datatype Resource = Absent | Unsafe | Bundle(marker: Option<Marker>, files: Files, flat: bool)

  datatype Outcome = Installed | Upgraded | Replaced

  datatype Journal = Journal(
    digest: Digest,
    outcome: Outcome,
    previousVersion: Option<Version>,
    previousDigest: Option<Digest>)

  datatype JournalFile = Readable(journal: Journal) | Unreadable

  /** The directory installed into. */
  datatype Parent = Parent(
    destination: Resource,
    stages: map<Id, Resource>,
    backups: map<Id, Resource>,
    journals: seq<(Id, JournalFile)>)

  /** The program that installs, with the version and the files it embeds. */
  datatype Binary = Binary(order: real, text: string, files: Files) {
    function Version(): Version {
      Semantic(order, text)
    }

    function Bundle(): Resource {
      Resource.Bundle(Some(Marker(1, "lspctl", Version(), Of(files))), files, true)
    }
  }

  function At(slots: map<Id, Resource>, id: Id): Resource {
    if id in slots then slots[id] else Absent
  }

  function Without(journals: seq<(Id, JournalFile)>, id: Id): seq<(Id, JournalFile)> {
    if journals == [] then []
    else (if journals[0].0 == id then [] else [journals[0]]) + Without(journals[1..], id)
  }

  // Decisions

  predicate Managed(marker: Marker) {
    marker.formatVersion == 1 && marker.manager == "lspctl"
  }

  predicate ValidManaged(r: Resource) {
    r.Bundle? && r.marker.Some? && Managed(r.marker.value) && r.marker.value.digest == Of(r.files)
  }

  /** A managed installation whose files are those its marker vouches for, of a version
      before the program's. */
  predicate OlderManaged(r: Resource, binary: Binary) {
    && ValidManaged(r)
    && r.marker.value.version.Semantic? && r.marker.value.version.order < binary.order
  }

  function ReplacementOutcome(r: Resource, replace: bool, binary: Binary): Result<Outcome> {
    if r.Absent? then Ok(Installed)
    else if OlderManaged(r, binary) then Ok(Upgraded)
    else if replace then Ok(Replaced)
    else Err
  }

  predicate IsEmbedded(r: Resource, binary: Binary) {
    && r.Bundle? && r.flat && r.marker.Some? && Managed(r.marker.value)
    && r.marker.value.version == binary.Version()
    && r.marker.value.digest == Of(binary.files) && r.files == binary.files
  }

  lemma OlderMeans(r: Resource, binary: Binary)
    ensures OlderManaged(r, binary) <==>
      r.Bundle? && exists order, text ::
        order < binary.order && r.marker == Some(Marker(1, "lspctl", Semantic(order, text), Of(r.files)))
  {
    if OlderManaged(r, binary) {
      var version := r.marker.value.version;
      assert r.marker == Some(Marker(1, "lspctl", Semantic(version.order, version.text), Of(r.files)));
    }
  }

  /** The program's own bundle is one particular directory. */
  lemma EmbeddedIsBundle(r: Resource, binary: Binary)
    ensures IsEmbedded(r, binary) <==> r == binary.Bundle()
  {
  }

  function PreviousVersion(r: Resource): Option<Version> {
    if r.Bundle? && r.marker.Some? && Managed(r.marker.value) && r.marker.value.version.Semantic?
    then Some(r.marker.value.version) else None
  }

  function PreviousDigest(r: Resource): Option<Digest> {
    if r.Bundle? && r.marker.Some? && Managed(r.marker.value)
      && (r.marker.value.digest.Of? || r.marker.value.digest.wellFormed)
    then Some(r.marker.value.digest) else None
  }

  /** A backup that is the verified predecessor its journal names. */
  predicate Recognized(r: Resource, journal: Journal, binary: Binary) {
    && OlderManaged(r, binary)
    && journal.previousDigest == Some(r.marker.value.digest)
    && journal.previousVersion == Some(r.marker.value.version)
  }

  // Effects

  datatype Effect =
    | Stage(id: Id)
    | WriteJournal(id: Id, journal: Journal)
    | MoveAside(id: Id)
    | Install(id: Id)
    | RemoveBackup(id: Id)
    | RemoveStage(id: Id)
    | RemoveJournal(id: Id)

  function Apply(p: Parent, effect: Effect, binary: Binary): Parent {
    match effect
    case Stage(id) => p.(stages := p.stages[id := binary.Bundle()])
    case WriteJournal(id, journal) => p.(journals := p.journals + [(id, Readable(journal))])
    case MoveAside(id) => p.(destination := Absent, backups := p.backups[id := p.destination])
    case Install(id) => p.(destination := At(p.stages, id), stages := p.stages - {id})
    case RemoveBackup(id) => p.(backups := p.backups - {id})
    case RemoveStage(id) => p.(stages := p.stages - {id})
    case RemoveJournal(id) => p.(journals := Without(p.journals, id))
  }

  function ApplyAll(p: Parent, effects: seq<Effect>, binary: Binary): Parent
    decreases |effects|
  {
    if effects == [] then p else ApplyAll(Apply(p, effects[0], binary), effects[1..], binary)
  }

  lemma {:induction false} ApplyThen(p: Parent, effects: seq<Effect>, more: seq<Effect>, binary: Binary)
    ensures ApplyAll(p, effects + more, binary) == ApplyAll(ApplyAll(p, effects, binary), more, binary)
    decreases |effects|
  {
    if effects == [] {
      assert [] + more == more;
    } else {
      assert (effects + more)[1..] == effects[1..] + more;
      ApplyThen(Apply(p, effects[0], binary), effects[1..], more, binary);
    }
  }

  function Min(a: nat, b: nat): nat {
    if a < b then a else b
  }

  // Finishing a journal

  /** What is checked before anything is changed. */
  predicate MayFinish(p: Parent, id: Id, journal: Journal, replace: bool, binary: Binary) {
    var stage, backup := At(p.stages, id), At(p.backups, id);
    && journal.digest == Of(binary.files)
    && !stage.Unsafe? && (stage.Bundle? ==> IsEmbedded(stage, binary))
    && !p.destination.Unsafe? && !backup.Unsafe?
    && (!IsEmbedded(p.destination, binary) ==>
        && (p.destination.Absent? || backup.Absent?)
        && ReplacementOutcome(p.destination, replace, binary).Ok?)
    && (backup.Bundle? ==> Recognized(backup, journal, binary) || replace)
  }

  function When(condition: bool, effect: Effect): seq<Effect> {
    if condition then [effect] else []
  }

  /** What finishing a journal then does. */
  function Finish(p: Parent, id: Id, binary: Binary): seq<Effect> {
    var stage, backup := At(p.stages, id), At(p.backups, id);
    if IsEmbedded(p.destination, binary) then
      When(!backup.Absent?, RemoveBackup(id)) + When(!stage.Absent?, RemoveStage(id)) + [RemoveJournal(id)]
    else
      When(stage.Absent?, Stage(id)) + When(!p.destination.Absent?, MoveAside(id)) + [Install(id)]
      + When(!backup.Absent? || !p.destination.Absent?, RemoveBackup(id)) + [RemoveJournal(id)]
  }

  // Installing

  predicate IsUnchanged(r: Resource, binary: Binary) {
    && r.Bundle? && r.marker.Some? && Managed(r.marker.value)
    && r.marker.value.version == binary.Version()
    && r.marker.value.digest == Of(binary.files) && r.files == binary.files
  }

  function NewJournal(r: Resource, outcome: Outcome, binary: Binary): Journal {
    Journal(Of(binary.files), outcome, PreviousVersion(r), PreviousDigest(r))
  }

  function Started(p: Parent, id: Id, outcome: Outcome, binary: Binary): seq<Effect> {
    [Stage(id), WriteJournal(id, NewJournal(p.destination, outcome, binary))]
  }

  predicate Pending(p: Parent, id: Id, journal: Journal) {
    p.journals == [(id, Readable(journal))]
  }

  /** One run of the installer, which draws the identifier `id` if it starts anew: what it
      does when nothing stops it, or that it refuses. */
  function Plan(p: Parent, id: Id, replace: bool, binary: Binary): Result<seq<Effect>> {
    if |p.journals| > 1 || (|p.journals| == 1 && p.journals[0].1.Unreadable?) then Err
    else if |p.journals| == 1 then
      if MayFinish(p, p.journals[0].0, p.journals[0].1.journal, replace, binary)
      then Ok(Finish(p, p.journals[0].0, binary)) else Err
    else if p.destination.Unsafe? then Err
    else if IsUnchanged(p.destination, binary) then Ok([])
    else
      var outcome :- ReplacementOutcome(p.destination, replace, binary);
      var started := Started(p, id, outcome, binary);
      var prepared := ApplyAll(p, started, binary);
      if MayFinish(prepared, id, NewJournal(p.destination, outcome, binary), replace, binary)
      then Ok(started + Finish(prepared, id, binary)) else Err
  }

  predicate Fresh(p: Parent, id: Id) {
    id !in p.stages && id !in p.backups && forall k :: 0 <= k < |p.journals| ==> p.journals[k].0 != id
  }

  // Stopping and running again

  /** A predecessor still in place is one its journal names, or consent does not depend on
      it. */
  predicate Settled(p: Parent, journal: Journal, replace: bool, binary: Binary) {
    replace || p.destination.Absent? || IsEmbedded(p.destination, binary) || Recognized(p.destination, journal, binary)
  }

  /** A run that would finish, and whose successors with the same consent would. */
  predicate Ready(p: Parent, id: Id, journal: Journal, replace: bool, binary: Binary) {
    Pending(p, id, journal) && MayFinish(p, id, journal, replace, binary) && Settled(p, journal, replace, binary)
  }

  /** The new bundle is in place and nothing is left of the installation. */
  predicate Finished(p: Parent, id: Id, binary: Binary) {
    && IsEmbedded(p.destination, binary) && p.journals == []
    && At(p.stages, id) == Absent && At(p.backups, id) == Absent
  }

  predicate SameElsewhere(p: Parent, q: Parent, id: Id) {
    q.stages - {id} == p.stages - {id} && q.backups - {id} == p.backups - {id}
  }

  /** `q` is `p` after the next effect of a run on it, and a new run on `q` would do just
      what was left. */
  predicate Continues(p: Parent, q: Parent, id: Id, journal: Journal, replace: bool, binary: Binary) {
    && SameElsewhere(p, q, id)
    && Ready(q, id, journal, replace, binary)
    && Finish(p, id, binary)[1..] == Finish(q, id, binary)
  }

  lemma AfterStage(p: Parent, id: Id, journal: Journal, replace: bool, binary: Binary)
    requires Ready(p, id, journal, replace, binary)
    requires !IsEmbedded(p.destination, binary) && At(p.stages, id).Absent?
    ensures Finish(p, id, binary)[0] == Stage(id)
    ensures Continues(p, Apply(p, Stage(id), binary), id, journal, replace, binary)
  {
  }

  lemma AfterMoveAside(p: Parent, id: Id, journal: Journal, replace: bool, binary: Binary)
    requires Ready(p, id, journal, replace, binary)
    requires !IsEmbedded(p.destination, binary) && !At(p.stages, id).Absent? && !p.destination.Absent?
    ensures Finish(p, id, binary)[0] == MoveAside(id)
    ensures Continues(p, Apply(p, MoveAside(id), binary), id, journal, replace, binary)
  {
  }

  lemma AfterInstall(p: Parent, id: Id, journal: Journal, replace: bool, binary: Binary)
    requires Ready(p, id, journal, replace, binary)
    requires p.destination.Absent? && !At(p.stages, id).Absent?
    ensures Finish(p, id, binary)[0] == Install(id)
    ensures Continues(p, Apply(p, Install(id), binary), id, journal, replace, binary)
  {
  }

  lemma AfterRemoveBackup(p: Parent, id: Id, journal: Journal, replace: bool, binary: Binary)
    requires Ready(p, id, journal, replace, binary)
    requires IsEmbedded(p.destination, binary) && !At(p.backups, id).Absent?
    ensures Finish(p, id, binary)[0] == RemoveBackup(id)
    ensures Continues(p, Apply(p, RemoveBackup(id), binary), id, journal, replace, binary)
  {
  }

  lemma AfterRemoveStage(p: Parent, id: Id, journal: Journal, replace: bool, binary: Binary)
    requires Ready(p, id, journal, replace, binary)
    requires IsEmbedded(p.destination, binary) && At(p.backups, id).Absent? && !At(p.stages, id).Absent?
    ensures Finish(p, id, binary)[0] == RemoveStage(id)
    ensures Continues(p, Apply(p, RemoveStage(id), binary), id, journal, replace, binary)
  {
  }

  lemma AfterRemoveJournal(p: Parent, id: Id, journal: Journal, replace: bool, binary: Binary)
    requires Ready(p, id, journal, replace, binary)
    requires IsEmbedded(p.destination, binary) && At(p.backups, id).Absent? && At(p.stages, id).Absent?
    ensures Finish(p, id, binary) == [RemoveJournal(id)]
    ensures Finished(Apply(p, RemoveJournal(id), binary), id, binary)
    ensures SameElsewhere(p, Apply(p, RemoveJournal(id), binary), id)
  {
    assert Without(p.journals[1..], id) == [];
  }

  /** After each effect of a run, a new run would do just what was left. */
  lemma FinishStep(p: Parent, id: Id, journal: Journal, replace: bool, binary: Binary)
    requires Ready(p, id, journal, replace, binary)
    ensures
      var effects, q := Finish(p, id, binary), Apply(p, Finish(p, id, binary)[0], binary);
      if |effects| == 1 then Finished(q, id, binary) && SameElsewhere(p, q, id)
      else Continues(p, q, id, journal, replace, binary)
  {
    if IsEmbedded(p.destination, binary) {
      if !At(p.backups, id).Absent? {
        AfterRemoveBackup(p, id, journal, replace, binary);
      } else if !At(p.stages, id).Absent? {
        AfterRemoveStage(p, id, journal, replace, binary);
      } else {
        AfterRemoveJournal(p, id, journal, replace, binary);
      }
    } else if At(p.stages, id).Absent? {
      AfterStage(p, id, journal, replace, binary);
    } else if !p.destination.Absent? {
      AfterMoveAside(p, id, journal, replace, binary);
    } else {
      AfterInstall(p, id, journal, replace, binary);
    }
  }

  function After(p: Parent, effects: seq<Effect>, steps: nat, binary: Binary): Parent {
    ApplyAll(p, effects[..Min(steps, |effects|)], binary)
  }

  /** A run stopped after any number of effects leaves what the next run, with the same
      consent, takes up exactly there. */
  lemma {:induction false} StoppedIsReady(
      p: Parent, id: Id, journal: Journal, replace: bool, binary: Binary, steps: nat)
    requires Ready(p, id, journal, replace, binary)
    ensures
      var effects := Finish(p, id, binary);
      LeftReady(p, After(p, effects, steps, binary), id, journal, replace, binary, effects, steps)
    decreases steps
  {
    var effects := Finish(p, id, binary);
    if steps == 0 {
      assert effects[..0] == [] && effects[0..] == effects;
    } else {
      var q := Apply(p, effects[0], binary);
      FinishStep(p, id, journal, replace, binary);
      FirstThen(p, effects, steps, binary);
      if |effects| > 1 {
        StoppedIsReady(q, id, journal, replace, binary, steps - 1);
        FirstLeftReady(p, q, After(p, effects, steps, binary), id, journal, replace, binary, effects, steps);
      }
    }
  }

  /** What a run that stopped on `q` after some of the effects has left to do. */
  predicate LeftReady(
      p: Parent, q: Parent, id: Id, journal: Journal, replace: bool, binary: Binary, effects: seq<Effect>, steps: nat)
  {
    && SameElsewhere(p, q, id)
    && if steps < |effects| then Ready(q, id, journal, replace, binary) && Finish(q, id, binary) == effects[steps..]
       else Finished(q, id, binary)
  }

  lemma FirstLeftReady(
      p: Parent, q: Parent, r: Parent, id: Id, journal: Journal, replace: bool, binary: Binary,
      effects: seq<Effect>, steps: nat)
    requires 0 < steps && |effects| > 1 && SameElsewhere(p, q, id)
    requires LeftReady(q, r, id, journal, replace, binary, effects[1..], steps - 1)
    ensures LeftReady(p, r, id, journal, replace, binary, effects, steps)
  {
    assert steps < |effects| ==> effects[1..][steps - 1..] == effects[steps..];
  }

  lemma FirstThen(p: Parent, effects: seq<Effect>, steps: nat, binary: Binary)
    requires effects != [] && steps > 0
    ensures After(p, effects, steps, binary) == After(Apply(p, effects[0], binary), effects[1..], steps - 1, binary)
    ensures |effects| == 1 ==> After(p, effects, steps, binary) == Apply(p, effects[0], binary)
  {
    assert effects[..Min(steps, |effects|)][1..] == effects[1..][..Min(steps - 1, |effects| - 1)];
  }

  /** One run: the identifier it would draw, and after how many effects it stops. */
  datatype Attempt = Attempt(id: Id, steps: nat)

  function Resume(p: Parent, attempt: Attempt, replace: bool, binary: Binary): Parent {
    match Plan(p, attempt.id, replace, binary)
    case Ok(effects) => After(p, effects, attempt.steps, binary)
    case Err => p
  }

  function ResumeAll(p: Parent, attempts: seq<Attempt>, replace: bool, binary: Binary): Parent
    decreases |attempts|
  {
    if attempts == [] then p else ResumeAll(Resume(p, attempts[0], replace, binary), attempts[1..], replace, binary)
  }

  function Total(attempts: seq<Attempt>): nat {
    if attempts == [] then 0 else attempts[0].steps + Total(attempts[1..])
  }

  lemma {:induction false} FinishedStays(p: Parent, id: Id, attempts: seq<Attempt>, replace: bool, binary: Binary)
    requires Finished(p, id, binary)
    ensures ResumeAll(p, attempts, replace, binary) == p
    decreases |attempts|
  {
    if attempts != [] {
      assert Plan(p, attempts[0].id, replace, binary) == Ok([]);
      FinishedStays(p, id, attempts[1..], replace, binary);
    }
  }

  /** However often runs with the same consent are stopped, together they do what one run
      would have done, and they end with the new bundle and nothing left over. */
  lemma {:induction false} InterruptionsCompose(
      p: Parent, id: Id, journal: Journal, attempts: seq<Attempt>, replace: bool, binary: Binary)
    requires Ready(p, id, journal, replace, binary)
    ensures ResumeAll(p, attempts, replace, binary) == After(p, Finish(p, id, binary), Total(attempts), binary)
    ensures Total(attempts) >= |Finish(p, id, binary)| ==> Finished(ResumeAll(p, attempts, replace, binary), id, binary)
    decreases |attempts|
  {
    var effects := Finish(p, id, binary);
    StoppedIsReady(p, id, journal, replace, binary, Total(attempts));
    if attempts == [] {
      assert effects[..0] == [];
    } else {
      var first := attempts[0].steps;
      var q := After(p, effects, first, binary);
      assert Resume(p, attempts[0], replace, binary) == q;
      StoppedIsReady(p, id, journal, replace, binary, first);
      if first < |effects| {
        AfterAfter(p, effects, first, Total(attempts[1..]), binary);
        InterruptionsCompose(q, id, journal, attempts[1..], replace, binary);
      } else {
        FinishedStays(q, id, attempts[1..], replace, binary);
        assert effects[..Min(first, |effects|)] == effects[..Min(Total(attempts), |effects|)];
      }
    }
  }

  lemma AfterAfter(p: Parent, effects: seq<Effect>, m: nat, n: nat, binary: Binary)
    requires m <= |effects|
    ensures After(After(p, effects, m, binary), effects[m..], n, binary) == After(p, effects, m + n, binary)
  {
    var k := Min(n, |effects| - m);
    assert effects[..m + k] == effects[..m] + effects[m..][..k];
    ApplyThen(p, effects[..m], effects[m..][..k], binary);
  }

  // From the start

  lemma {:induction false} ApplyTwo(p: Parent, a: Effect, b: Effect, binary: Binary)
    ensures ApplyAll(p, [a, b], binary) == Apply(Apply(p, a, binary), b, binary)
  {
    assert [a, b][1..] == [b] && [b][1..] == [];
    assert ApplyAll(Apply(p, a, binary), [b], binary) == ApplyAll(Apply(Apply(p, a, binary), b, binary), [], binary);
  }

  /** What a fresh run has prepared is ready to be finished. */
  lemma PreparedIsReady(p: Parent, id: Id, outcome: Outcome, replace: bool, binary: Binary)
    requires p.journals == [] && Fresh(p, id) && !p.destination.Unsafe? && !IsUnchanged(p.destination, binary)
    requires ReplacementOutcome(p.destination, replace, binary) == Ok(outcome)
    ensures
      var prepared := ApplyAll(p, Started(p, id, outcome, binary), binary);
      Ready(prepared, id, NewJournal(p.destination, outcome, binary), replace, binary)
  {
    var journal := NewJournal(p.destination, outcome, binary);
    ApplyTwo(p, Stage(id), WriteJournal(id, journal), binary);
  }

  /** A fresh run is refused only for what stands at the destination: something that is not
      a directory tree, or, without consent, a bundle that is neither the program's own nor
      an older one whose files are those its marker vouches for. */
  lemma FreshIsAccepted(p: Parent, id: Id, replace: bool, binary: Binary)
    requires p.journals == [] && Fresh(p, id)
    ensures Plan(p, id, replace, binary).Ok? <==>
      match p.destination
      case Absent => true
      case Unsafe => false
      case Bundle(None, _, _) => replace
      case Bundle(Some(Marker(format, manager, version, digest)), files, _) =>
        replace ||
        (format == 1 && manager == "lspctl" && digest == Of(files) && version.Semantic? &&
         (version.order < binary.order || (version == binary.Version() && files == binary.files)))
  {
    var outcome := ReplacementOutcome(p.destination, replace, binary);
    if !p.destination.Unsafe? && !IsUnchanged(p.destination, binary) && outcome.Ok? {
      PreparedIsReady(p, id, outcome.value, replace, binary);
    }
  }

  /** A bundle without a marker, one whose files are not those its marker vouches for, and
      one that is not of an earlier version, unless it is the program's own. */
  predicate NotOlder(r: Resource, binary: Binary) {
    && r.Bundle?
    && (r.marker.Some? ==>
        var Marker(_, _, version, digest) := r.marker.value;
        || digest != Of(r.files) || version.Malformed?
        || (version.order >= binary.order && (version != binary.Version() || r.files != binary.files)))
  }

  /** Whatever else is found, a run without consent refuses such a bundle at the
      destination, or in the backup of the journal it would have to finish. */
  lemma NotOlderIsRefused(p: Parent, id: Id, binary: Binary)
    ensures NotOlder(p.destination, binary) ==> Plan(p, id, false, binary).Err?
    ensures |p.journals| == 1 && NotOlder(At(p.backups, p.journals[0].0), binary) ==> Plan(p, id, false, binary).Err?
  {
  }

  /** A run without consent finishes a journal only for the program's own files, and over
      nothing but its own bundle or an older managed installation at the destination, and in
      the backup the one the journal names. */
  lemma AcceptedWithoutConsent(p: Parent, id: Id, journal: Journal, drawn: Id, binary: Binary)
    requires Pending(p, id, journal) && Plan(p, drawn, false, binary).Ok?
    ensures journal.digest == Of(binary.files) && At(p.stages, id) in {Absent, binary.Bundle()}
    ensures p.destination in {Absent, binary.Bundle()} || OlderManaged(p.destination, binary)
    ensures
      var backup := At(p.backups, id);
      backup.Absent? || (OlderManaged(backup, binary) && journal.previousVersion == Some(backup.marker.value.version) &&
                         journal.previousDigest == Some(Of(backup.files)))
    ensures p.destination in {Absent, binary.Bundle()} || At(p.backups, id).Absent?
  {
  }

  /** What a fresh run does when it installs: two effects, and then it finishes. */
  lemma FreshPlan(
      p: Parent, id: Id, replace: bool, binary: Binary)
    returns (prepared: Parent, journal: Journal, effects: seq<Effect>)
    requires p.journals == [] && Fresh(p, id) && !IsUnchanged(p.destination, binary)
    requires Plan(p, id, replace, binary).Ok?
    ensures Plan(p, id, replace, binary) == Ok(effects) && |effects| == 2 + |Finish(prepared, id, binary)|
    ensures Ready(prepared, id, journal, replace, binary)
    ensures prepared == Apply(Apply(p, Stage(id), binary), WriteJournal(id, journal), binary)
    ensures
      var outcome := ReplacementOutcome(p.destination, replace, binary);
      outcome.Ok? && journal == NewJournal(p.destination, outcome.value, binary)
    ensures effects[0] == Stage(id)
    ensures
      var finish := Finish(prepared, id, binary);
      forall n: nat :: After(p, effects, 2 + n, binary) == After(prepared, finish, n, binary)
  {
    effects := Plan(p, id, replace, binary).value;
    var outcome := ReplacementOutcome(p.destination, replace, binary).value;
    var started := Started(p, id, outcome, binary);
    journal, prepared := NewJournal(p.destination, outcome, binary), ApplyAll(p, started, binary);
    PreparedIsReady(p, id, outcome, replace, binary);
    ApplyTwo(p, started[0], started[1], binary);
    var rest := Finish(prepared, id, binary);
    assert effects == started + rest;
    forall n: nat ensures After(p, effects, 2 + n, binary) == After(prepared, rest, n, binary) {
      StartThen(p, started, rest, n, binary);
    }
  }

  lemma StartThen(p: Parent, started: seq<Effect>, rest: seq<Effect>, n: nat, binary: Binary)
    ensures After(p, started + rest, |started| + n, binary) == After(ApplyAll(p, started, binary), rest, n, binary)
  {
    var taken := rest[..Min(n, |rest|)];
    assert (started + rest)[..Min(|started| + n, |started + rest|)] == started + taken;
    ApplyThen(p, started, taken, binary);
  }

  /** An installation stopped any number of times once its journal is durable does, run by
      run, what it would have done in one, and ends with the new bundle and nothing left. */
  lemma InstallationResumes(
      p: Parent, first: Attempt, attempts: seq<Attempt>, replace: bool, binary: Binary)
    returns (effects: seq<Effect>)
    requires p.journals == [] && Fresh(p, first.id) && !IsUnchanged(p.destination, binary)
    requires Plan(p, first.id, replace, binary).Ok? && first.steps >= 2
    ensures Plan(p, first.id, replace, binary) == Ok(effects)
    ensures
      var q := ResumeAll(Resume(p, first, replace, binary), attempts, replace, binary);
      && q == After(p, effects, first.steps + Total(attempts), binary)
      && (first.steps + Total(attempts) >= |effects| ==> Finished(q, first.id, binary))
  {
    var prepared, journal;
    prepared, journal, effects := FreshPlan(p, first.id, replace, binary);
    PlannedResumes(p, effects, prepared, first, journal, attempts, replace, binary);
  }

  lemma PlannedResumes(
      p: Parent, effects: seq<Effect>, prepared: Parent, first: Attempt, journal: Journal, attempts: seq<Attempt>,
      replace: bool, binary: Binary)
    requires Ready(prepared, first.id, journal, replace, binary)
    requires first.steps >= 2 && |effects| == 2 + |Finish(prepared, first.id, binary)|
    requires
      var finish := Finish(prepared, first.id, binary);
      forall n: nat :: After(p, effects, 2 + n, binary) == After(prepared, finish, n, binary)
    ensures
      var q := ResumeAll(After(p, effects, first.steps, binary), attempts, replace, binary);
      && q == After(p, effects, first.steps + Total(attempts), binary)
      && (first.steps + Total(attempts) >= |effects| ==> Finished(q, first.id, binary))
  {
    var more := first.steps - 2;
    assert After(p, effects, 2 + more, binary) == After(p, effects, first.steps, binary);
    assert After(p, effects, 2 + (more + Total(attempts)), binary) ==
      After(p, effects, first.steps + Total(attempts), binary);
    PreparedResumes(prepared, first.id, journal, more, attempts, replace, binary);
  }

  /** An installation that is up to date is left alone. */
  lemma {:induction false} UnchangedStays(p: Parent, attempts: seq<Attempt>, replace: bool, binary: Binary)
    requires p.journals == [] && IsUnchanged(p.destination, binary)
    ensures ResumeAll(p, attempts, replace, binary) == p
    decreases |attempts|
  {
    if attempts != [] {
      UnchangedStays(p, attempts[1..], replace, binary);
    }
  }

  lemma PreparedResumes(
      p: Parent, id: Id, journal: Journal, steps: nat, attempts: seq<Attempt>, replace: bool, binary: Binary)
    requires Ready(p, id, journal, replace, binary)
    ensures
      var effects, total := Finish(p, id, binary), steps + Total(attempts);
      var q := ResumeAll(After(p, effects, steps, binary), attempts, replace, binary);
      && q == After(p, effects, total, binary)
      && (total >= |effects| ==> Finished(q, id, binary))
  {
    var all := [Attempt(id, steps)] + attempts;
    assert all[1..] == attempts;
    assert Resume(p, all[0], replace, binary) == After(p, Finish(p, id, binary), steps, binary);
    InterruptionsCompose(p, id, journal, all, replace, binary);
  }

  // What is never lost

  /** Whatever is no verified older managed installation stays where it is. */
  ghost predicate Untouched(p: Parent, q: Parent, binary: Binary) {
    && (!p.destination.Absent? && !OlderManaged(p.destination, binary) ==> q.destination == p.destination)
    && (forall id :: Precious(At(p.backups, id), binary) ==> At(q.backups, id) == At(p.backups, id))
  }

  predicate Precious(r: Resource, binary: Binary) {
    !r.Absent? && !OlderManaged(r, binary)
  }

  predicate SparesDestination(effects: seq<Effect>) {
    forall k :: 0 <= k < |effects| ==> !effects[k].MoveAside? && !effects[k].Install?
  }

  predicate SparesBackup(effects: seq<Effect>, id: Id) {
    forall k :: 0 <= k < |effects| ==> effects[k] != MoveAside(id) && effects[k] != RemoveBackup(id)
  }

  lemma {:induction false} DestinationSpared(p: Parent, effects: seq<Effect>, binary: Binary)
    requires SparesDestination(effects)
    ensures ApplyAll(p, effects, binary).destination == p.destination
    decreases |effects|
  {
    if effects != [] {
      assert SparesDestination(effects[1..]);
      DestinationSpared(Apply(p, effects[0], binary), effects[1..], binary);
    }
  }

  lemma {:induction false} BackupSpared(p: Parent, effects: seq<Effect>, id: Id, binary: Binary)
    requires SparesBackup(effects, id)
    ensures At(ApplyAll(p, effects, binary).backups, id) == At(p.backups, id)
    decreases |effects|
  {
    if effects != [] {
      assert SparesBackup(effects[1..], id);
      BackupSpared(Apply(p, effects[0], binary), effects[1..], id, binary);
    }
  }

  lemma FinishSparesOthers(p: Parent, id: Id, other: Id, binary: Binary)
    requires other != id
    ensures SparesBackup(Finish(p, id, binary), other)
  {
  }

  lemma FinishSpares(p: Parent, id: Id, journal: Journal, binary: Binary, steps: nat)
    requires MayFinish(p, id, journal, false, binary)
    ensures Untouched(p, After(p, Finish(p, id, binary), steps, binary), binary)
  {
    var effects := Finish(p, id, binary);
    var taken := effects[..Min(steps, |effects|)];
    if Precious(p.destination, binary) {
      assert SparesDestination(effects);
      DestinationSpared(p, taken, binary);
    }
    forall other | Precious(At(p.backups, other), binary)
      ensures At(ApplyAll(p, taken, binary).backups, other) == At(p.backups, other)
    {
      FinishSparesOthers(p, id, other, binary);
      BackupSpared(p, taken, other, binary);
    }
  }

  /** No run without consent, stopped anywhere, on whatever it finds, touches what is not a
      verified older managed installation. */
  lemma RunSpares(p: Parent, attempt: Attempt, binary: Binary)
    ensures Untouched(p, Resume(p, attempt, false, binary), binary)
  {
    if Plan(p, attempt.id, false, binary).Ok? {
      var effects := Plan(p, attempt.id, false, binary).value;
      if |p.journals| == 1 {
        FinishSpares(p, p.journals[0].0, p.journals[0].1.journal, binary, attempt.steps);
      } else if !IsUnchanged(p.destination, binary) {
        FreshSpares(p, attempt, binary);
      }
    }
  }

  lemma FreshSpares(p: Parent, attempt: Attempt, binary: Binary)
    requires p.journals == [] && Plan(p, attempt.id, false, binary).Ok? && !IsUnchanged(p.destination, binary)
    ensures Untouched(p, Resume(p, attempt, false, binary), binary)
  {
    var effects := Plan(p, attempt.id, false, binary).value;
    var outcome := ReplacementOutcome(p.destination, false, binary).value;
    var started := Started(p, attempt.id, outcome, binary);
    var prepared := ApplyAll(p, started, binary);
    ApplyTwo(p, started[0], started[1], binary);
    assert effects == started + Finish(prepared, attempt.id, binary);
    if attempt.steps >= 2 {
      assert effects[..2] == started && effects[2..] == Finish(prepared, attempt.id, binary);
      FinishSpares(prepared, attempt.id, NewJournal(p.destination, outcome, binary), binary, attempt.steps - 2);
      AfterAfter(p, effects, 2, attempt.steps - 2, binary);
    } else {
      PrefixOfStarted(p, effects, attempt.steps, binary);
    }
  }

  lemma PrefixOfStarted(p: Parent, effects: seq<Effect>, steps: nat, binary: Binary)
    requires steps < 2 <= |effects| && effects[0].Stage?
    ensures
      var q := After(p, effects, steps, binary);
      q.destination == p.destination && q.backups == p.backups && q.journals == p.journals
  {
    if steps == 1 {
      assert effects[..1][1..] == [];
      FirstThen(p, effects, 1, binary);
      assert ApplyAll(Apply(p, effects[0], binary), [], binary) == Apply(p, effects[0], binary);
      assert effects[1..][..0] == [];
    }
  }

  /** No sequence of runs without consent ever touches it. */
  lemma {:induction false} RunsSpare(p: Parent, attempts: seq<Attempt>, binary: Binary)
    ensures Untouched(p, ResumeAll(p, attempts, false, binary), binary)
    decreases |attempts|
  {
    if attempts != [] {
      var q := Resume(p, attempts[0], false, binary);
      RunSpares(p, attempts[0], binary);
      RunsSpare(q, attempts[1..], binary);
      SparedTwice(p, q, ResumeAll(q, attempts[1..], false, binary), binary);
    }
  }

  /** So neither a newer installation nor a modified one is ever touched: at the destination
      it stops every run, and in a backup it stays. */
  lemma {:induction false} NotOlderStays(p: Parent, attempts: seq<Attempt>, binary: Binary)
    ensures NotOlder(p.destination, binary) ==> ResumeAll(p, attempts, false, binary) == p
    ensures forall id :: NotOlder(At(p.backups, id), binary) ==>
      At(ResumeAll(p, attempts, false, binary).backups, id) == At(p.backups, id)
    decreases |attempts|
  {
    RunsSpare(p, attempts, binary);
    forall id | NotOlder(At(p.backups, id), binary) ensures Precious(At(p.backups, id), binary) {
    }
    if attempts != [] && NotOlder(p.destination, binary) {
      NotOlderIsRefused(p, attempts[0].id, binary);
      NotOlderStays(p, attempts[1..], binary);
    }
  }

  lemma SparedTwice(p: Parent, q: Parent, r: Parent, binary: Binary)
    requires Untouched(p, q, binary) && Untouched(q, r, binary)
    ensures Untouched(p, r, binary)
  {
    forall id | Precious(At(p.backups, id), binary) ensures At(r.backups, id) == At(p.backups, id) {
      assert Precious(At(q.backups, id), binary);
    }
  }

  /** What stood at the destination is there or in the backup, or the new bundle is in
      place. */
  predicate OneIsThere(was: Resource, p: Parent, id: Id, binary: Binary) {
    p.destination == was || At(p.backups, id) == was || IsEmbedded(p.destination, binary)
  }

  lemma StepKeepsOne(was: Resource, p: Parent, id: Id, journal: Journal, binary: Binary)
    requires Ready(p, id, journal, true, binary) && !was.Absent? && OneIsThere(was, p, id, binary)
    ensures OneIsThere(was, Apply(p, Finish(p, id, binary)[0], binary), id, binary)
  {
  }

  /** With or without consent, there is no moment at which neither the old resource nor the
      new bundle is there whole. */
  lemma {:induction false} NeverNeither(
      was: Resource, p: Parent, id: Id, journal: Journal, replace: bool, binary: Binary, steps: nat)
    requires Pending(p, id, journal) && MayFinish(p, id, journal, replace, binary)
    requires !was.Absent? && OneIsThere(was, p, id, binary)
    ensures OneIsThere(was, After(p, Finish(p, id, binary), steps, binary), id, binary)
    decreases steps
  {
    var effects := Finish(p, id, binary);
    if steps == 0 {
      assert effects[..0] == [];
    } else {
      StepKeepsOne(was, p, id, journal, binary);
      FinishStep(p, id, journal, true, binary);
      FirstThen(p, effects, steps, binary);
      if |effects| > 1 {
        NeverNeither(was, Apply(p, effects[0], binary), id, journal, true, binary, steps - 1);
      }
    }
  }

  // What a later run cannot finish

  predicate CanGoOn(p: Parent, id: Id, steps: nat, replace: bool, binary: Binary) {
    Plan(After(p, Finish(p, id, binary), steps, binary), id, replace, binary).Ok?
  }

  lemma ReadyIsPlanned(p: Parent, id: Id, journal: Journal, replace: bool, binary: Binary, steps: nat)
    requires Ready(p, id, journal, replace, binary)
    ensures CanGoOn(p, id, steps, replace, binary)
  {
    StoppedIsReady(p, id, journal, replace, binary, steps);
  }

  /** A run that starts can be finished with the same consent wherever it is stopped,
      exactly when the predecessor still in place is the one its journal names, or consent
      is given. Journals the installer writes name it (PreparedIsReady). */
  lemma ResumableExactly(p: Parent, id: Id, journal: Journal, replace: bool, binary: Binary)
    requires Pending(p, id, journal) && MayFinish(p, id, journal, replace, binary)
    ensures (forall steps: nat :: CanGoOn(p, id, steps, replace, binary)) <==> Settled(p, journal, replace, binary)
  {
    if Settled(p, journal, replace, binary) {
      forall steps: nat ensures CanGoOn(p, id, steps, replace, binary) {
        ReadyIsPlanned(p, id, journal, replace, binary, steps);
      }
    } else {
      MovedAsideIsStuck(p, id, journal, binary);
    }
  }

  const OLD_FILES: Files := map["SKILL.md" := [1]]
  const OLD_MARKER: Marker := Marker(1, "lspctl", Semantic(1.0, "1.0.0"), Of(OLD_FILES))
  const OLD_BUNDLE: Resource := Bundle(Some(OLD_MARKER), OLD_FILES, true)
  const PROGRAM: Binary := Binary(2.0, "2.0.0", map["SKILL.md" := [2]])
  const FRESH_JOURNAL: Journal := Journal(Of(PROGRAM.files), Installed, None, None)
  const EXCHANGED: Parent := Parent(OLD_BUNDLE, map["1" := PROGRAM.Bundle()], map[], [("1", Readable(FRESH_JOURNAL))])

  /** A first installation was stopped, and an older managed bundle was put in its place: a
      run without consent moves it aside, and the next one refuses. */
  lemma ExchangedNeedsConsent()
    ensures Pending(EXCHANGED, "1", FRESH_JOURNAL) && MayFinish(EXCHANGED, "1", FRESH_JOURNAL, false, PROGRAM)
    ensures !Settled(EXCHANGED, FRESH_JOURNAL, false, PROGRAM)
    ensures CanGoOn(EXCHANGED, "1", 0, false, PROGRAM) && !CanGoOn(EXCHANGED, "1", 1, false, PROGRAM)
  {
    var effects := Finish(EXCHANGED, "1", PROGRAM);
    assert OLD_BUNDLE.files["SKILL.md"] != PROGRAM.files["SKILL.md"];
    assert effects[..0] == [] && effects[1..][..0] == [];
    assert effects[0] == MoveAside("1");
    FirstThen(EXCHANGED, effects, 1, PROGRAM);
  }

  lemma MovedAsideIsStuck(p: Parent, id: Id, journal: Journal, binary: Binary)
    requires Pending(p, id, journal) && MayFinish(p, id, journal, false, binary) && !Settled(p, journal, false, binary)
    ensures exists steps: nat :: !CanGoOn(p, id, steps, false, binary)
  {
    var effects := Finish(p, id, binary);
    if At(p.stages, id).Absent? {
      assert effects[..2] == [Stage(id), MoveAside(id)];
      ApplyTwo(p, Stage(id), MoveAside(id), binary);
      assert !CanGoOn(p, id, 2, false, binary);
    } else {
      assert effects[0] == MoveAside(id);
      FirstThen(p, effects, 1, binary);
      assert effects[1..][..0] == [];
      assert !CanGoOn(p, id, 1, false, binary);
    }
  }

  /** Writing the stage is not one step: a stage left half written by the run that finishes
      a journal is refused by every later run, whatever the consent. */
  lemma {:induction false} HalfStageStays(
      p: Parent, id: Id, journal: Journal, attempts: seq<Attempt>, replace: bool, binary: Binary)
    requires Pending(p, id, journal) && !At(p.stages, id).Absent? && !IsEmbedded(At(p.stages, id), binary)
    ensures ResumeAll(p, attempts, replace, binary) == p
    decreases |attempts|
  {
    if attempts != [] {
      HalfStageStays(p, id, journal, attempts[1..], replace, binary);
    }
  }

  /** With any other remains of the stage in its place, a run can go on exactly if there is
      nothing left or the whole bundle. */
  lemma HalfStage(p: Parent, id: Id, journal: Journal, left: Resource, replace: bool, binary: Binary)
    requires Ready(p, id, journal, replace, binary)
    ensures Plan(p.(stages := p.stages[id := left]), id, replace, binary).Ok? <==>
      left.Absent? || IsEmbedded(left, binary)
  {
  }

  /** A journal is finished by writing the stage anew only if it is gone, which takes
      somebody else: the installer's own runs leave it until the bundle is in place. */
  lemma RestagedIfGone(p: Parent, id: Id, binary: Binary)
    ensures Stage(id) in Finish(p, id, binary) <==> !IsEmbedded(p.destination, binary) && At(p.stages, id).Absent?
  {
  }

  lemma NeverRestaged(p: Parent, id: Id, journal: Journal, replace: bool, binary: Binary, steps: nat)
    requires Ready(p, id, journal, replace, binary) && !At(p.stages, id).Absent?
    ensures
      var q := After(p, Finish(p, id, binary), steps, binary);
      q.journals != [] ==> Stage(id) !in Finish(q, id, binary)
  {
    var effects := Finish(p, id, binary);
    StoppedIsReady(p, id, journal, replace, binary, steps);
    RestagedIfGone(p, id, binary);
    assert forall k :: 0 <= k < |effects[Min(steps, |effects|)..]| ==> effects[Min(steps, |effects|)..][k] in effects;
  }

  /** What is left of a directory whose removal was stopped. */
  ghost predicate LeftOf(left: Resource, whole: Resource) {
    && left.Bundle? && whole.Bundle? && left.files.Keys <= whole.files.Keys
    && (forall name :: name in left.files ==> left.files[name] == whole.files[name])
    && (left.marker == None || left.marker == whole.marker)
  }

  /** Nor is removing the backup: a run can go on from a half removed one exactly with
      consent, or when no file of it is gone. */
  lemma HalfBackup(p: Parent, id: Id, journal: Journal, left: Resource, replace: bool, binary: Binary)
    requires Ready(p, id, journal, replace, binary) && IsEmbedded(p.destination, binary)
    requires LeftOf(left, At(p.backups, id))
    ensures
      var backup := At(p.backups, id);
      Plan(p.(backups := p.backups[id := left]), id, replace, binary).Ok? <==>
      replace || (left.marker == backup.marker && left.files == backup.files)
  {
  }

  // The installer

  /** What a run tells its caller: a finished one gives what its journal says. */
  datatype Report = Unchanged | Done(journal: Journal) | Refused | Stopped

  /** The outcome and the predecessor reported are those of what stood at the destination. */
  ghost predicate Reports(journal: Journal, was: Resource, replace: bool, binary: Binary) {
    && journal.digest == Of(binary.files)
    && (match was
        case Absent => journal.outcome == Installed && journal.previousVersion == None && journal.previousDigest == None
        case Unsafe => false
        case Bundle(None, _, _) =>
          replace && journal.outcome == Replaced && journal.previousVersion == None && journal.previousDigest == None
        case Bundle(Some(Marker(format, manager, version, digest)), files, _) =>
          var managed := format == 1 && manager == "lspctl";
          && (journal.outcome == Upgraded || (journal.outcome == Replaced && replace))
          && (journal.outcome == Upgraded <==>
              managed && digest == Of(files) && version.Semantic? && version.order < binary.order)
          && (forall v :: journal.previousVersion == Some(v) <==> managed && v == version && version.Semantic?)
          && (forall d :: journal.previousDigest == Some(d) <==>
              managed && d == digest && (digest.Unknown? ==> digest.wellFormed)))
  }

  class Installer {
    var parent: Parent
    var steps: nat           // effects until something stops the run
    const binary: Binary

    constructor (parent: Parent, binary: Binary)
      ensures this.parent == parent && this.binary == binary
    {
      this.parent, this.binary, steps := parent, binary, 0;
    }

    /** What the run leaves, from here on. */
    ghost function Goal(id: Id): Parent
      reads this
    {
      After(parent, Finish(parent, id, binary), steps, binary)
    }

    /** How much of the run the steps do not suffice for. */
    ghost function Lacking(id: Id): int
      reads this
    {
      |Finish(parent, id, binary)| - steps
    }

    /** One effect of a run that finishes a journal, if nothing stops the run before it. */
    method Perform(effect: Effect, ghost id: Id, ghost journal: Journal) returns (ok: bool)
      requires Ready(parent, id, journal, true, binary)
      requires effect == Finish(parent, id, binary)[0] && |Finish(parent, id, binary)| > 1
      modifies this
      ensures ok == (old(steps) > 0)
      ensures if ok then parent == Apply(old(parent), effect, binary) else parent == old(parent) == Goal(id)
      ensures Ready(parent, id, journal, true, binary) && Goal(id) == old(Goal(id)) && Lacking(id) == old(Lacking(id))
      ensures !ok ==> Lacking(id) > 0
    {
      if steps == 0 {
        assert Finish(parent, id, binary)[..0] == [];
        return false;
      }
      FinishStep(parent, id, journal, true, binary);
      FirstThen(parent, Finish(parent, id, binary), steps, binary);
      parent := Apply(parent, effect, binary);
      steps := steps - 1;
      return true;
    }

    /** Puts the new bundle in place of the old resource, which becomes the backup. */
    method Replace(id: Id, ghost journal: Journal) returns (ok: bool)
      requires Ready(parent, id, journal, true, binary) && !IsEmbedded(parent.destination, binary)
      modifies this
      ensures Ready(parent, id, journal, true, binary) && Goal(id) == old(Goal(id)) && Lacking(id) == old(Lacking(id))
      ensures ok ==> IsEmbedded(parent.destination, binary) && At(parent.stages, id).Absent?
      ensures ok ==>
        At(parent.backups, id).Absent? == (At(old(parent).backups, id).Absent? && old(parent).destination.Absent?)
      ensures !ok ==> parent == Goal(id) && Lacking(id) > 0
    {
      if At(parent.stages, id).Absent? {
        AfterStage(parent, id, journal, true, binary);
        ok := Perform(Stage(id), id, journal);
        if !ok {
          return;
        }
      }
      if !parent.destination.Absent? {
        AfterMoveAside(parent, id, journal, true, binary);
        ok := Perform(MoveAside(id), id, journal);
        if !ok {
          return;
        }
      }
      AfterInstall(parent, id, journal, true, binary);
      ok := Perform(Install(id), id, journal);
    }

    method Close(id: Id, journal: Journal) returns (report: Report)
      requires Ready(parent, id, journal, true, binary) && IsEmbedded(parent.destination, binary)
      requires At(parent.stages, id).Absent? && At(parent.backups, id).Absent?
      modifies this
      ensures parent == old(Goal(id)) && report == if old(Lacking(id)) > 0 then Stopped else Done(journal)
      ensures report.Done? ==> Finished(parent, id, binary)
    {
      AfterRemoveJournal(parent, id, journal, true, binary);
      if steps == 0 {
        assert Finish(parent, id, binary)[..0] == [];
        return Stopped;
      }
      FirstThen(parent, Finish(parent, id, binary), steps, binary);
      parent := Apply(parent, RemoveJournal(id), binary);
      steps := steps - 1;
      return Done(journal);
    }

    /** Removes what an installation in place has left over. */
    method CleanUp(id: Id, journal: Journal, backupExists: bool, stageExists: bool) returns (report: Report)
      requires Ready(parent, id, journal, true, binary) && IsEmbedded(parent.destination, binary)
      requires backupExists == !At(parent.backups, id).Absent? && stageExists == !At(parent.stages, id).Absent?
      modifies this
      ensures parent == old(Goal(id)) && report == if old(Lacking(id)) > 0 then Stopped else Done(journal)
      ensures report.Done? ==> Finished(parent, id, binary)
    {
      if backupExists {
        AfterRemoveBackup(parent, id, journal, true, binary);
        var ok := Perform(RemoveBackup(id), id, journal);
        if !ok {
          return Stopped;
        }
      }
      if stageExists {
        AfterRemoveStage(parent, id, journal, true, binary);
        var ok := Perform(RemoveStage(id), id, journal);
        if !ok {
          return Stopped;
        }
      }
      report := Close(id, journal);
    }

    /** Checks everything, then does everything. */
    method FinishJournal(id: Id, journal: Journal, replace: bool) returns (report: Report)
      requires Pending(parent, id, journal)
      modifies this
      ensures !MayFinish(old(parent), id, journal, replace, binary) ==> report == Refused && parent == old(parent)
      ensures MayFinish(old(parent), id, journal, replace, binary) ==>
        parent == old(Goal(id)) && report == if old(Lacking(id)) > 0 then Stopped else Done(journal)
      ensures report.Done? ==> Finished(parent, id, binary)
    {
      if !MayFinish(parent, id, journal, replace, binary) {
        return Refused;
      }
      var installed := IsEmbedded(parent.destination, binary);
      var stageExists := !At(parent.stages, id).Absent?;
      var backupExpected := !At(parent.backups, id).Absent? || (!installed && !parent.destination.Absent?);
      if !installed {
        var ok := Replace(id, journal);
        if !ok {
          return Stopped;
        }
      }
      report := CleanUp(id, journal, backupExpected, installed && stageExists);
    }

    /** Stages the new bundle, makes the journal durable and finishes it. */
    method InstallNew(id: Id, outcome: Outcome, replace: bool, budget: nat) returns (report: Report)
      requires parent.journals == [] && Fresh(parent, id) && !IsUnchanged(parent.destination, binary)
      requires !parent.destination.Unsafe? && ReplacementOutcome(parent.destination, replace, binary) == Ok(outcome)
      requires Plan(parent, id, replace, binary).Ok? && steps == budget
      modifies this
      ensures parent == Resume(old(parent), Attempt(id, budget), replace, binary)
      ensures
        var journal := NewJournal(old(parent).destination, outcome, binary);
        report == if budget < |Plan(old(parent), id, replace, binary).value| then Stopped else Done(journal)
      ensures report.Done? ==> Finished(parent, id, binary)
    {
      ghost var prepared, expected, effects := FreshPlan(parent, id, replace, binary);
      ghost var start := parent;
      if steps == 0 {
        return Stopped;
      }
      parent, steps := Apply(parent, Stage(id), binary), steps - 1;
      if steps == 0 {
        FirstThen(start, effects, 1, binary);
        assert effects[1..][..0] == [];
        return Stopped;
      }
      var journal := NewJournal(parent.destination, outcome, binary);
      parent, steps := Apply(parent, WriteJournal(id, journal), binary), steps - 1;
      ApplyTwo(start, Stage(id), WriteJournal(id, journal), binary);
      report := FinishJournal(id, journal, replace);
    }

    /** One run of the installer: what it leaves is what its plan says, or nothing changes.
        What it reports when it ends is what it was asked to finish, or what it found. */
    method InstallTo(id: Id, replace: bool, budget: nat) returns (report: Report)
      requires Fresh(parent, id)
      modifies this
      ensures parent == Resume(old(parent), Attempt(id, budget), replace, binary)
      ensures report == Refused <==> Plan(old(parent), id, replace, binary).Err?
      ensures report == Unchanged <==> Plan(old(parent), id, replace, binary) == Ok([])
      ensures report == Stopped <==>
        Plan(old(parent), id, replace, binary).Ok? && budget < |Plan(old(parent), id, replace, binary).value|
      ensures report.Done? ==>
        if old(parent).journals == [] then
          Finished(parent, id, binary) && Reports(report.journal, old(parent).destination, replace, binary)
        else
          Finished(parent, old(parent).journals[0].0, binary) &&
          Pending(old(parent), old(parent).journals[0].0, report.journal)
    {
      steps := budget;
      if parent.journals != [] {
        if |parent.journals| > 1 || parent.journals[0].1.Unreadable? {
          return Refused;
        }
        var pending, journal := parent.journals[0].0, parent.journals[0].1.journal;
        report := FinishJournal(pending, journal, replace);
        return;
      }
      if parent.destination.Unsafe? {
        return Refused;
      }
      if IsUnchanged(parent.destination, binary) {
        return Unchanged;
      }
      var outcome := ReplacementOutcome(parent.destination, replace, binary);
      if outcome.Err? {
        return Refused;
      }
      PreparedIsReady(parent, id, outcome.value, replace, binary);
      report := InstallNew(id, outcome.value, replace, budget);
    }
  }
}
