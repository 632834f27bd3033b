# Journaled mutations, and the protocols around them

A model in Dafny of how this repository changes a Workspace and gets back from it, and of
the smaller protocols it depends on. `dafny verify dfyconfig.toml` checks everything.

**Commit, rollback and recovery.** A Preview holds an ordered list of Text, Create, Rename
and Delete operations. Commit runs them one by one and keeps a manifest, a symbolic picture
of the tracked paths, in step with the tree; it logs an intent before and a result after
each effect, and moves what is deleted or overwritten to an undo path of its own. Rollback
runs the log backwards, provided log and tree agree. The filesystem is a map from paths to
nodes that carry identity, content and metadata (`Paths`, `Trees`, `Manifests`).
`Operations` and `Transactions` say what an operation does to manifest and tree,
`Simulation` and `Lockstep` that the two agree, `Reversal` and `Rollback` that every effect
can be undone, `CommitLog` and `History` what a log proves, `Backups` and `Provenance` where
the bytes of a text come from. `Workspaces` is the imperative protocol itself: every
write may fail before or after it took hold, and a crash is a failure that nobody reports.
`Overlay` and `TextEdits` compute the texts of a plan before anything runs. What the planner
promises is asked of a plan (`Plans.ValidPlan`), what staging prepares only of the disk the
commit begins on (`Plans.EquippedFrom`); that it stays there is proved.

**The store of Previews, journals and Receipts.** `Applications` is a machine of processes
that interleave at single store steps and crash anywhere; `Ledgers` keeps book in it on how
every commit ended and what becomes of its journal; `Receipts` and `MutationState` prune
chains of Receipts.

**Around it.** `Braces`, `Expansions` and `Globs` match document patterns, `Documents` is the
bounded store of open Documents with its event stream, `Headers` and `Framing` read and write
frames of the Language Server Protocol ("Base Protocol"), `CanonicalValues` is the encoding
that is hashed, `SessionLogs` the bounded log, `SkillInstalls` the installer that can be
interrupted.

## Findings

Five properties do not hold as one would first state them. Each has a concrete input or run
that shows it, and a condition under which it does hold.

- *A valid plan may never commit.* Deleting a directory and creating a file in its place is a
  plan the planner accepts (src/mutation/planner.rs:1254-1305). Once the file is there, a
  tracked path that was below the directory can no longer be inspected, because the error
  is not "not found" (src/mutation/planner.rs:1483-1503). `Collision.ValidPlanCanCollide` is
  such a plan; `Workspaces.Workspace.CommitOperations` shows that an undisturbed commit of a
  valid plan that was staged completes if and only if no operation places a file above a
  tracked path.
- *Staging may read the wrong file.* Aliases are stored already resolved and are resolved
  again when they are looked up. `Swaps.SwapMisleads` is a valid plan that swaps two files
  and is refused; `Overlay.StagingRefinesRun` and `Overlay.FindsTextExactly` give the exact
  condition.
- *A reservation may be abandoned.* A crash between reserving a Preview and writing its first
  journal leaves a Preview that is reserved, while no journal names it
  (`Applications.AbandonedReservation`). An Application whose writes worked returns without
  leaving one exactly if it had begun to reserve the Preview or found it settled
  (`Applications.ReturnIsSettled`); in a run without crashes and failing writes every such
  reservation has an Application under way (`Applications.CalmRunsSettle`); and discarding
  clears one (`Applications.DiscardClears`).
- *Consent may be needed a second time.* If the destination of an interrupted installation
  was exchanged for another older managed bundle, a run without consent moves it aside and
  the next one no longer recognises it (`SkillInstalls.ExchangedNeedsConsent`).
  `SkillInstalls.ResumableExactly` gives the condition, which journals written by the
  installer meet until somebody interferes.
- *Two steps of the installer are not atomic.* A stage left half written while a journal
  exists blocks every later run (`SkillInstalls.HalfStageStays`); a run can go on exactly if
  the stage is gone or whole (`SkillInstalls.HalfStage`). The installer writes a stage under
  a journal only after somebody else has removed it (`SkillInstalls.NeverRestaged`). A half
  removed backup needs consent (`SkillInstalls.HalfBackup`). With removal, rename and staging
  each as one step, every interruption can be finished.

## Assumptions

- Digests are injective; random identifiers are fresh; clocks are parameters or
  nondeterministic; locks are exclusive and fall with their process.
- One rename, one replacement of a state file, one creation is one step. Rewriting a file in
  place is not: it may leave any prefix.
- A resource that the before manifest tracks has no second name in the tree the plan was made
  for: the planner refuses hard links of what it inspects (src/mutation/planner.rs:1526).
  Other resources may have any number of names.
- Counters saturate where the source saturates them: the versions and use clock of
  Documents, the log's counters, the staged bytes.
- The texts of all open Documents together are less than 2^64 bytes, and every length that
  is encoded is below 2^64; `usize` is 64 bits wide.

## Model

| member | source | states |
|---|---|---|
| Workspaces.CommitThenRollback | src/mutation/application.rs:2059-2166 | Rollback inverts commit: wherever the commit of a staged plan stops between two effects, an undisturbed rollback gives back the very tree the commit began with; with an effect pending it changes nothing, and reports success only if every tracked path is, in kind, identity, bytes, metadata and certified members, what it was in that tree anyway |
| Workspaces.Workspace.CommitOperations | src/mutation/application.rs:1353-1467 | Wherever it stops, the log is one the validation accepts, every result in it is true of the disk reached, and a pending operation has got no further than one of its few intermediate states; a valid plan, staged when it begins and not disturbed, is committed to its end exactly when no operation collides, and then the disk is the one the plan describes |
| Workspaces.Workspace.CommitOne | src/mutation/application.rs:1353-1467 | One turn keeps log, disk and history in step; on a valid plan that was staged it succeeds exactly when its operation does not collide |
| Workspaces.Workspace.Intend | src/mutation/application.rs:1362-1371 | An intent is in the log only if its precondition described the tree, whether its write was reported to work or not |
| Workspaces.Workspace.Perform | src/mutation/application.rs:1372-1459 | The result logged is the manifest of the tree the effect left; wherever it stops, the disk is the one before the operation, the one after it, or one in between; in step, it succeeds exactly when the operation does not collide |
| Workspaces.Workspace.ApplyText | src/mutation/application.rs:1469-1522 | Replaces the bytes only of the very file the manifest names, and by the staged bytes; a failure leaves the disk alone or a prefix of those bytes in that file |
| Workspaces.Workspace.ApplyCreate | src/mutation/application.rs:1524-1573 | Creates a file, empties the named one, or refuses, as the options say |
| Workspaces.Workspace.ApplyRename | src/mutation/application.rs:1575-1603 | Moves a subtree, after moving an overwritten destination to the undo path |
| Workspaces.Workspace.ApplyDelete | src/mutation/application.rs:1605-1635 | Moves a subtree to the undo path; a directory with children only if recursive |
| History.HalfwayIsLocal | src/mutation/application.rs:1469-1635 | However far an operation has got, every path outside its own subtrees and its undo place is as it was |
| Workspaces.Workspace.Persist | src/mutation/application.rs:947-963 | The progress file holds either the old or the new log, whatever fails |
| Workspaces.Workspace.RollbackTransaction | src/mutation/application.rs:2059-2166 | On any tree whatsoever whose untracked parent directories were kept: an undisturbed rollback that reports success leaves every path of the before manifest as it was in the tree the manifest was made from, and otherwise the disk is as it was; a log with a pending effect is refused and nothing is changed; on the tree the commit left it gives back the first tree exactly |
| Workspaces.Workspace.Preflight | src/mutation/application.rs:2078-2111 | Succeeds exactly when every text to be restored can be found and the first precondition meets the before manifest: the undo chain itself never fails |
| Workspaces.Workspace.Rewind | src/mutation/application.rs:2112-2165 | Once preflight has passed, no reverse step can fail unless it is disturbed |
| Workspaces.Workspace.UndoOne | src/mutation/application.rs:2112-2160 | Undoes exactly one effect, or disturbs or refuses |
| Workspaces.Workspace.RestoreProvenText | src/mutation/application.rs:2231-2270 | Writes the proven bytes into the file still proven to hold the later ones |
| Workspaces.Workspace.ReturnResource | src/mutation/application.rs:2294-2326 | One reverse rename, after a fresh comparison of the subtree with its proof |
| Workspaces.LoggedCanReturn | src/mutation/application.rs:2063-2111 | Everything rollback asks for is there wherever a commit stops between two effects |
| Lockstep.PlannedIsInStep | src/mutation/application.rs:1207-1336 | Symbolic execution is exact: a planned operation succeeds on the tree, and the manifest computed for it describes the tree it leaves, exactly unless it collides |
| Lockstep.MoveInStep | src/mutation/application.rs:1312-1336 | The move of a subtree keeps the manifest in step exactly when no tracked path is shadowed |
| Lockstep.OverwriteForward | src/mutation/application.rs:1207-1310 | A rewritten file changes nothing else that is observed |
| Lockstep.CreateForward | src/mutation/application.rs:1207-1310 | A created file changes nothing else that is observed |
| Simulation.CarryForward | src/mutation/application.rs:1312-1336 | A carried subtree appears at its destination, and only there, in manifest and tree alike |
| Simulation.CarryBackward | src/mutation/application.rs:2294-2326 | Carrying it back matches the earlier manifest again, even if everything untracked was changed in between |
| Simulation.ShadowBlocks | src/mutation/planner.rs:1483-1503 | A tracked path below a file that was just put there can no longer be inspected |
| Trees.RelocateBack | src/mutation/application.rs:2294-2326 | Carrying a subtree back undoes carrying it over |
| Manifests.RefreshMembership | src/mutation/application.rs:840-864 | Recomputes every certificate from the entries, whatever the order of the visits |
| Manifests.TrackedIsDescribed | src/mutation/application.rs:840-864 | A manifest that tracks every child of its certified directories describes the tree once its certificates are recomputed |
| Manifests.RequireIsDescribes | src/mutation/application.rs:886-897 | The comparison passes exactly when every entry is what inspection of the tree gives |
| Operations.MoveEntries | src/mutation/application.rs:1312-1336 | Moving the entries one by one transfers the subtree and leaves missing entries behind, whatever the order |
| Plans.InitialIsExact | src/mutation/application.rs:791-829 | The manifest a commit starts from describes the tree the plan was made for |
| Plans.PlanPrepared | src/mutation/application.rs:1353-1400 | At each operation of a valid plan the commit takes the step the plan describes, and collides exactly when the plan does |
| Plans.RunIsFeasible | src/mutation/application.rs:1353-1467 | What was staged for an operation before the first effect is still there when its turn comes, so a valid plan can be applied step by step |
| Plans.RunKeepsEquipped | src/mutation/application.rs:1637-1651 | No operation touches the artifacts of a later one |
| Plans.ResultKeys | src/mutation/application.rs:1207-1336 | The paths a planned operation leaves tracked |
| Collision.ValidPlanCanCollide | src/mutation/planner.rs:1483-1503 | A plan that keeps every promise of the planner, staged on a disk, whose second operation collides, so that no commit of it completes |
| CommitLog.ReadProgress | src/mutation/application.rs:965-1021 | Accepts exactly the logs that are bound to the transaction and form a chain from the initial manifest, a pending intent only at the end |
| CommitLog.AcceptedForItsOwn | src/mutation/application.rs:988-1000 | A log is accepted only for the transaction that began it |
| CommitLog.ReplayConfirms | src/mutation/application.rs:988-1020 | A recorded result, recomputed from its own record, is confirmed |
| CommitLog.ResultIsReady | src/mutation/application.rs:1207-1310 | After its result the manifest is ready for the next operation |
| Rollback.UndoChainHolds | src/mutation/application.rs:2078-2108 | Dropping the undo places added by an operation gives back the previous result, so the undo chain of an accepted log never breaks |
| Rollback.RewindOne | src/mutation/application.rs:2112-2160 | No step of the reverse run can fail, on any tree that matches the last result |
| Rollback.RestoredAtStart | src/mutation/application.rs:2159-2165 | Once the first precondition is met again the final comparison passes |
| Rollback.RestoredIsOriginal | src/mutation/application.rs:2731-2775 | The final comparison passes exactly when every path of the before manifest is missing or present as it was in the tree the manifest was made from, with the same identity, metadata and, for a file, bytes, and every certified directory has the same members |
| Rollback.SameBytes | src/mutation/application.rs:2168-2229 | What a text undo restores depends on backups and staged texts only |
| Reversal.EffectIsUndone | src/mutation/application.rs:2112-2160 | An effect that happened can be undone on any tree that still matches what it left, whatever became of everything untracked, and on the tree it left its undo is its inverse |
| Reversal.UndoCarry | src/mutation/application.rs:2294-2326 | The proof of a reverse rename holds, and the rename matches the earlier manifest |
| Reversal.RefreshBeforeCarry | src/mutation/application.rs:840-864 | Recomputing certificates before a move is the same as doing it only afterwards |
| Provenance.BytesAvailable | src/mutation/application.rs:2168-2229 | The bytes of every tracked file can be found: in a backup, as the empty text, or among the staged texts |
| Provenance.OriginalAvailable | src/mutation/application.rs:2168-2229 | The backup of an original that matches a tracked file holds exactly its bytes and metadata |
| Provenance.StoppedIsProvable | src/mutation/application.rs:2063-2111 | After a commit stopped with no effect pending, everything rollback asks for is there |
| Backups.BackupsArePlanned | src/mutation/application.rs:1661-1693 | The backups planned are those of the topmost existing paths, one each |
| Backups.RootsAreApart | src/mutation/application.rs:1661-1693 | Backup roots form an antichain |
| Backups.BackupFound | src/mutation/application.rs:2374-2384 | The lookup ends at the backup of the only root above a path |
| Backups.BackupsCover | src/mutation/application.rs:2374-2384 | Every existing path of the before manifest has a copy in the backups |
| TextEdits.ApplyCanonicalTextEdits | src/mutation/application.rs:2023-2049 | One pass that refuses ranges that go back, leave the text or split a character |
| TextEdits.SweepIsSimultaneous | src/mutation/application.rs:2023-2049 | The one-pass result equals applying the edits last to first |
| TextEdits.SweptLength | src/mutation/application.rs:2023-2049 | Its length is the length before, less what is removed, plus what is inserted |
| TextEdits.SweptIsValid | src/mutation/application.rs:2023-2049 | Valid text and valid replacements give valid text |
| TextEdits.EditInPlace | src/mutation/application.rs:2023-2049 | Every replacement follows the text up to its start with all earlier edits, and precedes the text from its end on with all later ones |
| TextEdits.InsertsKeepOrder | src/mutation/application.rs:2023-2049 | Insertions at one position appear at that position, in the order given |
| Overlay.VisitCanonicalTextOutputs | src/mutation/application.rs:1878-1982 | One pass stages exactly the texts of the overlay, unless together they exceed the limit |
| Overlay.ResolvePhysicalPath | src/mutation/application.rs:2009-2021 | Aliases apply last to first, each to what the later ones gave |
| Overlay.StagingRefinesRun | src/mutation/application.rs:1878-2021 | Staging succeeds exactly when every text finds its bytes, and then stages for each Text operation what the real run finds and leaves at its path |
| Overlay.TextIsRead | src/mutation/application.rs:1984-2000 | A text is read as the run would find it exactly when its target was written earlier or resolves to a file with the right bytes |
| Overlay.FindsTextExactly | src/mutation/application.rs:1984-2021 | With distinct contents this holds exactly when the target was written earlier or resolves to where it comes from |
| Overlay.ResolveIsLineage | src/mutation/application.rs:2009-2021 | With straight renames, resolution finds where every path comes from |
| Overlay.StraightPlansAreStaged | src/mutation/application.rs:1878-2021 | If every rename takes a resource that is where it started, or one that started apart from all earlier destinations, staging refines the run without reservation |
| Swaps.SwapMisleads | src/mutation/application.rs:2009-2021 | A valid, staged plan that exchanges two files through a third name and edits one of them: staging reads the other file and refuses the plan |
| Applications.StepKeeps | src/mutation/application.rs:56-397 | Every step of apply, discard, recovery, reconciliation and pruning, and every crash, keeps the invariant of store, journals and locks |
| Applications.RunKeeps | src/mutation/application.rs:56-397 | So does every run, under any interleaving |
| Applications.AtMostOnce | src/mutation/application.rs:56-397 | Over every run: no Preview is committed twice, no Workspace has two journals, no two processes hold one Workspace lock |
| Applications.ReceiptsKeepReservations | src/mutation/state.rs:503-519 | Over every run: a Preview that shares its identifier with a Receipt is reserved |
| Applications.ReturnIsSettled | src/mutation/application.rs:2794-2829 | An Application whose writes worked leaves its Preview unreserved, gone or named by a journal when it returns, exactly if it had begun to reserve it or found it so |
| Applications.CalmRunsSettle | src/mutation/application.rs:56-397 | Over every run in which nothing crashes and every write works, a Preview is reserved without a journal only while an Application that has begun to reserve it is under way |
| Applications.AbandonedReservation | src/mutation/application.rs:56-397 | A crash between reservation and journal leaves a Preview reserved that no journal names |
| Applications.BusyReturns | src/mutation/state.rs:280-313 | Later Applications of such a Preview change nothing |
| Applications.DiscardClears | src/mutation/state.rs:323-360 | Discarding it removes it as soon as its Workspace is unlocked |
| Ledgers.StepBooks | src/mutation/application.rs:56-397 | Every step, crash and failing write keeps the books on every transaction: one whose commit began and is neither completed nor rolled back keeps a journal that is Committing or asks for recovery, and an Application past its commit has written the phase that its outcome calls for |
| Ledgers.UnfinishedIsKept | src/mutation/application.rs:250-363 | Over every run, a transaction whose commit began and was neither completed nor rolled back keeps its journal, Committing or asking for recovery, until a recovery is granted |
| Ledgers.FinishedByItself | src/mutation/application.rs:250-363 | A transaction counts as finished only by the step of its own Application that learns that the commit was completed or rolled back |
| Ledgers.RecoveredIfGranted | src/mutation/application.rs:559-744 | A recovery is granted only under the lock, for a journal that is there, if nothing speaks against it and its Receipt was written, and never as a rollback of a transaction that only waits for cleanup |
| Ledgers.CleaningConcludes | src/mutation/application.rs:399-416 | With its artifacts removed, an Application goes on to remove its journal exactly if its commit is finished; otherwise it returns and leaves the journal asking for recovery |
| Ledgers.RetiredConcludes | src/mutation/application.rs:399-416 | An Application that removes its journal has a finished commit, and its Preview is gone |
| Ledgers.FinishedConcludes | src/mutation/application.rs:250-303 | A completed or rolled back commit, not disturbed, ends with the Receipt there and Preview and journal gone |
| Ledgers.UnfinishedConcludes | src/mutation/application.rs:358-394 | A commit that failed and could not be rolled back ends with the Receipt there and the journal asking for recovery |
| Ledgers.AbandonedIsSealed | src/mutation/application.rs:459-517 | Looking at the status of an abandoned Committing journal, or of a staged one whose tree has changed, seals it for recovery, if its Workspace is not locked; no other journal is changed |
| Receipts.ChainIdentifiers | src/mutation/state.rs:804-827 | Finds exactly the identifiers connected to the start, and ends |
| Receipts.ReceiptChain | src/mutation/state.rs:804-827 | Gives exactly the records of the connected component |
| Receipts.ChainIsShared | src/mutation/state.rs:804-827 | All members of a chain see the same chain |
| Receipts.ProtectedIsProtectedFrom | src/mutation/state.rs:829-839 | A collected chain is protected exactly if some connected record waits for cleanup and no connected recovery has restored or accepted the tree with its cleanup done |
| MutationState.MutationStateStore.ReadPreview | src/mutation/state.rs:260-271 | Reading gives a Preview that is current or reserved, and removes an expired one at most |
| MutationState.MutationStateStore.PruneExpiredReceipts | src/mutation/state.rs:684-740 | Removes exactly the chains that have expired as a whole and are unprotected; a failure leaves a part of them |
| MutationState.SpentIsWhole | src/mutation/state.rs:684-740 | What expiry removes is never part of a chain only |
| MutationState.MutationStateStore.PickPaths | src/mutation/state.rs:609-660 | Refuses exactly the requests that name a reserved, expired, unknown or protected record; otherwise picks the Previews and the whole chains asked for; at most expired Previews are dropped on the way |
| MutationState.MutationStateStore.PruneState | src/mutation/state.rs:609-682 | Removes exactly what was asked for; refuses and removes no Receipt and no current Preview; or stops at a file that cannot be removed, with nothing gone that was not asked for |
| MutationState.AskedIsWhole | src/mutation/state.rs:609-682 | What a granted request removes is never part of a chain only |
| MutationState.RestIsUntouched | src/mutation/state.rs:609-740 | Every remaining chain stays as it was |
| Braces.SplitBraceAlternatives | src/query.rs:1043-1060 | Splits at the commas outside nested groups |
| Braces.SplitIsUnique | src/query.rs:1043-1060 | Parts that join to the input, have no comma outside nested groups and end outside them are unique |
| Braces.FindGroup | src/query.rs:1004-1025 | Finds the first group that closes, in one scan |
| Braces.GroupIsMatching | src/query.rs:1004-1025 | The group found is the first opening brace and the brace at which the nesting it begins ends |
| Braces.ExpandBraces | src/query.rs:1004-1041 | Outputs exactly the first leaves of the unlimited depth-first expansion, as many as the limit leaves room for; what the leaves are is Expansions.LeavesAreExpansions |
| Expansions.LeavesOfTree | src/query.rs:1004-1041 | For a tree of literals, groups and at most one brace that never closes, the leaves of its printed form are the product of what its parts expand to, the first part varying slowest; a group without alternatives and a brace that never closes end the expansion, and what follows is taken as it stands |
| Expansions.LeavesAreExpansions | src/query.rs:1004-1041 | Every pattern is the print of such a tree, so its leaves are that product |
| Expansions.PrintsAreTheSplit | src/query.rs:1043-1060 | The alternatives found in a printed group are the prints of its alternatives |
| Expansions.SkipsOver | src/query.rs:1008-1024 | The scan for the closing brace passes over a balanced part unchanged |
| Globs.GlobMatchesAt | src/query.rs:1062-1102 | The answer is the declarative one, every filled cell of the table holds the true answer for its pair of suffixes, and no cell is computed twice |
| Globs.StarAnswer | src/query.rs:1062-1090 | A star stops here or takes one more byte: `*` a run without slashes, `**` any run, `**/` any run that ends at the start or after a slash |
| Globs.ByteAnswer | src/query.rs:1090-1102 | Every other token takes one byte or matches nothing |
| Globs.CharacterClass | src/query.rs:1104-1123 | A class matches by its ranges, never a slash; an unclosed class matches nothing |
| Globs.GlobMatches | src/query.rs:959-966 | A pattern matches exactly when one of the first 256 expansions of its tree stands for the path |
| Documents.DocumentStore.Refresh | src/workspace.rs:133-198 | On success the Document is stored and used last, with its old version if text and language are unchanged and the next one otherwise; the events extend a stream that replays to the store with increasing versions, the total is the sum of the texts, both limits hold; evicted Documents were used before the survivors, and the last of them could not have stayed within the limits; on failure one Document at most is closed and the events wait |
| Documents.DocumentStore.EvictToLimits | src/workspace.rs:281-318 | Ends within both limits with the active Document kept and the least recently used ones gone, and evicts no further than needed: with the last one evicted the survivors would exceed a limit |
| Documents.DocumentStore.EvictNext | src/workspace.rs:281-318 | Above the limits there is always a victim |
| Documents.DocumentStore.CloseFailedDocument | src/workspace.rs:262-273 | A Document that cannot be read is closed in the store and in the stream, and the event waits |
| Documents.DocumentStore.AllocateVersion | src/workspace.rs:275-279 | A new version exceeds every earlier one of its URI, up to saturation |
| Documents.DocumentStore.RefreshOpenDocuments | src/workspace.rs:201-224 | Keeps store and stream in step, and hands every new event over exactly once: with the outcome it belongs to, or among the waiting ones |
| Documents.DocumentStore.CloseAll | src/workspace.rs:234-248 | Closes every open Document, and the stream says so |
| Documents.DocumentStore.DrainPendingEvents | src/workspace.rs:250-252 | Hands over the waiting events |
| Documents.OnlyActive | src/workspace.rs:281-318 | A store of the active Document alone has that Document's size, so it is within the limits |
| SkillInstalls.InstallationResumes | src/skill_install.rs:89-193 | An installation stopped any number of times once its journal is durable does, run by run with the same consent, what it would have done in one, and ends with the verified new bundle and no stage, backup or journal |
| SkillInstalls.InterruptionsCompose | src/skill_install.rs:521-594 | The same for any journal whose predecessor is settled |
| SkillInstalls.FinishStep | src/skill_install.rs:521-594 | After each effect a new run would do just what was left |
| SkillInstalls.StoppedIsReady | src/skill_install.rs:521-594 | After any number of effects a new run with the same consent takes up exactly there |
| SkillInstalls.ResumableExactly | src/skill_install.rs:546-566 | A run that starts can be finished wherever it stops exactly when the predecessor in place is the one the journal names, or is absent or already the new bundle, or consent is given |
| SkillInstalls.ExchangedNeedsConsent | src/skill_install.rs:546-566 | A journal of a first installation with an older managed bundle at the destination: a run without consent starts, and after its first effect the next one refuses |
| SkillInstalls.PreparedIsReady | src/skill_install.rs:136-193 | What a fresh run has prepared is ready to be finished, its journal naming its predecessor |
| SkillInstalls.FreshIsAccepted | src/skill_install.rs:128-135 | A fresh run goes on exactly if the destination is free; or holds, under a marker of the manager whose digest is that of its files, an earlier version or the program's own bundle; or is a directory tree and consent is given |
| SkillInstalls.OlderMeans | src/skill_install.rs:195-211 | An older managed installation is a bundle whose marker names the manager, the digest of its very files and an earlier version |
| SkillInstalls.EmbeddedIsBundle | src/skill_install.rs:521-594 | The verified new installation is exactly the directory the program writes |
| SkillInstalls.NotOlderIsRefused | src/skill_install.rs:195-220 | Whatever else is found, a run without consent refuses a bundle without a marker, one whose files are not those its marker vouches for, and one that is not of an earlier version, at the destination or in the backup of the journal to be finished |
| SkillInstalls.NotOlderStays | src/skill_install.rs:195-220 | Over all runs without consent, such a bundle at the destination makes every run change nothing, and in any backup it stays as it is |
| SkillInstalls.AcceptedWithoutConsent | src/skill_install.rs:521-566 | A journal is finished without consent only for the program's own files, over a free destination, the new bundle or an older managed installation, and with a backup only if it is the very one the journal names |
| SkillInstalls.RunsSpare | src/skill_install.rs:195-220 | No sequence of runs without consent, stopped anywhere and on whatever they find, touches a resource that is not a verified older managed installation |
| SkillInstalls.RunSpares | src/skill_install.rs:521-594 | The same for one run |
| SkillInstalls.NeverNeither | src/skill_install.rs:568-590 | At no step is neither the old resource nor the new bundle there whole |
| SkillInstalls.HalfStageStays | src/skill_install.rs:537-541 | A half written stage under a journal makes every later run refuse and change nothing |
| SkillInstalls.HalfStage | src/skill_install.rs:537-541 | Whatever else is found in place of the stage, a run can go on exactly if nothing is left of it or it is the whole bundle |
| SkillInstalls.NeverRestaged | src/skill_install.rs:568-577 | The runs of the installer itself never write the stage anew; that takes somebody who removed it |
| SkillInstalls.HalfBackup | src/skill_install.rs:555-566 | From a half removed backup a run can go on exactly with consent or when no file of it is gone |
| SkillInstalls.UnchangedStays | src/skill_install.rs:113-131 | An installation that is up to date is left alone |
| SkillInstalls.Installer.FinishJournal | src/skill_install.rs:521-594 | Refuses and changes nothing, or does the effects of its plan in order as far as it gets |
| SkillInstalls.Installer.InstallTo | src/skill_install.rs:89-193 | One run leaves what its plan says after as many effects as it gets to; a run that ends has the new bundle in place and nothing left over, and reports the outcome of the journal it found or, starting anew, installed, upgraded or replaced and the previous version and digest, according to what stood at the destination |
| Framing.DeliveredIsSent | src/session/json_rpc_transport.rs:58-227 | What a reader gets of what a writer left, however its calls ended: the bodies sent, in order, plus the last one only if all its bytes got out; then the end, a truncated header or a cut body |
| Framing.FramesReadBack | src/session/json_rpc_transport.rs:58-133 | Reading the frames of any bodies within the limits gives exactly those bodies, then what follows |
| Framing.ReadIsLocal | src/session/json_rpc_transport.rs:58-133 | A frame that is read is exactly the bytes taken and declares its own length; different bytes after it change nothing |
| Framing.PartialFrame | src/session/json_rpc_transport.rs:58-133 | A frame that breaks off is no frame |
| Framing.FrameReader.ReadFrame | src/session/json_rpc_transport.rs:58-90 | What is read and how much is taken depend on the bytes of the stream alone, not on its chunks |
| Framing.FrameReader.ReadBoundedHeader | src/session/json_rpc_transport.rs:92-133 | Takes all up to the first blank line within the limit, or reports the end, a truncated or an oversized header |
| Framing.HeaderWithinLimit | src/session/json_rpc_transport.rs:92-133 | A header is read exactly if the first blank line of the whole stream ends within 8192 bytes; otherwise it is too large, truncated or absent |
| Framing.OutputIsFrames | src/session/json_rpc_transport.rs:181-227 | The output is the frames of the calls that succeeded and at most one prefix of another, and then the writer is spent |
| Framing.NothingAfterStop | src/session/json_rpc_transport.rs:181-227 | A stopped writer never emits another byte |
| Framing.FrameWriter.WriteFrame | src/session/json_rpc_transport.rs:181-227 | Header, then body, as far as the output takes them; the writer stays reusable only after a whole frame |
| Headers.ParseContentLength | src/session/json_rpc_transport.rs:314-355 | Gives the first fault in line order, or the declared length |
| Headers.ParseMeans | src/session/json_rpc_transport.rs:314-355 | A length is accepted exactly when the header is ASCII, every line is a named field, exactly one line declares a length, that one, and at most one a supported content type, in whatever order |
| Headers.ValidateContentType | src/session/json_rpc_transport.rs:357-387 | Accepts the media type of the protocol with well-formed parameters of which at most one names a character set, UTF-8 |
| Headers.HeaderDeclares | src/session/json_rpc_transport.rs:205-205 | The header written for a body declares its length |
| Headers.SplitJoins | src/session/json_rpc_transport.rs:322-323 | Splitting into lines loses nothing and leaves no line end |
| CanonicalValues.DecodeEncode | src/canonical_value.rs:18-64 | Encodings are uniquely decodable: decoding gives back the value, up to the sign of zero and the order of keys, and whatever follows |
| CanonicalValues.EncodedAlike | src/canonical_value.rs:18-64 | Two values are encoded alike exactly when they are the same JSON value, objects compared without order and zeros without sign |
| CanonicalValues.SameIsCanonical | src/canonical_value.rs:18-64 | Being the same value is having the same canonical form |
| CanonicalValues.AscendingIsUnique | src/canonical_value.rs:47-57 | Sorted entries are determined by their members |
| CanonicalValues.DomainsSeparate | src/canonical_value.rs:5-11 | Domains without zero bytes keep their values apart: equal hash inputs mean equal domains and the same value |
| CanonicalValues.EncodeCanonicalValue | src/canonical_value.rs:18-59 | Appends the encoding to what was hashed before |
| CanonicalValues.DigestCanonicalValue | src/canonical_value.rs:5-11 | Hashes domain, zero byte and encoding |
| SessionLogs.SessionLog.Push | src/session/session_log.rs:31-70 | Keeps the bound: the retained bytes are those of the records and at most the capacity, retained and evicted records are all that were pushed, numbered consecutively; it adds the record, cut down only if it alone is too large, and evicts no more than it must |
| SessionLogs.SessionLog.EvictFor | src/session/session_log.rs:59-67 | Evicts the fewest oldest records that make room |
| SessionLogs.CutFits | src/session/session_log.rs:50-58 | The 32 bytes of slack cover every field a truncation changes, whatever the escaping |
| SessionLogs.SizeIsLength | src/session/session_log.rs:85-89 | The sizes added up are the lengths of the records as JSON |
| SessionLogs.UnescapeEscape | src/session/session_log.rs:85-89 | The escaped message reads back as the message |
| SessionLogs.KeptIsValid | src/session/session_log.rs:91-97 | What is kept of a valid message is valid |
| SessionLogs.Utf8SuffixStart | src/session/session_log.rs:91-97 | The first character boundary that leaves few enough bytes |
| SessionLogs.SessionLog.Render | src/session/session_log.rs:72-82 | The last records asked for, with their consecutive numbers |

## Left out

- Manifests.RequireIsDescribes: timestamps, permissions, ACLs and extended attributes are one metadata value per node that every effect carries along; how the platforms read and write them is not modelled.
- Workspaces.Workspace.RollbackTransaction: parent directories that no manifest tracks must have been kept since the commit; rollback renames into them without checking them.
- Overlay.VisitCanonicalTextOutputs: the limit lies below 2^64 - 1, where the saturating counter of the source could no longer exceed it.
- MutationState.MutationStateStore.PruneState: a Preview that shares its identifier with a Receipt is required to be reserved; `Applications.ReceiptsKeepReservations` proves it of every run.
- Documents.DocumentStore.RefreshOpenDocuments: how a file is read, canonicalised and compared is a nondeterministic answer of contents or failure; synchronization stays open/close throughout.
- Documents.DocumentStore.Refresh: positions, line slices and scalar offsets are not part of this model.
- Framing.FrameReader.ReadFrame: errors of the input stream itself are left out; what JSON a body is, is a parameter.
- Framing.FrameWriter.WriteFrame: errors, deadline and cancellation are one parameter, the number of bytes the output takes.
- Globs.GlobMatches: ASCII case folding, the URI handling of document selectors, paging and the merging of partial results are not part of this model.
- SessionLogs.SessionLog.Push: the label fields are required to be short, as the constants and the timestamp of the source are; the JSON serializer is the function `SessionLogs.Serialized`.
- SkillInstalls.Installer.InstallTo: a directory is its parsed marker, its other files and whether it is flat; the spelling of journal paths, symbolic links and the removal of a stage that could not be written are not modelled, and a stage written before its journal became durable stays behind.
- Applications.StepKeeps: a commit is the step that writes the Committing record; what it does to the tree is the subject of Workspaces. Shortcuts that answer from a Receipt count as refusals.
- The sealing of abandoned journals is modelled only as steps on the records (reconciliation and recovery of `Applications`).
- The planner itself: its promises are the predicate `Plans.ValidPlan`.
- The numeric sufficiency of the progress file's size limit, which depends on the serializer.
- The path limits, free-space checks and cleanup of artifact directories.
- The diagnostics cache, the Owner runtime, process handling, TCP and the command line.
- Update in place of the tree: the class Workspace reassigns a map; no two objects share one.
