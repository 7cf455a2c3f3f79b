# Account state engine: a verified model

The monitor keeps one account per provider credential, queries each account's quota or balance,
and reports a status with alerts. This project models its state engine and proves what it keeps
over every run. `dafny verify dfyconfig.toml` checks all of it with Dafny 4.11.

The modules, from the bottom up:

- **Storage** writes a file by renaming a temporary one, with three outcomes for its caller: written,
  failed before the rename, failed after it.
- **Preferences, Commits, Batches, Identities, Newcomers, Inheritance, AccountPlaces, Heirs** model the
  persisted preferences, the ids of accounts, what they inherit and their order. Each
  operation is a function from a document to an error or a changed document. A commit compares the
  revision, changes a clone, normalises it, writes it and publishes it. Published document, file and
  clone are separate states. Credentials are the values `Sealed(key, aad, plain)`, which open only
  under the same key and account.
- **MonitorPreferences** is the same in the form the program has: a clone whose maps are changed in
  place and a store object over a directory. Each method is proved equal to the function it carries out;
  walks over the identity records stop at any record that matches, which on consistent records is the only one.
- **QueryRevisions, Refresh, Freshness, Revival, RefreshCompletion** model refreshing accounts. Workers
  read the account's query revision, query through the single-flight group with separate reads of adapter
  and credential, check, build and store. Commits, cleanups, threshold changes, saves and reloads of the
  snapshots and restarts happen between any two steps. Check and store are separate steps, and only workers take the
  lock around them.
- **Snapshots, ThresholdRules, Reports, Dismissals** model statuses, alerts, the report and dismissal.
- **Histories, Stores, SnapshotCaches, CacheFiles, SnapshotStores** model the snapshot store: histories
  and their merge, migration of an account, and the file, with saves and loads in several steps during
  which other operations go on.
- **QuotaWindows, Decimal, CashThresholds, ConfiguredCash, EndpointPaths, UsagePages** are the exact algorithms.

A function that only computes is described a second time by a lemma that does not use it, usually one whose name
ends in "Exactly": in terms of the fields, amounts, lookups and literal constants that a user of the program knows.

Conventions. Amounts are texts read by a parameter `Reader`; where a proof needs the reader to
understand printed decimals it says so. Times are integers with 0 for the zero time. Maps that the
program walks in no fixed order are walked in an arbitrary order. Clocks, random ids, the keyed hash,
JSON encoding of a snapshot (`Encoder`) and system call failures are parameters.

Where the code differs from what its names or comments suggest, the model follows the code and a lemma
says exactly when the expected property holds:

- The comparison of cash rules treats a missing key like an empty rule, so a changed request can count as
  unchanged exactly when the stored rules hold an empty rule (`Batches.RuleComparisonExact`). Normalised rules
  never do (`CashThresholds.NormalizedRulesAreToldApart`), so this takes a preferences file that was edited by
  hand or written by another program.
- A batch trims an account id only for registration and uses the given id for everything else
  (`Batches.SpacedIdKeepsMonitoring`); a switch of monitoring reaches the registered account exactly when the id
  has no spaces around it (`Batches.SwitchReachesExactly`). The settings route trims ids first (main.go:939).
- Registering an unknown account turns monitoring on without raising its query revision; for the account that a
  mutation names this is the only change of a query's settings without a raise (`Batches.UnraisedChangeExactly`).
- A commit refused because of a failure after the rename comes back after a restart exactly when no later commit
  reached the file (`Commits.RefusedCommitReturnsExactly`).
- A derived account id ignores spaces around a source id, matching does not, and discovery passes source ids as
  they are (main.go:1366). So two host credentials can get one id, and a call can lose a place in the account
  order and a credential (`AccountPlaces.SpacedTwinsLoseAPlace`). Places are kept exactly when no candidate takes
  the place of its legacy id although its own id is listed or answered already
  (`AccountPlaces.ResolvingKeepsPlaces`), and then along whole runs (`AccountPlaces.RunKeepsPlaces`).
- A migration overwrites a credential that the new id already holds; none that can be read is lost exactly when
  there is nothing to move or what the new id opened to also opens elsewhere
  (`Inheritance.NoCredentialIsLostExactly`).
- A failed query keeps the base status of the previous data, so a threshold change in memory can turn
  the account back from error (`ThresholdRules.FailureSurvivesReapplying`).
- A failed query re-tags old data with the present revision, so an unforced refresh may skip it
  (`Freshness.FailureIsRetriedExactly`).
- A worker past its check stores even if the account is cleaned up before it does
  (`Revival.ApprovedWorkerStillStores`).
- A balance account can be critical without any alert (`Reports.BalanceAlertExactly`).
- The window constructor without a cap can report a remaining share above one
  (`QuotaWindows.WindowsSplitTheWhole`).

## Model

| member | source | states |
|---|---|---|
| Storage.Directory.WriteFileAtomic | storage.go:12-63 | After every system call, so also after a crash there, the destination holds its old or its whole new content and no third file differs; success exactly when no call failed; a failure before the rename leaves the destination as it was, a failure after it leaves the new content; the temporary file stays only when the write fails before the rename and removing it fails too |
| Text.FirstNonEmpty | main.go:1876-1883 | The first value that is not blank, trimmed; empty exactly when every value is blank |
| Preferences.RegisteringRegisters | prefs.go:555-575 | Afterwards the account is known, seen and listed; a known account keeps its monitoring and a seen one its time; no other account differs; the change flag is right |
| Preferences.FindMatch | prefs.go:761-766 | A stored identity is found exactly when one matches, and the one found does |
| MonitorPreferences.Draft.Register | prefs.go:555-575 | Registers an account in place, exactly as EnsureKnown says |
| MonitorPreferences.Draft.SwitchAdapter | prefs.go:649-662 | Clears or sets the adapter override and reports a real change |
| MonitorPreferences.Draft.SwitchCredential | prefs.go:663-684 | Seals, clears or keeps the credential and its relink flag; fails only when sealing does |
| MonitorPreferences.Draft.Mutate | prefs.go:640-700 | One mutation in place equals ApplyMutation, including the query revision it raises |
| MonitorPreferences.Draft.Rename | prefs.go:685-696 | Sets or removes the custom name and reports a real change |
| MonitorPreferences.Draft.Validate | prefs.go:611-639 | The first loop finds the first invalid mutation |
| MonitorPreferences.Draft.Batch | prefs.go:638-710 | The batch in place equals ApplyBatch, error and change flag included |
| MonitorPreferences.Draft.Invalidate | prefs.go:467-486 | Raises each distinct non-blank id once |
| MonitorPreferences.Draft.ForgetInactive | prefs.go:435-448 | Forgets exactly the dismissals that are not active |
| MonitorPreferences.Draft.Find | prefs.go:761-766 | Walks the identities in any order: stops at one that matches, or nowhere exactly when none does |
| MonitorPreferences.Draft.ReplaceInOrder | prefs.go:979-985 | Replaces an id in the account order in place |
| MonitorPreferences.Draft.MoveCredential | prefs.go:937-949 | Reseals the legacy credential for the new id and erases the old one, or changes nothing when it does not open |
| MonitorPreferences.Draft.Migrate | prefs.go:933-963 | Migration in place equals MigratePreference; a failure changes nothing |
| MonitorPreferences.Draft.Inherit | prefs.go:782-794 | The legacy branch in place equals InheritLegacy, change flag included |
| MonitorPreferences.Draft.ResolveCandidate | prefs.go:755-806 | One candidate in place, for any records: equals ResolveFound with the identity its walk stopped at |
| MonitorPreferences.Draft.Resolve | prefs.go:741-813 | The whole call in place, for any records and random ids: document, ids, change flag and error equal ResolveAllFound with the identities its walks stopped at |
| MonitorPreferences.WalksDoNotMatter | prefs.go:761-766 | On consistent records every possible walk of a call gives what ResolveAll gives |
| MonitorPreferences.Draft.NormalizeOrder | prefs.go:222-235 | The order becomes its trimmed, non-blank ids without repetitions |
| MonitorPreferences.CountClaims | prefs.go:746-751 | Counts how many candidates of a call claim each legacy id |
| MonitorPreferences.MonitorPrefs.Finish | prefs.go:1010-1033 | Normalise, raise the revision, write, publish equals Commit, for every fault of the write |
| MonitorPreferences.MonitorPrefs.UpdateBatchAndThresholdsAtRevision | prefs.go:607-710 | The provider batch equals committing the Batch operation |
| MonitorPreferences.MonitorPrefs.InvalidateQueryResults | prefs.go:467-486 | The cleanup commit equals committing the Invalidate operation |
| MonitorPreferences.MonitorPrefs.DismissAlert | prefs.go:417-433 | Dismissing equals committing the Dismiss operation, errors included |
| MonitorPreferences.MonitorPrefs.ReconcileDismissedAlerts | prefs.go:435-448 | Equals committing the ReconcileAlerts operation |
| MonitorPreferences.MonitorPrefs.ResolveIdentities | prefs.go:741-813 | Equals committing the call with the identities its walks stopped at, which on consistent records is the Resolve operation; answers the ids exactly when the commit was not refused |
| Commits.NormalOrderIsNormal | prefs.go:222-235 | A normalised order has neither blanks nor repetitions |
| Commits.NormalOrderMembers | prefs.go:222-235 | It lists exactly the trimmed non-blank ids |
| Commits.NormalOrderFixed | prefs.go:222-235 | Normalising a normal order changes nothing |
| Commits.NormalOrderGrows | prefs.go:222-235 | Later ids never move earlier ones: each id stands where it came first |
| Commits.MutateKeepsRevision | prefs.go:1010-1018 | No operation touches the global revision itself |
| Commits.MutateKeepsIdentities | prefs.go:607-710 | Only resolving touches identity records |
| Commits.CommitRaisesRevisionByOne | prefs.go:996-1033 | A commit publishes exactly when the compare succeeds, something changed and the write succeeded; then the revision rises by one; any other reply leaves memory as it was and names the refusal, a conflict with both revisions |
| Commits.SuccessorLoads | prefs.go:123-185 | A restart reads back exactly the document a commit wrote |
| Commits.LoadedExactly | prefs.go:123-185 | A file is read as it was written, with the order normalised; every credential of an older format must be relinked and no query is given it; without a file nothing is known |
| Commits.ReconcileExactly | prefs.go:544-575 | After a discovery each of its accounts is known, seen and listed, an unknown one is monitored as its first default says and a known one as before; nobody else changes |
| Commits.UnchangedIsEqual | prefs.go:996-1018 | An operation other than a batch or a resolution call that reports no change leaves the document equal |
| Commits.ReportsExactly | prefs.go:467-575 | Invalidation reports a change exactly for a list with an id that is not blank, a discovery exactly when something about registering one of its accounts is missing, a migration exactly when it was possible between two different ids, and saving always |
| Commits.FileIsPublishedOrNext | prefs.go:996-1033 | At every point of every run of commits, failed writes and restarts the file is what is published or one complete normalised successor of it |
| Commits.DiskRevisionIsCurrentOrNext | prefs.go:996-1033 | The file's revision is the published one or one more |
| Commits.RevisionNeverFalls | prefs.go:996-1033 | Neither commits nor restarts lower the published revision |
| Commits.OneWinnerPerRevision | prefs.go:1003-1008 | Two commits of one run with the same expected revision are never both published |
| Commits.FileIsLastReached | prefs.go:996-1033 | At every point of a run the file holds the last document that reached it, whatever was answered |
| Commits.RefusedCommitReturnsExactly | storage.go:46-61 | A commit refused after its operation succeeded is what a restart publishes exactly when its write failed after the rename and no later commit reached the file; otherwise the restart publishes the last one that did |
| Commits.FailedCommitReturnsAfterRestart | storage.go:46-61 | An input: a write that fails after the rename, then a restart |
| Batches.BatchAllOrNothing | prefs.go:607-637 | A batch succeeds exactly when every mutation is valid and sealing is possible where it is needed; otherwise its commit changes nothing |
| Batches.ValidExactly | prefs.go:611-637 | What a valid mutation is, in terms of its fields |
| Batches.ErrorsExactly | prefs.go:611-637 | Which error an invalid mutation gives, in the order of the tests |
| Batches.FirstErrorExactly | prefs.go:611-637 | A batch fails with the error of its first invalid mutation |
| Batches.UnchangedBatchIsEqual | prefs.go:640-710 | A batch that reports no change leaves the document equal |
| Batches.RuleComparisonExact | prefs.go:488-498 | The comparison of cash rules is right for every request exactly when the stored rules hold no empty rule |
| Batches.MutationRaisesExactly | prefs.go:643-700 | A mutation raises its account's query revision by one exactly when it replaces the credential or changes what a query depends on, and no other account's |
| Batches.BatchRaisesExactly | prefs.go:640-700 | A batch raises each query revision by the number of such mutations |
| Batches.SetMonitoredReports | prefs.go:644-648 | Monitoring is reported as changed exactly when it reads differently afterwards |
| Batches.UnraisedChangeExactly | prefs.go:640-700 | A mutation changes what a query of its account depends on without raising the query revision exactly when it registers the account, whose monitoring was off, under the id as given, and changes nothing else of that kind |
| Batches.RegistrationDoesNotRaise | prefs.go:555-575 | An input: registering an unknown account turns its monitoring on without raising anything |
| Batches.MutationAchieves | prefs.go:640-700 | A valid mutation that is applied registers its account and leaves monitoring, adapter, credential and name as asked, adapter and credential as queries read them, and the other accounts' adapters, credentials, flags and names alone |
| Batches.SwitchReachesExactly | prefs.go:611-648 | Whatever the document, a request to switch monitoring reaches the account it registers exactly when the id has no spaces around it |
| Batches.SpacedIdKeepsMonitoring | prefs.go:611-648 | An input: asking to stop monitoring the id with a space before it leaves the account monitored |
| Batches.BatchIsSequential | prefs.go:607-710 | A valid batch equals committing its mutations one by one, on everything but the global revision |
| Batches.BatchWithThresholdsIsSequential | prefs.go:607-710 | A batch that also carries thresholds equals the same steps followed by one that sets the thresholds |
| Identities.AtMostOneMatch | prefs.go:850-862 | At most one stored identity matches a candidate |
| Identities.UrlExactly | prefs.go:912-916 | Addresses are compared without case, surrounding spaces and trailing slashes, and otherwise character by character |
| Identities.NamesOneToOne | prefs.go:892-901 | A basis has one id and an id names one basis |
| Identities.ResolveOneNames | prefs.go:755-806 | One candidate of a call gets the id of its basis and keeps the records consistent |
| Identities.ResolveAllNames | prefs.go:741-813 | So do all candidates of a call, in any order |
| Identities.StepKeepsConsistent | prefs.go:996-1033 | Every commit, failed write and restart keeps the identity records consistent in memory and in the file |
| Identities.RunKeepsConsistent | prefs.go:741-813 | Along a run the records stay consistent and no registered basis loses its id |
| Identities.IdsFollowCredentials | prefs.go:741-813 | Two answers of one run are the same id exactly when their credentials have the same basis, whatever calls, orders, failures and restarts lie between |
| Identities.SpellingIsCollisionless | prefs.go:892-901 | A hash as assumed is possible |
| Identities.FirstStartIsConsistent | prefs.go:107-121 | A first start is consistent |
| Inheritance.MisfiledIsNotRead | prefs.go:336-351 | A credential filed under another account than the one it was sealed for is given to no query |
| Inheritance.MigrationMovesCredential | prefs.go:933-963 | Migration moves the credential with its plaintext, erases the old record, leaves other accounts' credentials alone, and fails exactly when the credential does not open |
| Inheritance.MigrationPassesSettings | prefs.go:933-963 | What the old id has of registration, monitoring, adapter, name and first-seen time the new id has afterwards and the old one no more; without a value the new id keeps its own; third ids keep theirs; the new id stands where the old one stood; the old relink flag is dropped |
| Inheritance.RecordedExactly | prefs.go:864-890 | An id counts as having legacy preferences exactly when erasing it from the document, query revisions and identities aside, changes the document |
| Inheritance.NoCredentialIsLostExactly | prefs.go:937-949 | No readable credential is lost exactly when the legacy id has none or all that the new id opened to also opens under another id |
| Inheritance.HeirsCredentialIsOverwritten | prefs.go:937-949 | An input: both ids hold a credential, and that of the heir is gone afterwards |
| Inheritance.MigrationKeepsOneHolder | prefs.go:933-963 | A credential readable under at most one id stays so across a migration |
| Inheritance.InheritingKeepsOneHolder | prefs.go:782-794 | And across inheriting |
| Inheritance.CredentialKeepsOneHolder | prefs.go:741-813 | At every point of every run a credential not entered again has at most one holder, in memory and in the file, and every sealed credential is sealed for its own account |
| Newcomers.NewcomerExactly | prefs.go:755-769 | Which candidates of a call are new, told from document and call alone |
| Newcomers.FindsExactly | prefs.go:761-766 | What the first candidates of a call leave for a further one to find |
| Newcomers.AnswersAllowed | prefs.go:741-813 | Every answered id is a recorded, derived, drawn or given one, trimmed and not blank |
| Inheritance.AmbiguousLegacyGoesToNobody | prefs.go:782-794 | A legacy id claimed twice in one call keeps its record, and every new claimant is marked for relinking, so no query is given that credential under a new id |
| Inheritance.OneSnapshotHeir | prefs.go:826-848 | At any time the history of a legacy id may move to at most one account |
| Heirs.HeirKeepsSettings | prefs.go:741-813 | At the end of a resolution call the answered id of a legacy account that one new candidate with a stable basis claims has its monitoring, adapter, name, first-seen time and credential, and the legacy id has nothing; later candidates of the call do not undo it |
| Heirs.LegacyKeepsSettings | prefs.go:782-794 | A legacy account keeps all its settings through a call in which several candidates claim it, in which no claimant is new with a host source id or with a static address and a fingerprint, or in which its credential does not open |
| Heirs.RelinkedExactly | prefs.go:782-795 | At the end of a resolution call an account that is nobody's legacy id must be relinked exactly if it had to be before, or if it is new and claims a legacy account with a credential, or a mark, that it does not inherit |
| Heirs.NewAccountsStartUnmonitored | prefs.go:741-813 | An answered account that was not known and inherits nothing ends the call known and unmonitored |
| Heirs.BystandersKeepSettings | prefs.go:741-813 | A resolution call changes no setting of an account that it neither answers nor takes from |
| Heirs.NewRecordHolds | prefs.go:796-805 | The record of a new account holds everything its candidate says, to the end of the call |
| Heirs.HeirMayMoveSnapshots | prefs.go:826-848 | After its call a new account may take the snapshots of its legacy id exactly when it has a host source id or a static address and fingerprint, need not be relinked, no other record names that id and the id was given without spaces around it |
| AccountPlaces.OrderIsAppendOnly | prefs.go:555-575 | Operations other than resolving and migrating only append to a duplicate-free order |
| AccountPlaces.ResolvingKeepsPlaces | prefs.go:741-813 | A resolution call keeps every account at its place, except that a legacy id may give its place to its heir, and appends only answered ids; publishing drops nothing from that order exactly when no candidate is crowded, which document and call decide |
| AccountPlaces.TakesOccupiedExactly | prefs.go:782-794 | A candidate is crowded exactly when, at its turn, it takes the place of its legacy id although its own id is listed |
| AccountPlaces.SpacedTwinsLoseAPlace | main.go:1358-1367 | An input: two host credentials whose source ids differ in a space, each with a listed legacy account, end up with one id, one place and one credential |
| AccountPlaces.PublishedOrderIsNormal | prefs.go:222-235 | The published order is free of blanks and repetitions at every point of a run |
| AccountPlaces.RunKeepsPlaces | prefs.go:741-813 | Along every run in which no event crowds an account, each account keeps its place from any point to any later one, in memory and in the file, or leaves it to an id that an event of the run made its heir |
| QueryRevisions.SettingsDecideReads | prefs.go:324-351 | Equal stored settings are read as equal adapters and credentials |
| QueryRevisions.MutationAdvances | prefs.go:643-700 | A mutation leaves an account's adapter and credential alone unless it raises the account's query revision |
| QueryRevisions.InvalidateRaisesExactly | prefs.go:467-486 | A cleanup raises exactly the accounts it names, by one |
| QueryRevisions.CommitAdvances | prefs.go:996-1033 | The same lock holds for every commit of every refresh-time operation, whatever happens to the write |
| QueryRevisions.CommitKeepsDisk | prefs.go:996-1033 | The file never falls behind the lock either, even when a write fails half-way, so a restart keeps it |
| QueryRevisions.CleanupRaises | prefs.go:467-486 | A published cleanup raises every account it names |
| QueryRevisions.BatchRaises | prefs.go:640-700 | A published batch, with whatever other mutations, thresholds and expected revision, raises the account of every mutation that raises it at its turn |
| QueryRevisions.SwitchingRaises | prefs.go:644-648 | So does every mutation of it that switches monitoring at its turn |
| Refresh.RefreshGroup.Begin | main.go:174-186 | The first critical section joins the call in flight for the key or starts one |
| Refresh.RefreshGroup.End | main.go:188-193 | The second takes the key out of the map and publishes the result |
| Refresh.StepKeepsConsistent | main.go:173-194 | Every step keeps map, calls and workers in agreement |
| Refresh.RunKeepsConsistent | main.go:173-194 | So does every run |
| Refresh.SingleFlight | main.go:173-194 | Per key at most one query is under way, the key is in the map exactly until its leader leaves, answers come only from finished calls of the worker's own account, revision and signature, different revisions never share one, and at most one worker has passed its check and not stored yet, built item included; the lock is free exactly when nobody has |
| Refresh.LeaderReturned | main.go:188-193 | The result that followers return is the one their leader returned |
| Refresh.FollowerJoinedLive | main.go:175-183 | When a follower joined, the leader was still working on the call |
| Freshness.ItemIsSound | main.go:1260-1269 | What a worker stores is fresh for the revision it carries or is marked stale |
| Freshness.StepKeepsSound | main.go:1246-1271 | Every step keeps all calls, workers and stored snapshots sound |
| Freshness.StoredDataIsCurrent | main.go:1246-1271 | In every interleaving, saves, reloads of the file and restarts included, a stored snapshot that is not stale and carries the account's present query revision came from a query every read of which saw the adapter and the credential stored now, followers included, entries and history alike |
| Revival.QueryRevisionsGrow | prefs.go:467-486 | No account's query revision ever decreases, restarts included |
| Revival.AllIsTraced | main.go:1246-1271 | In every reachable state everything in the store, in the copy being saved and in the file was put there by a worker, apart from new evaluations |
| Revival.HeldIsBacked | main.go:1246-1271 | Whatever the store holds for an account was stored by a worker whose check found the account known and monitored, and the query revision never changed between the worker's reading of it and that check |
| Revival.StoreIsBacked | main.go:1255-1269 | The same for every worker past its check |
| Revival.PassedMeansNotRaised | prefs.go:500-504 | A worker that passes its check later was not overtaken by a raise |
| Revival.OvertakenNeverStores | main.go:1246-1271 | A worker overtaken by a raise of its revision before its check never stores anything |
| Revival.GaveUpNeverStores | main.go:1246-1271 | A worker that is cancelled while it waits, or whose check finds the account unknown, not monitored or raised, never stores anything afterwards |
| Revival.CleanupStopsWorker | main.go:1087-1100 | A written cleanup stops every worker of the accounts it names that has not passed its check |
| Revival.BatchStopsWorker | prefs.go:640-700 | A written batch, with whatever other mutations, thresholds and expected revision, stops every waiting worker of the accounts it raises |
| Revival.SwitchingStopsWorker | prefs.go:644-700 | So does a change of monitoring anywhere in a written batch |
| Revival.ApprovedWorkerStillStores | main.go:1255-1269 | The check is the line: a worker past it stores even after the account was cleaned up |
| RefreshCompletion.UndisturbedRefreshStores | main.go:1246-1271 | A refresh of a known and monitored account that nothing disturbs makes the answer the account's entry and the front of its history, as it was answered, under the present revision and with both settings read; no other account changes |
| RefreshCompletion.UndisturbedFailureKeepsData | main.go:1799-1813 | The same refresh, in any reachable state, with a query that fails: the entry keeps its balances, windows, quantities, sections, last success and base status, and becomes stale and in error with the new failure, attempt time and revision |
| RefreshCompletion.UndisturbedFirstFailure | main.go:1813-1825 | Without an entry before, a bare failure is stored that is not stale and has no success |
| RefreshCompletion.FollowerStores | main.go:173-194 | A worker that joined a call stores what its leader got |
| RefreshCompletion.SavedStoreReturns | cache.go:250-278 | What was saved is there again after a restart or a reload, without base statuses; an unreadable file gives an empty store at a restart |
| RefreshCompletion.StoreEventsExactly | main.go:1087-1100 | Changed thresholds evaluate every entry again; deleting, removing and pruning take exactly what they name |
| Freshness.SkippedIsStaleOrCurrent | main.go:1297-1306 | An account an unforced refresh skips shows stale data or data read under the present settings |
| Freshness.FailureIsRetriedExactly | main.go:1297-1306 | After a failed query the account is tried again exactly when its last success is missing or too old |
| Stores.OnlyPutAdds | cache.go:38-49 | Storing a snapshot adds nothing else to the store |
| Stores.PutStandsInFront | cache.go:38-49 | A stored snapshot is its account's entry and the front of its history, whose older entries stay until there are fifty; nothing else changes |
| Stores.RemovalAddsNothing | cache.go:61-78 | Removing adds nothing, and a deleted account holds nothing |
| Stores.RemovalIsExact | cache.go:61-78 | Deleting takes entry and history, removing the active entry takes only that, pruning takes the entries not kept; everything else stays |
| Histories.BeforeIsWeakOrder | cache.go:183-190 | The history order is a strict weak order; ties are equal times and statuses |
| Histories.SortIsSorted | cache.go:183-190 | The sort is sorted and a permutation |
| Histories.SortIsStable | cache.go:183-190 | Entries that tie keep their order |
| Histories.DropDuplicates | cache.go:191-204 | The in-place filter leaves the first entry of every text, in order |
| Histories.DistinctIsDistinct | cache.go:191-204 | No two kept entries have the same text, and all can be encoded |
| Histories.DistinctKeepsKeys | cache.go:191-204 | Every encodable entry is represented |
| Histories.MergeHistories | cache.go:172-208 | The merge in place equals Merged |
| Histories.MergeIsExact | cache.go:172-208 | The result is sorted, without duplicates, at most fifty renamed inputs; an input is absent only as a duplicate, as unencodable, or because fifty entries at or before it were kept |
| Histories.MergedNewestFirst | cache.go:183-190 | A merged history is newest first, by check time or else attempt time, and at equal times the later status text comes first |
| Histories.TiesGoByStatus | cache.go:183-190 | Of two entries of one time: warning, unknown, ok, error, disabled, critical |
| Histories.NewestAreKept | cache.go:191-209 | An encodable entry that does not fit is at most as new as all fifty that are kept |
| Histories.MergeIsIdempotent | cache.go:144-146 | Merging the same legacy history again changes nothing |
| SnapshotCaches.MigrationIsExact | cache.go:147-212 | Nothing stays under the old id, third accounts are untouched, the strictly newer active entry wins, the histories are merged, and a second migration is a no-op |
| SnapshotCaches.RenamedExactly | cache.go:129-142 | A new name goes to the entry and the whole history of one account and changes nothing else |
| SnapshotCaches.ValidateEntries | cache.go:347-357 | The loop accepts the entries exactly when each can be normalised, and normalises each |
| SnapshotCaches.ValidateList | cache.go:365-374 | The same for one account's history, in order |
| SnapshotCaches.ValidateHistory | cache.go:359-376 | The same for all histories, cut to fifty entries first |
| SnapshotCaches.DecodeCache | cache.go:299-345 | Decoding equals Decode for versioned, legacy, unsupported and malformed files |
| SnapshotCaches.NormalizedExactly | cache.go:378-394 | Which cached snapshots are usable, and that they keep everything, with the trimmed key as their account and the kind of their data when they have none |
| SnapshotCaches.LegacyExactly | cache.go:299-345 | A file without histories is usable exactly when all its snapshots are; each becomes its account's entry and whole history |
| SnapshotCaches.VersionedExactly | cache.go:299-376 | A file with histories is usable exactly when its version is known and all entries and the first fifty snapshots of each history are; it is read in order |
| SnapshotCaches.FitsExactly | cache.go:378-394 | A cached snapshot is read back unchanged exactly when it fits its id |
| SnapshotCaches.RoundTripExactly | cache.go:299-394 | Saving and loading gives the store back, apart from the base status, exactly when it is well formed |
| SnapshotCaches.MigrationKeepsWellFormed | cache.go:147-212 | A migration keeps a well-formed store well formed |
| SnapshotCaches.DecodedIsBounded | cache.go:359-376 | A store read from any file holds at most fifty entries an account |
| SnapshotCaches.ReachableStores | cache.go:38-212 | After any sequence of store operations every history has at most fifty entries, and as long as only fitting snapshots are put the store survives a save and a load |
| CacheFiles.FailedLoadBlocksSaves | cache.go:409-416 | After a failed load nothing is written, whatever else happens, until a load succeeds or finds no file |
| CacheFiles.LoadWithInterference | cache.go:250-278 | A load that cannot use the file leaves the store as the operations meanwhile made it; one that can overwrites them |
| CacheFiles.SaveThenLoad | cache.go:409-457 | A save that nothing disturbs puts the store into the file, leaves nothing pending, and a load gives it back without base statuses |
| CacheFiles.SaveExactly | cache.go:409-457 | A save begins exactly after a usable load and with everything encodable; what it leaves pending and reports as failed, for every outcome of the write and any operation during it |
| CacheFiles.RunKeepsBounded | cache.go:359-376 | In every reachable state, loads included, each history has at most fifty entries |
| CacheFiles.StepKeepsInv | cache.go:409-457 | Every step keeps the relation between the pending flag, the migration revision and the last successful write |
| CacheFiles.RunKeepsInv | cache.go:409-457 | In every reachable state without a pending migration the last successful write was taken at the present migration revision |
| CacheFiles.CleanMeansWritten | cache.go:417-455 | When no migration is pending at the end of a run, every migration of the run is in a document captured after it and successfully written |
| SnapshotStores.SnapshotStore.constructor | cache.go:34-36 | An empty store |
| SnapshotStores.SnapshotStore.Put | cache.go:38-49 | Sets the active entry and puts the snapshot in front of a history capped at fifty |
| SnapshotStores.SnapshotStore.ReapplyActive | cache.go:80-89 | Changes every active entry once and nothing else |
| SnapshotStores.SnapshotStore.Prune | cache.go:396-407 | Removes exactly the entries not kept; histories stay |
| SnapshotStores.SnapshotStore.RenameAccount | cache.go:129-142 | Changes the name in the entry and the whole history |
| SnapshotStores.SnapshotStore.HistoryFor | cache.go:91-106 | Answers the newest entries, at most the limit or fifty |
| SnapshotStores.SnapshotStore.MigrateAccount | cache.go:147-212 | Equals the Migrate step, revision and pending flag included |
| SnapshotStores.SnapshotStore.MoveActive | cache.go:162-170 | The active entry that remains under the new id |
| SnapshotStores.SnapshotStore.Save | cache.go:409-457 | Equals the three steps of a save; refused after a failed load; the contents stay |
| SnapshotStores.SnapshotStore.Load | cache.go:250-278 | Equals the two steps of a load; a failure keeps the contents |
| Snapshots.Max | main.go:2311-2334 | At least as severe as both, and one of them |
| ThresholdRules.InferBaseStatus | model.go:106-142 | The loops compute the status the data has by itself: settled, critical when something is used up, warning when something failed, else ok |
| ThresholdRules.CashThresholdStatus | main.go:2278-2309 | The loop computes the worst level any balance calls for |
| ThresholdRules.ScanWindows | main.go:2235-2246 | One pass finds an excess exactly when there is one, and the least remaining share |
| ThresholdRules.ScanQuotas | main.go:2235-2260 | The same for windows and quantities together |
| ThresholdRules.ApplyThresholds | main.go:2218-2276 | Evaluation equals Apply, whose levels are stated by existence rather than by the loops |
| ThresholdRules.ReapplyingForgets | main.go:2218-2276 | Applying thresholds again forgets the earlier ones completely |
| ThresholdRules.ApplyKeepsCoherent | model.go:106-142 | Evaluation keeps a coherent snapshot coherent |
| ThresholdRules.ReapplyingForgetsAcrossReload | main.go:2218-2276 | The same when the snapshot was saved and reloaded in between and lost its base status |
| ThresholdRules.FailureSurvivesReapplying | main.go:1799-1823 | A failed query's snapshot stays failed under evaluation in memory exactly when its kind is unsupported or the base status it kept allows it, and always after a reload |
| ThresholdRules.OrderIsIrrelevant | main.go:2218-2309 | The status does not depend on the order of balances, windows or quantities |
| ThresholdRules.StatusExactly | main.go:2218-2309 | The evaluated status in terms of amounts, rules and shares: critical when the data are, a balance is negative or at most its critical limit, something is used beyond its total, or at most the critical percentage remains; a warning likewise; otherwise ok; unsupported accounts are left alone |
| ThresholdRules.BaseExactly | model.go:106-142 | A settled status stays; an unset base becomes critical for a used-up total balance, an excess or overuse, a warning for an error or failed section, and ok otherwise |
| ThresholdRules.OneBalance | main.go:2278-2309 | One balance with one readable rule: critical when negative or at most the critical limit, a warning above it up to the warning limit, ok beyond |
| ThresholdRules.BalanceLevelGrows | main.go:2288-2306 | Pointwise larger cash rules never lower a balance's level |
| ThresholdRules.QuotaLevelGrows | main.go:2261-2275 | Larger percentages never lower the quota level |
| ThresholdRules.SeverityIsMonotone | main.go:2218-2309 | Pointwise larger thresholds never lower the severity |
| Reports.ListIsUnique | main.go:2104-2110 | There is only one ascending list of the failed sections |
| Reports.SortFailedSections | main.go:2104-2110 | The names of the failed sections in ascending order |
| Reports.FailedSectionAlerts | main.go:2104-2123 | One alert for each failed section, in that order |
| Reports.LowAlerts | main.go:2124-2173 | The balance and quota alerts an account calls for |
| Reports.WindowAlerts | main.go:2134-2168 | Every window alert is that of a window below a threshold, and there is none exactly when no window is |
| Reports.AlertsForAccount | main.go:2085-2178 | All alerts of an account, in order and with their ids |
| Reports.AlertsExactly | main.go:2085-2123 | Which alerts an account has besides those for low balances and quotas, and with what level and code |
| Reports.QuotaAlertsExactly | main.go:2134-2168 | Which alerts for low quotas an account has: one for each window at or below a threshold, at its level, or one for the account when there is none and no section failed |
| Reports.BalanceAlertsExactly | main.go:2127-2133 | The one alert for low balances, at the worst level of the balances and rules |
| Reports.IdsTellAlertsApart | model.go:256-264 | For a digest without collisions two alerts of any accounts have the same id exactly when they agree in everything but their level |
| Reports.IdentifyAll | main.go:2174-2177 | Every alert gets the id of its own fields |
| Reports.WindowLevelIsCovered | main.go:2139-2151 | A window calls for no more than the quota level the evaluation found |
| Reports.AlertsAgreeWithStatus | main.go:2124-2173 | After evaluation, for kinds other than balance and unsupported: no quota alert is above the status, and warning or critical always has an alert |
| Reports.BalanceAlertExactly | main.go:2127-2133 | A balance account at warning or critical has an alert exactly when it is stale, has a coded error, a failed section, or a balance below its rule |
| Reports.SilentCriticalBalance | main.go:2127-2133 | A used-up total balance without a cash rule is critical and raises no alert |
| Reports.CountAccount | main.go:2047-2071 | One account adds to exactly the counts its status, kind and staleness call for |
| Reports.BuildReport | main.go:2045-2083 | The loop computes the worst severity, the counts and all alerts |
| Reports.Worst | main.go:2073-2080 | At least every account's severity, and one of them or ok |
| Reports.TotalIsCounted | main.go:2048-2062 | The total is the five status counts plus the disabled and unrecognised accounts |
| Reports.ReportIgnoresOrder | main.go:2045-2083 | Status and summary do not depend on the order of the accounts |
| Reports.ReportOfConcat | main.go:2045-2083 | Reporting on two lists together joins statuses, adds summaries and concatenates alerts |
| Reports.OneAccountReport | main.go:2045-2083 | What one account adds: its status, where disabled counts as critical and stale as at least a warning, and one in each count it belongs to |
| Reports.WorseExactly | main.go:2311-2334 | How two statuses join, in the order error, critical, warning, unknown, disabled, ok |
| Reports.ReportOkExactly | main.go:2073-2080 | The report is ok exactly when no account is stale and each is ok or unrecognised |
| Dismissals.Visible | main.go:2009-2020 | Keeps exactly the alerts that are not dismissed |
| Dismissals.VisibleExactly | main.go:2009-2020 | The visible alerts are the given ones in order without those marked |
| Dismissals.DismissExactly | prefs.go:417-433 | Dismissing fails exactly for a blank id and for more than 128 bytes, and otherwise marks the trimmed id and no other |
| Dismissals.BytesExactly | prefs.go:422-424 | The length limit counts one to four bytes a character |
| Dismissals.ForgetExactly | prefs.go:435-448 | Reconciling keeps the marks of active alerts as they are and forgets all others |
| Dismissals.CollectActive | main.go:2002-2007 | The ids of the report's alerts |
| Dismissals.KeepVisible | main.go:2009-2020 | The filter in its two branches |
| Dismissals.FilterDismissedAlerts | main.go:1998-2021 | Commits the forgetting of inactive dismissals, then hides what is still dismissed |
| Dismissals.MutateDismissal | prefs.go:417-448 | What any operation does to one dismissal |
| Dismissals.StepDismissal | prefs.go:417-448 | Only a dismissal that lands sets the mark, only a report without the alert that lands clears it |
| Dismissals.DismissedExactly | prefs.go:417-448 | Without restarts, in terms of the events: an alert is dismissed exactly when a dismissal of it landed, or it was dismissed at the start, and every report that landed since had it |
| Dismissals.HiddenExactly | main.go:1998-2021 | So a report hides an active alert exactly when some earlier dismissal of it was followed only by reports in which it stayed active |
| Dismissals.MarkedExactly | prefs.go:417-448 | Operations mark an alert exactly when a dismissal, or the start, is followed only by reports in which it is active |
| Dismissals.DismissedThroughRestarts | prefs.go:996-1033 | On every run, with conflicts, failed writes and restarts: memory and file mark an alert exactly as the operations behind them do |
| Dismissals.HiddenThroughRestarts | main.go:1998-2021 | So a report hides an active alert exactly then |
| QuotaWindows.Clamp | adapters.go:464-472 | Between zero and one, and unchanged there |
| QuotaWindows.DerivedMonthlyWindow | commandcode.go:486-515 | None exactly without a grant; otherwise the shares split the whole, with nothing remaining exactly when nothing is left and everything when more is left than granted |
| QuotaWindows.WindowsSplitTheWhole | adapters.go:413-462 | Every constructor splits the whole into shares between zero and one; the one that does not cap its remaining amount does so exactly when that amount is within the limit or the limit is overdrawn |
| QuotaWindows.OverLimitIsUsedUp | adapters.go:1545-1597 | Used above a positive total leaves a remaining share of zero in every constructor given both amounts |
| QuotaWindows.ZaiSharesExactly | adapters.go:413-462 | Which field decides the shares of a Z.ai limit, and how |
| QuotaWindows.PercentSharesExactly | adapters.go:1545-1569 | Which field decides the shares of a window from percentages, and how |
| QuotaWindows.LimitSharesExactly | adapters.go:1571-1597 | When a window from a limit exists, what remains without overuse, and which excess it reports with overuse |
| QuotaWindows.ValueSharesExactly | adapters.go:1303-1337 | The other constructor is the same, except that more remaining than the limit counts as the whole |
| QuotaWindows.AmountsExactly | adapters.go:1571-1597 | The amounts both constructors show: those reported, or what follows from them, printed |
| QuotaWindows.CommandCodeExactly | commandcode.go:461-484 | When a Command Code window exists and what remains of its cap |
| QuotaWindows.UsedUpIsCritical | main.go:2235-2275 | A used-up window makes its account critical exactly unless the base status is one thresholds never touch |
| QuotaWindows.TinyExcessIsStillCritical | adapters.go:1577-1592 | Also when the excess, of whatever origin, is so small that it prints as 0 |
| QuotaWindows.PrintsZero | adapters.go:1339-1341 | An amount up to half a millionth prints as 0 |
| Decimal.Millionths | adapters.go:1339-1341 | The nearest count of millionths, halves to the even one |
| Decimal.ShortenedTail | adapters.go:1339-1341 | Trimming zeros and the point drops trailing zeros of the decimals and nothing of the whole part |
| Decimal.FormatRoundTrips | adapters.go:1339-1341 | Every printed amount reads back as its nearest count of millionths, in canonical text |
| Decimal.PrintingIsInjective | adapters.go:1339-1341 | Exact millionths survive printing and reading, so printing them is injective |
| Decimal.RoundingIsMonotone | adapters.go:1339-1341 | Rounding never swaps two amounts |
| CashThresholds.NormalizeCashThresholds | main.go:2344-2371 | The loop equals NormalRules for every order of the entries |
| CashThresholds.AcceptedExactly | main.go:2352-2368 | A configuration is accepted exactly when every key is non-blank and every rule holds two readable non-negative amounts in order |
| ConfiguredCash.LastEntryIsStored | main.go:2344-2371 | The last entry of a key decides the stored rule, as printed amounts |
| ConfiguredCash.OnlyEntriesAreStored | main.go:2344-2371 | The stored keys are exactly the normalised configured ones |
| ConfiguredCash.CurrencyRuleJudges | main.go:2278-2371 | A rule configured for a currency, in any spelling, judges every balance in it, in any spelling, of accounts without a rule of their own, by its amounts rounded to millionths |
| ConfiguredCash.AccountRuleJudges | main.go:2278-2371 | A rule configured for an account judges its balances in every currency |
| CashThresholds.NormalizationIsIdempotent | main.go:2344-2371 | Normalising the stored map again, in any order, gives it back |
| CashThresholds.NormalizedRulesAreToldApart | prefs.go:488-498 | Against rules stored by normalising, the comparison of rules is exact |
| CashThresholds.StoredThresholdsAreToldApart | prefs.go:712-722 | So after a threshold commit the stored thresholds are those of the request, and it reports no change exactly when they were before |
| CashThresholds.StoredCriticalIsBelowWarning | main.go:2364-2368 | Rounding never lifts a stored critical amount above its warning |
| CashThresholds.ParserReadsPrinted | adapters.go:1509-1512 | A decimal parser reads what the monitor prints |
| EndpointPaths.SplitEndpointPath | adapters.go:1412-1425 | The segments of a path |
| EndpointPaths.SegmentsExactly | adapters.go:1412-1425 | The empty path has no segment, a path without a slash is its own, and the segments of two paths joined by a slash are those of the first and then those of the second |
| EndpointPaths.SplitOfJoin | adapters.go:1409-1425 | Splitting a joined path gives its segments back |
| EndpointPaths.LargestOverlap | adapters.go:1399-1404 | The largest overlap within the bound, and none larger |
| EndpointPaths.MergeEndpointPath | adapters.go:1394-1410 | The loop finds the largest overlap and joins the merged segments |
| EndpointPaths.MergedIsShortest | adapters.go:1394-1410 | The merged path is the shortest longer than the base that starts with the base and ends with the endpoint, and the only one of its length |
| EndpointPaths.MergedPathSplits | adapters.go:1394-1425 | The segments of the merged text are the merged segments |
| UsagePages.QueryUsageItems | clinepass.go:79-113 | The paging loop collects what Collected says, page limit and failures included |
| UsagePages.EndsHere | clinepass.go:99-110 | The loop's test for its last page |
| UsagePages.EndsExactly | clinepass.go:99-110 | The loop ends after the last page, an empty page, or one that reaches back more than thirty days, when no entry has the zero time |
| UsagePages.CollectedExactly | clinepass.go:79-113 | The pages of the feed up to the first that ends the loop, at most ten, are collected in order |
| UsagePages.FailedPageFails | clinepass.go:79-98 | A page that cannot be fetched fails the query |
| UsagePages.UsageTotals | clinepass.go:242-263 | The three totals in one pass |
| UsagePages.TotalsExactly | clinepass.go:242-263 | One entry adds its cost to the totals of 18000, 604800 and 2592000 seconds when it has a time after the cutoff and a cost that is not negative; feeds together add up; nothing totals nothing |
| UsagePages.TotalsAreOrdered | clinepass.go:242-263 | Five hours, a week and a month total increasing amounts, for any items |
| UsagePages.CollectedNeverExceeds | clinepass.go:79-113 | Whatever ends the loop, no total exceeds that of the whole feed |
| UsagePages.EarlyStopLosesNothing | clinepass.go:79-113 | When the feed is newest first without empty pages before its end and the loop ends by its own test, all totals are those of the whole feed, now and later |

## Left out

- Identities.IdsFollowCredentials: assumes that the keyed hash has no collisions, that random ids are new, that no candidate has both a source id and a fingerprint, and that the run starts from consistent records.
- MonitorPreferences.Draft.constructor: the program's clone also promises that no map is shared with the published document; maps are values here and cannot be shared.
- AccountPlaces.ResolvingKeepsPlaces: assumes, like RunKeepsPlaces, a collision-free hash, consistent records, new random ids, and that no legacy id of a call is a recorded, derivable, drawn or given account id (`Newcomers.LegacyApart`); legacy ids are positions in the host's list, account ids are made by the program.
- Inheritance.AmbiguousLegacyGoesToNobody: makes the same assumptions about the call.
- Heirs.HeirKeepsSettings: makes the same assumptions, and that no later candidate of the call is given the same new id; with one, as in AccountPlaces.SpacedTwinsLoseAPlace, its legacy settings overwrite those of the first.
- RefreshCompletion.FollowerStores: says what happens once the leader is done; that it finishes depends on the provider and the scheduler.
- Inheritance.CredentialKeepsOneHolder: speaks of a credential that nobody enters a second time; entering the same text for two accounts gives it two holders by intention.
- Dismissals.DismissedExactly: is for runs without restarts, like HiddenExactly; with restarts the operations behind memory and file take the place of the events (DismissedThroughRestarts, HiddenThroughRestarts).
- Freshness.StoredDataIsCurrent: starts without stored snapshots, because nothing is known about what earlier queries read; identity migration is not a step, since it moves adapter and credential without raising query revisions and is meant for ids not queried yet; stores outside the refresh workers (single-account fetch, credential read errors during discovery) skip the check and are not steps; the key file stays the same across restarts.
- Revival.OvertakenNeverStores: covers workers that have read their revision; one that reads it after the change is an ordinary new refresh.
- CacheFiles.RunKeepsInv: the migration revision is unbounded here and a 64-bit counter in the program.
- Histories.MergeIsIdempotent: assumes that the encoded text of a snapshot shows its times and status, which JSON text does.
- ThresholdRules.SeverityIsMonotone: asks both configurations to have the same account rules, because a new account rule replaces a currency rule that may be larger.
- Decimal.FormatRoundTrips: floating-point numbers are reals here, so binary rounding, NaN, infinities and negative zero are not modelled.
- UsagePages.EarlyStopLosesNothing: says nothing when the page limit ends the loop; then only the upper bound of CollectedNeverExceeds holds.
- Upper and lower case are mapped for ASCII letters only; trimming uses the full Unicode white space list.
- Integers are unbounded; the program's revisions are 64-bit.
- JSON and YAML text, HTTP clients, proxies, adapters' field lookup and provider matching: decoded values are the inputs.
- Snapshot fields that no modelled rule reads (provider, base URL, capabilities, details, warnings, latency, reset times) and the texts of alerts.
- The configuration of another preferences path while running, and creation of the key file: the key is readable or not.
- All-or-nothing threshold edits at the request handler: without stored thresholds the handler edits the configuration's own map in place; atomicity is stated for the preferences commit.
- The background scheduler's timing, the session proxy, the plugin interface and the user interface.
- The in-place reuse of slices for filtered alerts and accounts is modelled on sequences; only the history filter is modelled on an array.
- Text.Less, list order of accounts and the usage summary by model are simple sorting and adding and are modelled only where a proof needs them.
