# Materials management: a verified model of its stateful core

This project models the parts of the materials-management application whose behaviour depends on order, state or
text that must be read back: the browser's token refresh protocol, the database connection wrapper, the object
store, the netting of the planning snapshot, the PDF description scanner, one data migration, and the list, calendar
and arithmetic cores of the frontend. Every module states what the code promises its callers and proves it for all inputs, all runs or all
reachable states. `dafny verify dfyconfig.toml` checks everything.

## How it is organised

| part | modules | main results |
|---|---|---|
| token refresh | AuthSession, AuthRefresh, AuthDialogues, AuthStored, AuthForced, AuthModule, AuthWitness | the two module variables agree at every event-loop boundary; pending refreshes are at most one more than the clears made while one was pending; the exact two ways in which a finishing refresh touches a session that is not its own, the discipline that excludes them, and runs that show the discipline is needed; exactly when a forced refresh respects the stored session; each pending refresh holds its own dialogue of at most two token requests; over every run, whatever a refresh stores is what the replies to it said |
| connection wrapper | DbSession, DbConnection, DbRefinement, DbTheorems, DbActor | the savepoint machine refines a log of surviving statements with bookmarks; commits publish exactly the survivors; failed statements, failed blocks and ROLLBACK TO restore, over every run and every body of properly nested operations; exactly when the applied user is lost, and what user the session is left with |
| placeholders | Placeholders | rewriting `?` to `:p0`, `:p1`, ... is read back as meant if and only if the marks are separated, and then means the same if and only if no token clashes |
| object store | StorageNames, StorageRefs, ObjectStore, StoreLedger, ObjectStoreRuns | names are sanitised place by place, free and least; a reference leads home under exact conditions; every call, however it ends, is a step of runs over which each live reference reads back its name and bytes, on either backend |
| planning snapshot | PlanningSources, PlanningNetting, PlanningTheorems, PlanningLaws, PlanningTiming, PlanningOrder, PlanningQueue | the consuming loops compute first come, first served; for all supplies and demands, quantities balance, no source is used twice or for another project, what counts as in time is here in time, and nobody waits while usable supply lies idle; projects are served by start and then by place in the planning, and supply is used in the order of its arrival; exactly when the snapshot raises |
| PDF scanner | DescriptionExtractor | the two nested loops compute a per-line definition with no loops in it; each text holds the lines that belong together, in order |
| migration 010 | PurchaseOrderHeader | upgrade succeeds exactly when every order is quoted; downgrade inverts it; exactly when upgrading again keeps the sharing |
| previews, recent list | PreviewMerge, RecencyLists, RecentSelections | merge and split is lossless; the list is the eight latest distinct entities of the whole history |
| RFQ editor | RfqEditor, RfqBatchEditor | rehydration cleans exactly the saved lines; edits survive whole sessions; an untouched draft saves what the line had; a save shows what the detail at hand says, and when that is the newest |
| recovery, totals, CSV | StableSort, Sums, DatedQuantities, RecoveryBurndown, ProvisionalSummary, CsvExport | the reported date is the first that covers the shortage; quantities are conserved; the export reads back |
| calendar | MonthGrid | every day once, in its weekday's column, whole weeks, and the next month follows on |

Code that changes state in the original is a class or a method here: `AuthModule.AuthModule`,
`DbConnection.DBConnection`, `ObjectStore.Storage`, `PlanningNetting.Netting`, `PurchaseOrderHeader.Bind`,
`RecentSelections.RecentPicker` and `RfqBatchEditor.Editor` update their fields in place, and each method is proved equal to one step of a
specification function on the abstract state; the theorems over runs are about that function. Random names,
clocks, network replies, id-token claims, operating-system faults, the regular expressions of the PDF scanner and
the collation of `localeCompare` are parameters and arbitrary.

## What the proofs brought to light

* A refresh orphaned by a sign-out reads the module variable of a newer refresh and can overwrite the newer
  user's session (`AuthWitness.StaleRefreshOverwritesNewUser`). There is a second way: when no refresh is in
  flight and the stored session has no refresh token, a failing orphan compares null with null and signs a manual
  token out (`AuthWitness.StaleFailureClearsManualToken`). `AuthRefresh.ForeignTouchExactly` shows there is no third.
* `refreshStoredAuthSessionNow` stores without looking, so it revives a signed-out session
  (`AuthWitness.ForcedRefreshRevivesSignedOutSession`); `AuthForced.ForcedRefreshRespectsExactly` says of every run
  whether it revives, overwrites or respects the stored session.
* ROLLBACK TO raises in an aborted transaction whose actor is still to be applied, and there alone
  (`DbTheorems.RollbackToRestores`).
* A rollback to a savepoint older than the application of the actor undoes it while the wrapper still counts it
  as applied (`DbActor.LateActorIsLost`); `DbActor.ActorLostExactly` says exactly which operations do this.
* `Placeholders.Separated` is the exact condition on the marks. Besides marks that touch identifiers it excludes
  two adjacent marks, since the colon of the second token then follows a word character
  (`Placeholders.AdjacentMarksMisread`).
* A line break in a subdirectory, white space at the end of a name, or a GCS prefix that pathlib would print
  differently, makes a returned reference unreadable (`StorageRefs.LocalRefExactly`, `StorageRefs.GcsRefExactly`).
* `move_file_to_storage` falls back on the unsanitised name of the source; `ObjectStoreRuns.MovedNameExactly`
  gives the condition, `ObjectStoreRuns.HiddenMoveStaysHidden` an input that reads back all the same and
  `ObjectStoreRuns.BlankMoveIsLost` one that does not.
* With an absolute subdirectory outside the bucket, a local write or move puts its object there, takes the source of
  a move away, and then raises (`ObjectStore.Storage.MoveFileToStorage`).
* The planning snapshot raises a key error as soon as one planned project has an order or quoted line of its own for
  an item that it does not require and another planned project does (`PlanningTiming.NettingRaisesExactly`).
* Two headers without URL for one supplier, which the unique constraint permits, are merged when the migration is
  undone and repeated (`PurchaseOrderHeader.UpgradeAgainExactly`, `PurchaseOrderHeader.TwinsAreMerged`).
* Loading the saved recent list replaces a blank value text by the label
  (`RecentSelections.ReloadExactly`).
* The RFQ editor runs its effect as soon as a save marks a line as pending, with the detail it still holds, and
  drops the mark: a save that changes a line puts the old value back on show, and later details are not looked at
  (`RfqBatchEditor.SaveShowsHeld`, `RfqBatchEditor.ShowsNewestExactly`, `RfqBatchEditor.StaleDetailSticks`).
* The Date constructor reads the years 0 to 99 as 1900 to 1999, so that only the grids of December 99 and January
  100 do not follow on from each other (`MonthGrid.NextMonthOffset`).

## Model

| member | source | states |
|---|---|---|
| AuthSession.ResolvesWithLastRotatedToken | frontend/src/lib/auth.ts:246-267 | a refresh that resolves carries the last non-blank rotated refresh token among the replies it consumed, else the one it started with |
| AuthDialogues.PendingRefreshBounds | frontend/src/lib/auth.ts:229-273 | over every interleaving, each pending refresh is where the replies to it alone have brought it, has sent at most two token requests, and once resolved carries the last non-blank token rotated among those replies |
| AuthDialogues.ForcedRefreshBounds | frontend/src/lib/auth.ts:351-358 | the same for each pending forced refresh and the token of the session it read |
| AuthStored.RejectsExactly | frontend/src/lib/auth.ts:244-246 | a refresh fails if and only if the last reply it took refuses a token; a failing lookup never fails it |
| AuthStored.AsksExactly | frontend/src/lib/auth.ts:247-265 | after a token the account is looked up if and only if the token does not claim a verified address, and then a second token is asked for, with the last rotated refresh token, if and only if it was the first one and the account turned out verified while the token did not say so |
| AuthStored.ResolvesAsSaid | frontend/src/lib/auth.ts:229-273 | a refresh that resolves has the id token of the last token reply, expires that reply's number of seconds after the last reply, and takes address and verification from the account looked up, else from the token |
| AuthStored.SettlingStoresWhatWasSaid | frontend/src/lib/auth.ts:317-341 | over every interleaving: when a finishing refresh changes what is stored, it clears it after a failure, and else stores the last id token and expiry, the last rotated refresh token among the replies to it, and the metadata they told or, failing that, those of the session it is stored over |
| AuthStored.ForcedStoresWhatWasSaid | frontend/src/lib/auth.ts:351-366 | over every interleaving: the same for a forced refresh, with the token and metadata of the session it had read; a failing one stores nothing |
| AuthStored.NormalExactly | frontend/src/lib/auth.ts:64-89 | a stored session is read back unchanged if and only if none of its texts is blank or has white space around it |
| AuthStored.NormalizeTrims | frontend/src/lib/auth.ts:64-89 | any other is trimmed field by field, and is none if and only if its access token is blank |
| AuthStored.MigratesExactly | frontend/src/lib/auth.ts:143-158 | a legacy token is migrated, trimmed and without a refresh token, if and only if nothing readable is stored and the token is not blank; one of the tab, even a blank one, hides that of the browser |
| AuthStored.LegacyOnlyBefore | frontend/src/lib/auth.ts:127-175 | over every run, legacy tokens are there as long as nothing was stored or cleared and never again, so a sign-out is not undone by a migration |
| AuthModule.AuthModule.constructor | frontend/src/lib/auth.ts:61-62 | a freshly loaded module over any stored content has both module variables null and nothing pending |
| AuthModule.AuthModule.ReadStored | frontend/src/lib/auth.ts:132-141 | reading gives the stored session in normal form, or none, and changes nothing |
| AuthModule.AuthModule.WriteStored | frontend/src/lib/auth.ts:160-175 | storing replaces the session and drops legacy tokens; clearing also resets both module variables; each dispatches one event |
| AuthModule.AuthModule.ReadOrMigrate | frontend/src/lib/auth.ts:143-158 | a legacy token is migrated exactly when nothing readable is stored and it is not blank |
| AuthModule.AuthModule.GetStoredAccessTokenOrNull | frontend/src/lib/auth.ts:279-285 | answers the access token of the stored or just migrated session |
| AuthModule.AuthModule.SetStoredAccessToken | frontend/src/lib/auth.ts:287-290 | a blank token signs out, any other is stored trimmed and without a refresh token |
| AuthModule.AuthModule.GetValidAccessTokenOrNull | frontend/src/lib/auth.ts:305-348 | answers at once exactly when no refresh is needed or possible, where needed means no expiry or less than a minute to it, and otherwise joins the refresh in flight or starts the only one |
| AuthModule.AuthModule.ReceiveReply | frontend/src/lib/auth.ts:229-273 | one network reply advances the dialogue of that refresh and touches nothing else |
| AuthModule.AuthModule.Fulfil | frontend/src/lib/auth.ts:317-334 | the then handler is the step of the protocol that stores only over the in-flight token, comparing with the module variable and not with a captured token; what that stores is AuthStored.SettlingStoresWhatWasSaid |
| AuthModule.AuthModule.Fail | frontend/src/lib/auth.ts:335-341 | the catch handler clears exactly when the stored token equals the module variable, both possibly null |
| AuthModule.AuthModule.Finish | frontend/src/lib/auth.ts:342-345 | the finally handler resets both module variables, whoever they belong to |
| AuthModule.AuthModule.RefreshStoredAuthSessionNow | frontend/src/lib/auth.ts:351-357 | a forced refresh starts exactly when a refresh token is stored and the service is configured, and otherwise answers at once |
| AuthModule.AuthModule.EndDirect | frontend/src/lib/auth.ts:357-366 | a forced refresh that resolves stores unconditionally and answers what it stored; one that fails raises and stores nothing; what is stored is AuthStored.ForcedStoresWhatWasSaid |
| AuthRefresh.VariablesAgree | frontend/src/lib/auth.ts:61-62 | over every interleaving, the module variables are null together and else name a pending refresh and the token it started with |
| AuthRefresh.OrphansBounded | frontend/src/lib/auth.ts:160-175 | over every interleaving, refreshes no longer in flight but still pending are no more than the clears made while one was pending |
| AuthRefresh.SingleFlight | frontend/src/lib/auth.ts:314-346 | over every interleaving, pending refreshes are at most one plus those clears |
| AuthRefresh.ForeignTouchExactly | frontend/src/lib/auth.ts:317-341 | over every interleaving, a finishing refresh touches a session without its own token if and only if a newer refresh owns the session, or it failed and meets a session with no refresh token while none is in flight |
| AuthRefresh.OrderlyRun | frontend/src/lib/auth.ts:305-349 | if no refresh starts and no tokenless session is stored while an orphan is pending, at most one refresh is ever pending and no orphan ever sees a tokenless session |
| AuthRefresh.SettlesOnlyItsOwnSession | frontend/src/lib/auth.ts:305-349 | in every such run, with any number of forced refreshes in between, a finishing refresh changes or clears the session only if it holds the token it started with |
| AuthRefresh.AnswersStoredAccessToken | frontend/src/lib/auth.ts:317-348 | the callers waiting for a refresh that resolved are told the access token that is stored once it has settled |
| AuthForced.StorageIsLastChange | frontend/src/lib/auth.ts:132-175 | over every run, what is stored is what the last sign-in, migration, refresh, sign-out or failing refresh left |
| AuthForced.ForcedRefreshRespectsExactly | frontend/src/lib/auth.ts:351-366 | for every run between the start and the end of a forced refresh: it revives a signed-out session if and only if the last change was a clear, overwrites another session if and only if one was written last, and otherwise stores over the session it read |
| AuthForced.UnannouncedIsUnchanged | frontend/src/lib/auth.ts:112-115 | while no change event is dispatched the stored session is the one the forced refresh read |
| AuthWitness.StaleRefreshOverwritesNewUser | frontend/src/lib/auth.ts:317-334 | for all pairs of users, a run without the discipline in which the first user's refresh overwrites the second user's session |
| AuthWitness.StaleFailureClearsManualToken | frontend/src/lib/auth.ts:335-341 | for all users and manual tokens, a run in which a failing orphan clears the manual token |
| AuthWitness.ForcedRefreshRevivesSignedOutSession | frontend/src/lib/auth.ts:351-366 | for all users, a run for the first case of AuthForced.ForcedRefreshRespectsExactly: after a sign-out a forced refresh brings the session back |
| DbConnection.DBConnection.constructor | backend/app/db.py:231-235 | a new wrapper starts with no actor, nothing applied and the pooled session as it was left |
| DbConnection.DBConnection.SetActorUser | backend/app/db.py:237-239 | the actor is remembered and will have to be applied again |
| DbConnection.DBConnection.ApplyActor | backend/app/db.py:241-249 | applies the actor unless it counts as applied, raises in an aborted transaction, and only a success counts; afterwards the setting reads as the user's number |
| DbConnection.DBConnection.ExecuteStatement | backend/app/db.py:251-283 | an ordinary statement is one step of the machine: actor, savepoint, statement, then release or rollback to it |
| DbConnection.DBConnection.ExecuteManual | backend/app/db.py:264-269 | a hand-written SAVEPOINT, ROLLBACK TO or RELEASE runs without a savepoint of its own |
| DbConnection.DBConnection.CommitRoot | backend/app/db.py:285-288 | ends the transaction, its savepoints and open blocks, and forgets that the actor was applied |
| DbConnection.DBConnection.RollbackRoot | backend/app/db.py:290-293 | the same with the working state dropped |
| DbConnection.DBConnection.CloseConnection | backend/app/db.py:295-298 | closing rolls back and leaves the wrapper closed |
| DbConnection.DBConnection.BeginTransaction | backend/app/db.py:318-321 | entering a block sets a numbered savepoint and raises in an aborted transaction |
| DbConnection.DBConnection.EndTransaction | backend/app/db.py:321-327 | leaving a block rolls back to or releases its savepoint, and one whose transaction has ended raises only on success |
| DbRefinement.RunWrappedIs | backend/app/db.py:270-283 | a wrapped statement leaves nothing but its effect when it succeeds, and nothing but a stray savepoint when it fails |
| DbRefinement.RefinementStep | backend/app/db.py:251-327 | every operation is matched by one step of a specification without saved states, and raises exactly when that does |
| DbRefinement.Follow | backend/app/db.py:230-327 | the specification follows the wrapper over every run from any related pair of states |
| DbTheorems.SpecAfter | backend/app/db.py:313-327 | over every run on an idle pooled session there is a specification state that the wrapper refines |
| DbTheorems.CommitPublishesSurvivors | backend/app/db.py:285-298 | over every run the working data is the replay of the surviving statements; commit publishes exactly these, or nothing when the transaction is broken; rollback returns to the published ones |
| DbTheorems.FailedStatementChangesNothing | backend/app/db.py:270-283 | a statement that raises leaves data, committed data, log and bookmarks as they were, and raised only because it fails there or the transaction is broken |
| DbTheorems.StandingKeeps | backend/app/db.py:251-327 | whatever runs above a standing savepoint leaves the log and the savepoints below it untouched |
| DbTheorems.BodyStands | backend/app/db.py:251-327 | a body of statements, actor changes, savepoints, returns to and releases of its own names, and properly nested blocks leaves every older savepoint standing and the blocks below its own |
| DbTheorems.PlainIsBody | backend/app/db.py:251-283 | every list of ordinary statements, new savepoints and actor changes is such a body, whatever succeeds in it |
| DbTheorems.RollbackToRestores | backend/app/db.py:264-269 | after any run, ROLLBACK TO restores the data of its SAVEPOINT across every body, even one that changes the actor or aborts the transaction; it raises if and only if the transaction is aborted and an actor is still to be applied, and then changes nothing |
| DbTheorems.FailedBlockRestoresEntry | backend/app/db.py:318-327 | after any run, a block whose body raises restores the data of its entry, whatever the body did and even when that aborted the transaction |
| DbActor.SeesActorExactly | backend/app/db.py:241-252 | the next statement sees the current actor exactly when the wrapper's belief about the setting is right |
| DbActor.ActorTextReads | backend/app/db.py:244 | the text handed to set_config is empty for no user and else the user's number in plain decimals, with a sign for negative numbers only and no zeros in front |
| DbActor.ActorLostExactly | backend/app/db.py:241-249 | one operation loses the actor if and only if it goes back to a savepoint set under another setting while the actor counts as applied |
| DbActor.StatementsSeeActor | backend/app/db.py:237-252 | over every run in which that never happens, on a session left with any user, the setting that each statement sees reads as the number of the current actor, or as no user |
| DbActor.ActorFirstSuffices | backend/app/db.py:237-252 | applying the actor before setting savepoints is enough for that, over every run |
| DbActor.LeavesSetting | backend/app/db.py:285-298 | over every run, a rollback or a close leaves the session with the user of the last commit of a sound transaction, and a commit of one leaves it with its own |
| DbActor.LateActorIsLost | backend/app/db.py:318-327 | for all users and statements, a run after which statements see the previous user of the pooled session |
| Placeholders.ReadsAsMeantExactly | backend/app/db.py:183-194 | the rewritten text is read with one token per mark, in order and under its number, and all else as it was, if and only if the marks are separated; numbers of any length |
| Placeholders.MappingBinds | backend/app/db.py:193 | the mapping binds exactly the tokens below the number of parameters, each to its own value |
| Placeholders.TokenReads | backend/app/db.py:186-193 | the token of mark k is the letter p followed by k in decimals |
| Placeholders.RewritingPreservesMeaning | backend/app/db.py:183-194 | for separated marks and any number of parameters, binding by name equals binding by position if and only if the text names none of the new tokens |
| Placeholders.AdjacentMarksMisread | backend/app/db.py:192 | an input, two adjacent marks, whose tokens are not read back |
| Placeholders.OwnTokenRebound | backend/app/db.py:183-194 | an input that names the token its mark becomes, and so changes its meaning |
| Placeholders.SequenceParamsToMapping | backend/app/db.py:183-194 | the counting substitution and the mapping are the functions of those theorems |
| StorageNames.SafeFilenameGood | backend/app/storage.py:30-34 | a sanitised name has safe characters only and no dot or underscore at its ends, or is the default |
| StorageNames.SafeFilenameExactly | backend/app/storage.py:30-34 | the default is used if and only if the last path component has nothing but unsafe characters, dots and underscores; otherwise the result holds, up to dots and underscores cut off at its ends, the safe characters in order and one underscore for each maximal run of others, each at its place |
| StorageNames.SafeFilenameKeeps | backend/app/storage.py:30-34 | sanitising a good name changes nothing, so sanitising twice is sanitising once |
| StorageNames.NumberedInjective | backend/app/storage.py:311-321 | different numbers give different suffixed names |
| StorageNames.SuffixExactly | backend/app/storage.py:311-312 | the suffix begins at the last dot, unless that is the first or the last character, and stem and suffix make up the name |
| StorageNames.NumberedExactly | backend/app/storage.py:315-321 | a suffixed name is the stem, an underscore, the number in decimals and the suffix |
| StorageNames.Pigeonhole | backend/app/storage.py:314-321 | among distinct suffixed names no more are taken than objects exist |
| StorageNames.FindFree | backend/app/storage.py:311-323 | the unbounded search ends on any finite set and picks the name itself or the one with the least free number, never an existing object |
| StorageRefs.ParseBuiltExactly | backend/app/storage.py:190-208 | scheme, bucket and path come back as printed if and only if the path holds no line break |
| StorageRefs.LocalRefExactly | backend/app/storage.py:185-229 | for every plain directory and every name, a local reference leads to its file if and only if no line break occurs in its path and the name does not end with white space |
| StorageRefs.LineBreakIsLost | backend/app/storage.py:192 | an input, a line break in the subdirectory, whose reference leads nowhere |
| StorageRefs.GcsRefExactly | backend/app/storage.py:104-113 | a GCS reference leads to its blob if and only if the prefix is in normal form and no line break occurs |
| StorageRefs.GcsDirectoriesApart | backend/app/storage.py:69-101 | no bucket's directory on GCS lies in another's |
| ObjectStore.Storage.PrepareLocal | backend/app/storage.py:308-321 | makes the directory and finds the first free name without overwriting anything, or raises exactly when a file is in the way |
| ObjectStore.RelativeExactly | backend/app/storage.py:307-334 | a relative subdirectory is taken below the bucket's directory, an absolute one replaces it, and the object can be reported if and only if its directory is the bucket's or below |
| ObjectStore.TempNamesApart | backend/app/storage.py:323 | temporary names of different objects or with different random parts differ |
| ObjectStore.Storage.WriteStorageBytes | backend/app/storage.py:298-367 | for every subdirectory, absolute ones too: how the call ends, where it puts its object under the name of StorageNames.SafeFilenameExactly, and that no other file than a temporary one is gone |
| ObjectStore.Storage.WriteLocal | backend/app/storage.py:306-339 | the local branch raises exactly when the bucket is unknown, something is in the way or the operating system fails, and also, after putting its object, when the directory is outside the bucket |
| ObjectStore.Storage.WriteBlob | backend/app/storage.py:341-367 | the GCS branch satisfies the same specification; it raises when the bucket is unknown or the reference of the blob it has put leads nowhere, and leaves that blob behind |
| ObjectStore.UploadNamed | backend/app/storage.py:359-367 | an upload reports the chosen name even if its reference leads to another blob or to none, and finds nothing to report if and only if a line break occurs in its path |
| ObjectStore.Storage.MoveFileToStorage | backend/app/storage.py:370-422 | the same for a move, after which the source is gone, unless the bucket is unknown or something was in the way; a missing source raises and changes nothing |
| ObjectStore.Storage.ReadStorageBytes | backend/app/storage.py:277-295 | returns name and bytes of the object the reference leads to, or raises not found |
| ObjectStore.Storage.DeleteStorageRef | backend/app/storage.py:425-440 | removes exactly that object; a missing file is fine, a missing blob raises, a reference out of the root does nothing |
| ObjectStoreRuns.RefLeadsHome | backend/app/storage.py:185-229 | on either backend the reference of every object the store issues leads to that object |
| ObjectStoreRuns.OneRefPerPlace | backend/app/storage.py:185-188 | two issued references to one object are the same text |
| ObjectStoreRuns.HiddenFilesAreNotLive | backend/app/storage.py:323-329 | no file of a temporary name is an object that a live reference leads to |
| ObjectStoreRuns.WrittenNameStorable | backend/app/storage.py:305 | every name given to a write is sanitised to one that a reference can carry |
| ObjectStoreRuns.WrittenNeverTemporary | backend/app/storage.py:305-323 | the name that is chosen for a write never starts with a dot, so it is no temporary name |
| ObjectStoreRuns.MovedNameExactly | backend/app/storage.py:385 | the name of a moved file can be referred to if and only if something of it survives sanitising or the source's own name can be; likewise for being no temporary name; on GCS both always hold |
| ObjectStoreRuns.MovedNameIs | backend/app/storage.py:385 | a moved file is named by what can be kept of the name given, or of the source's without one, each character at its place; if nothing can be kept, by the source's own name, on GCS sanitised |
| ObjectStoreRuns.HiddenMoveStaysHidden | backend/app/storage.py:385 | an input for which a moved file keeps a name that starts with a dot, and can be referred to |
| ObjectStoreRuns.BlankMoveIsLost | backend/app/storage.py:385 | an input for which it keeps a name that its reference does not lead to |
| ObjectStoreRuns.WriteKeepsCoherent | backend/app/storage.py:298-367 | a write or move adds its reference and keeps what every other live one reads |
| ObjectStoreRuns.DeleteKeepsCoherent | backend/app/storage.py:425-440 | a delete that returns removes exactly its own live reference, one that raises changes nothing |
| ObjectStoreRuns.WriteCallIsStep | backend/app/storage.py:298-367 | every write, however it ends, is a step of the runs below |
| ObjectStoreRuns.MoveCallIsStep | backend/app/storage.py:370-422 | and so is every move, whatever its source |
| ObjectStoreRuns.EveryUploadReturns | backend/app/storage.py:341-367 | in a deployment an upload to a known bucket never fails to find the object it has just stored |
| ObjectStoreRuns.EveryRunReadsBack | backend/app/storage.py:277-440 | over every run of writes, moves and deletes, failing ones and strays among them, from any store and on either backend, each returned reference that leads home reads back its filename and bytes until its object is deleted or moved away |
| PlanningSources.AppendPlanningSource | backend/app/service.py:11720-11731 | adds to the first source that differs in quantity only, else appends, and drops what has no quantity |
| PlanningSources.AppendedAmount | backend/app/service.py:11720-11731 | for any choice of sources, appending a list adds exactly its positive quantities |
| PlanningSources.ConsumePlanningSources | backend/app/service.py:11734-11755 | the loop that consumes in place takes first come, first served, and leaves what it did not take |
| PlanningSources.ConsumedConserves | backend/app/service.py:11734-11755 | for any choice of sources, what is taken and what is left make up what was there |
| PlanningSources.ConsumedTakes | backend/app/service.py:11734-11755 | no more is taken than was wanted, and less only when nothing is left |
| PlanningSources.ConsumedInOrder | backend/app/service.py:11734-11755 | first come, first served: taken are the first sources and perhaps a part of the next one, left are its other part and all sources after it |
| PlanningNetting.Netting.ReceiveDedicated | backend/app/service.py:12088-12111 | an arrival for one project meets its backlog first and is kept for it otherwise |
| PlanningNetting.Netting.ReceiveGeneric | backend/app/service.py:12113-12139 | an arrival for everyone passes by the waiting projects in planning order; stopping early changes nothing |
| PlanningNetting.Netting.MeetDemand | backend/app/service.py:12141-12160 | a project that starts takes its own supply first, then from the pool, and waits for the rest |
| PlanningNetting.Netting.Run | backend/app/service.py:12087-12160 | the loop over events is the specification's run, and raises exactly when that does |
| PlanningNetting.RaisesExactly | backend/app/service.py:12089 | a run raises if and only if some event is for a project without a metric for the item |
| PlanningTheorems.StaysSound | backend/app/service.py:12087-12160 | over every list of events, figures stay balanced and no project waits while supply that it could use lies idle |
| PlanningTiming.EarlierFirst | backend/app/service.py:12115-12136 | of an arrival for everyone, a project gets something only once no earlier one waits any more |
| PlanningLaws.SupplyConserved | backend/app/service.py:12087-12160 | over every list of events and for any choice of sources, what projects were given and what is still free is what was there and what arrived |
| PlanningLaws.DedicatedStaysApart | backend/app/service.py:12087-12160 | over every list of events, supply of one project reaches neither another nor the pool |
| PlanningTiming.EventOrderConsistent | backend/app/service.py:12078-12085 | the sort key of events is a total and transitive order |
| PlanningOrder.CompareTextExactly | backend/app/service.py:12080 | dates are ordered as texts: one is before another if it is a proper prefix of it, or is smaller at the first character where they differ |
| PlanningOrder.EventsInOrder | backend/app/service.py:11998-12085 | all supplies and demands, each once, by day; on one day supply of a project's own, then supply for everyone, then the projects that start, these in planning order |
| PlanningTiming.StaysInTime | backend/app/service.py:12078-12160 | over every sorted list of events, free supply is here by the day of each event to come, and whoever waits has started before each arrival to come |
| PlanningTiming.NetItem | backend/app/service.py:11985-12160 | events collected from supplies and requirements, gone through in the order of PlanningOrder.EventsInOrder, give the plan of the results below |
| PlanningTiming.NettingRaisesExactly | backend/app/service.py:12089 | for all projects, requirements and supplies: the snapshot of an item raises if and only if a planned project has supply of its own for it without requiring it |
| PlanningTiming.NettingBalances | backend/app/service.py:11985-12160 | covered and short make up what is required, recovered and still missing make up the shortage, both are the quantities of the sources listed, and nobody waits beside usable supply |
| PlanningTiming.NettingConserves | backend/app/service.py:11985-12160 | each source is used at most once over all projects: for any choice of sources, the totals over all lists are stock and arrivals |
| PlanningTiming.NettingInTime | backend/app/service.py:11985-12160 | a project's sources are its own or everyone's, those that cover it in time are here by its start, those that recover come after it |
| PlanningOrder.EarlierStartServedFirst | backend/app/service.py:12078-12160 | if of two projects the one that starts later, or on the same day but later in the planning, is given anything from the pool, the earlier one is not left waiting; if they start on the same day, it has no shortage at all |
| PlanningOrder.NettingByOrigin | backend/app/service.py:12088-12160 | what is reported as dedicated, in time or recovered, is the project's own supply, and what is reported as generic is stock and supply for everyone |
| PlanningQueue.FreeSupplyInOrder | backend/app/service.py:12087-12160 | before and after every event, what is free waits in the order of its day, stock first, and by PlanningSources.ConsumedInOrder its front is used first |
| PlanningQueue.NettingListsInOrder | backend/app/service.py:12141-12160 | a project's sources are listed with its own first, each kind by its day, and those that recover it by their day |
| DescriptionExtractor.NothingFrom | backend/data_prep_tools/extract_thorlabs_descriptions.py:128-145 | nothing belongs to an item from the next item line on, or from a break after the description began |
| DescriptionExtractor.CollectParts | backend/data_prep_tools/extract_thorlabs_descriptions.py:122-148 | the inner loop with its early breaks collects exactly what belongs to the item line and stops at or before the next one |
| DescriptionExtractor.ParseDescriptions | backend/data_prep_tools/extract_thorlabs_descriptions.py:113-157 | every item line is visited once, in order, each item's list holds exactly the non-empty descriptions of its lines, and each text that is cleaned has the rest of the item line and the lines belonging to it at their places, a single space between neighbours |
| DescriptionExtractor.JoinExactly | backend/data_prep_tools/extract_thorlabs_descriptions.py:151 | the joined text is as long as all parts and the spaces between them, and part k stands after the k parts before it and a space for each |
| PurchaseOrderHeader.Bind.InsertHeaders | backend/alembic/versions/010_purchase_orders_header.py:24-29 | one header row for each supplier and URL among the quoted orders, nulls counting as equal |
| PurchaseOrderHeader.Bind.LinkOrders | backend/alembic/versions/010_purchase_orders_header.py:30-37 | each quoted order gets the header of its supplier and URL, any other keeps its null |
| PurchaseOrderHeader.Bind.Upgrade | backend/alembic/versions/010_purchase_orders_header.py:10-44 | succeeds if and only if every order has a quotation, and a failure undoes everything |
| PurchaseOrderHeader.Bind.Downgrade | backend/alembic/versions/010_purchase_orders_header.py:47-63 | each order takes back its header's URL, and the new column and table go |
| PurchaseOrderHeader.SharedHeaderExactly | backend/alembic/versions/010_purchase_orders_header.py:24-37 | two orders share a header if and only if supplier and URL agree, nulls being equal |
| PurchaseOrderHeader.EveryHeaderUsed | backend/alembic/versions/010_purchase_orders_header.py:24-29 | no header is left without an order |
| PurchaseOrderHeader.DowngradeInvertsUpgrade | backend/alembic/versions/010_purchase_orders_header.py:47-63 | downgrading any upgraded database gives back the one before |
| PurchaseOrderHeader.UpgradeAgainExactly | backend/alembic/versions/010_purchase_orders_header.py:10-63 | undoing and repeating the migration keeps which orders share a header if and only if no two headers in use of one supplier both lack a URL |
| PurchaseOrderHeader.RowsApartExactly | backend/alembic/versions/010_purchase_orders_header.py:20 | under the unique constraint, which takes nulls as different, those are the only headers with equal rows |
| PurchaseOrderHeader.UpgradedIsNormalised | backend/alembic/versions/010_purchase_orders_header.py:10-44 | a freshly upgraded database keeps the constraint and has no such headers |
| PurchaseOrderHeader.TwinsAreMerged | backend/alembic/versions/010_purchase_orders_header.py:10-63 | two orders whose different headers become one |
| PurchaseOrderHeader.RoundTrip | backend/alembic/versions/010_purchase_orders_header.py:10-63 | upgrading and downgrading in place leaves every table as it was |
| PreviewMerge.MergeUniform | frontend/src/features/items/utils.ts:28-72 | one file and many are merged alike in rows, totals and the auto-accept flag |
| PreviewMerge.TotalsAdd | frontend/src/features/items/utils.ts:43-58 | each of the five totals is the sum of that figure over the files |
| PreviewMerge.ErrorsNamed | frontend/src/features/items/utils.ts:59-61 | the messages of all files follow file by file, each behind the name of its file |
| PreviewMerge.NamedByCount | frontend/src/features/items/utils.ts:42 | the merged preview is named by the number of files |
| PreviewMerge.KeyReads | frontend/src/features/items/utils.ts:68 | a preview key is the number of the file, a colon and the number of the row, which read back |
| PreviewMerge.KeyInjective | frontend/src/features/items/utils.ts:63-70 | a preview key tells its file and row number |
| PreviewMerge.MergedKeysUnique | frontend/src/features/items/utils.ts:63-70 | with distinct row numbers in each file, keys are unique over all files |
| PreviewMerge.ConfirmPreview | frontend/src/features/items/ItemsPage.tsx:380-427 | the loops that build the overrides and split them by file compute the two functions of the theorems |
| PreviewMerge.SplitIsLossless | frontend/src/features/items/ItemsPage.tsx:380-427 | file s is sent an override for a row exactly when its own row asked for one, with the same value |
| PreviewMerge.NothingElseSent | frontend/src/features/items/ItemsPage.tsx:416-427 | every override sent with a file is for one of its rows |
| RecentSelections.ResultKeyInjective | frontend/src/components/CatalogPicker.tsx:66-68 | the key tells entity type and id |
| RecentSelections.RecentPicker.RememberSelection | frontend/src/components/CatalogPicker.tsx:204-211 | component state and stored list change together |
| RecentSelections.Session | frontend/src/components/CatalogPicker.tsx:98-101 | after every history of selections the stored list equals the one in memory |
| RecencyLists.TruncatedStep | frontend/src/components/CatalogPicker.tsx:204-210 | truncating before the next selection loses nothing within the limit |
| RecencyLists.SelectedIsLatest | frontend/src/components/CatalogPicker.tsx:204-211 | for any key and limit, the list is the first distinct entities of the reversed history, without duplicates |
| RecentSelections.RecentIsLatestEight | frontend/src/components/CatalogPicker.tsx:204-211 | over every history from empty, the list is the first eight distinct entities of the reversed history |
| RecentSelections.ReloadExactly | frontend/src/components/CatalogPicker.tsx:70-96 | reloading keeps entities and order, and the entries themselves if and only if no value text is blank and different from its label |
| RecentSelections.ReloadLosesNoEntity | frontend/src/components/CatalogPicker.tsx:70-101 | for all selections before and after a reload, the list holds the entities it would hold without one |
| RecentSelections.BlankTextIsReplaced | frontend/src/components/CatalogPicker.tsx:88-91 | an input whose value text comes back as its label |
| StableSort.SortSorts | frontend/src/features/items/ItemDetailPage.tsx:105-106 | what Array.prototype.sort promises of order, for every consistent comparator |
| StableSort.SortStable | frontend/src/features/items/ItemDetailPage.tsx:105-106 | and of stability |
| RecoveryBurndown.ComparatorConsistent | frontend/src/features/items/ItemDetailPage.tsx:82-90 | the comparator of date, reference and label is a consistent order for every collation |
| RecoveryBurndown.NormalizeDateExactly | frontend/src/features/items/ItemDetailPage.tsx:49-56 | missing and blank dates and the words none and null in any case count as no date, any other is trimmed |
| RecoveryBurndown.StepsInOrder | frontend/src/features/items/ItemDetailPage.tsx:82-90 | steps go by date, on one date by reference with missing ones last, and then by label; sources without quantity make no step |
| RecoveryBurndown.BuildRecoveryBurndown | frontend/src/features/items/ItemDetailPage.tsx:100-118 | the running remainder after step k is what the first k positive sources in date order leave of the shortage |
| RecoveryBurndown.FinalGap | frontend/src/features/items/ItemDetailPage.tsx:100-118 | the last remainder is what all positive sources together leave |
| RecoveryBurndown.FinalGapOrderFree | frontend/src/features/items/ItemDetailPage.tsx:100-118 | and does not depend on the order in which they are given |
| RecoveryBurndown.StepResolves | frontend/src/features/items/ItemDetailPage.tsx:131-134 | the date of the first step without remainder is the earliest by which the sources dated up to it cover the shortage |
| RecoveryBurndown.RecoverySummary | frontend/src/features/items/ItemDetailPage.tsx:120-137 | which of the four texts is given, that date or that of the last source, and that recovered plus gap is the shortage |
| ProvisionalSummary.TallyReservations | frontend/src/features/inventory/ReservationsPage.tsx:173-187 | the first loop keeps one row for each project with its filtered sums, adding up to the headline quantity and count |
| ProvisionalSummary.TallyOrders | frontend/src/features/inventory/ReservationsPage.tsx:189-206 | the second loop keeps that, with dedicated and uncommitted quantity |
| ProvisionalSummary.Summarize | frontend/src/features/inventory/ReservationsPage.tsx:154-215 | each row is its project's filtered sums, rows go by name, they add up to the headline figures and the dedicated total, and dedicated plus uncommitted is everything ordered |
| ProvisionalSummary.RowsAreProjects | frontend/src/features/inventory/ReservationsPage.tsx:173-206 | every active reservation and open dedicated order of a project has a row, and no row is for project 0 |
| ProvisionalSummary.LabelReads | frontend/src/features/inventory/ReservationsPage.tsx:177-193 | a project without a name is called by its number |
| CsvExport.ProvisionalSummaryCsv | frontend/src/features/inventory/ReservationsPage.tsx:292-328 | the lines pushed and joined are header, one per row, and the pool |
| CsvExport.ExportReadsBack | frontend/src/features/inventory/ReservationsPage.tsx:292-328 | a reader of section 2 of RFC 4180 recovers every field, for all project names |
| CsvExport.RowColumns | frontend/src/features/inventory/ReservationsPage.tsx:292-328 | under each of the seven headers stands that figure of the row, and the numbers read back |
| CsvExport.PoolColumns | frontend/src/features/inventory/ReservationsPage.tsx:292-328 | the last record has the uncommitted quantity under its header and nothing under those of a project |
| CsvExport.DownloadProvisionalSummary | frontend/src/features/inventory/ReservationsPage.tsx:292-328 | so the downloaded text reads back as the summary |
| MonthGrid.YearsAdjoin | frontend/src/features/orders/ArrivalPage.tsx:79-80 | years are as far apart as they are long under all leap-year rules, per section 21.4.1 of ECMA-262 |
| MonthGrid.MonthLengths | frontend/src/features/orders/ArrivalPage.tsx:80 | day zero of the next month gives the length of every month in every year |
| MonthGrid.BuildMonthGrid | frontend/src/features/orders/ArrivalPage.tsx:75-93 | for every year that a key can hold, whole weeks, each day once and in order in the column of its weekday, blanks elsewhere |
| MonthGrid.FillGrid | frontend/src/features/orders/ArrivalPage.tsx:82-92 | the three loops fill in blanks, days and the rest of the last week, and not a week more |
| MonthGrid.NextMonthOffset | frontend/src/features/orders/ArrivalPage.tsx:79-81 | length and offset of a month determine the next offset, over leap years and the turn of the year, if and only if it is not December of year 99 |
| MonthGrid.DatesDistinct | frontend/src/features/orders/ArrivalPage.tsx:86-88 | no date text of a month occurs twice |
| MonthGrid.DateReads | frontend/src/features/orders/ArrivalPage.tsx:87 | a date is the key of the month, a hyphen and two digits that read as the day |
| MonthGrid.Anchors | frontend/src/features/orders/ArrivalPage.tsx:79-81 | day 0 of the calendar is 1 January 1970, a Thursday; the years 0 to 99 are those of the twentieth century, per section 21.4 of ECMA-262 |
| RfqEditor.CreateDraftInjective | frontend/src/lib/editorDrafts.ts:76-90 | a draft loses nothing of its line but the difference between a missing and an empty text |
| RfqEditor.UntouchedSaveExactly | frontend/src/components/RfqBatchEditor.tsx:328-346 | saving an untouched draft sends the line's own quantities, lead time, order link and status, and its own texts if and only if these are not blank and have no white space around them |
| RfqEditor.DraftsEqualMeansEqual | frontend/src/lib/editorDrafts.ts:92-107 | comparing field by field is equality of drafts, where a missing one equals only a missing one |
| RfqEditor.MergeRehydratedLineDrafts | frontend/src/lib/rfqEditorState.ts:149-177 | the loop overlays the server's drafts for the pending lines on drafts and baselines |
| RfqEditor.RehydrationCleansExactly | frontend/src/lib/rfqEditorState.ts:149-177 | exactly the pending lines that the server returned stop being dirty |
| RfqEditor.RehydrationTouchesOnly | frontend/src/lib/rfqEditorState.ts:149-177 | all other lines keep draft and baseline |
| RfqEditor.RehydrationCommutes | frontend/src/lib/rfqEditorState.ts:149-177 | rehydrating is idempotent, and in two goes in either order the same as together |
| RfqEditor.HighlightingStable | frontend/src/lib/rfqEditorState.ts:32-37 | highlighting is a permutation that keeps the order within the item and within the rest, item first |
| RfqEditor.PagesCoverAll | frontend/src/lib/rfqEditorState.ts:39-44 | pages 1 to the last concatenate to all lines, and no fewer pages do |
| RfqEditor.ClampedPageNotEmpty | frontend/src/components/RfqBatchEditor.tsx:199-204 | a page number left over from a longer list is clamped to a page with lines |
| RfqBatchEditor.DraftMapGives | frontend/src/lib/rfqEditorState.ts:20-22 | the map has the draft of the last line of each id |
| RfqBatchEditor.Editor.constructor | frontend/src/components/RfqBatchEditor.tsx:60-71 | an editor starts with nothing loaded and nothing pending |
| RfqBatchEditor.Editor.UpdateLineDraft | frontend/src/components/RfqBatchEditor.tsx:189-197 | an edit replaces that line's draft only |
| RfqBatchEditor.Editor.LineWasSaved | frontend/src/components/RfqBatchEditor.tsx:347-349 | a saved line becomes pending once, and the effect runs at once |
| RfqBatchEditor.Editor.BatchWasSaved | frontend/src/components/RfqBatchEditor.tsx:316 | so it does when the batch was saved |
| RfqBatchEditor.Editor.RunEffect | frontend/src/components/RfqBatchEditor.tsx:137-187 | the effect loads another batch whole, of the same batch takes the pending parts only, and without a detail does nothing |
| RfqBatchEditor.Editor.ReceiveDetail | frontend/src/components/RfqBatchEditor.tsx:137-187 | a detail is held, and the effect runs |
| RfqBatchEditor.Editor.Deselect | frontend/src/components/RfqBatchEditor.tsx:137-151 | without a selected batch everything is emptied |
| RfqBatchEditor.DetailCleansExactly | frontend/src/components/RfqBatchEditor.tsx:151-231 | a detail makes a newly loaded batch clean, and else cleans exactly the pending parts it holds |
| RfqBatchEditor.NothingWaits | frontend/src/components/RfqBatchEditor.tsx:137-187 | over every session, a saved part waits only while no detail is at hand |
| RfqBatchEditor.UnsavedEditSurvives | frontend/src/components/RfqBatchEditor.tsx:166-187 | over every session on one batch, an edited line that was not saved keeps draft and baseline whatever else is edited, saved or received |
| RfqBatchEditor.FirstDetailDecides | frontend/src/components/RfqBatchEditor.tsx:166-187 | a save accepted while no detail is at hand waits, and the first detail of the batch decides what the line shows |
| RfqBatchEditor.SaveShowsHeld | frontend/src/components/RfqBatchEditor.tsx:166-187 | otherwise the save puts the line back to the detail at hand, draft and baseline |
| RfqBatchEditor.UntouchedBatchExactly | frontend/src/components/RfqBatchEditor.tsx:302-316 | saving the batch fields untouched sends the title, status and note of the detail if and only if title and note have no white space around them |
| RfqBatchEditor.ShowsNewestExactly | frontend/src/components/RfqBatchEditor.tsx:166-187 | over every session from an empty editor, a saved line shows the newest detail of its batch if and only if the detail at hand at the save agreed with it |
| RfqBatchEditor.TypedAfterSaveStays | frontend/src/components/RfqBatchEditor.tsx:166-197 | what is typed after a save stays, whatever else happens to the batch |
| RfqBatchEditor.StaleDetailSticks | frontend/src/components/RfqBatchEditor.tsx:166-187 | a session from an empty editor after which the old value is on show and nothing is dirty |
| RfqBatchEditor.BaselineIsServers | frontend/src/components/RfqBatchEditor.tsx:151-187 | over every session, whatever counts as saved was sent by the server for that line |
| Decimal.OfNatInjective | backend/app/db.py:193 | decimal texts of different numbers differ; tokens, suffixed names and preview keys rest on it |
| Decimal.OfIntReads | backend/app/db.py:244 | decimal texts read back as their numbers, with no zeros in front and a sign for negative ones only |

## Left out

- The rest of `service.py`: stock, reservations, confirming allocations, undo of imports, and how the planning snapshot loads projects, requirements, stock and supplies and sums its results up.
- PlanningTiming: one item at a time, as the loop does; dates are texts in the order of their code points, quantities are integers of any sign.
- ObjectStore.Storage.WriteStorageBytes: which operating-system error is raised is not modelled, nor that an existing directory can be unwritable.
- HTTP routing, middleware, logging, JWT verification, role tables, React rendering, styling, SWR and the pages not named above.
- AuthSession: sessions are modelled as parsed objects; the JSON text in storage, stored text that is not JSON, and decoding of id tokens are not. Claims and all replies are arbitrary.
- AuthModule: a storage that refuses a write (quota, private mode) or is missing altogether is not modelled, and neither are the email sign-in requests; a sign-in stores any session at any moment.
- AuthRefresh.SettlesOnlyItsOwnSession: needs, besides that no refresh starts while an orphan is pending, that no session without a refresh token is stored meanwhile; `AuthWitness.StaleFailureClearsManualToken` shows why. In return forced refreshes may be pending; for those see `AuthForced`.
- AuthRefresh.AnswersStoredAccessToken: holds up to trimming of the id token, since the handler answers the token as received and readers trim it.
- DbSession: a statement is a partial function of the data and the visible user; SQL text, statements that themselves set app.user_id, connection loss and COMMITs that fail are not modelled.
- DbConnection: DBCursor and DBRow, value normalisation, RETURNING clauses, the error translation of IntegrityError, engines, pools and the migration runner are not modelled. Savepoints written by hand are assumed not to be named like SQLAlchemy's own, and whether a text is such a command (`_MANUAL_SAVEPOINT_SQL`) is given by the operation. Nothing is called after close.
- DbTheorems.FailedBlockRestoresEntry: the body must have left its own blocks, must not end the transaction and must not go back to or release a savepoint name that is older than the block; then there is no entry state to return to.
- DbTheorems.RollbackToRestores: the same of its body, which must not set another savepoint of the same name either, since ROLLBACK TO then means that one.
- Placeholders.RewritingPreservesMeaning: the backslash of SQLAlchemy's `text()`, which escapes a colon, hides it from the reader here but is not removed; the class of word characters is a parameter.
- StorageRefs: Unicode case folding of the reference pattern, symbolic links, and subdirectories with `..`; a reference with `..` is resolved textually.
- ObjectStore: creation times, creation errors of the GCS client, blobs of other buckets and writers in other processes. Random parts of temporary names and faults of the operating system are parameters.
- ObjectStoreRuns.EveryRunReadsBack: the deployment must keep no bucket directory inside another and a normal GCS prefix, and directories must hold no line break or `..`; without the latter a reference does not lead home at all, by the exact theorems of StorageRefs, and calls of that kind are steps of the runs that promise no reference.
- DescriptionExtractor: reading the PDF, the regular expressions of the line classifiers and of the item pattern, and the text operations of `clean_description` are parameters; choosing the best candidate and updating the item list are not modelled.
- PurchaseOrderHeader: created_by and updated_by, the index and the foreign keys other than their effect here.
- RecoveryBurndown: texts of the summary are modelled by the values they print; quantities are integers; dates are compared by an arbitrary collation as the code does.
- ProvisionalSummary: quantities are integers, so floating-point rounding of sums does not occur.
- CsvExport.ExportReadsBack: the timestamp must hold no comma, quote or line break, as an ISO timestamp does. The pool's name is quoted by the same function as project names, which gives the literal of the source.
- MonthGrid: year and month are given as numbers instead of being cut out of the key; local time-zone jumps are not modelled.
- RfqEditor.UntouchedSaveExactly: `Number()` accepts more texts than plain decimals; the model reads plain decimals, which is what drafts of lines hold. A link to a quotation is not among the fields sent.
- RfqEditor: linked-order options, requirement drafts and the numeric checks of page arguments that are not integers.
- RfqBatchEditor: an edit is given as the draft it results in; requests, messages and order loading are not modelled. That a save is accepted and that a detail arrives are events in any order. The effect is taken to run before a detail fetched after the save arrives, as it does for a fetch that takes longer than a render.
- Easy members of the same files: groupResults, groupScheduledRows, mergeItemImportResults.
