# Regixtry: a verified model of its stateful cores

Regixtry is a single-node OCI registry. This project models the parts of it that hold real state
machines and loops, and proves what they promise over every input, every run and every interleaving:

* **Blob garbage collection** (`Gc*.dfy`). A state machine over blob files, manifest references, pushes
  in progress, stored reports, the single-flight gate and any number of calls, each advancing one store
  access at a time. The environment commits blobs, publishes and deletes manifests and lets time pass
  between any two accesses, and any access can fail. `GcService.dfy` is the service itself: a class whose
  methods run the source's loops, interleaved with arbitrary steps of everybody else, and are proved to be
  runs of that machine.
* **Auth service** (`Auth*.dfy`, `TokenScopes.dfy`). Users, grants, tokens and a clock, one atomic step
  per service call. `AuthModel.dfy` is the state machine, `AuthService.dfy` the class with the source's
  checks in the source's order. `AuthEffects.dfy` and `AuthScopes.dfy` state each call's effect and exact condition,
  `AuthInvariants.dfy`, `AuthProperties.dfy` and `AuthRuns.dfy` what holds over whole runs.
* **Key-usage scan** (`KeyUsage.dfy`). Nested capped loops against a flat specification.
* **Per-repository overrides** (`Overrides.dfy`, `OverrideService.dfy`). A keyed store as a last-write map,
  the codecs that guard it, and resolution over the global settings.
* **Terminal reducers** (`ScanHistory.dfy`, `OverrideEditor.dfy`). Message-passing state machines over a
  bag of replies in flight.
* **Project grouping** (`Projects.dfy`). A grouping loop as a partition of the catalog.

`Ordering.dfy` holds string order and the sort, `Text.dfy` digest syntax and trimming, `Sums.dfy` sums over
tables, `Cursor.dfy` list cursors, and `Wrappers` (in `Ordering.dfy`) Option and Result.

`dafny verify dfyconfig.toml` checks everything.

## Where code and promise part

Eight promises need a condition. The model follows the code; each has a lemma with the exact condition.

* *A referenced blob is on disk.* No sweep unlinks a referenced blob (`GcSafety.ReferencedStep`), but a push
  checks its blobs and writes its manifest in two store accesses
  (`internal/app/regixtry/service.go:293-325`), and a sweep can fall in between
  (`GcWitnesses.PublishCanDangle`). Over every run it holds exactly when each publication finds its files
  when it writes (`GcSafety.ReferencedIffWritesBacked`); by cause, exactly when no push is published that
  lost a file after its check (`GcSafety.ReferencedIffNoneTaken`). So it does when check and write are one
  step (`GcSafety.WholePublishesKeepReferenced`) and when the files are inside their grace windows
  (`GcSafety.WindowKeepsReferenced`).
* *The grace window protects every young file.* The re-check asks for references and not for the file's
  age, so re-uploading a listed old file loses it (`GcWitnesses.FreshUploadIsTaken`). The exact condition
  is `GcSafety.YoungFileTakenIff`; over runs, `GcSafety.GraceWindowProtects`.
* *A report says what its deletion reclaimed.* A call that fails before the freeze, or whose report was
  frozen or pruned meanwhile, has unlinked files that no report records
  (`GcWitnesses.FailedSweepLeavesNoRecord`). The exact balance is `GcExactness.BookedIsAccounted`.
* *Deriving a token's scopes again changes nothing.* True of the scopes as parsed back from the token
  (`TokenScopes.GrantedAgain`). The scopes the service builds leave their private repository field empty,
  and deriving from those is stable only for catalog scopes (`TokenScopes.UnparsedDerivationIff`).
* *Creating a robot is one operation.* Its user and grant are written before its token's lifetime is
  checked (`AuthEffects.RobotAllOrNothingIff`).
* *A user is named by an identifier with or without outer space.* Every lookup trims it, but a global
  administrator's grant is stored under the identifier as given, so with outer space it violates the
  foreign key and fails (`AuthEffects.PutRepoGrantExact`).
* *Stale history replies do no harm.* True for one history reply per mount. A further one is harmless
  exactly when what is shown belongs to the first run it lists (`ScanHistory.SecondHistoryReplySafeIff`);
  a scan queued between two replies makes it fail (`ScanHistory.SecondHistoryShowsStale`). Whatever their
  number, once everything has succeeded the overlay shows only the run under the cursor exactly when the
  last history lists a run or met an overlay that showed nothing (`ScanHistory.ScanHistoryConverges`); an
  empty one that arrives last keeps older findings on screen (`ScanHistory.EmptyHistoryKeepsStale`).
* *The global keys seed a never-configured override.* The seeding happens once, and a later own reply
  empties the list again: it is lost exactly when it was spent before the last successful own load, as
  after a failed load or after reopening the editor (`OverrideEditor.PrefillLostIff`).

## Model

| member | source | states |
|---|---|---|
| `GcCandidates.CandidateMembers` | internal/app/regixtry/service_gc.go:39-74 | a candidate row is exactly a listed file that is unmarked and older than now - 24 h, with its size and time |
| `GcCandidates.CandidatesSorted` | internal/app/regixtry/service_gc.go:39-74 | the selection is strictly ascending by digest, whatever order the files were listed in |
| `GcCandidates.CandidatesAreGarbage` | internal/app/regixtry/service_gc.go:39-74 | over a true listing the selected digests are exactly the garbage: on disk, unmarked, strictly before the cutoff |
| `GcCandidates.CandidatesCanonical` | internal/app/regixtry/service_gc.go:39-74 | any two orderings of the blob listing give the identical candidate sequence |
| `GcCandidates.CandidatesMonotone` | internal/app/regixtry/service_gc.go:39-74 | the candidate set grows with time and files and shrinks as any manifest of any tenant adds references |
| `GcService.SelectCandidates` | internal/app/regixtry/service_gc.go:39-74 | the mark map, the selection loop and the sort return exactly the specified candidates |
| `GcService.TotalSize` | internal/app/regixtry/service_gc.go:100-103 | the byte-count loop adds up the candidates' sizes |
| `GcInvariants.InvKept` | internal/app/regixtry/service_gc.go:82-289 | every single store access of any call, and every outside step, keeps files, gate, report rows and calls in flight consistent |
| `GcInvariants.InvAlways` | internal/app/regixtry/service_gc.go:82-289 | so every state that any interleaving with any faults reaches is consistent |
| `GcInvariants.GateKept` | internal/app/regixtry/service.go:614-647 | the gate has at most one holder and it is the call recorded as holder |
| `GcInvariants.BookKeepsAccount` | internal/app/regixtry/service_gc.go:190-252 | one more candidate keeps outcomes, counts and bytes in agreement |
| `GcInvariants.OthersUntouched` | internal/app/regixtry/service_gc.go:157-289 | a call's step leaves every other call's variables alone |
| `GcSafety.UnlinkedEntitled` | internal/app/regixtry/service_gc.go:181-239 | a file is unlinked only if it is in the stored report, was selected by that call's own fresh snapshot, and is unreferenced at its re-check, with the gate held |
| `GcSafety.DeleteOnlyUnderDeletes` | internal/app/regixtry/service_gc.go:181-239 | in every reachable state, whatever step makes a file disappear is a delete call's sweep that is entitled to it |
| `GcSafety.WholePublishesKeepReferenced` | internal/app/regixtry/service_gc.go:157-289 | over every run in which a publish's existence checks and write are one step, every digest any manifest references has its file on disk |
| `GcSafety.ReferencedStep` | internal/app/regixtry/service_gc.go:215-252 | no step of any call breaks a reference; an outside step does so exactly when it publishes over a missing file |
| `GcSafety.ReferencedIffWritesBacked` | internal/app/regixtry/service.go:293-325 | over every run with every fault, all references stay on disk all along if and only if every publication that takes effect finds its files at that moment |
| `GcSafety.ReferencedIffNoneTaken` | internal/app/regixtry/service.go:293-325 | the same by cause: over every run from an empty registry a referenced file is ever missing if and only if some push is published that had a file unlinked after its check and not committed again |
| `GcSafety.WindowKeepsReferenced` | internal/app/regixtry/service_gc.go:20-25 | in particular when each publication's files are inside their 24 h windows and no call had listed older copies of them when they were committed |
| `GcWitnesses.PublishCanDangle` | internal/app/regixtry/service.go:293-325 | the condition can fail: a run from the empty registry publishes a manifest over an unlinked file |
| `GcSafety.YoungFileTakenIff` | internal/app/regixtry/service_gc.go:205-239 | a file younger than the grace window is unlinked at its turn if and only if the call had listed an older copy of it |
| `GcSafety.GraceWindowProtects` | internal/app/regixtry/service_gc.go:20-25 | a file committed while no call has listed an older copy stays on disk until it is 24 h old, over every run |
| `GcWitnesses.FreshUploadIsTaken` | internal/infra/storage/fsblob/store.go:121-163 | re-uploading a listed old file is the exception: a run from the empty registry unlinks a file written this instant |
| `GcSafety.ReportLifeCycle` | internal/ports/regixtry.go:201-215 | over every run a report moves at most once, from reported to deleted or pruned; a frozen outcome never changes and is never pruned; its preview never changes |
| `GcSafety.FrozenReportsAddUp` | internal/app/regixtry/service_gc.go:190-282 | every frozen report has one outcome per candidate in order, the four outcomes partition them, counts and bytes are those of the deleted ones, and the error text is empty iff none failed |
| `GcSafety.RefusedDelete` | internal/app/regixtry/service_gc.go:157-174 | with the flag off, or from a deleted, pruned or expired report, a delete call touches no file and no row |
| `GcSafety.FlagOffUnlinksNothing` | internal/app/regixtry/service_gc.go:157-161 | with the flag off no reachable state has a step that unlinks anything |
| `GcOutcomes.TurnDecides` | internal/app/regixtry/service_gc.go:196-252 | in every consistent state and with every fault, a candidate's turn is retained, failed, missing or deleted exactly under its own condition on fresh selection, references, faults and disk, and takes the file exactly when deleted |
| `GcOutcomes.ErrorsTellFailures` | internal/app/regixtry/service_gc.go:257-284 | over every run a frozen report's error is empty exactly when no outcome failed, else it counts failures and candidates; and an error means a store fault in one of its call's turns |
| `GcOutcomes.PrunedIff` | internal/infra/metadata/sqlite/store.go:815-830 | a report row goes exactly when a preview starts while the row is unused and expired |
| `GcOutcomes.UnexpiredStays` | internal/infra/metadata/sqlite/store.go:815-830 | over every run a report is there at least until it expires, and for good once used |
| `GcOutcomes.ReportsAddUp` | internal/app/regixtry/service_gc.go:97-127 | every report ever made expires a day after its computation, lists only files a day old by then, in digest order, and counts them and their bytes |
| `GcOutcomes.FrozenInTime` | internal/app/regixtry/service_gc.go:170-179 | a frozen report bears the time its call found it unexpired |
| `GcOutcomes.ReclaimedWithinPreview` | internal/app/regixtry/service_gc.go:190-252 | no deletion reclaims more than its preview announced, and one that deletes every candidate exactly that |
| `GcExactness.BytesConserved` | internal/app/regixtry/service_gc.go:190-263 | over every run the bytes on disk change by exactly the uploaded bytes less the bytes sweeps booked |
| `GcExactness.BookedIsAccounted` | internal/app/regixtry/service_gc.go:190-289 | over every run the booked bytes are in the BytesReclaimed of frozen reports, in the sweep in flight, or lost by sweeps that failed or found their report gone or frozen |
| `GcExactness.ByteLedger` | internal/app/regixtry/service_gc.go:190-289 | from an empty registry all bytes ever uploaded are on disk, in a frozen report, in the sweep in flight, or lost by an unfinished one |
| `GcExactness.DeleteReclaimsExactly` | internal/app/regixtry/service_gc.go:190-284 | a sweep with any faults followed by its freeze shrinks the disk by exactly the frozen BytesReclaimed |
| `GcWitnesses.FailedSweepLeavesNoRecord` | internal/app/regixtry/service_gc.go:281-286 | the lost bytes are real: a run from the empty registry unlinks a file and leaves its report unused |
| `GcExactness.PreviewIsExact` | internal/app/regixtry/service_gc.go:82-289 | undisturbed, a compute at t1 and a delete at t2 before expiry unlink exactly the garbage of t1, all outcomes deleted, even if more has aged meanwhile |
| `GcExactness.DeleteResult` | internal/app/regixtry/service_gc.go:157-289 | an undisturbed delete of a report listing the garbage of an earlier instant leaves exactly the other files |
| `GcExactness.SecondPairTakesTheNewlyAged` | internal/app/regixtry/service_gc.go:82-289 | a second undisturbed pair takes exactly the files that crossed the cutoff between the two previews |
| `GcService.Service.Interleave` | internal/app/regixtry/service_gc.go:157-289 | other calls and the environment between two store accesses of this call form a run of the protocol that leaves this call's locals alone |
| `GcService.Service.ListBlobs` | internal/infra/storage/fsblob/store.go:216-273 | the listing holds every committed file once, in no particular order |
| `GcService.Service.ListReferencedBlobDigests` | internal/infra/metadata/sqlite/store.go:635-668 | the marks are the digests referenced by any manifest of any tenant |
| `GcService.Service.GcCandidates` | internal/app/regixtry/service_gc.go:39-74 | the two reads, with anything in between, select the candidates of what each of them saw |
| `GcService.Service.RecheckAndUnlink` | internal/app/regixtry/service_gc.go:215-252 | one candidate's outcome, and exactly that file gone iff it is Deleted |
| `GcService.Service.SweepCandidate` | internal/app/regixtry/service_gc.go:196-252 | one turn of the loop: retained unless freshly selected, failed on a bad digest, else the re-check's outcome, and at most that file gone |
| `GcService.Service.SweepReport` | internal/app/regixtry/service_gc.go:190-263 | the delete loop is a run of the protocol and accounts for every candidate; without other writers the disk shrinks by exactly the bytes booked, whatever fails; undisturbed it removes exactly the report's files that are still garbage |
| `GcService.Service.ComputeGCReport` | internal/app/regixtry/service_gc.go:82-128 | a run of the protocol; stores the sorted preview with its totals; undisturbed, lists exactly the garbage and only drops expired previews |
| `GcService.Service.StorePreview` | internal/app/regixtry/service_gc.go:109-127 | inserting the report stores exactly that preview or fails and stores nothing |
| `GcService.Service.ReadReport` | internal/app/regixtry/service_gc.go:157-174 | flag, existence, single use and expiry in that order, each with its own error |
| `GcService.Service.AcquireGate` | internal/app/regixtry/service_gc.go:176-179 | waits for the gate or gives up with no effect |
| `GcService.Service.Admit` | internal/app/regixtry/service_gc.go:157-180 | flag, existence, single use, expiry and gate, in that order, each with its own error and no effect |
| `GcService.Service.Conclude` | internal/app/regixtry/service_gc.go:265-289 | freezing succeeds at most once per report, with the tally's totals |
| `GcService.Service.DeleteByGCReport` | internal/app/regixtry/service_gc.go:157-289 | a run of the protocol; success returns the frozen, fully accounted report; without other writers the disk shrinks by exactly its BytesReclaimed; undisturbed, unlinks exactly the reported files that are garbage now |
| `AuthInvariants.UpsertKeeps` | internal/infra/auth/postgres/store.go:120-139 | writing one row keeps keys and unique names, keeps an enabled human administrator whenever the guard's condition holds, and turns nobody into a robot or back |
| `AuthInvariants.RemoveKeeps` | internal/infra/auth/postgres/store.go:141-170 | deleting a row with its grants and tokens leaves no orphan and keeps an administrator whenever another one exists |
| `AuthInvariants.BootstrapKeeps` | internal/app/auth/service.go:62-129 | bootstrapping keeps the store's constraints and any human administrator, also when the name is a robot's or a disabled administrator's |
| `AuthInvariants.UpdateKeeps` | internal/app/auth/service.go:187-226 | demotion and renaming keep them, with the guard applied only to an enabled target |
| `AuthInvariants.EnableKeeps` | internal/app/auth/service.go:228-250 | disabling and enabling keep them |
| `AuthInvariants.DeleteKeeps` | internal/app/auth/service.go:270-286 | deleting a user or a robot keeps them |
| `AuthInvariants.RobotKeeps` | internal/app/auth/service.go:710-758 | creating a robot keeps them, also when it stops half-way |
| `AuthInvariants.StepKeeps` | internal/app/auth/service.go:62-834 | every call of the service keeps the constraints, a human administrator, everyone's kind, and password tokens in human hands |
| `AuthInvariants.AdminNeverLost` | internal/app/auth/service.go:886-905 | from any stored state with an enabled human administrator, every sequence of calls keeps at least one |
| `AuthInvariants.RobotFlagNeverChanges` | internal/app/auth/service.go:62-834 | over whole runs an identifier's robot flag never changes, deletions included |
| `AuthInvariants.NoPasswordTokenForRobots` | internal/app/auth/service.go:288-307 | in every reachable state a token issued for a password belongs to a person |
| `AuthProperties.PasswordLoginIff` | internal/app/auth/service.go:288-307 | a password login succeeds if and only if an enabled non-robot user of that normalized name has that password, and it names that user |
| `AuthProperties.TokenLoginIff` | internal/app/auth/service.go:309-330 | a pre-issued token logs in if and only if it is a live, unrevoked credential of the enabled user named |
| `AuthProperties.FreshTokenVerifies` | internal/app/auth/service.go:332-358 | a fresh access token verifies to the principal the login returned for 15 minutes, and is expired from then on |
| `AuthProperties.LivesStayBounded` | internal/app/auth/service.go:360-393 | in every reachable state no access token lives beyond 15 minutes from now and no credential beyond 30 days |
| `AuthProperties.DisabledUserStaysOut` | internal/app/auth/service.go:228-250 | from a successful disable to the next enable or bootstrap of that account no login and no token check lets it in, whatever else is called |
| `AuthProperties.DelegatesStayBounded` | internal/app/auth/service.go:619-700 | over any run without a global administrator's call, the user table and the repository administrators never change and every changed grant is on a repository an acting principal administers |
| `AuthProperties.DelegatesNeverStale` | internal/app/auth/service.go:1062-1074 | during such a run a principal checked at its start administers a repository exactly when the store still says so |
| `AuthProperties.RowsStayValid` | internal/infra/auth/postgres/store.go:120-139 | no run stores an administrator or read-only robot, or a malformed username |
| `AuthProperties.GrantListExact` | internal/infra/auth/postgres/store.go:175-212 | the ordered listing of a user's grants exists: every grant of the user once |
| `AuthProperties.SameListing` | internal/infra/auth/postgres/store.go:175-212 | and it is unique |
| `AuthEffects.SetEnabledExact` | internal/app/auth/service.go:228-250 | succeeds exactly for an administrator on an existing account that is not the last administrator being disabled; then that account's flag is as asked and nothing else differs; each refusal has its own error and no effect |
| `AuthEffects.UpdateExact` | internal/app/auth/service.go:187-226 | conflicts exactly on a name somebody else holds or on demoting the last administrator; on success name and the two flags are as asked, the name as before when none is given, and nothing else differs |
| `AuthEffects.CreateExact` | internal/app/auth/service.go:131-170 | succeeds exactly for a free well-formed name and a password of 8 characters to 72 bytes, and then adds exactly that person with that password and flags |
| `AuthEffects.ResetExact` | internal/app/auth/service.go:493-512 | succeeds exactly for an existing account and an acceptable password, and then changes that account's password and nothing else |
| `AuthEffects.BootstrapExisting` | internal/app/auth/service.go:62-108 | an existing account is promoted and enabled, with the given password exactly when rotation is asked for; refused for a non-administrator while an administrator is active, and for a robot |
| `AuthEffects.BootstrapNew` | internal/app/auth/service.go:109-129 | an unknown name becomes the first administrator with the given password, and is refused while one is active |
| `AuthEffects.DeleteExact` | internal/app/auth/service.go:270-286 | refused exactly for the last enabled administrator; otherwise the row is gone with all its grants and tokens, and nothing else is |
| `AuthEffects.DeleteRobotExact` | internal/app/auth/service.go:820-834 | deletes exactly robots, with their grants and tokens |
| `AuthEffects.CreateTokenExact` | internal/app/auth/service.go:360-393 | succeeds exactly for an enabled account, at most 30 days and unused random values; the credential is live for the time asked, 30 days when none is |
| `AuthEffects.RevokeExact` | internal/app/auth/service.go:464-470 | succeeds exactly when the accessor has a live token, and then marks the accessor's tokens and changes nothing else |
| `AuthEffects.RobotAllOrNothingIff` | internal/app/auth/service.go:710-758 | a refused robot creation changes nothing, for every request except exactly the admissible ones whose lifetime is too long or whose drawn secret or accessor is taken: those leave the user and its grant behind; an accepted one adds user, grant and credential as asked |
| `AuthEffects.PutRepoGrantExact` | internal/app/auth/service.go:518-541 | sets exactly one grant; succeeds only for the identifier as stored, although the lookup before it trims |
| `AuthEffects.DeleteRepoGrantExact` | internal/app/auth/service.go:552-566 | removes exactly one grant, and succeeds exactly when there is one |
| `AuthEffects.PutRepositoryGrantExact` | internal/app/auth/service.go:619-658 | succeeds exactly for a global administrator, or a repository administrator who grants less than repo-admin to somebody who is none there; sets exactly that grant |
| `AuthEffects.DeleteRepositoryGrantExact` | internal/app/auth/service.go:673-700 | likewise removes exactly that grant, when there is one |
| `AuthScopes.LoginScopesExact` | internal/app/auth/service.go:907-990 | for both logins: a text is in the new token's scope if and only if some requested scope gives it - the catalog scope itself, or a repository scope with the asked actions that the user's flags or stored role allow there, written in pull, push, delete order; the token lives 15 minutes, and a refused login changes nothing |
| `AuthScopes.VerifyExact` | internal/app/auth/service.go:332-358 | a check accepts exactly live access tokens of enabled users, with the user's present rights and grants and the scopes of the login; each refusal has its own error |
| `AuthScopes.PasswordRefusals` | internal/app/auth/service.go:288-307 | a disabled account is told so whatever the password; a robot or a wrong password is an invalid credential |
| `AuthScopes.TokenRefusals` | internal/app/auth/service.go:309-330 | disabled, somebody else's or unknown, revoked and expired credentials are told apart, in that order |
| `AuthScopes.UnknownLogin` | internal/app/auth/service.go:933-946 | an unknown name is refused like a wrong password, with no effect |
| `AuthEffects.UnknownGrantee` | internal/app/auth/service.go:619-700 | an unknown name is granted nothing and loses nothing |
| `Text.TrimExact` | internal/app/auth/service.go:1076-1078 | trimming takes off the outer space, all of it and nothing else |
| `AuthRuns.StepFollows` | internal/app/auth/service.go:62-834 | over each call: accounts it does not address stay as they are, passwords change only by being set, tokens change only by revocation, go only with their user and appear only when drawn |
| `AuthRuns.ResetDecidesPassword` | internal/app/auth/service.go:493-512 | after a reset and any further calls that do not set this password, the new password logs in to the account and no other does, exactly while it is an enabled person's, under whatever name it has |
| `AuthRuns.RevokedStaysOut` | internal/app/auth/service.go:464-470 | over every run a revoked token never logs in or passes a check again |
| `AuthRuns.DeletedStaysOut` | internal/app/auth/service.go:270-286 | over every run a deleted account never comes back, holds no grants or tokens, and nothing logs in as it |
| `AuthRuns.CredentialLivesIff` | internal/app/auth/service.go:360-393 | over every run that neither revokes it nor addresses its account, a credential logs its user in exactly until its lifetime is over |
| `AuthRuns.AccessTokenLivesIff` | internal/app/auth/service.go:332-358 | over every such run an access token is accepted for exactly 15 minutes, with the login's scopes |
| `AuthService.Service.constructor` | internal/app/auth/service.go:24-26 | a new service has an empty, consistent store |
| `AuthService.Service.GetUserByUsername` | internal/infra/auth/postgres/store.go:104-110 | the lookup finds the one user of the normalized name |
| `AuthService.Service.ListUsers` | internal/infra/auth/postgres/store.go:53-76 | the listing holds every person and no robot |
| `AuthService.Service.HasActiveGlobalAdmin` | internal/infra/auth/postgres/store.go:41-49 | true iff some user, robots included, is an enabled administrator |
| `AuthService.Service.UpsertUser` | internal/infra/auth/postgres/store.go:120-139 | validates the normalized row, refuses a taken name, and otherwise replaces exactly that row |
| `AuthService.Service.ListRepoGrants` | internal/infra/auth/postgres/store.go:175-212 | the user's grants ascending, each repository once |
| `AuthService.Service.EnsureAnotherActiveAdmin` | internal/app/auth/service.go:886-905 | refuses iff the target counts and no other enabled human administrator exists |
| `AuthService.Service.GetActiveUserByUsername` | internal/app/auth/service.go:933-946 | the named user if enabled, with the two distinct errors otherwise |
| `AuthService.Service.IssueAccessToken` | internal/app/auth/service.go:907-931 | stores a token with exactly the granted scopes in normal form and returns its principal; which scopes those are is AuthScopes.LoginScopesExact |
| `AuthService.Service.BootstrapAdmin` | internal/app/auth/service.go:62-129 | promotes and enables the named row, or creates the first administrator, and refuses both while another one is active; rotates the password only on request |
| `AuthService.Service.CreateUser` | internal/app/auth/service.go:131-170 | admin, name, password and uniqueness checks in order; exactly the new row, or nothing, and the specified reply |
| `AuthService.Service.UpdateUser` | internal/app/auth/service.go:187-226 | not-found, name conflict and last-admin checks in order; exactly the row's name and flags change |
| `AuthService.Service.SetUserEnabled` | internal/app/auth/service.go:228-250 | the last-admin guard only when an enabled administrator is disabled; exactly the flag changes |
| `AuthService.Service.DeleteUser` | internal/app/auth/service.go:270-286 | the last-admin guard only for an enabled administrator; the row goes with its grants and tokens |
| `AuthService.Service.LoginWithPassword` | internal/app/auth/service.go:288-307 | name, enabled, robot and password checks in order; exactly one new access token or none |
| `AuthService.Service.LoginWithPreissuedToken` | internal/app/auth/service.go:309-330 | name, enabled, credential, owner, revocation and expiry checks in order; exactly one new access token or none |
| `AuthService.Service.VerifyAccessToken` | internal/app/auth/service.go:332-358 | token, revocation, expiry, user and enabled checks in order; the current principal, and no change |
| `AuthService.Service.CreateAdminToken` | internal/app/auth/service.go:360-393 | default lifetime for non-positive ones, refusal above 30 days; exactly one new credential or none |
| `AuthService.Service.RevokeAdminToken` | internal/app/auth/service.go:464-470 | exactly the live tokens of the accessor become revoked, or the call reports none |
| `AuthService.Service.RevokeTokenByAccessor` | internal/infra/auth/postgres/store.go:339-358 | revokes every live token of the accessor, or reports none |
| `AuthService.Service.CreateRobot` | internal/app/auth/service.go:710-758 | all checks before the first write, then user, grant and token one after the other, keeping what was written when a later one fails |
| `AuthService.Service.RequireAdminOrRepoAdmin` | internal/app/auth/service.go:1062-1074 | passes iff the actor is a global administrator or holds repo-admin on the repository |
| `AuthService.Service.HasPeerAdmin` | internal/app/auth/service.go:639-649 | finds iff the target already administers the repository |
| `AuthService.Service.PutRepositoryGrant` | internal/app/auth/service.go:619-658 | a delegate cannot grant repo-admin or touch a peer administrator's grant; otherwise exactly one grant is set |
| `AuthService.Service.DeleteRepositoryGrant` | internal/app/auth/service.go:673-700 | a delegate cannot remove a peer administrator's grant; otherwise exactly one grant goes |
| `TokenScopes.IntersectRequestedActions` | internal/app/auth/service.go:992-1045 | the loop with break returns exactly the requested actions that the role permits, in order |
| `TokenScopes.IntersectionExact` | internal/app/auth/service.go:992-1045 | the granted actions are the set intersection of requested and permitted, each once; administrators all, read-only users pull whatever their grants |
| `TokenScopes.FirstRoleIsLookupIff` | internal/app/auth/service.go:1014-1036 | stopping at the first grant is a keyed lookup if and only if the repository's grants are of one role |
| `TokenScopes.UniqueGrantsOneRole` | internal/infra/auth/postgres/store.go:175-212 | which the store's primary key gives |
| `TokenScopes.GrantedScopes` | internal/app/auth/service.go:961-990 | the loop returns the granted scopes in request order, empty ones dropped, catalog scopes as they are |
| `TokenScopes.GrantedWithinRequest` | internal/app/auth/service.go:961-990 | every granted scope stands for a requested one and has exactly its permitted actions |
| `TokenScopes.GrantedCoversRequest` | internal/app/auth/service.go:961-990 | every requested scope that keeps an action is granted |
| `TokenScopes.GrantedAgain` | internal/app/auth/service.go:961-990 | deriving again from the granted list, as parsed back from the token, changes nothing |
| `TokenScopes.UnparsedDerivationIff` | internal/domain/auth/scope.go:20-27 | deriving from the scopes as built, without their parsed repository, is stable if and only if all are catalog scopes |
| `TokenScopes.NormalizeScopes` | internal/domain/auth/scope.go:95-115 | the token field is the set of nonempty canonical texts, strictly ascending |
| `TokenScopes.NormalFormCanonical` | internal/domain/auth/scope.go:95-115 | two requests have equal token fields if and only if they have equal sets of canonical texts |
| `ScanHistory.StaleRepliesNeverShow` | internal/tui/screen_scan_history.go:61-159 | after a mount with a single history request, in every reachable state, failed, late and leftover replies included and however answers change, detail and secrets are empty or belong to the run under the cursor |
| `ScanHistory.KeysExact` | internal/tui/screen_scan_history.go:113-190 | a page key moves to the nearest run that far away, drops what was shown and asks for that run; finding and tab keys move within and between the two lists |
| `ScanHistory.CursorWalks` | internal/tui/screen_scan_history.go:140-160 | from one history to the next the runs stay and the cursor is where the page keys lead, whatever else arrives |
| `ScanHistory.SafeUpdate` | internal/tui/admin_scan_history.go:277-295 | each reducer step shows nothing for any run but the one under the cursor, whatever genuine reply arrives |
| `ScanHistory.SecondHistoryReplySafeIff` | internal/tui/screen_scan_history.go:69-80 | a further history reply, whatever it lists, is harmless if and only if a shown detail is its first run's and shown secrets are of that run's repository and digest |
| `ScanHistory.SecondHistoryShowsStale` | internal/tui/screen_scan_history.go:69-80 | the harm is reachable from a mount: a scan queued between two history replies leaves the old run's detail over the new run |
| `ScanHistory.ScanHistoryConverges` | internal/tui/screen_scan_history.go:61-159 | once no request is in flight and all replies succeeded, whatever was pressed, in whatever order replies arrived, several history replies included, and however answers changed: loading has stopped and the last history is listed; answers for exactly the run under the cursor are shown if and only if that history lists a run or met an overlay that showed nothing |
| `ScanHistory.EmptyHistoryKeepsStale` | internal/tui/screen_scan_history.go:69-80 | the condition can fail: a run from a mount in which an empty history arrives last, every reply succeeds, and an older run's detail stays over the empty list |
| `ScanHistory.EmptyHistoriesShowNothing` | internal/tui/screen_scan_history.go:69-80 | nothing is shown in any state before a history has listed a run |
| `ScanHistory.SingleHistoryConverges` | internal/tui/screen_scan_history.go:61-159 | with one history request an empty history shows nothing, and answers that stay the same are shown exactly |
| `ScanHistory.ConvergeStep` | internal/tui/screen_scan_history.go:61-159 | at every step the next link of the load chain for the current run is in flight or done |
| `ScanHistory.StopsLoading` | internal/tui/screen_scan_history.go:61-106 | with failures allowed: once a history has arrived and nothing is in flight the overlay has stopped loading, unless a detail reply failed for the run then under the cursor |
| `ScanHistory.LastReplyDecides` | internal/tui/screen_scan_history.go:69-103 | while the loads of the current run are under way, the last reply in flight leaves the overlay loading with nothing in flight if and only if it is a failed history or a failed detail |
| `ScanHistory.FailedDetailKeepsLoading` | internal/tui/screen_scan_history.go:81-84 | success is needed: after a failed detail reply nothing is in flight and the overlay keeps loading |
| `KeyUsage.ArtifactTagIff` | internal/app/regixtry/queries.go:766-781 | a tag is skipped iff it is the signature tag or bundle tag of some digest |
| `KeyUsage.AnswerIff` | internal/app/regixtry/service_signing_key_usage.go:109-220 | the key verifies an image if and only if its signature manifest holds an entry with a readable payload that verifies and names the image, all earlier ones unusable; or there is no such manifest and its bundle index holds one |
| `KeyUsage.AnswerFailsIff` | internal/app/regixtry/service_signing_key_usage.go:109-220 | the answer is an error if and only if a manifest cannot be read, or the first entry that is not unusable cannot |
| `KeyUsage.DecideIff` | internal/app/regixtry/service_signing_key_usage.go:131-150 | the first entry that is not merely unusable decides: a match, or the error that hides the rest |
| `KeyUsage.CatalogExact` | internal/app/regixtry/service_signing_key_usage.go:46-66 | the images are, repository after repository and tag after tag, the tags that no digest's signature or bundle goes by |
| `KeyUsage.SignaturesMatch` | internal/app/regixtry/service_signing_key_usage.go:206-216 | the loop over one bundle's signatures finds one that verifies over a payload with the right claims, and only then matches |
| `KeyUsage.BundleMatches` | internal/app/regixtry/service_signing_key_usage.go:156-220 | the nested early-return loops over bundle entries and signatures give the first deciding entry's verdict |
| `KeyUsage.Matches` | internal/app/regixtry/service_signing_key_usage.go:114-150 | the legacy loop likewise, falling back to the bundle only when there is no signature tag |
| `KeyUsage.ScanImages` | internal/app/regixtry/service_signing_key_usage.go:46-90 | the nested capped loop with labelled break refines the flat specification over catalog order, errors included |
| `KeyUsage.CountManifestsSignedByKey` | internal/app/regixtry/service_signing_key_usage.go:46-107 | the same for a named repository or the whole catalog |
| `KeyUsage.UsageWithoutErrors` | internal/app/regixtry/service_signing_key_usage.go:46-90 | with readable listings: capped iff more images than the cap, the count is the matches among the first of them, exact when not capped and a lower bound otherwise |
| `KeyUsage.UsageMonotone` | internal/app/regixtry/service_signing_key_usage.go:46-90 | a larger cap never counts fewer and never turns a complete count into a capped one |
| `KeyUsage.ProtectedCounts` | internal/app/regixtry/service_signing_key_usage.go:66-86 | the count is the number of matching positions: an unreadable tag is no match |
| `KeyUsage.ListingErrorIff` | internal/app/regixtry/service_signing_key_usage.go:54-59 | a listing error surfaces if and only if the cap is not passed before the broken listing; otherwise the count is that of the first images up to the cap |
| `KeyUsage.AccessoryTagsIgnored` | internal/app/regixtry/service_signing_key_usage.go:60-66 | signature tags anywhere in a listing change neither the scanned images nor which listings are read |
| `Overrides.NormalizeSigning` | internal/app/regixtry/repository_overrides.go:136-171 | the two validation loops return the first problem in order, or the row with canonical keys |
| `Overrides.NormalizedSigningIff` | internal/app/regixtry/repository_overrides.go:136-171 | a signing request is accepted iff it keeps every bound; its row is the request itself with each key in normal form in its place, and keeps the bounds |
| `Overrides.SigningProblemIff` | internal/app/regixtry/repository_overrides.go:136-171 | a refused request is answered with its first problem: keys, identities, anchors, self-read, each in order |
| `Overrides.RewriteIsStable` | internal/app/regixtry/repository_overrides.go:136-171 | writing back a stored row is accepted and changes nothing |
| `Overrides.LastWriteWins` | internal/app/regixtry/repository_overrides.go:313-346 | after any calls each row is what its last effective Set or Clear left; all other rows are untouched |
| `Overrides.ScanOverrideResolves` | internal/app/regixtry/repository_overrides.go:179-256 | scan settings resolve to the last surviving payload over the globals; earlier rows and calls for other pairs leave no trace |
| `Overrides.SigningOverrideResolves` | internal/app/regixtry/repository_overrides.go:209-266 | the signing policy likewise: the last surviving request's own flag, identities, self-read and normalized keys, whatever came before |
| `Overrides.EffectIff` | internal/app/regixtry/repository_overrides.go:313-346 | a call has an effect if and only if it names a repository and a feature, meets no write error, and clears or carries an acceptable request; a row bears its call's time |
| `Overrides.ClearReverts` | internal/app/regixtry/repository_overrides.go:337-346 | clearing reverts every feature to the unchanged globals |
| `Overrides.SigningRowsStayOk` | internal/app/regixtry/repository_overrides.go:313-346 | no sequence of calls stores a signing row that breaks its bounds |
| `Overrides.ScanRequestsIff` | internal/app/regixtry/repository_overrides.go:83-128 | a scan override is accepted iff its trimmed paths are unset or absolute, and stores each cleaned path in its own field |
| `Overrides.ScanRowsStayOk` | internal/app/regixtry/repository_overrides.go:76-95 | no sequence of calls stores a path that could be reparsed as a flag |
| `Overrides.ResolvedSigningHasAnchor` | internal/app/regixtry/repository_overrides.go:264-266 | an enabled resolved policy always has an anchor |
| `OverrideService.Service.constructor` | internal/infra/metadata/sqlite/store.go:2211-2219 | a new service has no rows |
| `OverrideService.Service.ListRows` | internal/infra/metadata/sqlite/store.go:1443-1478 | the query returns every row of the tenant and feature once, ascending by repository |
| `OverrideService.Service.GetRepositoryOverride` | internal/app/regixtry/repository_overrides.go:279-297 | the list search returns what a keyed lookup returns, with the three errors in order |
| `OverrideService.Service.ListRepositoryOverrides` | internal/app/regixtry/repository_overrides.go:302-307 | the whole listing, every row once and ascending, or the error |
| `OverrideService.Service.Normalize` | internal/app/regixtry/repository_overrides.go:57-65 | the registered codec's encoding of the request |
| `OverrideService.Service.SetRepositoryOverride` | internal/app/regixtry/repository_overrides.go:313-330 | replaces exactly one row by the normalized payload; a failed read-back reports an error over a stored row |
| `OverrideService.Service.ClearRepositoryOverride` | internal/app/regixtry/repository_overrides.go:337-346 | removes exactly one row or reports it missing |
| `OverrideEditor.EditorFollows` | internal/tui/override_editor.go:280-383 | after any replies in any number and order - own loads that fail, find no row or find one, global loads, replies for other editors - loading, the row and the shown keys are those of one closed form |
| `OverrideEditor.EditorShowsLastRow` | internal/tui/override_editor.go:280-350 | for every feature, after any replies in any order and number: each field shows its column of the last row read for this editor and nothing of an earlier one, with the last error |
| `OverrideEditor.AsksIff` | internal/tui/override_editor.go:298-309 | the editor asks for the global keys exactly when it learns that there is no row and has not used them up |
| `OverrideEditor.PrefillLostIff` | internal/tui/override_editor.go:355-383 | without a row at the last successful own load the global keys are shown if and only if the prefill was not spent before it: by the keys after any own reply, or before a successful one |
| `OverrideEditor.PrefillLost` | internal/tui/override_editor.go:286-291 | a losing order with a failed load leaves the list empty |
| `OverrideEditor.PrefillLostOnReopen` | internal/tui/screen_gitleaks_repos.go:65-68 | a losing order without a failure: a reopened editor receives two own replies around the keys |
| `OverrideEditor.PrefillConfluentIff` | internal/tui/override_editor.go:280-383 | any number of agreeing own and global replies end in the settled editor whatever their order if and only if there is a row, there are no global keys, or the prefill was not spent before the last own reply |
| `OverrideEditor.PrefillOrderIrrelevant` | internal/tui/override_editor.go:280-383 | with one own reply two arrival orders of the same news always end in the same editor |
| `OverrideEditor.EditorSettles` | internal/tui/override_editor.go:280-309 | however often it was opened before, once everything in flight is answered the editor shows the row's keys, or the globals, which it asks for itself, unless the prefill was spent before the last own reply |
| `OverrideEditor.FirstOpenSettles` | internal/tui/override_editor.go:280-309 | opened once it always ends with the row's keys or the globals |
| `Projects.DeriveProjects` | internal/tui/console_projects_table.go:68-93 | the grouping loop and the sort return one row per occurring project, ascending, each with its members' aggregates |
| `Projects.RepositoriesInProject` | internal/tui/console_projects_table.go:100-108 | the names of exactly the project's repositories, in catalog order |
| `Projects.ProjectSnoc` | internal/tui/console_projects_table.go:72-85 | one more repository changes its own project's row and no other |
| `Projects.ProjectsPartition` | internal/tui/console_projects_table.go:68-93 | the groups one after the other are a permutation of the catalog; repository and tag counts add up to its totals |
| `Projects.ProjectNameIff` | internal/tui/console_projects_table.go:56-61 | a repository belongs to the one project its name begins with, up to the first slash, or is ungrouped without one |
| `Projects.MembersExact` | internal/tui/console_projects_table.go:100-108 | a project's members are the repositories that lie in it, each once and in its place |
| `Projects.ProjectRowExact` | internal/tui/console_projects_table.go:56-108 | there is a row for exactly the projects some repository lies in; its count is the number that do, which a delete-project would delete, and its date their latest push |
| `Projects.ProjectsCanonical` | internal/tui/console_projects_table.go:62-93 | every ordering of the same catalog gives the same rows |
| `Projects.AggregatesPermute` | internal/tui/console_projects_table.go:79-83 | counts, sums and latest push do not depend on order |
| `Ordering.LessIff` | internal/tui/sort_mode.go:59-66 | texts are ordered by their first difference, a proper prefix first |
| `Ordering.SortByStrict` | internal/tui/sort_mode.go:59-66 | sorting by distinct keys gives a strictly ascending sequence |
| `Ordering.SortedUnique` | internal/app/regixtry/service_gc.go:71-71 | a strictly sorted arrangement of a bag is unique |

## Left out

Garbage collection

- Candidate re-check and unlink are one step; the code has a window between them, and nothing finer is claimed.
- The existence checks of one push are one step; the code checks blob after blob.
- GcService.Service.RecheckAndUnlink: the error text of a failed candidate is not modelled, only that it failed.
- Pruning compares times; the SQL compares RFC 3339 texts, whose order differs from time order inside one second. The contract of the port is used (`internal/ports/regixtry.go:201-206`).
- `GetGCReport` only reads and converts one report; report identifiers are parameters, fresh when nothing has used them.
- The order of reports, HTTP routes, logging and the command line of the collector.

Auth

- Each service call is one atomic step, as are its reads and writes together; concurrent calls are not modelled.
- Store faults: a failing write leaves the state as before, except in `CreateRobot`, whose partial writes are modelled.
- Random identifiers, secrets and accessors are parameters. A drawn identifier is new; a taken secret or accessor violates the store's constraint.
- bcrypt is injective and never accepts the robots' stored text; its cost, its salt and its truncation on comparison are not modelled.
- The joined text of a token's scopes: the model keeps the list of canonical texts it encodes, and takes requested scopes as the parser returns them.
- Creation and update times of users and grants, display names of tokens, listings for the admin API and the `toAdmin*` projections.
- Validation of rows on reading: rows are valid in every reachable state (AuthProperties.RowsStayValid), so it never fails.
- Revocation by user and accessor: the same update behind one more lookup.
- Trimming and lower-casing are ASCII.

Other cores

- JSON, PEM, regular expressions, base64 and signature checks are parameters; decoding an encoded value gives it back.
- Overrides.RewriteIsStable: stated for signing only, because normalizing a path is not idempotent when trimming and cleaning do not commute.
- The service entry that first parses the key's PEM and fixes the scan cap at 500; the cap is a parameter here.
- Repository name syntax is a parameter.
- Scan history: rendering, tables, links and the error text of the overlay, which no reply sets.
- Override editor: operator edits, the add and delete flows of the key list, and saving; the settled state is stated without them.
- The reducers are functions on values because the source passes its screens by value; the one method that mutates in place is only called on such a copy.
- Opening and closing the overlay or editor while replies are in flight appears as replies left over from an earlier mount or open.
- A run is its ID, repository and digest; its status and times, which only the rendering shows, are not modelled.
- The other project order, by date, and the delete-project action's requests.
- Scheduler leases, scanning, upload chunks, admin HTTP handlers, the command line and the rest of the terminal interface: plumbing, or flat dispatch without a property over runs.
