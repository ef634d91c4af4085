# Orgawork: verified models of its stateful cores

This project models the parts of the Orgawork repository that keep something over time, and proves
what they keep. Each module follows one source component:

- `ArchitecturePolicy`, `ArchitectureImports`: the workspace checker. A three-colour search reports
  dependency cycles; a pass over imports reports undeclared, upward and escaping imports.
- `PlatformControlPlane`, `PlatformOutcomes`, `PlatformRuns`, `PlatformConcurrency`,
  `OrganizationAdministration`: four idempotent platform commands over identity tables, when each of them
  ends how, serially and interleaved around their advisory locks; two tenant commands on memberships, and
  last-administrator protection.
- `CreateOwnCase`, `CreateOwnCaseRuns`, `CreateOwnCaseMeaning`: creation of a case with its first
  responsibility and action, once as a transaction, once interleaved statement by statement with other
  callers, and what the answers and rows say, told from the request.
- `Migrations`, `MigrationErrors`, `MigrationTransactions`, `MigrationRuns`, `MigrationConvergence`: the
  tracked migration runner, the plain runner and the integrity checker, what they refuse and which
  migration they then name, with texts that end the runner's transaction and faults at any statement,
  over single runs and over chains of releases.
- `Publication`, `PublicationProgram`: publication of a stage closure (commit, tag, atomic push,
  verification, retry) with crashes, lost answers and other publishers; then the tool as a program.
- `LoginLimiter`, `LoginHistory`, `LoginOverlap`, `Sessions`, `SessionRuns`, `SessionReasons`: the login
  rate limit, serially and with overlapping attempts, and the session table, with the answer to every
  attempt and every request and the reason for which every session ends.
- `TenantPool`, `TenantTransaction`: tenant transactions over pooled database connections, and the
  pool model they refine.
- `OutboxLease`, `OutboxHistory`, `SessionCache`: the lease/outbox and session cache models.
- `Resp`, `Prometheus`: the Redis reply reader and the metrics text.

Where the source updates fields or tables step by step, a class does the same, and each method's
contract equates the new state with a function of the old one; lemmas about these functions carry the
properties over all runs. Where requests overlap, a state machine has one step for each statement, read
or clock access that another request can come between.

Model assumptions:

- SHA-256 and `JSON.stringify` are injective, so a request stands for its own fingerprint. Identifiers
  from `createId` are inputs; where the database would refuse a repeated one, the model refuses it.
- Times are integers in milliseconds. Numbers are unbounded.
- Of the schema, only what the code relies on is assumed: primary and foreign keys, unique e-mail
  addresses and one membership per organization and user (infra/migrations/0004), the transition
  trigger on memberships (infra/migrations/0004, lines 201-205), unique idempotency keys, unique
  session secrets and the two CHECK constraints on sessions (infra/migrations/0006, lines 30-31).
- Inside an aborted transaction PostgreSQL accepts only COMMIT and ROLLBACK, and COMMIT then rolls back.
- A migration text may end the runner's transaction by a COMMIT as its last statement, as those of
  infra/migrations/0006 to 0009 do; from then on each statement commits by itself. Migration texts do not
  drop the history table or touch its rows.
- A statement, COMMIT included, may fail for its caller although the server applied it.

What the proofs found in the code:

- A report of the checker is never empty when a workspace imports itself by its own name
  (`SelfImportIsReported`).
- Without the foreign key from memberships to users, `provisionInitialAdmin` would commit a new user
  together with a conflict (`DanglingMembershipLeaksUser`); with it, it never does.
- `updateMembership` may delete team rows and still answer false (`FalseUpdateChangesTeamsOnly`).
- `acceptInvitation` can take an organization's last administrator; it keeps one exactly when some
  active administrator is another user (`AcceptInvitationKeepsAdminIff`).
- The migration runner is not atomic for the repository's own list: the texts 0006 to 0009 commit its
  transaction. A later failure leaves all before it applied with an error (`FailedRunKeepsCommitted`). A
  run is atomic exactly if no pending text commits (`RunIsAtomicIff`), and runs, or chains of runs, leave
  a prefix of the list exactly if no text changes the schema from the first that commits on
  (`RunLeavesPrefixIff`, `ChainsLeavePrefixesIff`). The history stays a prefix in any case
  (`EveryAttemptKeepsHistory`).
- A fault between such a text and its row leaves the text executed and unrecorded, and the next run
  executes it again. Chains of releases that end in a success end like one run on the empty database exactly
  if every text from the first that commits on is refused or without effect on its own result
  (`ConvergesIff`). An undisturbed rerun always completes exactly if each of them can be executed again
  without effect (`CompletesIff`); one that is refused blocks the list for good (`UnrecordedTextBlocks`).
- A tracked run accepts a migration with a blank name, after which every run fails (`RerunSucceedsIff`).
- The limiter's INSERT branch never blocks: it blocks at its limit exactly if that is at least two
  (`BlocksAtLimitIff`, `KeepsLimitIff`). At the shipped limit of five, eight failures fit into fifteen minutes, and
  no fewer can be promised (`BoundIsReached`). With m overlapping attempts the count can reach limit - 1 + m,
  and limit + (m - 1)(m + 4) / 2 if their upserts come out of order, since an upsert with a time before the
  window lifts the block; no more in either case (`OverlapBound`, `WithinLimitIff`).
- A monotone clock alone does not make `getSession` answer the stored expiry: a request overtaken by a
  later touch answers an earlier one (`ViewMatchesIff`, `OvertakenViewIsStale`).
- A BEGIN whose answer is lost is not rolled back: exactly then a free client of the pool is inside a
  transaction (`FreeClientIsOpenIff`). If a direct query is then refused on it, a pool that
  keeps the client has lost it: it refuses every later BEGIN, and nothing in the code rolls it back
  (`AbortedClientStays`, `ClientIsLost`). A reported success is a real one exactly if no query of the
  operation was refused (`ReportIsTrueIff`).
- Two organizations can share an outbox message if a part contains NUL (`IdentityIsUniqueIff`, `NulSharesMessages`).
- The Redis reader depends on chunk boundaries exactly for bulk lengths so far below zero that the value
  ends backwards, unless that value is empty (`AnswerStaysIff`, `ChunksDisagreeIff`).
- A refused metric recording still counts, once its aggregate exists (`AggregateIsConserved`).

`dafny verify dfyconfig.toml` checks everything.

## Model

Rows marked "by definition" state facts that the verifier reads off the definitions without a proof;
other rows build on them.

| member | source | states |
|---|---|---|
| ArchitecturePolicy.CycleIssues | tools/checks/architecture-policy.ts:205-258 | Terminates on every graph; each issue is a genuine simple closed path of declared edges, each detail is reported once, every closed walk goes along the last edge of a reported cycle, there is no issue iff the known graph is acyclic, and then the finishing order is topological |
| ArchitecturePolicy.CycleSearch.Visit | tools/checks/architecture-policy.ts:212-251 | A visit restores the stack, only adds issues and finished names, and leaves each edge out of a finished name leading to an earlier one or closing a reported cycle |
| ArchitecturePolicy.CycleSearch.ReportCycle | tools/checks/architecture-policy.ts:213-232 | Meeting a name on the stack leaves the cycle that this edge closes reported, without repeating an identity |
| ArchitecturePolicy.OrderedIsAcyclic | tools/checks/architecture-policy.ts:205-258 | A topological order rules out every closed walk |
| ArchitecturePolicy.DescendingCuts | tools/checks/architecture-policy.ts:236-251 | If every edge leads to a name finished earlier or closes a reported cycle, no closed walk avoids all the closing edges |
| ArchitecturePolicy.ReportedCycleIsIssue | tools/checks/architecture-policy.ts:222-231 | With names without blanks, each reported cycle is an issue of its own, with its first name as source and target: no two cycles share a text |
| ArchitectureImports.InspectImport | tools/checks/architecture-policy.ts:281-334 | One import adds exactly its undeclared-dependency, layer and escape issues, in that order |
| ArchitectureImports.InspectArchitecture | tools/checks/architecture-policy.ts:260-347 | The report is the cycle issues and then those of each file; it is empty iff the declared graph is acyclic and every import that resolves to a workspace is allowed |
| ArchitectureImports.ReportedIff | tools/checks/architecture-policy.ts:260-347 | Next to the cycles, exactly the violations are reported: undeclared dependency, layer or escape, each with its file, names and text, for an import of some file |
| ArchitectureImports.OwnerIsFirst | tools/checks/architecture-policy.ts:152-156 | The owner of a path is the first workspace that contains it, and none iff none does |
| ArchitectureImports.ByNameIsLast | tools/checks/architecture-policy.ts:262 | Of several workspaces with one name, the last counts |
| ArchitectureImports.NoIssuesIff | tools/checks/architecture-policy.ts:260-347 | The same equivalence for any report of this form |
| ArchitectureImports.ImportIsDeclared | tools/checks/architecture-policy.ts:189-203 | In a clean repository an import across workspaces is a declared edge, never to an app, and to a module only from an app |
| ArchitectureImports.CleanImportPaths | tools/checks/architecture-policy.ts:189-347 | In a clean repository the import graph across workspaces has no cycle, and every path is at most one app, then at most one module, then packages |
| ArchitectureImports.SelfImportIsReported | tools/checks/architecture-policy.ts:281-310 | An import of the own workspace by name always yields an issue, declared or not |
| ArchitectureImports.DependencyNameOfSubpath | tools/checks/architecture-policy.ts:179-187 | A package and all its subpaths name the same dependency |
| PlatformControlPlane.Repository.CreateOrganization | modules/organization-administration/src/platform-control-plane.ts:542-595 | Its statements, with rollback on a refused one, are the transaction `Transact` on the tables |
| PlatformControlPlane.Repository.RenameOrganization | modules/organization-administration/src/platform-control-plane.ts:596-653 | The same for renaming |
| PlatformControlPlane.Repository.ProvisionInitialAdmin | modules/organization-administration/src/platform-control-plane.ts:654-790 | The same for provisioning, where the user row is inserted before the membership is looked at |
| PlatformControlPlane.Repository.RevokeOrganizationAdmin | modules/organization-administration/src/platform-control-plane.ts:791-902 | The same for revocation, with the count of other administrators |
| PlatformControlPlane.Repository.Lookup | modules/organization-administration/src/platform-control-plane.ts:284-308 | Fresh, replay of the stored result, or conflict on another fingerprint |
| PlatformControlPlane.Repository.InsertAuditAndResult | modules/organization-administration/src/platform-control-plane.ts:310-392 | One audit row and one idempotency row, refused on a key that is taken |
| PlatformOutcomes.OnlyOperatorsAct | modules/organization-administration/src/platform-control-plane.ts:542-546 | A command is forbidden iff its actor is not an active operator (by definition) |
| PlatformOutcomes.CreationEnds | modules/organization-administration/src/platform-control-plane.ts:542-595 | For an operator with a new key: created iff the identifiers are unused, with the name and reason of the request answered, audited and stored (by definition) |
| PlatformOutcomes.RenamingEnds | modules/organization-administration/src/platform-control-plane.ts:596-653 | Not found iff there is no such organization; otherwise renamed, answered, audited and stored as asked (by definition) |
| PlatformOutcomes.RevocationEnds | modules/organization-administration/src/platform-control-plane.ts:791-902 | Revoked iff the membership is an active or suspended administrator of the organization with a user row and another active administrator exists; `LastAdminConflict` iff only the latter fails; not found otherwise; with what is answered and recorded |
| PlatformOutcomes.ProvisioningEnds | modules/organization-administration/src/platform-control-plane.ts:654-790 | Ends by the first that holds: no organization, a user with the address who is not active, a seat of theirs that is not active, an identifier in use; else it succeeds, and answers and records the user, the seat and whether a password is missing |
| PlatformRuns.TransactKeepsInv | modules/organization-administration/src/platform-control-plane.ts:542-902 | Unique addresses, unique seats and the foreign keys survive every command |
| PlatformRuns.OnlyFreshSuccessWrites | modules/organization-administration/src/platform-control-plane.ts:654-735 | Every outcome that is not a fresh success commits the tables unchanged (by definition) |
| PlatformRuns.DanglingMembershipLeaksUser | modules/organization-administration/src/platform-control-plane.ts:692-735 | Without the foreign key a conflict does commit a new user |
| PlatformRuns.FreshSuccessRecords | modules/organization-administration/src/platform-control-plane.ts:310-392 | A fresh success adds exactly one audit row and one idempotency row, both for this command |
| PlatformRuns.KnownKeyIsDecided | modules/organization-administration/src/platform-control-plane.ts:284-308 | Once a key has a row, the answer is the stored result or a conflict, and nothing changes (by definition) |
| PlatformRuns.ProvisionGrants | modules/organization-administration/src/platform-control-plane.ts:654-790 | The active user with that address becomes an active administrator, through their own membership if there is one; all other memberships and roles stay |
| PlatformRuns.RevokeRemoves | modules/organization-administration/src/platform-control-plane.ts:791-902 | A revocation needs another active administrator, revokes one membership and changes no other (by definition) |
| PlatformRuns.NamesOrganization | modules/organization-administration/src/platform-control-plane.ts:542-653 | Creating adds one organization, renaming replaces one name, and nothing else moves (by definition) |
| PlatformRuns.RowsAreKept | modules/organization-administration/src/platform-control-plane.ts:310-392 | Over a run, idempotency and audit rows are only added, and each success agrees with the row kept for its key |
| PlatformRuns.FreshSuccessesAreDistinct | modules/organization-administration/src/platform-control-plane.ts:284-392 | Fresh successes have distinct keys and distinct audit rows, new to the run and kept by it |
| PlatformRuns.RowsMatchFreshSuccesses | modules/organization-administration/src/platform-control-plane.ts:310-392 | Idempotency rows, audit rows and fresh successes grow by the same number |
| PlatformRuns.LaterAnswersReplay | modules/organization-administration/src/platform-control-plane.ts:284-308 | After a success, the same request for the key is answered with the stored result as replayed, any other request with a conflict |
| PlatformRuns.EveryKeyExecutesOnce | modules/organization-administration/src/platform-control-plane.ts:542-902 | A run ends as if only its fresh successes had been submitted, where each key occurs once |
| PlatformConcurrency.StepKeepsInv | modules/organization-administration/src/platform-control-plane.ts:284-392 | Every statement of every concurrent command keeps each lock with one live transaction on its key, inserted rows apart, and the committed rows explained by the log |
| PlatformConcurrency.InterleavingsAreSerial | modules/organization-administration/src/platform-control-plane.ts:284-392 | Every interleaving, with answers to COMMIT lost anywhere, has the outcomes and rows of the commands run one after the other in the order of their ends |
| PlatformConcurrency.TransactIsExplained | modules/organization-administration/src/platform-control-plane.ts:542-902 | The transaction function of the four commands is such a run of one command |
| PlatformConcurrency.LockSuffices | modules/organization-administration/src/platform-control-plane.ts:284-308 | Behind the advisory lock the primary key on idempotency rows is never violated and never waited for |
| PlatformConcurrency.RowsMatchFreshSuccesses | modules/organization-administration/src/platform-control-plane.ts:310-392 | There, rows are only added, one audit row and one idempotency row for each fresh success, and each success agrees with the row of its key |
| PlatformConcurrency.RetryGetsTheResult | modules/organization-administration/src/platform-control-plane.ts:284-308 | Under every interleaving and with answers lost, a key succeeds afresh at most once; submitting it again gives the stored result or, for another request, a conflict, unless that attempt fails or loses its own answer |
| PlatformConcurrency.UndisturbedRetry | modules/organization-administration/src/platform-control-plane.ts:284-308 | A retry is possible whenever its key is not locked, and is told what the stored row says |
| PlatformConcurrency.UndisturbedCommand | modules/organization-administration/src/platform-control-plane.ts:284-392 | A command on a new key that is not locked can go through whatever others are doing, and leaves its audit row and its idempotency row |
| OrganizationAdministration.UpdateMembershipStatements | modules/organization-administration/src/index.ts:385-408 | The two statements are the function on the tables, including the deletion of team rows and the refused transition |
| OrganizationAdministration.ReplaceMembershipRolesStatements | modules/organization-administration/src/index.ts:409-441 | The guard, the deletion and the inserts give exactly the new role set |
| OrganizationAdministration.UpdateIs | modules/organization-administration/src/index.ts:385-408 | A membership without the administrator role gets exactly the status asked for, or is refused iff that is no step of infra/migrations/0004; any other is left alone; suspending and revoking remove exactly its team rows (by definition) |
| OrganizationAdministration.ReplacementIs | modules/organization-administration/src/index.ts:409-441 | Done iff the membership is active and no administrator, which then has exactly the roles asked for, with all others unchanged (by definition) |
| OrganizationAdministration.AcceptanceIs | modules/organization-administration/src/index.ts:325-371 | Unless it was revoked, the user's own membership, or a new one, is active with exactly the invited role, and nothing else changes |
| OrganizationAdministration.RevokedIsFinal | infra/migrations/0004_create-identity-organization-schema.sql:201-205 | Over every serial run of the six commands a membership keeps its user and organization, stays revoked once it is, and is never invited again |
| OrganizationAdministration.FalseUpdateChangesTeamsOnly | modules/organization-administration/src/index.ts:400-407 | A false answer leaves memberships and roles alone, and leaves everything alone iff no team row was due for deletion (by definition) |
| OrganizationAdministration.FalseUpdateCanChangeState | modules/organization-administration/src/index.ts:400-407 | Such a deletion does occur |
| OrganizationAdministration.LastAdminIsProtected | modules/organization-administration/src/platform-control-plane.ts:791-871 | Over every serial run of the four platform commands and the two tenant commands, an organization with an active administrator keeps one |
| OrganizationAdministration.AcceptInvitationCanTakeLastAdmin | modules/organization-administration/src/index.ts:333-369 | It can take an organization's only administrator |
| OrganizationAdministration.AcceptInvitationKeepsAdminIff | modules/organization-administration/src/index.ts:333-369 | Accepting an invitation keeps an active administrator iff some active administrator is another user |
| CreateOwnCase.SnapshotRoundTrip | modules/work-management/src/infrastructure/postgresql.ts:95-128 | Every result with a known priority is read back from its snapshot (by definition) |
| CreateOwnCase.WorkDatabase.InsertPlan | modules/work-management/src/infrastructure/postgresql.ts:130-219 | The four inserts add the plan's rows, or are refused iff a key is taken |
| CreateOwnCase.WorkDatabase.CreateOwnCase | modules/work-management/src/infrastructure/postgresql.ts:232-355 | The statements from the in-progress row to the completed row, with rollback, are the atomic command |
| CreateOwnCase.PlanExistsIff | modules/work-management/src/application/create-own-case.ts:35-90 | A plan exists iff title, description, action title and both due dates are readable and the priority is known (by definition) |
| CreateOwnCaseMeaning.PlanIsForRequest | modules/work-management/src/application/create-own-case.ts:35-90 | The plan of a request is the case, responsibility and action it asks for: title, description and action title with their own words, each due date and the priority in its own field, author and target the request's membership; otherwise the first fault, in the source's order |
| CreateOwnCaseMeaning.NormalizedIsSpaced | modules/work-management/src/domain/case.ts:75-81 | A normalised text is the words of the text with one blank between them and none at the ends; it is refused iff there is no word |
| CreateOwnCase.BlankIff | modules/work-management/src/domain/case.ts:75-81 | A text is refused iff it is only white space |
| CreateOwnCase.FingerprintDeterminesPlan | modules/work-management/src/infrastructure/postgresql.ts:80-93 | Requests with one fingerprint get plans with the same answer up to identifiers (by definition) |
| CreateOwnCaseMeaning.FingerprintIff | modules/work-management/src/infrastructure/postgresql.ts:80-93 | Two requests have one fingerprint iff their texts agree up to white space at the ends, and priority and both dates agree (by definition) |
| CreateOwnCaseMeaning.NewKeyIsAnswered | modules/work-management/src/infrastructure/postgresql.ts:232-355 | For a new key: denied without membership, failed with nothing changed if the request has a fault or an identifier is in use, and otherwise created with the answer and the rows that the request asks for |
| CreateOwnCaseMeaning.KnownKeyIsAnswered | modules/work-management/src/infrastructure/postgresql.ts:250-275 | For a key that has succeeded: the stored result to a request that says the same, a conflict to any other, and nothing changes (by definition) |
| CreateOwnCaseRuns.StepKeepsInv | modules/work-management/src/infrastructure/postgresql.ts:232-355 | Every step of every transaction keeps each row lock with the one transaction that answers from the row, the reserved key and the uncommitted rows exclusive, and the committed tables explained by the log |
| CreateOwnCaseRuns.InterleavingsAreSerial | modules/work-management/src/infrastructure/postgresql.ts:250-340 | Every interleaving, with answers to COMMIT lost anywhere, is a serial run of the command in commit order, with the same outcomes |
| CreateOwnCaseRuns.SerialRunsAreIdempotent | modules/work-management/src/infrastructure/postgresql.ts:250-275 | Serial runs keep the tables good, never answer "in progress", and at most one answer for a key is fresh |
| CreateOwnCaseRuns.NewRowsHaveFreshAnswers | modules/work-management/src/infrastructure/postgresql.ts:276-340 | Every row that a run adds stems from one fresh answer for its key |
| CreateOwnCaseRuns.RetryGetsTheResult | modules/work-management/src/infrastructure/postgresql.ts:250-275 | Under any interleaving, once a transaction for a key has committed, even with its answer lost, the same request is answered with its result |
| CreateOwnCaseRuns.ConcurrentCallersShareOneCase | modules/work-management/src/infrastructure/postgresql.ts:232-355 | Under any interleaving: one case per organization and key, no committed in-progress row, every snapshot decodes, every later success for a key repeats the first as replayed |
| CreateOwnCaseRuns.PlanIsLinked | modules/work-management/src/application/create-own-case.ts:35-90 | The case, its accepted primary responsibility, its pending primary action and the current work refer to one another (by definition) |
| CreateOwnCaseMeaning.FreshAnswersSayTheRequest | modules/work-management/src/infrastructure/postgresql.ts:276-355 | Over a serial run, every fresh answer says what its request asked for, and so do the case, action and responsibility rows, to the end of the run |
| CreateOwnCaseMeaning.CreatedCasesSayTheRequest | modules/work-management/src/infrastructure/postgresql.ts:232-355 | The same for every interleaving of concurrent callers, with answers to COMMIT lost anywhere |
| CreateOwnCaseMeaning.UndisturbedCaller | modules/work-management/src/infrastructure/postgresql.ts:232-355 | A faultless request on a new key can go through whatever others are doing, is answered with what it asked for and leaves its rows |
| Migrations.Database.RunTracked | packages/database/src/migration-history.ts:228-280 | Validation, history check and transaction are `TrackedRun` on the database, for every fault |
| Migrations.ValidateMigrationSequence | packages/database/src/migration-history.ts:87-108 | The sorted list, or the first version that is not positive or repeats |
| Migrations.ValidateHistoryPrefix | packages/database/src/migration-history.ts:110-142 | The first record that differs from the list, or none |
| Migrations.Database.ReadMigrationHistory | packages/database/src/migration-history.ts:170-226 | The records in order, or the first invalid one |
| Migrations.Database.Migrate | packages/database/src/migration-history.ts:248-265 | The loop over text and row of each pending migration, with its COMMIT or rollback, ends as the statements one by one do, also where a text commits |
| Migrations.Database.Send | packages/database/src/migration-history.ts:254-261 | One statement: what the connection sees, what is committed, and whether the caller sees it succeed |
| Migrations.NormalizeMigrations | packages/database/src/migration-integrity.ts:54-76 | The sorted list, or the first unusable migration |
| Migrations.Database.InspectMigrationIntegrity | packages/database/src/migration-integrity.ts:103-139 | The loop over the records is `Inspect` on the database |
| Migrations.Database.RunVersioned | packages/database/src/migrations.ts:168-214 | The plain runner is `VersionedRun`, with invalid applied versions and texts that commit |
| MigrationErrors.TrackedRefusalIs | packages/database/src/migration-history.ts:87-280 | A tracked run is refused by the first of its checks that fails, with the version that this check stops at: in the sorted list, in the history, or where they are compared; otherwise the transaction decides |
| MigrationErrors.InspectRefusalIs | packages/database/src/migration-integrity.ts:54-139 | The same for the checker |
| MigrationErrors.PlainRunIs | packages/database/src/migrations.ts:86-214 | The same for the plain runner, and what its success reports: the sorted list cut into applied and skipped versions |
| MigrationErrors.FailureNames | packages/database/src/migration-history.ts:250-272 | A failing transaction names the migration at which it fails: all before it were applied, and it was refused or a fault hit its text, its row or the COMMIT |
| MigrationErrors.SelectedIs | packages/database/src/migrations.ts:176-181 | Pending and skipped are, in order, exactly the migrations whose version is not, or is, among the applied ones |
| MigrationErrors.HistoryRowsDiffer | packages/database/src/migration-history.ts:228-280 | Whatever fails in whatever runs, the history never holds a version or a file name twice |
| MigrationTransactions.AllOrNothing | packages/database/src/migration-history.ts:250-265 | If no text commits, the transaction leaves the database as it was or the whole list applied |
| MigrationTransactions.SuccessApplies | packages/database/src/migration-history.ts:250-265 | A transaction that succeeds has applied exactly the list, whatever its texts commit |
| MigrationTransactions.AtomicIff | packages/database/src/migration-history.ts:250-265 | All faults leave all or nothing iff no text commits, or there is only one and it does nothing |
| MigrationTransactions.CutBeforeRecord | packages/database/src/migration-history.ts:254-261 | A fault before the row of a migration whose text is committed leaves the text without its row |
| MigrationTransactions.FailureAfterCommitKeeps | packages/database/src/migration-history.ts:254-265 | A text refused after one that committed leaves everything before it applied, with an error |
| MigrationTransactions.PrefixIff | packages/database/src/migration-history.ts:250-265 | All faults leave a prefix of the list iff from the first text that commits on none changes the schema |
| MigrationTransactions.PlainAtomicIff | packages/database/src/migrations.ts:188-204 | The plain runner's transaction leaves all or nothing under all faults iff no text but the last commits, or those up to it make no difference |
| MigrationRuns.UsableIff | packages/database/src/migration-history.ts:87-108 | The validation accepts exactly positive versions without repetition |
| MigrationRuns.InputOrderDoesNotMatter | packages/database/src/migration-history.ts:87-108 | Permuted inputs are accepted alike and have the same effect and result |
| MigrationRuns.ReachedIsFold | packages/database/src/migration-history.ts:250-272 | The history is the list that was applied and the schema is its fold |
| MigrationRuns.RunAppliesRest | packages/database/src/migration-history.ts:228-280 | A successful run found a prefix of the sorted list in the history, and has applied and reports exactly the rest |
| MigrationRuns.FailedRunLeavesAllOrNothing | packages/database/src/migration-history.ts:228-272 | If no pending text commits, a failing run leaves the database as it was, or applied everything and lost only the answer to COMMIT |
| MigrationRuns.RunIsAtomicIff | packages/database/src/migration-history.ts:228-272 | Where the pending migrations can be applied, runs are atomic under all faults iff no pending text commits, or it is a single one that does nothing |
| MigrationRuns.RunLeavesPrefixIff | packages/database/src/migration-history.ts:228-272 | There, runs leave exactly a prefix applied under all faults iff from the first pending text that commits on none changes the schema |
| MigrationRuns.FailedRunKeepsCommitted | packages/database/src/migration-history.ts:254-272 | A run that fails at a text after one that committed has applied everything before it |
| MigrationRuns.EveryAttemptLeavesAPrefix | packages/database/src/migration-history.ts:228-280 | Over releases that extend each other, under that condition on the final one, after every attempt exactly a prefix of the sorted release is applied |
| MigrationRuns.EveryAttemptKeepsHistory | packages/database/src/migration-history.ts:228-280 | Whatever texts commit: after every attempt the history is a prefix of the sorted release, and the schema results from its texts in order, where only a text in autocommit mode, cut off from its row, is repeated or ahead |
| MigrationConvergence.ChainsLeavePrefixesIff | packages/database/src/migration-history.ts:228-280 | All chains of attempts at releases that extend each other leave exactly a prefix iff from the first text that commits on none changes the schema |
| MigrationConvergence.ConvergesIff | packages/database/src/migration-history.ts:228-280 | For every prefix of the release, all chains of attempts whose last succeeds end like one run on the empty database, iff every text from the first that commits on is refused or without effect on its own result |
| MigrationConvergence.CompletesIff | packages/database/src/migration-history.ts:228-280 | For every prefix of the release, an undisturbed run after any attempts succeeds and ends like one run, iff every such text can be executed again on its own result without effect |
| MigrationConvergence.ReleasesEndLikeOneRun | packages/database/src/migration-history.ts:228-280 | Under the condition of `ConvergesIff`, once the last attempt of a chain succeeds, the database is that of one run of the final release on the empty database |
| MigrationConvergence.ChainStaysNear | packages/database/src/migration-history.ts:250-272 | Under that condition, after every attempt exactly a prefix is applied, except that the next text may be executed without its row |
| MigrationConvergence.HarmlessSettles | packages/database/src/migration-history.ts:250-265 | Lists that leave prefixes only, in particular those that never commit, meet both conditions |
| MigrationConvergence.TwiceDiverges | packages/database/src/migration-history.ts:254-261 | A text whose second execution gives another schema: a run cut off before its row and then repeated succeeds elsewhere |
| MigrationConvergence.RefusedTextBlocks | packages/database/src/migration-history.ts:254-272 | A run whose first pending text is refused fails and changes nothing, whatever else fails (by definition) |
| MigrationConvergence.UnrecordedTextBlocks | packages/database/src/migration-history.ts:254-272 | At any position of the list: a text in autocommit mode that is cut off from its row and refused on its own result blocks every later attempt at the release and at all that continue it |
| MigrationRuns.InspectIff | packages/database/src/migration-integrity.ts:54-139 | The checker succeeds iff the set is usable and not blank and the history is exactly its entries |
| MigrationRuns.RunThenInspect | packages/database/src/migration-integrity.ts:103-139 | After a successful run the checker succeeds iff nothing is blank and the table exists, with the same versions and fingerprints |
| MigrationRuns.InspectThenRun | packages/database/src/migration-history.ts:228-280 | After the checker succeeds, the next run of the set applies nothing |
| MigrationRuns.RerunSucceedsIff | packages/database/src/migration-history.ts:170-226 | After a successful run the next one succeeds iff no name is blank |
| MigrationRuns.PlainRunAppliesPendingSuffix | packages/database/src/migrations.ts:168-214 | Told the versions of the history, the plain runner has the tracked run's result and effect on the schema |
| MigrationRuns.PlainRunLeavesAllOrNothing | packages/database/src/migrations.ts:168-214 | If no pending text commits, the plain runner leaves the schema as it was or all pending texts executed |
| MigrationRuns.PlainRunKeepsCommitted | packages/database/src/migrations.ts:188-204 | A fault right after a text that commits leaves the texts up to it executed, with an error |
| Publication.NextKeepsInv | tools/verification/publish.ts:89-287 | Every step, crash, lost push, foreign push and user action keeps tags on verified closures, and published commits published |
| Publication.RemoteOnlyFastForwards | tools/verification/publish.ts:197-215 | Over any run, remote main only moves to descendants and the acceptance tag never moves |
| Publication.TagAppearsWithMain | tools/verification/publish.ts:258-270 | The step that sets the remote tag sets main to its target |
| Publication.TagsCloseVerifiedCommits | tools/verification/publish.ts:89-110 | Every local or remote tag is on a commit whose only parent a stage report verified |
| Publication.PassMeansPublished | tools/verification/publish.ts:139-163 | After a PASS, main contains the closure and the tag is on it, for good; all PASS lines name one commit |
| Publication.PassOnlyAfterBothRead | tools/verification/publish.ts:139-146 | PASS is printed exactly by the step in which a process has read main and tag equal to HEAD, and on the first publication only in a clean tree (by definition) |
| Publication.PushIsSentOnlyIf | tools/verification/publish.ts:165-215 | A push is prepared only for the own new tag, or by a retry that has read a tag absent or at HEAD, not both refs there already, and has fetched nothing that HEAD lacks |
| Publication.RerunCompletes | tools/verification/publish.ts:165-221 | With the local tag on HEAD, a clean tree and a remote that has not advanced, an undisturbed rerun prints PASS with main and tag at HEAD |
| PublicationProgram.Checkout.AssertRemoteLease | tools/verification/publish.ts:119-137 | Succeeds iff there is no remote tag and HEAD is strictly ahead of the fetched main; it is the steps from `Prepared` on |
| PublicationProgram.Checkout.PushAndVerify | tools/verification/publish.ts:139-146 | Pushes iff the remote accepts, and succeeds iff main and tag then read as HEAD |
| PublicationProgram.Checkout.RetryOrConfirm | tools/verification/publish.ts:165-221 | The retry as a program does what its steps do without interference |
| PublicationProgram.Checkout.Publish | tools/verification/publish.ts:223-287 | The whole tool as a program does what its steps do without interference |
| PublicationProgram.RunPassesIff | tools/verification/publish.ts:223-287 | An undisturbed run passes iff the stage is publishable for the first time, or its local closure is on the remote already or can be pushed |
| PublicationProgram.FailedRunLeavesAll | tools/verification/publish.ts:223-287 | An undisturbed run that does not pass leaves the remote and HEAD as they were, and no tag but one it fetched |
| PublicationProgram.FirstRun | tools/verification/publish.ts:238-287 | A first run that passes leaves remote main at a new commit on the verified one, with the tag on it |
| PublicationProgram.RerunPasses | tools/verification/publish.ts:165-221 | The program, rerun in the resumable situation, passes and leaves its main and tag on the remote |
| LoginLimiter.RateLimits.RecordLoginFailure | modules/authentication/src/index.ts:515-569 | The upsert: a new row never blocks, an elapsed window restarts at one, a reached limit blocks for a window from now |
| LoginLimiter.RateLimits.Login | modules/authentication/src/index.ts:803-835 | Refused while blocked, recorded on wrong or inactive credentials, cleared on success |
| LoginHistory.AnswerIs | modules/authentication/src/index.ts:803-835 | Over every run in time order with a limit of at least two: an attempt is rate limited iff the failures of the current window, told from credentials and times, number the limit and the last is less than a window ago; otherwise logged in iff its credentials are accepted, disabled iff its user is inactive, refused iff they are wrong |
| LoginHistory.RowTellsHistory | modules/authentication/src/index.ts:515-569 | The row of a key tells the window, the count and the block of that history |
| LoginHistory.HistoryIsFailures | modules/authentication/src/index.ts:803-835 | That history is the list of failures that the results below count |
| LoginLimiter.BlockedExactlyAtLimit | modules/authentication/src/index.ts:515-569 | Over every run in time order on any keys, since a key's last success its count is at most the limit, and it is blocked, for one window from the last failure, iff the count reaches the limit |
| LoginLimiter.LimitOneIsExceeded | modules/authentication/src/index.ts:522-532 | With a limit of one the first failure does not block and the second exceeds the limit |
| LoginLimiter.OverlappingAttemptsExceedLimit | modules/authentication/src/index.ts:654-681 | Two attempts that both pass the check one short of the limit are both recorded, beyond the limit (by definition) |
| LoginLimiter.KeepsLimitIff | modules/authentication/src/index.ts:515-569 | The count stays within the limit on all serial runs iff the limit is at least two, or one with an empty window |
| LoginLimiter.BlocksAtLimitIff | modules/authentication/src/index.ts:515-569 | A key is blocked exactly at the limit on all serial runs iff the limit is at least two |
| LoginOverlap.OverlapBound | modules/authentication/src/index.ts:803-835 | With at most m attempts of a key in flight, the count never exceeds limit - 1 + m if upserts come in the order of their times, and limit + (m - 1)(m + 4) / 2 if they come in any order |
| LoginOverlap.WithinLimitIff | modules/authentication/src/index.ts:803-835 | Both bounds are reached for every m; the count stays within the limit iff at most one attempt is in flight |
| LoginOverlap.NextKeepsInv | modules/authentication/src/index.ts:515-569 | Every step keeps the bound: each attempt with a time before the window can still lift the block once, and let the free places fill |
| LoginLimiter.OtherKeysUntouched | modules/authentication/src/index.ts:504-573 | An attempt changes no other key's row (by definition) |
| LoginLimiter.FailuresPerWindow | modules/authentication/src/index.ts:654-681 | Any half-open interval of one window holds at most 2L - 2 recorded failures of a key since its last success |
| LoginLimiter.EightFailuresPerFifteenMinutes | modules/authentication/src/index.ts:55-60 | With the shipped policy: eight in fifteen minutes |
| LoginLimiter.BoundIsReached | modules/authentication/src/index.ts:515-569 | For every limit of at least two there is a run in which exactly 2L - 2 are recorded in one window |
| Sessions.SessionTable.CreateSession | modules/authentication/src/index.ts:364-396 | Inserts unless the identifier or the secret is taken |
| Sessions.SessionTable.FindSessionBySecretHash | modules/authentication/src/index.ts:397-426 | A session with the secret, or none exists |
| Sessions.SessionTable.TouchSession | modules/authentication/src/index.ts:427-448 | The GREATEST/LEAST update of an active row, and whether there was one |
| Sessions.SessionTable.ExpireSession | modules/authentication/src/index.ts:449-468 | Expires an active row of the expected version |
| Sessions.SessionTable.RevokeSession | modules/authentication/src/index.ts:469-488 | Revokes an active row of the expected version |
| Sessions.SessionTable.RevokeAllUserSessions | modules/authentication/src/index.ts:489-503 | Revokes the user's active rows and counts them |
| Sessions.SessionTable.Request | modules/authentication/src/index.ts:683-743 | An undisturbed request finds its session, decides, and executes the decided statement, with the decided answer |
| Sessions.AnsweredIffLive | modules/authentication/src/index.ts:683-749 | A request may be answered without an error iff it concerns a session that was read active and in time, of an active user, and for a logout with the session's own token; a wrong token is reported only then (by definition) |
| SessionReasons.UninterruptedIs | modules/authentication/src/index.ts:683-749 | What an undisturbed request answers and leaves of every row, told from status, times, user and token |
| SessionReasons.FinishedIs | modules/authentication/src/index.ts:683-749 | The same for every request of every interleaving, from what it read, the clock and the row it finds: which error, which view, and every row after it |
| SessionReasons.OtherMovesAre | modules/authentication/src/index.ts:846-864 | A login adds the one row with its expiries; a switch changes the named session of the named member only, and a new password ends the sessions of its user only (modules/organization-context/src/index.ts, lines 86-109) (by definition) |
| SessionReasons.SessionsEndForAReason | modules/authentication/src/index.ts:695-716 | Over every interleaving a session ends only by a request that read it at or after an expiry, a logout of it with its token, a `logoutAll` or a new password of its user, or a request that found the user inactive |
| SessionReasons.RequestsRead | modules/authentication/src/index.ts:688-706 | What a request decides from is the row and the user as they were when it read, and a clock it read later |
| SessionRuns.NextKeepsInv | modules/authentication/src/index.ts:364-503 | Every step keeps all rows in order, and each record read is an earlier state of its row |
| SessionRuns.ExpiryIsExact | modules/authentication/src/index.ts:427-448 | Over every interleaving, the idle expiry is exactly the last use plus eight hours cut off at the absolute expiry, which is seven days after creation |
| SessionRuns.EndedIsFinal | modules/authentication/src/index.ts:449-503 | Absolute expiry never moves, last use never goes back, and a revoked or expired row never changes again |
| SessionRuns.HitsIffUnchanged | modules/authentication/src/index.ts:885-898 | A logout or expiry takes effect iff the row is still the one that was read |
| SessionRuns.NoViewAfterEnd | modules/authentication/src/index.ts:719-743 | Once a session has ended, no request answers with a view of it, even if it read it before |
| SessionRuns.RevokedAllAreEnded | modules/authentication/src/index.ts:306-344 | After a new password or `logoutAll`, every session that the user then had is ended for good |
| SessionRuns.TouchesCommute | modules/authentication/src/index.ts:427-448 | Two touches, of any sessions, commute on every column (by definition) |
| SessionRuns.OrderOfTouchesDoesNotMatter | modules/authentication/src/index.ts:427-448 | Any permutation of touches has the same effect |
| SessionRuns.ViewMatchesIff | modules/authentication/src/index.ts:719-743 | The expiry answered equals the stored one iff no later use was stored since the clock was read, or the absolute expiry cuts both off |
| SessionRuns.ViewIsStored | modules/authentication/src/index.ts:719-743 | With a clock that does not go back, a touch that nothing overtakes answers the stored expiry |
| SessionRuns.OvertakenViewIsStale | modules/authentication/src/index.ts:719-743 | A touch that a later one overtakes answers an expiry before the stored one (by definition) |
| TenantPool.TransactionContextPoolModel.Enter | tools/spikes/p1.9-models.ts:222-238 | Takes the first free slot for the organization; fails iff the organization is blank or no slot is free |
| TenantPool.TransactionContextPoolModel.Leave | tools/spikes/p1.9-models.ts:239-248 | Frees the slot and clears its organization |
| TenantPool.NextKeepsInv | packages/database/src/index.ts:221-259 | Every step of concurrent calls, however commands end, keeps each call on its own client in the session state that its phase needs |
| TenantPool.QueryRunsUnderOwnOrganization | packages/database/src/tenant-runtime.ts:123-155 | Every operation query that the server executes runs in an open transaction under the runtime role and its own organization, whether or not ROLLBACK ever works |
| TenantPool.ClientsAreNotShared | packages/database/src/index.ts:208-219 | Live calls hold different clients |
| TenantPool.ReleasedExactlyOnce | packages/database/src/index.ts:221-259 | Every call that got a client either holds it or released it exactly once |
| TenantPool.CallsMoveTowardsRelease | packages/database/src/index.ts:221-259 | Each command brings a call closer to its release; success is only a COMMIT that was done |
| TenantPool.UndisturbedCall | packages/database/src/index.ts:221-259 | From a free client outside a transaction a call goes through: it runs under its own organization, COMMIT is done, and the client is given back as it came |
| TenantPool.FreeClientsAreClean | packages/database/src/index.ts:190-196 | If every issued ROLLBACK takes effect, free clients carry no organization and no runtime role |
| TenantPool.CleanAfterRollbackIff | packages/database/src/index.ts:190-196 | A client leaves its rollback clean iff the ROLLBACK took effect or it was clean before (by definition) |
| TenantPool.LostBeginStaysOpen | packages/database/src/index.ts:221-259 | One such step: a lost BEGIN is not rolled back (by definition) |
| TenantPool.FreeClientIsOpenIff | packages/database/src/index.ts:221-259 | Over every run of the pool in which ROLLBACK works, a free client is inside a transaction iff the answer to a BEGIN on it was lost and no transaction on it has been ended since |
| TenantPool.AbortedClientStays | packages/database/src/index.ts:221-259 | A free client with an aborted transaction stays so over every further run: nothing on it is executed, not even a ROLLBACK, and every call that gets it fails at BEGIN |
| TenantPool.ClientIsLost | packages/database/src/index.ts:207-259 | Every pool can lose any client so, by a lost BEGIN and a refused direct query, without a ROLLBACK that fails |
| TenantPool.StepRefinesModel | tools/spikes/p1.9-models.ts:210-253 | Getting and releasing a client are the model's entry and exit, everything else is invisible to it |
| TenantPool.QueriesSeeTheModelsOrganization | tools/spikes/p1.9-models.ts:238-253 | A query sees the organization of the model's slot, a direct query none |
| TenantTransaction.Client.Transaction | packages/database/src/index.ts:221-259 | BEGIN, operation, COMMIT or ROLLBACK and release as a program go through exactly the phases of the machine |
| TenantTransaction.Client.InContext | packages/database/src/tenant-runtime.ts:123-155 | Role, context, read-back and operation as a program, with every throw ending in the rollback phase |
| TenantTransaction.ReleasedClean | packages/database/src/index.ts:221-259 | Whatever fails, a clean client is released clean if the ROLLBACK takes effect |
| TenantTransaction.SuccessNeedsCommit | packages/database/src/index.ts:221-259 | Success is reported only if the operation returned and COMMIT was done |
| TenantTransaction.AbortedIffRefused | packages/database/src/index.ts:180-188 | A transaction is aborted by its operation iff a query was refused |
| TenantTransaction.ReportedAndKeptIff | packages/database/src/index.ts:221-259 | For every script: success is reported iff the wrapper got through, the operation returned and COMMIT was done; its work is kept iff, besides, no query was refused and COMMIT was applied |
| TenantTransaction.ReportIsTrueIff | packages/database/src/index.ts:221-259 | A reported success is real iff no query was refused; a reported failure has kept something iff only the answer to COMMIT was lost |
| TenantTransaction.ReleasedOutsideTransactionIff | packages/database/src/index.ts:221-259 | A client that came outside a transaction is released outside one iff the answer to BEGIN was not lost after it was applied |
| TenantTransaction.SwallowedFailureIsReportedCommitted | packages/database/src/index.ts:236-241 | An operation that returns after a refused query is reported as committed although its transaction was aborted and nothing is kept |
| OutboxLease.OutboxLeaseModel.Enqueue | tools/spikes/p1.9-models.ts:48-77 | Its answer and new state, with blank parts, duplicates and a taken id in the source's order |
| OutboxLease.OutboxLeaseModel.Claim | tools/spikes/p1.9-models.ts:79-106 | The same for a claim |
| OutboxLease.OutboxLeaseModel.Complete | tools/spikes/p1.9-models.ts:108-141 | The same for a completion |
| OutboxLease.OutboxLeaseModel.DeliveryCount | tools/spikes/p1.9-models.ts:143-146 | The number of recorded deliveries |
| OutboxHistory.EnqueueAnswerIs | tools/spikes/p1.9-models.ts:48-77 | Over every run: blank parts are refused, a pair that an earlier enqueue created is answered with that message, an id taken for another pair is refused, and anything else is created |
| OutboxHistory.ClaimAnswerIs | tools/spikes/p1.9-models.ts:79-106 | A claim is granted on every created message unless the latest grant on it has not run out; the answer is then its holder |
| OutboxHistory.CompleteAnswerIs | tools/spikes/p1.9-models.ts:108-141 | A completion is refused unless the latest grant is the owner's and has not run out; then processed, unless the same delivery was processed before |
| OutboxLease.IndexIsBijection | tools/spikes/p1.9-models.ts:44-77 | After any run, index entries and messages correspond one to one |
| OutboxLease.OneMessagePerKey | tools/spikes/p1.9-models.ts:48-77 | A later enqueue for the same organization and key is a duplicate with the first one's id |
| OutboxLease.IdentityIsUniqueIff | tools/spikes/p1.9-models.ts:52 | A joined identity belongs to one pair only iff neither part contains NUL |
| OutboxLease.DuplicateHasSameKey | tools/spikes/p1.9-models.ts:52-60 | Without NUL, a duplicate answer names a message of the same organization and key |
| OutboxLease.NulSharesMessages | tools/spikes/p1.9-models.ts:52-60 | With NUL it can name another organization's message |
| OutboxLease.LeaseIsExclusive | tools/spikes/p1.9-models.ts:79-106 | After a claim at t for d, in time order, no claim on the message is granted before t + d; it is answered with the holder |
| OutboxLease.ProcessedByLeaseHolder | tools/spikes/p1.9-models.ts:108-141 | A delivery is processed only by the owner of the latest granted claim, before it runs out |
| OutboxLease.ProcessedOnce | tools/spikes/p1.9-models.ts:132-141 | A consumer's delivery is processed at most once |
| OutboxLease.DeliveryCountIsProcessed | tools/spikes/p1.9-models.ts:132-146 | The delivery count is the number of completions answered `processed` |
| SessionCache.OrganizationSessionCache.Activate | tools/spikes/p1.9-models.ts:159-176 | Replaces the context, emptying the cache iff it changes; a blank part changes nothing |
| SessionCache.OrganizationSessionCache.Write | tools/spikes/p1.9-models.ts:178-201 | Writes the value of the trimmed resource, or reports the missing context or blank resource |
| SessionCache.OrganizationSessionCache.Read | tools/spikes/p1.9-models.ts:182-201 | Reads the value of the trimmed resource in the active context |
| SessionCache.OrganizationSessionCache.Size | tools/spikes/p1.9-models.ts:186-188 | The number of resources of the active context |
| SessionCache.ReadIsLastWrite | tools/spikes/p1.9-models.ts:155-202 | A read gives a value iff it was the last one written to the resource under a context active ever since |
| SessionCache.ReadAnswerIs | tools/spikes/p1.9-models.ts:155-202 | Every answer of a run, told from its operations: no context, blank resource, or the value last written under the context with the trimmed revision, subject and organization |
| SessionCache.ActivationIs | tools/spikes/p1.9-models.ts:159-176 | An activation is refused iff a part is blank, and otherwise keeps all three trimmed parts (by definition) |
| SessionCache.CompositeIdentityExistsIff | tools/spikes/p1.9-models.ts:255-261 | An identity exists iff there are two parts or more and none is blank |
| SessionCache.CompositeIdentityIsInjective | tools/spikes/p1.9-models.ts:255-261 | Identities of NUL-free parts, any number of them, are equal only for the same trimmed parts |
| Common.TrimIs | tools/spikes/p1.9-models.ts:26-34 | Trimming takes white space off both ends, all of it, and nothing else |
| Resp.ReplyReader.OnData | tools/spikes/p1.9-real-infrastructure.ts:98-114 | Chunks accumulate until they parse; later ones are ignored |
| Resp.ReadReply | tools/spikes/p1.9-real-infrastructure.ts:82-119 | The loop over the chunks stops at the first with which the bytes parse; however a stream is cut into chunks, the answer is what the whole stream parses to, unless a bulk length ends backwards |
| Resp.EveryLineIsAnswered | tools/spikes/p1.9-real-infrastructure.ts:43-69 | Every first line, of any type byte and any length, with anything after it, is answered as the source does, also for lengths below zero or not a number |
| Resp.NumberIff | tools/spikes/p1.9-real-infrastructure.ts:55-58 | A line reads as a number iff, up to blanks around it, it is empty or digits with at most one sign |
| Resp.AnswerStays | tools/spikes/p1.9-real-infrastructure.ts:43-69 | An answer, once complete, does not change as bytes arrive, with the same exception |
| Resp.AnswerStaysIff | tools/spikes/p1.9-real-infrastructure.ts:43-69 | An answer stays the same for all further bytes iff it does not come from a bulk length that ends backwards |
| Resp.ChunksDisagreeIff | tools/spikes/p1.9-real-infrastructure.ts:82-119 | A stream is answered differently in different chunks iff its bulk length ends backwards and its whole value is not empty |
| Resp.BackwardLengthDependsOnChunks | tools/spikes/p1.9-real-infrastructure.ts:57-66 | An example: a length of -9 with nine bytes behind its line |
| Resp.WholeFrameIsRead | tools/spikes/p1.9-real-infrastructure.ts:43-69 | Every simple, error, integer, nil or bulk frame, with anything after it, parses to its value |
| Resp.StrictPrefixIsIncomplete | tools/spikes/p1.9-real-infrastructure.ts:43-69 | Every strict prefix of a frame is incomplete |
| Resp.ReplyIsReadFromChunks | tools/spikes/p1.9-real-infrastructure.ts:82-119 | However a frame, with anything after it, is cut into chunks, the answer is its value |
| Resp.DecimalIsRead | tools/spikes/p1.9-real-infrastructure.ts:55-58 | Every integer is read back from its decimal text, which holds no line end |
| Resp.CommandRoundTrip | tools/spikes/p1.9-real-infrastructure.ts:37-41 | Every command is read back as its arguments, frame by frame, even if they contain line ends |
| Prometheus.ThreePassesAreOne | packages/observability/src/operational.ts:70-72 | The three replacement passes are one single-pass escape |
| Prometheus.QuotedIsRead | packages/observability/src/operational.ts:70-72 | A reader of quoted values undoes the escape up to the closing quote; no raw newline survives |
| Prometheus.SameKeyIff | packages/observability/src/operational.ts:66-68 | Two label records share a key iff they have the same entries |
| Prometheus.LessIff | packages/observability/src/operational.ts:66-68 | Labels are ordered by the characters of their names at the first difference, a prefix first |
| Prometheus.RenderedLabelsAreRead | packages/observability/src/operational.ts:74-79 | A rendered label block parses back to the sorted labels |
| Prometheus.SampleIsRead | packages/observability/src/operational.ts:176-190 | A sample line parses back to metric, sorted labels and value |
| Prometheus.SampleLinesDiffer | packages/observability/src/operational.ts:176-190 | Equal sample lines have equal metrics, label sets and values |
| Prometheus.MetricFamily.AddAggregate | packages/observability/src/operational.ts:81-91 | The new aggregates, also when the duration is refused after the count was raised |
| Prometheus.MetricFamily.RenderSamples | packages/observability/src/operational.ts:182-189 | Two sample lines for each listed aggregate |
| Prometheus.RenderedSamplesAreRead | packages/observability/src/operational.ts:182-189 | Each aggregate is read back twice: its count under the name with `_total`, its sum under the one with `_duration_milliseconds_sum`, both with its labels |
| Prometheus.SampleLinesAreDistinct | packages/observability/src/operational.ts:182-189 | The sample lines of aggregates with different labels are pairwise different |
| Prometheus.RecordedSamplesAreDistinct | packages/observability/src/operational.ts:81-190 | After every run of recordings, a listing of the aggregates without repetition prints no sample line twice |
| Prometheus.AggregateIsConserved | packages/observability/src/operational.ts:81-91 | Over every run, sums are those of the valid recordings, and counts are exact iff none was refused after the first valid one |

## Left out

- Concurrent revocations: last-administrator protection is proved for serial runs; the code takes no lock that would give more.
- Platform tables: timestamps, version columns and row-level security policies are not modelled; normalisers of names, e-mail addresses and reasons are taken as done.
- OrganizationAdministration.ReplaceMembershipRolesStatements: role keys come without duplicates removed by the service; the resulting set is the same.
- ArchitectureImports.InspectArchitecture: path resolution and the specifiers found by regular expressions are inputs, and the final sort of the report for printing is not modelled.
- Publication: the text checks of closure documents and stage reports are the flags `documents` and `report`; reads of the clone's own files and refs are one step; users get the acceptance tag only by a fetch, and move none. A stop between commit and tag leaves a state that the tool refuses to resume, as in the source.
- Migrations.Database.ReadMigrationHistory: the pattern of a fingerprint and the reading of `applied_at` are not checked again; the table's constraint and type ensure them.
- Migrations: `applied_order` and `applied_at` are stripped from the compared history; a fault before BEGIN is not modelled; texts that open or roll back a transaction without ending it, or go on after their COMMIT, are not modelled.
- LoginLimiter.FailuresPerWindow: attempts are serial; for overlapping ones the count is bounded, not the failures in an arbitrary interval.
- LoginOverlap: the clock does not go backwards between the starts of attempts; hash verification between check and upsert is only time that passes.
- PlatformConcurrency: what concurrent commands do to the identity tables is left open, only their keys, locks and rows are followed; hash collisions of lock keys, which only make more commands wait, and changes of the set of operators are not modelled.
- LoginLimiter: hashing of address and e-mail to the key, and password hashing, are inputs.
- Sessions: e-mail and current organization of the view, the number that `logoutAll` returns and password reset tokens are not modelled.
- TenantPool: servers that drop a connection, pools that close a client after an error or when it is idle (one that closes it after a refused direct query never reaches `ClientIsLost`), the waiting queue of the pool, `close`, and queries that an operation sends after it has returned are not modelled; operations do not send transaction control themselves.
- TenantPool.StepRefinesModel: the pool may give any free client, where the model takes the first free slot.
- Resp: UTF-8 decoding is left to bytes; `Number` is modelled for decimal integers with sign and surrounding blanks, other numerals read as not-a-number; integers beyond double precision are exact.
- Prometheus.MetricFamily.RenderSamples: label names are compared as ASCII text in place of `localeCompare`; how numbers print is a parameter; HELP and TYPE lines, gauges and the order of aggregates are not modelled.
- Web application, routes, cookies, workers, health checks, authorization decisions, paging and the older case modules: they forward, present or decide from a table, and would only add easy members.
