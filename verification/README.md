# CredChain, verified

CredChain keeps four stores in step: a Postgres database, two Ethereum contracts (a credential registry
and a role authority), a document store and a job queue. Most of its operations open a transaction, write
rows, call a contract in the middle, and commit. This project models those operations in Dafny, with the
environment failing wherever it can, and proves what every run keeps, what a failure can leave behind for
good, and what a verifier is then told.

`dafny verify dfyconfig.toml` checks everything.

| file | what it holds |
|---|---|
| `Base`, `Decimals`, `Names` | optional values, identifiers, string order; decimal numerals; trimming and folding |
| `CaseSql`, `Credentials`, `BatchUpdates` | the batched `UPDATE … CASE` compiler with an engine that reads its statements back; the credential row and its nil-means-skip update; the same link for roles and units |
| `Payload`, `Registry` | signed payloads and token ids; the registry contract as an environment |
| `Lifecycle`, `LifecycleInvariant`, `LifecycleRuns` | the credential operations as transitions with faults; the invariant of every run; what one step may change and what follows for whole runs |
| `Effects`, `RowEffects`, `Refusals` | what a committed operation leaves in every table, field by field from the request; why an operation is refused, error code by error code |
| `LostWork`, `LostExamples` | work that is mined and lost: exactly when, and that it can never be made good; inputs that are lost |
| `CredentialService`, `Verification` | the service as an object whose methods are those transitions; the live check and its verdict |
| `UnitForest`, `UnitService` | reachability over the unit tree, the three recursive queries; the service outside any transaction |
| `Cursor`, `Feed` | the opaque page cursor; keyset pages and the walk over a growing table |
| `Roles`, `RolesInvariant`, `RoleEffects`, `UserService` | accounts against the authority contract; what runs keep; what each operation refuses and leaves; the service |
| `Tokens`, `Extraction`, `Overview`, `Taxonomy`, `Pdf` | token rotation; the extraction worker's crash points; two ways of counting; reviewed names; the PDF writer |

What is assumed of the environment, in one place:

- Units of work run one after another and commit exactly when their body succeeds; the chain and the queue
  keep what they were told. `Fault` and `RoleFault` say where a step may fail, also after a transaction was mined.
- The registry (`Registry`): a batch is mined whole or not at all; a hash that is issued, an id that exists, an
  unknown id and a revoked id are refused; nothing of a record changes but its revocation. The names of the
  contract's errors in the generated bindings say as much; the Solidity text is not part of this model.
- The role authority (`Roles.SetRole`): the rules ROLE.md lists for it.
- keccak256 has no collisions: a digest is its preimage. A token id is never zero.
- Postgres enforces the constraints of the migrations on every write and keeps timestamps to the microsecond.
  The order in which a query without ORDER BY returns rows is chosen by the environment.
- Each operation reads the clock once, and the clock does not run backwards between operations.
- Text is bytes where it is hashed, ASCII where it is folded.

Two conditions stand in the walk over pages (`WalkIsExact`): no row sits at Go's zero time, and the process
reads timestamps in a zone of whole minutes. Rows the service stores and the zones in use today meet both. For
any other time a cursor loses its place exactly when its zone has odd seconds (`CursorReadsBack`), and a cursor
a client makes up for the zero time starts from the top (`ZeroTimeRestarts`).

What the proofs found, for all inputs, with the exact condition wherever something may or may not hold:

- An approval or issuance that is mined while its unit of work is lost blocks the file for good. With everything
  else in order, some later run can still succeed if and only if nothing failed after the mint
  (`ApprovalCanSucceedExactly`, `IssueCanSucceedExactly`); a failure before it leaves the world as it was, so the
  same request works again (`ApproveExactly`, `IssueExactly`). Inputs that are lost: `FirstApprovalCanBeLost`,
  `FirstIssueCanBeLost`.
- A revocation whose wait or commit fails after it was mined can never be completed, and only then
  (`RevocationCanSucceedExactly`): the row stays unrevoked and is never confirmed again (`StuckNeverConfirmed`).
  An input: `FirstRevocationCanBeLost`.
- The reason given with a revocation is never stored: the batched statement has no clause for the column
  (`UnlistedFieldsSurvive`).
- The two role tables disagree after a step if and only if it lost a transaction that gave an existing account
  another role (`StepsAgreeExactly`). A SuperAdmin transfer lost that way leads, one transfer later, to two
  SuperAdmin rows (`LostTransferForks`).
- Who the SuperAdmin is changes if and only if a transfer commits or the SuperAdmin names itself in an Update
  (`WhoIsSuperExactly`, `UpdateMovesSuperExactly`); the latter may leave none (`SuperStepsDown`).
- UpdateRole keeps the tables in agreement if and only if the first and the last role given to each account are
  the same (`RepeatedIdsExactly`); naming a holder twice breaks it (`RepeatedIdsDisagree`), distinct ids never do
  (`DistinctIdsAgree`).
- Refresh token ids are drawn without entropy. A login is granted if and only if nothing fails and no earlier
  granted call had its millisecond or its secret (`RunLoginExactly`); the second of two logins in one millisecond
  fails after it has revoked its user's tokens (`SameMillisecond`).
- The dashboard's counters are the numbers by derived status, except that credentials that lapsed unreviewed are
  among those awaiting review (`DashboardIsExact`).

## Model

| member | source | states |
|---|---|---|
| CaseSql.BuildCaseColumnSql | infrastructure/database/gorm/helpers.go:100-114 | no pairs give no clause; otherwise one CASE clause with a placeholder pair per WHEN, and the pairs as its arguments |
| CaseSql.BuildBatchUpdateSql | infrastructure/database/gorm/helpers.go:116-127 | clauses joined in order, their arguments flattened in the same order, the id slice last |
| CaseSql.ParseUpdateReadsBack | infrastructure/database/gorm/helpers.go:100-127 | an engine that binds placeholders left to right recovers every clause with its own arguments and the id list from the compiled text |
| CaseSql.StatementPatchesRows | infrastructure/database/gorm/helpers.go:100-127 | running the compiled statement is patching each row on its own: provided columns set, first WHEN first, every other cell and row kept |
| CaseSql.OnlyRecordDecides | feature/credential/gorm_credential_repository.go:495-657 | with distinct ids a row gets exactly what its own record provides |
| CaseSql.OrderDoesNotMatter | feature/credential/gorm_credential_repository.go:495-500 | with distinct ids the order of the batch does not matter |
| CaseSql.CompileUpdate | feature/credential/gorm_credential_repository.go:501-518 | the addCol loops and the two builders produce the compiled text and arguments, columns nobody provides left out |
| CaseSql.SortById | feature/credential/gorm_credential_repository.go:496-496 | the in-place sort orders by id and loses nothing |
| CaseSql.SortedOnce | feature/credential/gorm_credential_repository.go:496-496 | batches of the same records with distinct ids sort to the same sequence, so they compile to the same statement |
| CaseSql.UpdateBatch | feature/credential/gorm_credential_repository.go:495-657 | sort, compile and run leave the table patched in the sorted order; with distinct ids, in any order |
| Credentials.UpdateRowsIsTheStatement | feature/credential/gorm_credential_repository.go:495-657 | the nil-means-skip update of credential rows is what the statement does to the encoded table, cell by cell |
| Credentials.UnlistedFieldsSurvive | feature/credential/gorm_credential_repository.go:520-640 | holder, file hash and revocation reason survive every update: there is no clause for them |
| Credentials.RowReadsBack | feature/credential/gorm_credential_repository.go:520-640 | a stored row is read back from its columns: no two fields share a column and none is lost |
| Credentials.StoredKeepsSeconds | feature/credential/credential_service.go:463-478 | cutting a timestamp to microseconds never changes the seconds that went to the chain |
| BatchUpdates.UpdateRoleIsTheStatement | feature/user/gorm_user_repository.go:295-314 | the role CASE leaves each account its first WHEN, which is what AssignRoles says |
| BatchUpdates.UpdateUnitsIsTheStatement | feature/user/gorm_user_unit_repository.go:128-173 | the unit statement writes name and parent when given and `active` always, which is what UpdateUnits says |
| Payload.TokenOfInjective | infrastructure/chain/registry_service.go:280-285 | two token ids are equal only for the same issuer, nonce, holder and hash |
| Payload.RolesReadBack | infrastructure/chain/authority_service.go:249-257 | a parser recovers signer, nonce and the whole list of wallet and role pairs from a role batch of any length |
| Payload.PackRoles | infrastructure/chain/authority_service.go:249-257 | the loop that appends signer, nonce and each pair builds that payload |
| Payload.PackRevocation | infrastructure/chain/registry_service.go:240-245 | the loop that appends revoker, nonce and each token id builds that payload |
| Payload.RevocationReadsBack | infrastructure/chain/registry_service.go:240-245 | a parser recovers revoker, nonce and every token id from a revocation batch of any length |
| Registry.IssueBatchMints | CREDENTIAL.md:172-180 | of the contract as documented: an accepted batch adds exactly its records, each under a new id, sets their hashes issued, and changes no other |
| Registry.IssuedHashRefused | CREDENTIAL.md:309-309 | of the contract as documented: one hash that is already issued stops the whole batch |
| Registry.RevokeBatchStamps | CREDENTIAL.md:182-190 | of the contract as documented: an accepted revocation stamps exactly the listed records, all of them live before |
| LifecycleInvariant.RecordAdds | feature/credential/gorm_credential_notification_repository.go:28-53 | storing notifications adds exactly the keys of the batch and leaves those already there as they were, read or not |
| LifecycleInvariant.ApproveKeeps | feature/credential/credential_service.go:974-1058 | an approval keeps the invariant whatever fails: constraints, chain mirror, exact notifications |
| LifecycleInvariant.IssueKeeps | feature/credential/credential_service.go:494-607 | an issuance keeps the invariant whatever fails, before, in or after the mint |
| LifecycleInvariant.RevokeKeeps | feature/credential/credential_service.go:1135-1229 | a revocation keeps the invariant, mined and lost included |
| LifecycleInvariant.UpdateKeeps | feature/credential/credential_service.go:841-892 | an update keeps the invariant: it reaches pending rows only |
| LifecycleInvariant.ReachableWorlds | feature/credential/credential_service.go:494-1058 | in every reachable world each activated row is mirrored by the record at its token and every event has its one notification |
| LifecycleRuns.DoSteps | feature/credential/credential_service.go:559-1600 | what any action may change: decided rows frozen, records immutable but for revocation, new tokens and activations only on free hashes, deaths shown unless lost |
| LifecycleRuns.LifecycleSafety | domain/credential.go:106-128 | between any two points of any run: activated excludes rejected, revoked implies activated, an activated row's facts never change, rejection and revocation are final, a row that lapsed unreviewed is never reviewed |
| LifecycleRuns.NotifiedExactlyOnce | feature/credential/credential_notification.go:13-39 | in every reachable world a row has exactly one of registered and approved when activated, one rejected when rejected, one revoked when revoked, and nothing else |
| LifecycleRuns.RunsStayInStep | feature/credential/credential_service.go:1135-1229 | as long as no mined revocation is lost, a record is revoked only if its row is |
| LifecycleRuns.OrphanBlocksHash | feature/credential/credential_service.go:1700-1742 | while a live record belongs to no row, no further row over its file is ever activated |
| LifecycleRuns.AcceptedTokensDistinct | feature/credential/credential_service.go:328-346 | a batch that validation accepts gets pairwise different token ids, whatever the nonce |
| Effects.IssueCommits | feature/credential/credential_service.go:397-548 | a committed issuance leaves a row for every item with the item's own holder, kind, organization, number, name, file and dates, activated and enqueued now by the actor, and a record that tells the same; holders told, jobs queued, nothing else |
| Effects.SubmitCommits | feature/credential/credential_service.go:615-840 | a committed submission leaves a pending row for every item, held and submitted by the actor, with the item's own fields, and nothing else |
| Effects.ApproveCommits | feature/credential/credential_service.go:974-1058 | a committed approval activates its targets now, by the actor, each under a new record that tells the row's own facts; holders told, jobs queued, nothing else |
| RowEffects.RejectCommits | feature/credential/credential_service.go:1063-1114 | a committed rejection stamps its targets with the actor, the time and the reason given for each, tells their holders, and changes nothing else |
| RowEffects.RevokeCommits | feature/credential/credential_service.go:1135-1229 | a committed revocation stamps exactly its targets and exactly their records, tells their holders, and changes nothing else |
| RowEffects.UpdateCommits | feature/credential/credential_service.go:841-892 | a committed update leaves every field with what the first edit that names the row and gives a value gives, and with its own value otherwise; other fields and rows stay |
| RowEffects.OwnEditDecides | feature/credential/credential_request.go:127-147 | with distinct ids every named row has exactly what its own edit gives |
| RowEffects.ReExtractExactly | feature/credential/credential_service.go:1527-1611 | succeeds or is refused exactly by its targets' state; the reset rows wait for extraction afresh, a refused job fails its own row again with its last error, and jobs go as far as the queue took them |
| Refusals.ApproveRefused | feature/credential/credential_service.go:974-1010 | a missing target first, then what bars the first barred target: revoked, rejected, expired, approved, or references that may not be used |
| Refusals.RejectExactly | feature/credential/credential_service.go:1063-1114 | a rejection commits iff every target exists and awaits review and nothing fails, and otherwise changes nothing, for the first cause |
| Refusals.RevokeRefused | feature/credential/credential_service.go:1135-1192 | a missing target first, then a revoked one anywhere, then one that is not approved |
| Refusals.UpdateExactly | feature/credential/credential_service.go:841-970 | an update commits iff every row exists, awaits review, moves to references that exist and are usable, takes no other row's number and keeps the constraints; otherwise it changes nothing, for the first cause |
| Refusals.IssueAcceptedIs | feature/credential/credential_service.go:260-390 | validation lets an issuance through iff holders are known, files neither issued nor repeated, references usable and numbers free in their organization |
| Refusals.SubmitAcceptedIs | feature/credential/credential_service.go:661-786 | validation lets a submission through iff no row that is neither revoked nor rejected has its file, references are usable and numbers free |
| Refusals.MintErrorIs | feature/credential/credential_service.go:1700-1742 | a refused batch with an issued file is a duplicate, any other refusal or a lost wait is the chain's, and what fails later is internal |
| Refusals.ReachableTables | infrastructure/database/migrations/000001_initial_schema.up.sql:140-182 | in every reachable world numbers are unique in their organization, tokens and active files everywhere, and holders and issuers are accounts |
| LostWork.ApproveExactly | feature/credential/credential_service.go:974-1058 | an approval commits iff every target may be approved, the contract takes the batch and nothing fails; a failure leaves the world as it was iff nothing was mined |
| LostWork.LostApprovalIsFinal | feature/credential/credential_service.go:974-1058 | the targets of an approval that fails after its mint are never activated in any later world |
| LostWork.ApprovalCanSucceedExactly | feature/credential/credential_service.go:974-1058 | when everything is in order, some later run activates the targets iff nothing failed after the mint |
| LostWork.IssueExactly | feature/credential/credential_service.go:494-548 | an issuance commits iff validation, schema and contract take the batch and nothing fails; a failure leaves the world as it was iff nothing was mined |
| LostWork.LostIssueIsFinal | feature/credential/credential_service.go:494-548 | no new row over a file of an issuance that fails after its mint is ever activated |
| LostWork.IssueCanSucceedExactly | feature/credential/credential_service.go:494-548 | when everything is in order, some later run activates a new row over the file iff nothing failed after the mint |
| LostWork.RevokeExactly | feature/credential/credential_service.go:1135-1229 | a revocation commits iff every target may be revoked, the contract takes the batch and nothing fails; a failure leaves the world as it was iff nothing was mined |
| LostWork.LostRevocationIsFinal | feature/credential/credential_service.go:1206-1229 | a revocation that fails after it was mined leaves its rows unrevoked in every later world |
| LostWork.RevocationCanSucceedExactly | feature/credential/credential_service.go:1206-1229 | when everything is in order, some later run revokes the targets iff neither the wait nor the commit failed |
| LostExamples.FirstApprovalCanBeLost | feature/credential/credential_service.go:974-1058 | a first submission, approved, is such an approval for every fault after the mint |
| LostExamples.FirstIssueCanBeLost | feature/credential/credential_service.go:494-548 | the first issuance from an empty database is such an issuance for every fault after the mint |
| LostExamples.FirstRevocationCanBeLost | feature/credential/credential_service.go:1206-1229 | the revocation of the first issuance is such a revocation for a lost wait or commit |
| CredentialServices.CollectNotes | feature/credential/credential_notification.go:22-34 | the loop with its seen map collects one key per credential with an id and a holder |
| CredentialServices.RepeatsAreSkipped | feature/credential/credential_notification.go:22-34 | leaving repeats out of the slice stores the same notifications as storing them all |
| CredentialServices.RevokeCheck | feature/credential/credential_service.go:1168-1192 | revoked targets are reported before unapproved ones, in the whole batch |
| CredentialServices.CredentialService.Approve | feature/credential/credential_service.go:974-1058 | the method with its checks, loops, chain call and rollback is the Approve transition, faults included |
| CredentialServices.CredentialService.Reject | feature/credential/credential_service.go:1063-1114 | the method is the Reject transition |
| CredentialServices.CredentialService.Revoke | feature/credential/credential_service.go:1135-1229 | the method is the Revoke transition, with the chain call as the last step before the commit |
| CredentialServices.CredentialService.IssueValidate | feature/credential/credential_service.go:260-390 | each item gets exactly its problems: an unknown holder, else a file that is issued or that an earlier item asks for, else every reference that is unknown or unusable and a taken number; none exactly when the batch is accepted |
| CredentialServices.CredentialService.Issue | feature/credential/credential_service.go:494-607 | the method is the Issue transition |
| CredentialServices.CredentialService.SubmitValidate | feature/credential/credential_service.go:661-786 | a file some active row has stops the batch with that one problem; otherwise each item gets exactly the problems of its references and number, and none exactly when all are fit |
| CredentialServices.CredentialService.Submit | feature/credential/credential_service.go:615-657 | the method is the Submit transition |
| CredentialServices.CredentialService.Update | feature/credential/credential_service.go:841-892 | the method is the Update transition |
| CredentialServices.CredentialService.ReExtract | feature/credential/credential_service.go:1527-1585 | the method is the ReExtract transition: reset committed first, a refused job compensated on its row, earlier jobs kept |
| CredentialServices.CredentialService.Mint | feature/credential/credential_service.go:1700-1742 | token ids and jobs after the mined call; a failure leaves chain and queue as far as they got |
| Verification.ActivatedRowsMatch | feature/credential/credential_service.go:1402-1420 | in a reachable world a comparable activated row passes the comparison with the record at its token exactly when both agree on revocation |
| Verification.SelectBest | feature/credential/credential_service.go:1264-1284 | whatever order the chain answers in, the choice is a matching record that none outranks, or none matches |
| Verification.ComparesEveryFact | feature/credential/credential_service.go:1402-1420 | the comparison accepts a row and a record iff they agree on token, file, row id, both wallets, the seconds of issue and expiry, the number, and revocation |
| Verification.ConfirmedIsBacked | feature/credential/credential_service.go:1246-1318 | a live check confirms iff some record of the answer agrees with a row found in every one of those facts, and judges that very row; otherwise it warns |
| Verification.OneDifferenceRefuses | feature/credential/credential_service.go:1402-1420 | one row, one record: a single difference gives the integrity warning |
| Verification.Verify | feature/credential/credential_service.go:1235-1351 | a confirmed verdict has a record that agrees in every fact and is judged case by case on its row; without one it is the integrity warning; a remembered verdict is served as it is, or judged again if authentic |
| Verification.LiveCheck | feature/credential/credential_service.go:1246-1318 | an upload is confirmed exactly when a row of its hash passes; revoked exactly when all that pass are; otherwise the row shown is the only unrevoked one |
| Verification.UploadVerdict | feature/credential/credential_service.go:1246-1318 | with no lost revocation every upload of an activated row's bytes is confirmed, about the only unrevoked row if there is one; revoked iff all are, then expired, then both parties, holder or issuer gone, then authentic, each exactly |
| Verification.EndToEnd | feature/credential/credential_service.go:1246-1318 | the same, row and verdict, for every run from an empty database in which no mined revocation is lost |
| Verification.StuckNeverConfirmed | feature/credential/credential_service.go:1402-1420 | a row whose revocation was lost is never the row of a confirmed verdict |
| Verification.CacheOverRuns | feature/credential/credential_service.go:1320-1351 | over runs: what is remembered as authentic is judged again, case by case, on the row as it is by then, and every other remembered verdict is served as it is |
| UnitForest.FindWithDescendants | feature/user/gorm_user_unit_repository.go:185-205 | off a cycle the UNION ALL recursion ends and returns the unit and each descendant exactly once, in any scan order |
| UnitForest.UnionAllLoops | feature/user/gorm_user_unit_repository.go:182-205 | on a cycle every iteration adds rows, so the recursion never ends |
| UnitForest.Ancestors | feature/user/gorm_user_unit_repository.go:84-88 | the climbing UNION ends on any relation with exactly what is above a match |
| UnitForest.Descendants | feature/user/gorm_user_unit_repository.go:89-93 | the descending UNION ends on any relation with exactly what is below a match |
| UnitForest.Search | feature/user/gorm_user_unit_repository.go:72-96 | the search returns exactly matches, ancestors and descendants, and with each unit its parent |
| UnitServices.ReparentAcyclic | feature/user/user_unit_service.go:175-196 | a parent outside the unit's own subtree closes no cycle |
| UnitServices.CascadeIs | feature/user/user_unit_service.go:155-173 | one patch per unit of the subtree, in one statement, is the whole cascade and the move |
| UnitServices.UnitService.Store | feature/user/user_unit_service.go:65-86 | the forest stays good; a child of an inactive parent is born inactive; unless a statement fails, only a parent that does not exist is refused; an error stores nothing |
| UnitServices.UnitService.Update | feature/user/user_unit_service.go:88-153 | the table is a forest with no active unit under an inactive one after every statement and at every exit, the failed read at the end included; success is rename, switch and move in that order; unless a statement fails each refusal comes exactly when its reason holds, and a refused switch keeps the new name, a refused move the name and the switch |
| UnitServices.UnitService.ValidateParent | feature/user/user_unit_service.go:178-196 | unless a statement fails, refuses exactly a parent that does not exist or lies in the unit's own subtree; a failed look-up is reported as an invalid parent |
| UnitServices.UnitService.Destroy | feature/user/user_unit_service.go:198-217 | removes only units without users and without children, and refuses exactly those in use unless a statement fails; the forest stays good |
| UnitServices.UnitService.ExpandUnitFilter | feature/user/user_service.go:204-221 | filtering by a unit selects exactly the users whose unit lies in its subtree, and nobody for a unit that does not exist |
| Cursor.Base64ReadsBack | feature/credential/gorm_credential_notification_repository.go:85-92 | decoding what was encoded gives the bytes back, for every byte string |
| Cursor.EncodingIsCanonical | feature/credential/gorm_credential_notification_repository.go:149-153 | the text has no padding and its spare bits are zero, so with the round trip it is the one text there is |
| Cursor.TimeReadsBack | feature/credential/gorm_credential_notification_repository.go:100-106 | reading a printed RFC 3339 time gives every field back, except that the offset loses its odd seconds |
| Cursor.InstantsCount | feature/credential/gorm_credential_notification_repository.go:137-139 | the instant a timestamp is compared by is one second later for the next second its clock shows, across minutes, days, months and leap years |
| Cursor.InstantsStart | feature/credential/gorm_credential_notification_repository.go:137-137 | instants count from 1970, and Go's zero time is the first of January of year one |
| Cursor.CursorReadsBack | feature/credential/gorm_credential_notification_repository.go:83-116 | a cursor handed out is accepted, and names its row's position iff the zone's offset is a whole number of minutes |
| Feed.List | feature/credential/gorm_credential_notification_repository.go:56-157 | the errors in their order, and otherwise the page after the cursor, at most the limit, a next cursor iff there is more, and the total of the user's wanted rows wherever the cursor is |
| Feed.OrderedUnique | feature/credential/gorm_credential_notification_repository.go:142-147 | the listing is determined by its rows: storage order is invisible |
| Feed.RestIsNextListing | feature/credential/gorm_credential_notification_repository.go:138-147 | the listing behind the last row shown is the rest of the listing, whatever was inserted ahead of it |
| Feed.WalkIsExact | feature/credential/gorm_credential_notification_repository.go:138-157 | a finished walk has shown every row that was there when it began, once each, in strict order |
| Feed.WalkEnds | feature/credential/gorm_credential_notification_repository.go:138-157 | a walk that may go on has shown fewer rows than there are, a full limit on every page, so it ends |
| Feed.ZeroTimeRestarts | feature/credential/gorm_credential_notification_repository.go:138-140 | a cursor at the zero time is ignored and starts from the top |
| Roles.SyncAgrees | feature/user/user_service.go:179-202 | rows and contract agree after a sync unless it fails after the transaction; a failure before it changes nothing |
| RolesInvariant.RunsAgree | feature/user/user_service.go:254-571 | over every run with nothing failing after a mined transaction, the contract gives a live account its database role and a trashed one none, and one live SuperAdmin at most |
| RolesInvariant.StepsAgreeExactly | feature/user/user_service.go:179-202 | a step breaks that agreement iff the contract accepted its batch, something failed afterwards, and the batch gave an existing account another role |
| RolesInvariant.WhoIsSuperExactly | feature/user/user_policy.go:29-197 | a step changes who the SuperAdmin is iff it committed and is a transfer or an Update in which the SuperAdmin names itself |
| RolesInvariant.RunsKeepSuper | feature/user/user_policy.go:29-197 | over every run without such a step, and with nothing failing after a mined transaction, the SuperAdmin is the same |
| RolesInvariant.RunsHaveOneSuper | feature/user/user_policy.go:29-197 | over every run without a lost transfer there is never a second SuperAdmin row, whatever else fails |
| RolesInvariant.StoreKeeps | feature/user/user_policy.go:29-40 | Store keeps agreement and who the SuperAdmin is |
| RolesInvariant.UpdateRoleKeeps | feature/user/user_service.go:398-443 | UpdateRole keeps agreement unless it contradicts itself, and who the SuperAdmin is |
| RolesInvariant.UpdateRoleSparesSuper | feature/user/user_policy.go:90-137 | whatever the batch and whatever fails, UpdateRole never changes who the SuperAdmin is |
| RolesInvariant.DeleteKeeps | feature/user/user_service.go:446-491 | Delete keeps agreement and who the SuperAdmin is |
| RolesInvariant.RestoreKeeps | feature/user/user_service.go:546-571 | Restore keeps agreement and who the SuperAdmin is |
| RolesInvariant.DeleteSparesSuper | feature/user/user_policy.go:139-163 | a delete that names the SuperAdmin fails, whoever asks |
| RolesInvariant.TransferMoves | feature/user/user_service.go:493-544 | a committed transfer moves the role from the caller, who had it, to a live target and touches nobody else |
| RolesInvariant.LostTransferForks | feature/user/user_service.go:512-531 | from every good world a lost transfer, followed by a transfer of the promoted account, ends with two SuperAdmin rows |
| RolesInvariant.RepeatedIdsExactly | feature/user/gorm_user_repository.go:295-314 | a committed UpdateRole agrees with the contract iff the first and the last role given to each account are the same |
| RolesInvariant.DistinctIdsAgree | feature/user/gorm_user_repository.go:295-314 | a committed UpdateRole of distinct accounts always agrees with the contract |
| RolesInvariant.RepeatedIdsDisagree | feature/user/user_service.go:398-443 | naming a holder twice stores the first role and sends the last |
| RolesInvariant.UpdateMovesSuperExactly | feature/user/user_policy.go:42-88 | a committed Update keeps who the SuperAdmin is iff the SuperAdmin does not give itself a role in it |
| RolesInvariant.SuperStepsDown | feature/user/user_policy.go:42-88 | any lower role it gives itself is accepted, and then nobody has the role |
| RoleEffects.SetRoleIs | ROLE.md:213-233 | of the contract as documented: exactly which entries it accepts from whom, and that one wallet's role changes |
| RoleEffects.StoreRefused | feature/user/user_policy.go:29-40 | refused iff a check fails, somebody is to become SuperAdmin, or an Admin would make an Admin |
| RoleEffects.StoreCommits | feature/user/gorm_user_repository.go:332-380 | every newcomer has a live account with its wallet and role, and nobody else's changed |
| RoleEffects.UpdateRefused | feature/user/user_policy.go:42-88 | refused iff a caller below SuperAdmin names itself, a check fails, or an edit is barred, peer Admins included; not found iff an account is missing or named twice |
| RoleEffects.UpdateCommits | feature/user/gorm_user_repository.go:185-293 | every account named with a role has it, and nothing else of any account changed |
| RoleEffects.UpdateRoleRefused | feature/user/user_policy.go:90-137 | refused iff some assignment makes a SuperAdmin, names the caller, a missing or trashed account or the role it has, or reaches an Admin by an Admin's hand |
| RoleEffects.UpdateRoleCommits | feature/user/gorm_user_repository.go:295-314 | every account has the first role the batch gives it, and nothing else of any account changed |
| RoleEffects.DeleteRefused | feature/user/user_policy.go:139-163 | refused iff the caller names itself, or an Admin names an Admin or the SuperAdmin |
| RoleEffects.RestoreRefused | feature/user/user_policy.go:165-188 | refused iff the caller names itself, or an account named is the SuperAdmin's or not trashed |
| RoleEffects.TrashCommits | feature/user/gorm_user_repository.go:382-405 | exactly the accounts named are trashed, or no longer; their roles and wallets stay |
| RoleEffects.TransferOutcome | feature/user/user_service.go:493-544 | why a transfer fails, and that it commits iff the caller is SuperAdmin on chain and the target another live account |
| UserServices.UserService.Store | feature/user/user_service.go:76-191 | the method is the Store operation: policy loop, rows, contract, rollback |
| UserServices.UserService.Update | feature/user/user_service.go:242-332 | the method is the Update operation |
| UserServices.UserService.UpdateRows | feature/user/user_service.go:281-312 | dropping unchanged roles and sending only the changed ones writes and syncs what the edits ask for |
| UserServices.UserService.UpdateRole | feature/user/user_service.go:420-443 | the method is the UpdateRole operation |
| UserServices.UserService.Delete | feature/user/user_service.go:446-491 | the method is the Delete operation: live targets lose their role on chain, rows keep theirs |
| UserServices.UserService.Restore | feature/user/user_service.go:546-571 | the method is the Restore operation |
| UserServices.UserService.TransferSuperAdmin | feature/user/user_service.go:493-544 | the method is the Transfer operation: contract first, rows after |
| Tokens.LoginDoes | feature/user/gorm_user_token_repository.go:84-91 | a login revokes the user's own tokens, leaves every other user's exactly as it was, and adds the token it hands out |
| Tokens.LogoutDoes | feature/auth/auth_service.go:163-166 | a logout revokes the user's own tokens and leaves every other user's exactly as it was |
| Tokens.RefreshDoes | feature/auth/auth_service.go:101-161 | a refresh spends the presented token, hands out its heir with its lifetime, and touches no other |
| Tokens.LiveUntilConcerned | feature/user/gorm_user_token_repository.go:84-91 | over runs a token stays exactly as it is until a call names its user or presents its secret |
| Tokens.RunsSpend | feature/auth/auth_service.go:101-161 | over runs: a granted refresh was asked for with the secret of a live token, and that secret opens nothing at any later point |
| Tokens.RefreshExactly | feature/auth/auth_service.go:101-161 | a refresh is granted iff the token is live and unexpired, its owner exists, nothing fails and millisecond and secret are unused; refused, it changes nothing |
| Tokens.RunsRotate | feature/auth/auth_service.go:50-166 | in every run a user has at most one unrevoked token, and a revoked one stays revoked |
| Tokens.SpentStaysSpent | feature/auth/auth_service.go:107-109 | a spent token is refused in every later world |
| Tokens.LoginExactly | feature/auth/auth_service.go:73-96 | a login is granted iff nothing fails and millisecond and secret are unused; refused after the revocation, it leaves its user without a live token |
| Tokens.RunLoginExactly | feature/auth/auth_service.go:73-96 | over runs: granted iff nothing fails and no earlier granted call had its millisecond or its secret |
| Tokens.EveryLoginGranted | feature/auth/auth_service.go:73-96 | so none is refused when nothing fails, secrets are fresh and every granted call has its own millisecond |
| Tokens.SameMillisecond | feature/auth/auth_service.go:82-93 | the second login of one millisecond is refused and leaves its user without a live token |
| Tokens.AuthService.GoogleLogin | feature/auth/auth_service.go:50-99 | the method is the Login step, with no unit of work: what it revoked stays revoked when it fails |
| Tokens.AuthService.RefreshToken | feature/auth/auth_service.go:101-161 | the method is the Refresh step, rolled back as a whole on failure |
| Tokens.AuthService.SignOut | feature/auth/auth_service.go:163-166 | the method is the Logout step |
| Extraction.WorkDoes | infrastructure/jobs/credential_extract_river.go:117-182 | an attempt leaves the extracted text and embedding under the row's own file hash, then the row's stamp, and nothing else |
| Extraction.WorkDocumented | infrastructure/jobs/credential_extract_river.go:117-171 | wherever an attempt stops, a row marked extracted has a document for its own file with an embedding |
| Extraction.RetryConverges | infrastructure/jobs/credential_extract_river.go:105-116 | a retry after a lost write ends with the documents and rows of a single run, whatever the first try extracted |
| Extraction.Worker.RunJob | infrastructure/jobs/credential_extract_river.go:84-99 | after its attempts a row is extracted or stamped failed with the handler's message, unless the last attempt died or its stamp could not be written |
| Overview.CountedOnceExactly | feature/overview/gorm_overview_repository.go:29-51 | a row appears in exactly one of the five counters iff its stamps are as the lifecycle leaves them |
| Overview.TwiceWithoutLifecycle | feature/overview/gorm_overview_repository.go:29-51 | a row that is both rejected and revoked is claimed by two counters, and is none the lifecycle leaves |
| Overview.ReachableRowsCountOnce | feature/overview/gorm_overview_repository.go:29-51 | every row of every reachable table is such a row |
| Overview.CountsPartition | feature/overview/gorm_overview_repository.go:29-51 | then the counters add up to the total, for any range and holder |
| Overview.DashboardIsExact | feature/overview/gorm_overview_repository.go:29-51 | over every run the counters add up and are the numbers by derived status, except that credentials that lapsed unreviewed are among those awaiting review |
| Overview.BucketIsStatus | feature/overview/gorm_overview_repository.go:104-114 | each bucket of the recap is one value of the derived status, for every row |
| Overview.RowAdds | feature/overview/gorm_overview_repository.go:115-131 | in every group the buckets add up to the credentials and both splits to the holders |
| Overview.RecapIsExact | feature/overview/gorm_overview_repository.go:99-132 | every live holder is counted in exactly one group, and the groups together make up one tally of all live holders |
| Overview.RowIsCounts | feature/overview/gorm_overview_repository.go:99-132 | every number of a group's row is a count: credentials of its live holders in all and by derived status, and its holders with and without any, and with and without an approved one |
| Overview.RecapTotals | feature/overview/gorm_overview_repository.go:99-132 | over all groups together the same counts over all live holders |
| Overview.CountIsCardinality | feature/overview/gorm_overview_repository.go:99-132 | a count is the number of positions that satisfy its predicate |
| Names.FoldIgnoresCase | feature/credential/gorm_competency_repository.go:91-120 | two names fold to the same iff they differ in nothing but the case of their letters |
| Names.TrimIs | feature/credential/competency_service.go:94-139 | trimming leaves what stands between the outermost characters that are not white space |
| Taxonomy.AcceptsExactly | feature/credential/competency_service.go:94-314 | what each operation accepts, in terms of the rows: a name no unrejected row has in any case, a row that awaits review, rows nothing refers to |
| Taxonomy.AcceptedDoes | feature/credential/gorm_competency_repository.go:260-363 | what an accepted operation changes, field by field, and that no other row does |
| Taxonomy.CompetencyService.Store | feature/credential/competency_service.go:94-139 | stores exactly when no unrejected name folds to the trimmed name; names stay distinct |
| Taxonomy.CompetencyService.Approve | feature/credential/competency_service.go:188-224 | approves exactly a pending row; reviewed rows keep their review |
| Taxonomy.CompetencyService.Reject | feature/credential/competency_service.go:228-269 | rejects exactly a pending row, with a reason that is not blank |
| Taxonomy.CompetencyService.Update | feature/credential/competency_service.go:271-314 | renames unless another unrejected row has the name; a blank name changes nothing; `active` is carried forward |
| Taxonomy.NamesStayDistinct | feature/credential/gorm_competency_repository.go:91-120 | in every run of the six operations unrejected names stay distinct after trimming and folding |
| Taxonomy.ReviewIsFinal | feature/credential/competency_service.go:188-269 | over any run a reviewed row that is still there has the review it was given, and no further approval or rejection of it is accepted |
| Taxonomy.ReviewedAtMostOnce | feature/credential/competency_service.go:188-269 | from an empty catalogue, after one accepted review of a row no other is accepted in any later run |
| Pdf.EscapeText | infrastructure/database/seeder/pdf.go:10-25 | the builder loop escapes character by character |
| Pdf.LiteralReadsBack | infrastructure/database/seeder/pdf.go:10-25 | a reader of literal strings finds the end where the writer put it and the text the writer could show |
| Pdf.ContentReadsBack | infrastructure/database/seeder/pdf.go:31-48 | a reader of the content stream finds the title and then every line, in order and nothing else, whatever characters they hold |
| Pdf.SeedPdf | infrastructure/database/seeder/pdf.go:31-88 | the page shows the title and the lines; every object is at its recorded offset, every twenty-byte entry reads back as that offset, the stream's length is its true length, and the number after startxref reads back as the place of the table |

## Left out

- HTTP handlers, middleware, configuration, mail, OAuth and the AI service: input and output only; what they guarantee appears as preconditions.
- AES-GCM, ECDSA and the Solidity contracts: their results are assumed as listed above.
- Two operations at the same time: reads take no locks, so transactions are taken one after another.
- The similarity search behind Verify and its tie-breaking: Verify stops at `Fuzzy` when neither a row nor a cached verdict exists.
- CredentialServices.CredentialService.Submit: a failing look-up during validation is not modelled.
- Overview.RowIsCounts: the totals need holders with distinct ids, which the primary key guarantees.
- CredentialServices.CredentialService.IssueValidate: duplicate numbers are looked up by one predicate instead of one query per organization; a failing lookup query, which the source ignores, is not modelled.
- CaseSql.UpdateBatch: for repeated ids the sort may leave the records in any order, so the contract names the order the sort chose.
- Cursor.TimeReadsBack: only the strict RFC 3339 reader is modelled; Go falls back to a more lenient one for cursors a client made up.
- Feed.List: the credential name and number attached to each item and the unread toggles are left out; they are a join and single-row writes.
- UserServices.UserService.Store: the e-mail and unit checks are one flag, and a policy refusal carries no error code.
- UserServices.UserService.Update: the e-mail, unit and profile parts are one flag, and revoking the tokens of a changed e-mail is one of the writes that may fail late.
- Registry.IssueBatchMints: signing, sending and waiting are one call that the contract accepts, refuses or carries out unseen.
- Extraction.Worker.RunJob: the queue's schedule and back-off are not modelled.
- Taxonomy.CompetencyService.Store: case folding is that of ASCII, where Go and Postgres use Unicode.
- Payloads of issuances: they concatenate texts of varying length without separators, so no parser recovers them and no injectivity is claimed.
- The credential type and issuer organization services, which repeat the competency service.
- Listing, search and download of credentials, the queries' sort columns, benchmark and seed data.
