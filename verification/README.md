# Verified model of the backend's stateful protocols

This project models the protocols the backend runs over its relational store, and proves what they keep: the soft-delete
middleware, the ledger indexer and its event handlers, refresh-token families, insurance policies, claims and pool
capital, idempotency keys, and the arithmetic and text handling around them (reputation, retries, the encryption
envelope, sanitization).

Each component has one form for what it does to its state (a function from the old rows to the new ones) and one for how
it runs (a class whose methods write step by step and are proved to have exactly that effect). The laws are then lemmas
about every input, every run or every interleaving. Beside them, for each operation, lemmas state its effect from the
outside: guards, rows and answers are spelled out there and the operation's own helpers do not appear.

| file | content |
|---|---|
| `Tables.dfy` | rows, three-valued filters, unique keys, the database's own effect of a query |
| `SoftDeleteMiddleware.dfy` | the middleware's handler, mutating its parameters, and the query it forwards |
| `SoftDeleteRefinement.dfy` | live rows and graveyard as two stores; rewriting plus flat table refines them |
| `SoftDeleteRuns.dfy` | the refinement over runs; lost rows, frozen rows, revived rows |
| `SoftDeleteOperations.dfy` | soft delete, restore, purge and retention as seen through the middleware |
| `SoftDeleteEffects.dfy` | what each kind of query does to the rows, told on the caller's own arguments |
| `UserCascade.dfy` | the five-table cascade |
| `EventHandlers.dfy` | on-chain event handlers and replay |
| `LedgerIndexer.dfy`, `LedgerIndexerRuns.dfy` | poll loop, dedup table, cursor, re-org rollback, paged fetch; their runs |
| `RefreshTokens.dfy`, `TokenFamilies.dfy` | login, rotation, eviction, logout; the family invariant and its consequences |
| `TokenSessions.dfy` | issued rows, replies and session limit over whole logins and rotations |
| `Insurance.dfy`, `InsuranceEffects.dfy`, `InsuranceRuns.dfy` | transactions over pools, policies and claims; each by its effect on the tables; conservation and invariants over runs |
| `Idempotency.dfy`, `IdempotencyRaces.dfy` | one key served request by request; every interleaving of concurrent requests |
| `Reputation.dfy`, `ReputationScores.dfy` | the clamped incremental score; decay-weighted scores over the reals |
| `Encryption.dfy` | key configuration, hexadecimal, the versioned envelope |
| `Resilience.dfy` | retry and backoff, alone and behind a breaker |
| `Sanitization.dfy` | tag stripping and object graphs |
| `Wrappers.dfy` | `Option` |

Clocks, random values, RPC answers, handler outcomes and store failures are parameters of the operations.
SHA-256, AES-GCM, UTF-8, Base64, `2^x` and `log10` are function parameters; what is assumed of them is written where it
is used (`Lawful`, `PowerOfTwo`, `Logarithm`). Money is in whole cents, ledgers and scores are integers, decayed scores
are real numbers.

## Where code and documentation differ

The model follows the code. The differences are theorems:

- The upsert guard is documented as leaving `deletedAt` alone, but an update payload without it revives a dead row
  (`UpsertRevivesDeadRow`).
- `findManyDeleted` is documented as returning only deleted records; without the opt-in its condition is overwritten and
  it lists live rows (`FindManyDeletedLists`, `FindManyDeletedOnlyDead`).
- The poll loop is commented as never skipping past errored events; a later success in the same batch does skip them, and
  `LeftBehind` says exactly when.
- `detectReorg` compares a stored ledger hash, but no write stores one (`ReorgNeverDetected`).
- A freshly issued raw refresh token is looked up as given while its row holds the hash (`FreshTokenLookup`,
  `RotatedTokenLookup`, `FirstRefreshRefused`). Fingerprints have the same asymmetry: the stored one is hashed, the
  presented one is compared as it is, so the client that logged in is refused with its own fingerprint
  (`SameFingerprintRefused`), and a rotation hashes the carried hash again (`RotationRehashes`).
- The session limit counts active rows but evicts the oldest unrevoked ones, expired included; `LimitEnforced` says exactly
  when the limit then holds.
- `payClaim` refuses only paid claims, so every committed rejection can be followed by a payment that releases the amount
  again (`RejectedThenPaid`); locked capital equals open coverage only while no claim is decided (`BackedUnlessDecided`).
- An idempotency key is documented as never wedged in PENDING; it is when the write of the last run was lost, and
  without store errors before the handler only then (`SeriesWedges`, `LostWriteWedges`, `BrokenRequestWedges`). Re-arming a failed or expired key is not guarded (`RearmedKeyRunsTwice`).
- Sanitizing a string is not idempotent (`OnceIsNotEnough`; `OnceIsEnough` gives the exact condition); doing it twice is
  (`ThreeTimesIsTwice`).
- Object keys are checked for dangerous names before they are sanitized, so sanitizing can produce one
  (`DangerousKeysAre`, `TagUnmasks`).
- Replaying events is harmless when each project's events follow its creation (`ReplayedTail`) and not always otherwise;
  `ReplayChanges` gives the exact condition.

In a series of requests on one idempotency key each request's writes have finished before the next one starts. The
original does not wait for the completion write before it answers; that a next request overtakes it is one of the
interleavings of `IdempotencyRaces.dfy`.

## Model

| member | source | states |
|---|---|---|
| SoftDeleteMiddleware.Handle | src/prisma.soft-delete.middleware.ts:126-268 | mutating the parameters step by step forwards exactly the query `Rewrite` describes, for every action, flag and model |
| SoftDeleteMiddleware.GetMiddlewareArgs | src/prisma.soft-delete.middleware.ts:272-284 | missing arguments become an empty object and the query stays the same |
| SoftDeleteMiddleware.RemoveHardDeleteFlags | src/prisma.soft-delete.middleware.ts:301-308 | both spellings of the flag disappear and nothing else changes |
| SoftDeleteMiddleware.RemoveIncludeDeletedFlags | src/prisma.soft-delete.middleware.ts:310-317 | both spellings of the flag disappear and nothing else changes |
| SoftDeleteRefinement.Simulates | src/prisma.soft-delete.middleware.ts:126-268 | one query: rewriting it and running it on the flat table gives the answer and the state of serving the caller's query on live rows and graveyard |
| SoftDeleteRefinement.InjectedFilter | src/prisma.soft-delete.middleware.ts:160-163 | the injected condition selects the live rows matching the filter without its own top-level `deletedAt` condition |
| SoftDeleteRefinement.UpsertForwards | src/prisma.soft-delete.middleware.ts:239-264 | what a forwarded upsert does to the table: insert a live row, or write the update payload with `deletedAt` defaulted to null |
| SoftDeleteRefinement.UpdateForwards | src/prisma.soft-delete.middleware.ts:178-192 | what a forwarded update does to the table: the caller's filter for a restore, the live rows' filter otherwise |
| SoftDeleteRefinement.SoftDeleteForwards | src/prisma.soft-delete.middleware.ts:208-227 | an unflagged delete reaches the table as an update stamping the live rows of the filter |
| SoftDeleteRuns.RunSimulates | src/prisma.soft-delete.middleware.ts:126-268 | the same over every run of creates, reads, updates, deletes, upserts and hard deletes, keeping rows well-formed and keys unique |
| SoftDeleteRuns.ExecKeepsSound | src/prisma.soft-delete.middleware.ts:129-267 | no query breaks the unique constraints or the columns of a row |
| SoftDeleteRuns.UniqueSelectorReachesOne | src/prisma.soft-delete.middleware.ts:178-192 | a unique selector reaches at most one row, so the single-row actions write at most one |
| SoftDeleteRuns.ReadsSeeLiveRows | src/prisma.soft-delete.middleware.ts:145-170 | a read without opt-in answers with a row if and only if it is live and matches the filter minus its `deletedAt` condition |
| SoftDeleteRuns.NothingIsLost | src/prisma.soft-delete.middleware.ts:201-206 | over any run, only a flagged hard delete loses a row |
| SoftDeleteRuns.DeadRowsAreFrozen | src/prisma.soft-delete.middleware.ts:178-228 | over any run without restores, upserts and hard deletes a dead row keeps every column, timestamp included |
| SoftDeleteRuns.UpsertRevivesDeadRow | src/prisma.soft-delete.middleware.ts:254-261 | a committed upsert reaching a dead row revives it if and only if its update payload omits `deletedAt` or sets null |
| SoftDeleteOperations.MarkStep | src/common/repositories/soft-delete.repository.ts:55-107 | an update writing `deletedAt` through the middleware marks every match for a restore and otherwise the live matches of the filter minus its own `deletedAt` condition, and reports a missing single row |
| SoftDeleteOperations.PurgeStep | src/prisma.soft-delete.service.ts:119-136 | a flagged delete removes the matching rows, live or dead |
| SoftDeleteOperations.StampStep | src/common/repositories/soft-delete.repository.ts:55-60 | exactly the live row with the id is stamped; not found if and only if there is none |
| SoftDeleteOperations.RestoreStep | src/common/repositories/soft-delete.repository.ts:77-90 | exactly the dead row with the id becomes live |
| SoftDeleteOperations.SoftDeleteThenRestore | src/common/repositories/soft-delete.repository.ts:55-91 | soft delete then restore of a live row gives back the whole table |
| SoftDeleteOperations.FindManyDeletedLists | src/prisma.soft-delete.service.ts:236-247 | the listing holds the dead matches with the opt-in and the live matches without it |
| SoftDeleteOperations.FindManyDeletedOnlyDead | src/prisma.soft-delete.service.ts:230-247 | it holds only deleted rows if and only if the caller opts in or no live row matches |
| SoftDeleteOperations.SoftDeleteModel.Execute | src/prisma.soft-delete.middleware.ts:129-267 | any query through the handler keeps the table sound and behaves as the two stores |
| SoftDeleteOperations.SoftDeleteModel.SoftDelete | src/common/repositories/soft-delete.repository.ts:55-60 | the whole new table, and not found exactly when no live row has the id |
| SoftDeleteOperations.SoftDeleteModel.Restore | src/common/repositories/soft-delete.repository.ts:77-91 | the whole new table, and the re-read row as answer |
| SoftDeleteOperations.SoftDeleteModel.SoftDeleteMany | src/common/repositories/soft-delete.repository.ts:99-108 | for every filter, one with its own `deletedAt` condition included: the live rows matching the rest are stamped, and their number |
| SoftDeleteOperations.SoftDeleteModel.HardDelete | src/prisma.soft-delete.service.ts:93-112 | the selected row removed, live or dead; not found exactly when there is none |
| SoftDeleteOperations.SoftDeleteModel.HardDeleteMany | src/prisma.soft-delete.service.ts:119-136 | every matching row removed, live or dead, and their number |
| SoftDeleteOperations.SoftDeleteModel.RestoreOne | src/prisma.soft-delete.service.ts:147-161 | the selected row live; not found exactly when there is none |
| SoftDeleteOperations.SoftDeleteModel.RestoreMany | src/prisma.soft-delete.service.ts:169-181 | every matching row live, already live ones counted too |
| SoftDeleteOperations.SoftDeleteModel.PermanentlyDeleteExpired | src/prisma.soft-delete.service.ts:283-311 | a row is gone if and only if it was dead with a timestamp before the cutoff; the others are unchanged; the count is the number of rows gone |
| SoftDeleteEffects.ReadEffect | src/prisma.soft-delete.middleware.ts:145-170 | with `_includeDeleted: true` inside `where` or `includeDeleted: true` at the top a read answers with exactly the rows matching the rest of its filter, dead or alive; any other read with exactly the live ones, its own `deletedAt` condition dropped |
| SoftDeleteEffects.HardDeleteEffect | src/prisma.soft-delete.middleware.ts:201-206 | with `_hardDelete: true` inside `where` or `hardDelete: true` at the top a delete removes exactly the rows matching the rest of its filter |
| SoftDeleteEffects.SoftDeleteEffect | src/prisma.soft-delete.middleware.ts:208-227 | any other delete stamps exactly the live matches with the current time and changes nothing else |
| SoftDeleteEffects.UpdateEffect | src/prisma.soft-delete.middleware.ts:178-192 | an update writes its payload column by column to every match if it sets `deletedAt` to null and to the live matches otherwise, and changes nothing else |
| SoftDeleteEffects.UpsertUpdates | src/prisma.soft-delete.middleware.ts:254-263 | an upsert that finds rows writes its update payload to exactly those, dead or alive, with `deletedAt` null when the payload does not mention it |
| SoftDeleteEffects.UpsertCreates | src/prisma.soft-delete.middleware.ts:246-252 | one that finds none adds exactly one row of defaults and create payload, live unless that says otherwise |
| SoftDeleteEffects.FailureKeeps | src/prisma.soft-delete.middleware.ts:129-267 | a query that fails changes nothing |
| SoftDeleteEffects.TrackedModels | src/prisma.soft-delete.middleware.ts:15-36 | the middleware applies to exactly the twenty listed models |
| SoftDeleteEffects.FindManyDeletedEffect | src/prisma.soft-delete.service.ts:236-247 | the listing of deleted records, with the opt-in spelled out in either place: dead matches with it, live ones without |
| UserCascade.UserRepository.CascadeSoftDelete | src/common/repositories/user.repository.ts:104-130 | commits if and only if the user is live; then all five tables are the stamped ones, otherwise nothing changes |
| UserCascade.CascadeBuriesAll | src/common/repositories/user.repository.ts:110-128 | afterwards no live user, notification, setting, policy or claim of the user remains, claims under dead policies included |
| UserCascade.CascadeSparesOthers | src/common/repositories/user.repository.ts:110-128 | in all five tables no row is lost, rows dead before keep every column and other users' rows are untouched |
| UserCascade.CascadeStamps | src/common/repositories/user.repository.ts:104-130 | every live row the user owns, in each of the five tables, gets exactly the given time and keeps its other columns |
| EventHandlers.EventHandlerService.ProcessEvent | src/indexer/services/event-handler.service.ts:539-564 | refused data changes nothing and reports failure; otherwise the tables change exactly as `Apply` says |
| EventHandlers.EventHandlerService.Handle | src/indexer/services/event-handler.service.ts:51-458 | the handlers, run as repository calls in order, change the tables exactly as `Apply` |
| EventHandlers.EventHandlerService.UpdateMilestones | src/common/repositories/project.repository.ts:111-117 | every live milestone of the project gets the status, and the completion date when one is given |
| EventHandlers.EventHandlerService.UpdateStatusByContractId | src/common/repositories/project.repository.ts:35-41 | a live project gets the status, a missing or dead one is left alone |
| EventHandlers.DeadProjectIgnored | src/indexer/services/event-handler.service.ts:107-130 | an event about a missing or deleted project changes nothing, except that a contribution still registers its contributor |
| EventHandlers.ApplyActs | src/indexer/services/event-handler.service.ts:51-458 | each event, with or without its project, on each stored cell is a keep, an overwrite or a fill-if-missing, given by a table independent of the handlers |
| EventHandlers.ApplyAllFolds | src/indexer/services/event-handler.service.ts:51-458 | a cell after a list of events is the fold of those actions: last writer wins |
| EventHandlers.GroundedReady | src/indexer/services/event-handler.service.ts:107-118 | if each project's events follow its creation, every event finds its project live |
| EventHandlers.ReplayIsIdle | src/indexer/services/event-handler.service.ts:51-458 | applying a list a second time changes no table |
| EventHandlers.ReplayChanges | src/indexer/services/event-handler.service.ts:51-458 | applying any list a second time changes the tables if and only if some event that found no project the first time, and would find it now, writes a cell that holds something else and that no later event overwrites |
| EventHandlers.ReplayedTail | src/indexer/services/ledger-tracker.service.ts:145-155 | for lists A and B whose events follow their projects' creation, A B B leaves the same tables as A B |
| EventHandlers.UngroundedReplayDiffers | src/indexer/services/event-handler.service.ts:107-130 | without that order a replay records a contribution the first pass dropped |
| LedgerIndexer.IndexerService.ProcessEvent | src/indexer/services/indexer.service.ts:433-480 | dedup lookup, parse, quarantine, handler and mark, for every outcome: the new state and verdict are `Process` |
| LedgerIndexer.IndexerService.PollEvents | src/indexer/services/indexer.service.ts:234-334 | while running, a tick changes nothing; otherwise the state is one whole poll and the flag is down again |
| LedgerIndexer.IndexerService.PollCycle | src/indexer/services/indexer.service.ts:242-330 | the event loop with its cursor rule ends in the state `Polled` gives, whatever fails on the way |
| LedgerIndexer.IndexerService.MarkEventProcessed | src/common/repositories/indexer.repository.ts:75-84 | an existing row, of whatever network, is left as it is; a missing one is added |
| LedgerIndexer.IndexerService.UpdateCursor | src/common/repositories/indexer.repository.ts:46-56 | the cursor moves and loses its hash, if its row exists and the write succeeds |
| LedgerIndexer.IndexerService.DetectReorg | src/indexer/services/ledger-tracker.service.ts:78-126 | reports a re-org if and only if a hash is stored and the network is behind the cursor or differs at it, with depth and last valid ledger |
| LedgerIndexer.IndexerService.HandleReorg | src/indexer/services/ledger-tracker.service.ts:128-156 | removes this network's marks above the safe ledger, moves the cursor there and returns it; without a cursor row it throws after removing the marks |
| LedgerIndexer.IndexerService.GetStartLedger | src/indexer/services/ledger-tracker.service.ts:183-200 | an existing cursor is kept; a missing one is created before the configured or else the latest ledger, without a hash |
| LedgerIndexer.FetchEvents | src/indexer/services/indexer.service.ts:366-397 | returns the events of all pages up to the first that stops the loop, and asks for more pages exactly when none does |
| LedgerIndexer.GoesOn | src/indexer/services/indexer.service.ts:386-395 | the fetch goes on after a page exactly when it carries a cursor and fewer than five times the limit have come |
| LedgerIndexer.GatherIs | src/indexer/services/indexer.service.ts:366-384 | the events are those of the pages, page after page, in order |
| LedgerIndexer.FetchTerminates | src/indexer/services/indexer.service.ts:366-395 | the loop stops within five times the limit of pages if every page with a cursor is non-empty |
| LedgerIndexer.FetchBounded | src/indexer/services/indexer.service.ts:388-397 | with pages no larger than the limit it returns fewer than six times the limit |
| LedgerIndexerRuns.ExecutionBound | src/indexer/services/indexer.service.ts:433-480 | over any run of polls and rollbacks a handler succeeds for an event at most once, plus once per rollback below its ledger and once per lost mark |
| LedgerIndexerRuns.Verdicts | src/indexer/services/indexer.service.ts:433-480 | an event succeeds if and only if its handler ran, its mark was written and no row of this network had its id; it throws exactly for a failed read, or unseen with a failing handler or a lost mark |
| LedgerIndexerRuns.ProcessEffect | src/indexer/services/indexer.service.ts:433-480 | which of tables, executions and rows one event changes, and to what |
| LedgerIndexerRuns.VerdictIs | src/indexer/services/indexer.service.ts:279-305 | the verdict on each event of a batch, from the rows before the batch and the outcomes in it alone |
| LedgerIndexerRuns.SweepFinishes | src/indexer/services/indexer.service.ts:289-330 | the event loop reaches the end of the batch if and only if every error about an event could be logged |
| LedgerIndexerRuns.SuccessLeavesTrace | src/indexer/services/indexer.service.ts:466-479 | an event that succeeds has its row and a new execution after the loop |
| LedgerIndexerRuns.ForeignRowNeverDeduplicates | src/common/repositories/indexer.repository.ts:67-84 | a row of another network neither deduplicates the event nor is replaced |
| LedgerIndexerRuns.CursorAfterPoll | src/indexer/services/indexer.service.ts:265-314 | a completed poll leaves the cursor at the maximum of its old value and the highest ledger of an event whose handler ran and whose mark was written in it, or at the latest ledger of an empty range; the event that moves it has its row and its execution afterwards |
| LedgerIndexerRuns.LeftBehind | src/indexer/services/indexer.service.ts:305-314 | an event of the batch is at or behind the cursor afterwards if and only if it was before or an event at its ledger or above was handled and marked |
| LedgerIndexerRuns.FailureSkipped | src/indexer/services/indexer.service.ts:307-314 | a failure at ledger 5 and a success at ledger 6 move the cursor to 6 with 5 unprocessed |
| LedgerIndexerRuns.CursorNeverDecreases | src/indexer/services/indexer.service.ts:234-334 | over any run of polls and restarts the cursor never moves back |
| LedgerIndexerRuns.PollIdle | src/indexer/services/indexer.service.ts:244-256 | a poll without answer or without a ledger after the cursor changes nothing |
| LedgerIndexerRuns.RollbackEffect | src/indexer/services/ledger-tracker.service.ts:136-153 | which rows survive a rollback and where the cursor goes, in terms of depth, threshold and last valid ledger |
| LedgerIndexerRuns.RestartEffect | src/indexer/services/ledger-tracker.service.ts:183-200 | start-up keeps a cursor and creates a missing one just before the configured or else the latest ledger |
| LedgerIndexerRuns.ReorgNeverDetected | src/indexer/services/ledger-tracker.service.ts:50-126 | as no write stores a hash, cursor initialisation included, no state of any run of polls, rollbacks and restarts lets a re-org be reported |
| LedgerIndexerRuns.RollbackReplay | src/indexer/services/ledger-tracker.service.ts:128-156 | poll, rollback below the batch, poll again: every event is fresh again and the tables end as after the first poll |
| LedgerIndexerRuns.TicksAreSerial | src/indexer/services/indexer.service.ts:234-240 | under any timing of ticks at most one poll is in progress and the stored state is that of the started polls one after the other |
| RefreshTokens.AuthService.WalletLogin | src/auth/auth.service.ts:92-141 | an invalid nonce or an unknown user refuses before any write; otherwise row and eviction in one transaction, and a taken hash changes nothing |
| RefreshTokens.AuthService.RefreshTokens | src/auth/auth.service.ts:155-290 | every refusal in the code's order, family revocation on reuse, rotation otherwise |
| RefreshTokens.AuthService.Logout | src/auth/auth.service.ts:296-331 | targeted or full revocation, and the number revoked |
| RefreshTokens.AuthService.EnforceSessionLimit | src/auth/auth.service.ts:385-414 | the one-by-one revocation loop revokes exactly the oldest unrevoked rows in excess |
| RefreshTokens.RefreshTokenRepository.CreateToken | src/auth/repositories/refresh-token.repository.ts:16-27 | a row is added if and only if its hash is not taken |
| RefreshTokens.RefreshTokenRepository.FindByToken | src/auth/repositories/refresh-token.repository.ts:32-37 | finds a row exactly when some row holds the presented value itself |
| RefreshTokens.RefreshTokenRepository.RevokeToken | src/auth/repositories/refresh-token.repository.ts:58-70 | fails exactly when no row holds the value; otherwise only that row changes, in its revocation time and its successor, which is overwritten |
| RefreshTokens.RefreshTokenRepository.RevokeFamily | src/auth/repositories/refresh-token.repository.ts:75-90 | the update loop leaves no row of the family unrevoked; rows revoked before keep their time, every row its successor, other families everything; counts the rows changed |
| RefreshTokens.RefreshTokenRepository.RevokeAllForUser | src/auth/repositories/refresh-token.repository.ts:95-110 | the same for a user's rows, and the count is the number of unrevoked rows the user had |
| RefreshTokens.EvictOneMore | src/auth/auth.service.ts:407-409 | revoking the next token of the eviction list extends the eviction by exactly one row |
| TokenFamilies.RunSound | src/auth/auth.service.ts:92-331 | in every state of every serial run hashes are distinct, a family has one owner, only its last row can be unrevoked, and each row points by hash to the next |
| TokenFamilies.PerformExtends | src/auth/auth.service.ts:245-266 | one operation adds at most one row, whose family is the login's new one or had an unrevoked row |
| TokenFamilies.RevocationIsFinal | src/auth/repositories/refresh-token.repository.ts:58-110 | over any run revocation is never undone and revoked rows keep every column |
| TokenFamilies.DeadFamilyStaysDead | src/auth/auth.service.ts:198-219 | over any run a family without unrevoked rows never gets a row again |
| TokenFamilies.ReuseIs | src/auth/auth.service.ts:164-219 | reuse is reported if and only if the presented value is the hash of an unexpired revoked row |
| TokenFamilies.ReuseKillsFamily | src/auth/auth.service.ts:198-205 | after reuse no row of the family is unrevoked and no other family changed |
| TokenFamilies.RefreshAccepts | src/auth/auth.service.ts:160-266 | a refresh succeeds if and only if the presented value is a stored hash whose row is unexpired, unrevoked and matches the fingerprint, the user exists and the new hash is free |
| TokenFamilies.FreshTokenLookup | src/auth/auth.service.ts:160-161 | a raw token issued by a login is found if and only if it equals its own hash or another stored hash |
| TokenFamilies.RotatedTokenLookup | src/auth/auth.service.ts:245-268 | the same for a raw token issued by a rotation |
| TokenFamilies.RotationRow | src/auth/auth.service.ts:250-263 | a rotation adds one row, the successor in the presented row's family, with the given or carried fingerprint hashed |
| TokenFamilies.FirstRefreshRefused | src/auth/auth.service.ts:354-376 | for every hash and raw token, the first refresh after the first login is refused as unknown if and only if the hash changes the token |
| TokenFamilies.SameFingerprintRefused | src/auth/auth.service.ts:221-242 | a live row issued by a login with a fingerprint, refreshed by its stored hash with the same fingerprint, is refused as a mismatch if and only if the hash changes the fingerprint (and is not empty) |
| TokenFamilies.RotationRehashes | src/auth/auth.service.ts:250-255 | a rotation without a fingerprint hashes the carried hash once more |
| TokenFamilies.TwiceHashedFingerprint | src/auth/auth.service.ts:354-376 | so login with a fingerprint and rotation without one leave the hash of its hash |
| TokenFamilies.LogoutClosesAll | src/auth/auth.service.ts:312-315 | a full logout leaves the user no unrevoked token, counts those revoked and touches nobody else |
| TokenFamilies.LogoutClosesOne | src/auth/auth.service.ts:304-312 | a targeted logout revokes exactly the user's own unrevoked row with that token |
| TokenFamilies.LimitKeepsNewest | src/auth/auth.service.ts:385-414 | if no unrevoked token is expired exactly min(n, max) remain and each remaining one is newer than each evicted one |
| TokenFamilies.LimitEnforced | src/auth/auth.service.ts:385-414 | after enforcement the active sessions are within the limit if and only if there was no excess or the evicted rows, the oldest unrevoked ones, are all unexpired |
| TokenFamilies.EvictActive | src/auth/auth.service.ts:391-408 | evicting k rows removes k active sessions if and only if the k oldest unrevoked rows are unexpired |
| TokenFamilies.EvictsOldestFirst | src/auth/auth.service.ts:395-404 | if a row is evicted so is every older one of the user |
| TokenFamilies.IssuedTokenSurvives | src/auth/auth.service.ts:106-119 | with room for one session the token issued in a transaction survives it, expired tokens or not |
| TokenSessions.LoginKeepsNewest | src/auth/auth.service.ts:106-119 | after a login of a user without expired unrevoked tokens exactly min(n + 1, max) are unrevoked, they are the newest, and the issued one is among them |
| TokenSessions.LoginEnforcesLimit | src/auth/auth.service.ts:106-119 | after a login the active sessions are within the limit if and only if there was no excess or the oldest unrevoked rows in excess are all unexpired |
| TokenSessions.RotationKeepsNewest | src/auth/auth.service.ts:245-268 | the same for a rotation: min(n, max) remain, the newest, the successor among them |
| TokenSessions.RotationEnforcesLimit | src/auth/auth.service.ts:245-268 | the same if-and-only-if for a rotation, the presented row not counted and its successor counted |
| TokenSessions.CountsAre | src/auth/repositories/refresh-token.repository.ts:116-128 | the counts are the numbers of rows of the user that are unrevoked, and unrevoked and unexpired |
| TokenSessions.LoginReplies | src/auth/auth.service.ts:106-119 | a login is refused exactly when its hash is taken |
| TokenSessions.LoginRow | src/auth/auth.service.ts:354-376 | the row a login adds, column by column |
| TokenSessions.RotatedRow | src/auth/auth.service.ts:250-255 | the row a rotation adds, column by column |
| TokenSessions.RotatedAway | src/auth/auth.service.ts:258-262 | the presented row is revoked at that time and points to the raw successor |
| TokenSessions.RefreshReplies | src/auth/auth.service.ts:160-268 | every reply of a refresh, decided by the row holding the presented value in the code's order; every refusal but reuse changes nothing |
| TokenSessions.OthersUntouched | src/auth/auth.service.ts:92-331 | no operation changes a row of another user |
| Insurance.PoolService.AddCapital | src/insurance/pool.service.ts:20-53 | positive amounts raise the capital of a live pool; anything else changes nothing |
| Insurance.PoolService.LockCapital | src/insurance/pool.service.ts:55-88 | positive amounts raise the locked capital of a live pool without asking for capacity |
| Insurance.PoolService.UnlockCapital | src/insurance/pool.service.ts:90-131 | succeeds exactly when the pool is live, the amount positive and the pool not left with more locked than owned |
| Insurance.InsuranceService.PurchasePolicy | src/insurance/insurance.service.ts:51-124 | returns the blocking policy, or locks the coverage and adds an active one, or rolls everything back |
| Insurance.InsuranceService.CancelPolicy | src/insurance/insurance.service.ts:126-157 | closes the policy and unlocks its coverage together, or rolls back |
| Insurance.InsuranceService.ExpirePolicy | src/insurance/insurance.service.ts:159-190 | the same with EXPIRED |
| Insurance.InsuranceService.ClosePolicy | src/insurance/insurance.service.ts:128-156 | status first, unlock second, rollback on refusal: the effect is `PolicyClosed` |
| Insurance.ClaimService.CreateClaim | src/insurance/claim.service.ts:390-440 | adds a pending claim under a live policy, any amount, or changes nothing |
| Insurance.ClaimService.Release | src/insurance/claim.service.ts:196-241 | mark and unlock commit together or not at all |
| Insurance.ClaimService.AssessClaim | src/insurance/claim.service.ts:76-194 | the code's decision in its order, with the whole new state |
| Insurance.ClaimService.PayClaim | src/insurance/claim.service.ts:332-388 | any unpaid live claim is paid and its amount unlocked, or the transaction rolls back |
| InsuranceRuns.Conservation | src/insurance/insurance.service.ts:69-190 | over every run, locked capital is its initial value plus coverage bought and still open, minus initial coverage closed, minus each claim's amount once if ever rejected and once more if paid |
| InsuranceRuns.LockedTracksCover | src/insurance/claim.service.ts:196-388 | over every run, locked capital minus open coverage falls by exactly what decided claims release |
| InsuranceRuns.StepConserves | src/insurance/pool.service.ts:55-131 | the same for one committed or aborted step |
| InsuranceRuns.BackedUnlessDecided | src/insurance/claim.service.ts:209-214 | locked capital stays equal to open coverage if and only if no claim of the pool was rejected or paid in the run |
| InsuranceRuns.CapitalOnlyAdded | src/insurance/pool.service.ts:20-53 | a pool's capital changes only by committed additions |
| InsuranceRuns.RunGrown | src/insurance/claim.service.ts:90-92 | over every run rows keep owner, pool, coverage and amount, closed policies stay closed, claim status only climbs |
| InsuranceRuns.AtMostTwoChanges | src/insurance/claim.service.ts:332-345 | a claim changes status at most twice |
| InsuranceRuns.NeverReenters | src/insurance/claim.service.ts:338-340 | no claim enters the same decided status twice |
| InsuranceRuns.RunKeepsRules | src/insurance/insurance.service.ts:70-88 | in every state of every run approved claims pay their own positive amount within coverage, and without policy restores each user has at most one live active or pending policy per pool |
| InsuranceRuns.RestoreKeepsOne | src/common/repositories/soft-delete.repository.ts:77-91 | a policy restore keeps that rule if and only if the policy is not open or nobody bought again meanwhile |
| InsuranceRuns.PurchaseKeepsOne | src/insurance/insurance.service.ts:70-88 | the policy a purchase returns is live, open and the user's in that pool |
| InsuranceRuns.PurchaseAccepts | src/insurance/insurance.service.ts:57-91 | a policy is added if and only if user and coverage are given, the pool is live and nothing blocks; capacity plays no part |
| InsuranceRuns.CloseEffective | src/insurance/insurance.service.ts:128-156 | a closing changes the tables if and only if the policy is live and open, its pool live, its coverage positive and the unlock guard passes |
| InsuranceRuns.AssessmentDecides | src/insurance/claim.service.ts:90-159 | a pending claim is approved if and only if it is payable and the check was logged, and rejected if and only if not and the unlock passes |
| InsuranceRuns.NonPositiveNeverDecided | src/insurance/pool.service.ts:90-97 | a claim without positive amount stays pending over every run |
| InsuranceRuns.PaymentAccepts | src/insurance/claim.service.ts:336-355 | payment changes the tables if and only if the claim is live, not paid and the unlock passes |
| InsuranceRuns.RejectedThenPaid | src/insurance/claim.service.ts:340-355 | every committed rejection can be followed by a committed payment, releasing the amount twice |
| InsuranceEffects.PurchaseBlocked | src/insurance/insurance.service.ts:70-82 | with an open policy of the user in the pool a purchase returns such a policy and changes nothing |
| InsuranceEffects.PurchaseEffect | src/insurance/insurance.service.ts:57-91 | otherwise it locks exactly the coverage in exactly this pool, adds exactly one active policy of this user, pool and coverage and returns its id, or changes nothing; with the exact condition |
| InsuranceEffects.CloseEffect | src/insurance/insurance.service.ts:128-157 | a closing sets exactly this status on exactly this policy and unlocks exactly its coverage, a closed policy is left alone, anything else aborts |
| InsuranceEffects.FilingEffect | src/insurance/claim.service.ts:396-432 | a filing adds exactly one pending claim of this policy and amount under a live policy |
| InsuranceEffects.AssessmentEffect | src/insurance/claim.service.ts:81-187 | an assessment approves with the claim's own amount as payout, rejects and unlocks, aborts or leaves alone, with the exact conditions and tables |
| InsuranceEffects.PaymentEffect | src/insurance/claim.service.ts:337-381 | a payment marks exactly this claim paid and unlocks exactly its amount, or aborts, or leaves a paid claim alone |
| InsuranceEffects.AdditionEffect | src/insurance/pool.service.ts:20-53 | an addition raises exactly this pool's capital by a positive amount |
| InsuranceRuns.ClosingSteps | src/insurance/insurance.service.ts:126-190 | in a run a cancellation leaves CANCELLED and an expiry EXPIRED |
| Idempotency.IdempotencyInterceptor.Intercept | src/interceptors/idempotency.interceptor.ts:43-180 | read, decide, claim or re-arm, run and mark: row, answer and whether the handler ran, with a concurrent insert between read and claim and a store error at any call before the handler |
| Idempotency.UnusedKeyRuns | src/interceptors/idempotency.interceptor.ts:100-180 | on an unused key the handler runs and leaves its body, outcome and a validity of 24 hours |
| Idempotency.UsedKeyAnswers | src/interceptors/idempotency.interceptor.ts:50-99 | what a request on a used key gets in each case, and the row afterwards |
| Idempotency.LostInsertAnswers | src/interceptors/idempotency.interceptor.ts:109-139 | after a lost insert the answer is the other request's response if and only if it is completed with it and still valid, and 409 otherwise; nothing runs and the row stays |
| Idempotency.StoreErrorAnswers | src/interceptors/idempotency.interceptor.ts:181-201 | a store error at each of the three places: the answer, and the row with or without the failure noted |
| Idempotency.IdempotencyService.Claim | src/interceptors/idempotency.service.ts:63-82 | inserts a pending row if and only if the key is unused |
| Idempotency.IdempotencyService.ResetToPending | src/interceptors/idempotency.service.ts:85-101 | overwrites whatever the row is with a pending one |
| Idempotency.IdempotencyService.MarkCompleted | src/interceptors/idempotency.service.ts:104-121 | afterwards every request with the key's body inside the window is answered with exactly that response |
| Idempotency.IdempotencyService.MarkFailed | src/interceptors/idempotency.service.ts:124-141 | afterwards a request with the key's body arms the key again, whatever the key held |
| Idempotency.SeriesIsMemoised | src/interceptors/idempotency.interceptor.ts:50-180 | any series with one body inside the window, from any remembered state, is answered as the memoising reference does |
| Idempotency.FreshKeyIsMemoised | src/interceptors/idempotency.interceptor.ts:50-180 | from an unused key answers and handler runs are "run until the first success, then memoise" |
| Idempotency.FirstSuccessIsFinal | src/interceptors/idempotency.interceptor.ts:69-91 | requests before the first success each run, the success is returned, every later request replays it without running |
| Idempotency.RunsExactly | src/interceptors/idempotency.interceptor.ts:50-107 | the handler runs if and only if the key is unused, expired, or failed with the same body; a different body gets 400 exactly inside the window, changing nothing |
| Idempotency.LostWriteWedges | src/interceptors/idempotency.interceptor.ts:81-89 | on an unused key a request whose write is lost runs, and then every retry inside its window is told to wait |
| Idempotency.RequestWedges | src/interceptors/idempotency.interceptor.ts:145-180 | one request leaves the key wedged if and only if it ran and its write was lost, or found it wedged |
| Idempotency.BrokenRequestWedges | src/interceptors/idempotency.interceptor.ts:94-180 | a claim or re-arm that reports an error wedges the key, without any run, if and only if it took effect and the failure could not be noted |
| Idempotency.RowIsLastRuns | src/interceptors/idempotency.interceptor.ts:93-180 | after any series of requests the row is the one its last handler run left |
| Idempotency.SeriesWedges | src/interceptors/idempotency.service.ts:31-41 | after any series on an unused key it is wedged at a moment if and only if the write of the last run was lost and its window is not over |
| Idempotency.WedgedRefuses | src/interceptors/idempotency.interceptor.ts:52-89 | a wedged key refuses every request inside its window without running: 409 with its body, 400 with another |
| IdempotencyRaces.StartsBounded | src/interceptors/idempotency.interceptor.ts:43-180 | in every interleaving, failures, expiry and store errors included, the handler starts at most once more than the number of requests that read a failed or expired row |
| IdempotencyRaces.ReplaysAreGenuine | src/interceptors/idempotency.interceptor.ts:69-79 | in every interleaving each replayed answer is the response of a successful run on this key |
| IdempotencyRaces.AtMostOnce | src/interceptors/idempotency.interceptor.ts:43-180 | in every interleaving without failure, store error or expiry the handler starts at most once and each replay is that run's response and status code |
| IdempotencyRaces.AloneIsServe | src/interceptors/idempotency.interceptor.ts:43-180 | a request with no other in between goes through its steps exactly as the interceptor serves it at once |
| IdempotencyRaces.BreakIsServe | src/interceptors/idempotency.interceptor.ts:181-201 | and so do its store errors |
| IdempotencyRaces.RearmedKeyRunsTwice | src/interceptors/idempotency.service.ts:85-101 | from any failed key with their body, or expired key, two waiting requests can both start the handler |
| IdempotencyRaces.LateReplayIgnoresBody | src/interceptors/idempotency.interceptor.ts:109-139 | after a lost insert a response is replayed if and only if the row is valid and completed with it, whatever the bodies |
| IdempotencyRaces.FirstReplayMatchesBody | src/interceptors/idempotency.interceptor.ts:50-79 | the first read replays a response if and only if the row is valid, completed with it, and has the request's own body |
| Reputation.ReputationService.AdjustReputation | src/reputation/reputation.service.ts:22-50 | score and history move together, an unknown user changes nothing, and every score stays the walk over its user's history |
| Reputation.ComputeReputationFromHistory | src/reputation/calculators/reputation-score.calculator.ts:37-45 | the loop computes the base plus all changes, clamped once |
| Reputation.ClampIs | src/reputation/reputation.service.ts:34-34 | scores are kept between 0 and 1000, changed only outside |
| Reputation.WalkIsOneClamp | src/reputation/reputation.service.ts:28-33 | a history applied step by step is one map max(lo, min(hi, x + total)) with 0 <= lo <= hi <= 1000, from any starting score |
| Reputation.WalkInside | src/reputation/reputation.service.ts:28-33 | inside the range lo and hi are the walks of 0 and 1000 |
| Reputation.WalkNarrows | src/reputation/reputation.service.ts:28-33 | the walk is monotone and never widens the gap of two scores |
| Reputation.BatchAgrees | src/reputation/calculators/reputation-score.calculator.ts:37-45 | the recompute equals the incremental score if and only if the total lies between lo and hi or the crossed end is the range's own |
| Reputation.BatchAgreesInside | src/reputation/calculators/reputation-score.calculator.ts:37-45 | in particular whenever no prefix leaves the range |
| Reputation.OrderMatters | src/reputation/calculators/reputation-score.calculator.ts:17-19 | the recompute ignores the order of any history, the incremental score does not |
| ReputationScores.CalcSuccessRateScore | src/reputation/calculators/score.calculator.ts:38-66 | the loop computes the weighted share of successes as a score |
| ReputationScores.CalcPeerRatingScore | src/reputation/calculators/score.calculator.ts:74-97 | the loop computes the weighted mean rating as a score |
| ReputationScores.CalcContributionSizeScore | src/reputation/calculators/score.calculator.ts:108-132 | the loop computes the logarithmic score of the weighted value |
| ReputationScores.CalcCommunityFeedbackScore | src/reputation/calculators/score.calculator.ts:140-191 | reviews and disputes blended 0.7 to 0.3; with one kind missing the other alone counts |
| ReputationScores.CalculateReputationScore | src/reputation/calculators/score.calculator.ts:206-247 | all factors and their weighted composite rounded to two decimals, the activity count and the low-confidence flag |
| ReputationScores.CompositeIs | src/reputation/calculators/score.calculator.ts:218-223 | 35 percent success rate, 30 peer ratings, 20 contributions, 15 community |
| ReputationScores.UniformPeerRating | src/reputation/calculators/score.calculator.ts:74-97 | ratings that all say v score 25 points for each step above 1, none score 50 |
| ReputationScores.SuccessRateIsShare | src/reputation/calculators/score.calculator.ts:38-66 | among transactions of one age the score is the percentage of successes |
| ReputationScores.NoTransactions | src/reputation/calculators/score.calculator.ts:47-50 | without transactions it is 50 |
| ReputationScores.ContributionIs | src/reputation/calculators/score.calculator.ts:108-132 | 0 without contributions, 100 from a weighted value of 10000 on, logarithmic in between |
| ReputationScores.CommunityIs | src/reputation/calculators/score.calculator.ts:140-191 | uniform reviews and won disputes count 70 to 30, one alone fully, none gives 50 |
| ReputationScores.WeightStarts | src/reputation/calculators/decay.calculator.ts:22-33 | a weight starts at 1 and is 1 for the future |
| ReputationScores.OnlyCounts | src/reputation/calculators/score.calculator.ts:47-49 | filtering keeps each activity as often as it occurs if its kind is asked for |
| ReputationScores.KindsAre | src/reputation/calculators/score.calculator.ts:42-150 | which activities each factor looks at |
| ReputationScores.CompositeBetween | src/reputation/calculators/score.calculator.ts:218-223 | the composite lies between the smallest and the largest factor score |
| ReputationScores.ReportedBetween | src/reputation/calculators/score.calculator.ts:218-247 | rounding keeps that: the reported composite lies between the smallest and the largest reported factor, and in [0, 100] |
| ReputationScores.RatesStay | src/reputation/calculators/score.calculator.ts:38-191 | with no new and no future activity, time leaves success-rate, peer-rating and community scores unchanged |
| ReputationScores.ContributionNeverRises | src/reputation/calculators/score.calculator.ts:108-132 | and never raises the contribution score of non-negative values |
| ReputationScores.SumFades | src/reputation/calculators/decay.calculator.ts:22-33 | every weighted sum shrinks by one common factor |
| ReputationScores.HalfLife | src/reputation/calculators/decay.calculator.ts:3-21 | 180 days later a weight is half of what it was |
| ReputationScores.SuccessRateExtremes | src/reputation/calculators/score.calculator.ts:32-66 | 100 exactly when every transaction succeeded, 0 exactly when every one failed |
| Encryption.ParseKeys | src/encryption/encryption.service.ts:11-43 | accepts exactly the configurations whose every pair is well-formed with 32 key bytes; each version has its last key, the first version is active |
| Encryption.GoodPairIs | src/encryption/encryption.service.ts:22-32 | a pair `version:key`, further parts ignored, is good if and only if neither is empty and the key decodes to 32 bytes |
| Encryption.HexRoundTrip | src/encryption/encryption.service.ts:60-65 | hex decoding undoes hex encoding of any bytes, and the code has no colon |
| Encryption.HexVector | src/encryption/encryption.service.ts:60-65 | a test vector of section 10 of RFC 4648 |
| Encryption.SplitJoined | src/encryption/encryption.service.ts:21-23 | splitting at a separator splits both sides independently |
| Encryption.SameKeyDecrypts | src/encryption/encryption.service.ts:50-97 | any key ring that agrees on the active key decrypts what this ring encrypted |
| Encryption.DecryptUndoesEncrypt | src/encryption/encryption.service.ts:50-97 | for every accepted configuration and every plaintext decryption undoes encryption |
| Encryption.PrependedKeysDecrypt | src/encryption/encryption.service.ts:20-39 | and still does after any keys are put in front, reused version names included |
| Encryption.AppendedKeysDecrypt | src/encryption/encryption.service.ts:20-39 | and after keys are put behind that do not redefine the active version |
| Encryption.DecryptAccepts | src/encryption/encryption.service.ts:72-97 | an envelope is readable if and only if it has four parts, a known version and parts the cipher authenticates |
| Encryption.DecryptRefuses | src/encryption/encryption.service.ts:72-97 | each refusal: not four parts, unknown version, not authenticated |
| Encryption.EnvelopeIs | src/encryption/encryption.service.ts:49-66 | the envelope names the active version, then nonce, tag and ciphertext |
| Resilience.WithRetry | src/common/resilience/retry.ts:38-59 | calls until success, exhaustion or a failure not retried; how it ended and every sleep in between |
| Resilience.WithResilience | src/common/resilience/resilience.ts:24-60 | at most max(1, attempts) calls, stopping at the first success, open error or failure not retried; fallback only for open |
| Resilience.ResilienceIsRetry | src/common/resilience/resilience.ts:24-60 | with attempts >= 1 and no open error both loops call, sleep and end alike |
| Resilience.ResilienceStopsEarlier | src/common/resilience/resilience.ts:37-42 | in general they agree up to the first open error, the only reason to stop earlier |
| Resilience.ResilientIsUnique | src/common/resilience/resilience.ts:24-60 | the specification of the breaker loop has exactly one execution |
| Resilience.UncappedTotal | src/common/resilience/retry.ts:20-28 | without cap and jitter k retries sleep base * (2^k - 1) |
| Resilience.DelayDoubles | src/common/resilience/retry.ts:20-28 | the first delay is the base, each further one twice the one before |
| Resilience.CapApplies | src/common/resilience/retry.ts:26-26 | a cap takes effect exactly on the delays above it |
| Resilience.JitterIs | src/common/resilience/retry.ts:27-28 | jitter takes the delay times (1 + r) / 2 to the nearest integer |
| Resilience.CappedTotal | src/common/resilience/retry.ts:20-28 | with cap m they sleep at most k * m, jitter or not |
| Resilience.JitterStaysBelow | src/common/resilience/retry.ts:27-28 | a jittered delay is between half of the capped delay and all of it |
| Sanitization.SanitizeString | src/common/utils/sanitization.util.ts:36-44 | the result has no '<' before a '>' and at most 100000 characters |
| Sanitization.TrimIs | src/common/utils/sanitization.util.ts:38-38 | trimming drops only white space and leaves none at an end |
| Sanitization.SpacesAre | src/common/utils/sanitization.util.ts:38-38 | white space is that of ECMAScript |
| Sanitization.SanitizedIs | src/common/utils/sanitization.util.ts:36-44 | trim, strip, then at most the first 100000 characters |
| Sanitization.StripLeavesNoTag | src/common/utils/sanitization.util.ts:10-39 | one pass leaves no '<' anywhere before a '>' |
| Sanitization.StripFixes | src/common/utils/sanitization.util.ts:10-39 | stripping changes nothing if and only if the string is tag-free |
| Sanitization.StripRemovesTag | src/common/utils/sanitization.util.ts:10-39 | text before a tag is kept, the tag goes, stripping goes on after it |
| Sanitization.StripIsOutside | src/common/utils/sanitization.util.ts:10-39 | the result is exactly the characters outside tags in order, where a position is in a tag if a "<" stands at or before it without a ">" in between and a ">" at or after it |
| Sanitization.StripIsIdempotent | src/common/utils/sanitization.util.ts:10-39 | stripping twice is stripping once |
| Sanitization.SecondPassTrims | src/common/utils/sanitization.util.ts:36-44 | sanitizing a second time only trims |
| Sanitization.ThreeTimesIsTwice | src/common/utils/sanitization.util.ts:36-44 | a third pass changes nothing more |
| Sanitization.OnceIsEnough | src/common/utils/sanitization.util.ts:36-44 | one pass is enough if and only if in the trimmed input neither the first character outside tags nor the last one that fits is white space |
| Sanitization.OnceIsNotEnough | src/common/utils/sanitization.util.ts:36-44 | a tag at the end after white space is such an input, whatever the text before and the tag |
| Sanitization.Sanitizer.SanitizeObject | src/common/utils/sanitization.util.ts:88-143 | on any graph the loops with their shared visited set build the tree `Clean` gives |
| Sanitization.CleanIsSafe | src/common/utils/sanitization.util.ts:88-143 | for every graph, cyclic ones included: all strings and keys tag-free, at most eleven levels of containers (depths 0 to 10) of at most 50 entries, keys non-empty, distinct, without '$' and '.' |
| Sanitization.LeavesAre | src/common/utils/sanitization.util.ts:94-101 | strings are sanitized, other primitives kept, anything else dropped |
| Sanitization.ContainersDropped | src/common/utils/sanitization.util.ts:104-117 | a container is dropped exactly below depth 10 or, for an object, when seen before |
| Sanitization.ArrayCopies | src/common/utils/sanitization.util.ts:107-111 | the first 50 items of an array are copied in order |
| Sanitization.ObjectCopies | src/common/utils/sanitization.util.ts:114-137 | the kept ones of the first 50 entries are copied in order, the last of equal sanitized keys winning |
| Sanitization.KeptIs | src/common/utils/sanitization.util.ts:127-134 | which keys are kept |
| Sanitization.PutGets | src/common/utils/sanitization.util.ts:136-136 | an assignment sets its key and no other |
| Sanitization.KeysAreSanitized | src/common/utils/sanitization.util.ts:127-137 | the keys of a copied object are exactly the sanitized forms of its kept keys |
| Sanitization.DangerousKeysAre | src/common/utils/sanitization.util.ts:127-137 | a copied object has a dangerous key if and only if some kept key of the original becomes one by sanitizing |
| Sanitization.TagUnmasks | src/common/utils/sanitization.util.ts:127-137 | every dangerous key with a tag in front is kept and becomes that key |
| Sanitization.UnmaskedIsChanged | src/common/utils/sanitization.util.ts:127-137 | only keys that sanitizing changes can do so |
| Sanitization.EachObjectOnce | src/common/utils/sanitization.util.ts:114-117 | for every input object at most one record of the output copies it, none if it was visited before, and copying it visits it |

## Left out

- SoftDeleteRefinement.Simulates: nested relation filters are rows' own columns here; a filter through a relation is given as the set of related ids, and the order, paging and projection of results are not modelled.
- SoftDeleteMiddleware.Handle: an explicit `undefined` in a filter is the same as an absent key, and the caller's own argument object is not aliased by the forwarded one.
- SoftDeleteOperations.SoftDeleteThenRestore: the `updatedAt` column, which the store itself maintains, is not a column of the model.
- UserCascade.UserRepository.CascadeSoftDelete: the relation filter on claims is the set of ids of the user's policies, dead or alive.
- EventHandlers.EventHandlerService.ProcessEvent: whether an event's data is valid is a parameter, and reputation changes and notifications, whose failures the handlers swallow, are not part of the tables; what a failing handler leaves behind is an arbitrary outcome of the attempt.
- LedgerIndexerRuns.ExecutionBound: counts successful handler executions; a handler that fails after some of its writes may be executed again.
- RefreshTokens.AuthService.EnforceSessionLimit: the table order stands for the order of creation times, so ties are broken by insertion.
- TokenFamilies.RunSound: operations are serial, family ids of logins are unused ones, and a colliding token hash is a refused insert.
- Insurance.InsuranceService.PurchasePolicy: when several policies block a purchase, the first row is returned; the original leaves the choice to the database. Premiums are not modelled.
- Insurance.ClaimService.AssessClaim: fraud indicators change only audit and reputation rows, so they appear only as a transaction that may abort.
- InsuranceRuns.Conservation: `lockCapital` and `unlockCapital` occur inside purchases, closings and decisions; no other caller exists.
- Idempotency.IdempotencyInterceptor.Intercept: one whole request, its completion write included, is one call; the answer that leaves before that write is modelled in the interleavings only. Bodies are compared as given strings, so the key order of stored JSON, header normalisation and requests without a key are not modelled; the stored response is the handler's own rather than its JSON image, and the message of a store error is fixed.
- IdempotencyRaces.StartsBounded: the cleanup task, which soft-deletes rows whose key stays occupied, does not take part.
- Reputation.ReputationService.AdjustReputation: reads and writes of one adjustment are one step; concurrent adjustments are not modelled.
- ReputationScores.CalculateReputationScore: scores are exact reals; floating-point error is not modelled.
- Encryption.DecryptUndoesEncrypt: a plaintext that UTF-8 cannot represent (a lone surrogate) comes back as its decoded image, so the result is `text(utf8(plain))`; authenticity under a wrong key is not assumed.
- Encryption.AppendedKeysDecrypt: one direction only; what a cipher does under another key is not known.
- Resilience.WithResilience: the breaker's own state is an outcome per call; callbacks on retry and asynchronous fallbacks are not modelled.
- Sanitization.Sanitizer.SanitizeObject: a property name is an ordinary key of the output, also when it is a special one of the language; integer-like keys are not reordered.
- Single-record `hardDelete` and `restore` audit rows, `countDeleted` (same form as `findManyDeleted`), `findIncludingDeleted`, `isDeleted`.
- `purgeStaleTokens`: it soft-deletes token rows, which no operation of the family protocol then finds.
- HTTP controllers, guards, DTOs, module wiring, configuration, RPC and XDR decoding, queues, mail, push, storage and cache clients.
- Email retry counting, nonce consumption, log redaction, pricing, trust score, TTL parsing and error mapping: little to prove beyond their bodies.
