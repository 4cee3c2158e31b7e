# Verified model of the task API

This project models the stateful core of a Go task service in Dafny and proves what its
protocols keep. Protocols that interleave are transition systems: a state, labelled steps that
are the individual statements and calls of the code, and theorems over every run. Code that
works in place on a map is a class whose methods are proved against specification functions,
and the properties are lemmas about those functions.

| part of the service | modules |
|---|---|
| attachments: two stores without a transaction | `AttachmentProtocol`, `AttachmentGarbage`, `AttachmentQuota`, `QuotaBounds`, `AttachmentStore`, `AttachmentService`, `AttachmentCalls`, `PgTextArray` |
| sessions, token cache, login backoff | `SessionCap`, `TokenCache`, `Validation`, `LoginBackoff`, `UserStore`, `AuthService` |
| tasks under optimistic concurrency | `TaskModel`, `TaskHistory`, `TaskTransactions`, `TaskRepository`, `TaskService`, `ETag` |
| listing, its SQL form, its cached form | `TaskQuery`, `PostgresQuery`, `TaskSql`, `TaskSqlText`, `TaskCache` |
| migrations | `Schema`, `Migrate`, `MigrationFiles` |
| account deletion across the services | `AccountDeletion` |
| shared | `Collections`, `Sorting`, `Text`, `Sweeping`, `UserModel` |

`dafny verify dfyconfig.toml` checks everything.

## How the code is represented

- Identifiers are numbers, because UUIDs are only compared, sorted and written as text; the
  text of an identifier is its digits, which like a UUID's contains no `:`, `;` or `,`. Titles
  and descriptions are opaque values. Times are natural numbers at one precision, and one clock
  serves the database, the blob store and every replica.
- bcrypt and SHA-256 are collision-free: a stored password hash is known by its password, a
  session by its token, and a page tag quotes an injective text of what is digested. Random
  identifiers are fresh.
- Store calls that can fail are parameters of the methods and steps of the machines. A failed
  call fails before it changes anything, except where a step says otherwise: a Put leaves a
  partial file when its removal fails, and `AttachmentProtocol` has a Create that inserts its
  row and still reports an error.
- PostgreSQL is known by a reader of the one kind of query text the listing needs and by what
  such a query answers (`PostgresQuery`); an array literal by a reader of its own
  (`PgTextArray`).
- The cache library behind task listings is known by its contract: a lookup returns a stored
  page or loads one, invalidating a tag drops the pages carrying it, entries vanish at any time.

## What the proofs found

- **Attachments.** No row ever points at a missing blob exactly if an upload's Create comes no
  later than `minAge` after its blob appears *and* Create never inserts a row it then reports
  as failed (`AttachmentProtocol.EveryRowHasItsBlob`). The second condition is not in the
  code's comments: when the commit succeeds and the reply is lost, Upload's own clean-up
  removes the blob of a live row (`LostReplyLosesTheBlob`).
- **What is left behind.** Whatever deleted a row, its key never has a row again in any
  interleaving and its blob only ages, so once that is older than `minAge` a collector pass
  running alone removes it; such a pass can remove nothing else
  (`AttachmentGarbage.LeftBehindIsCollected`, `SoloPassCollects`).
- **Quotas.** With at most k of any user's uploads in flight, `maxBytesPerUser - 1 + k * maxBytes`
  bytes and 49 + k attachments of a task are exact bounds for every positive k, and zero for
  none (`QuotaBounds.BytesBoundIsExact`, `CountBoundIsExact`).
- **Sessions.** The cap holds in every committed state exactly if the advisory lock is taken
  (`SessionCap.CapNeedsTheLock`). What survives is the newest sessions. A login that has just
  inserted its session can lose it again exactly if at least `cap` other sessions of its user
  are no older (`NewSessionCanBeEvicted`), and that is reached, because `CreatedAt` is stamped
  before the lock is taken (`CommitCanDropItsOwn`).
- **Token validation.** `ttl + gap` is the exact staleness bound, `gap` being the time between
  reading a session and caching it; a token can outlive its session's expiry by that much
  (`Validation.BoundIsExact`). A revocation is complete exactly if no validation that had
  already read the session is still in flight (`Validation.RevocationIsComplete`).
- **Tasks.** The transaction around Update keeps the history a chain exactly if its SELECT
  locks the row (`TaskTransactions.ChainsNeedTheRowLock`).
- **A comment and the code disagree.** `internal/task/repository.go:44-46` says the next Update
  must use the Task returned by the write. Whenever CreateTask, UpdateTask or TransitionStatus
  has written, the Task it returns carries the version from before the write, and passing it to
  Update is refused with ErrConflict. Only the Task of a transition to the status the task
  already has, which writes nothing, would be accepted. The model follows the code
  (`TaskService.Service.UpdateTask`, `TransitionStatus`).
- **Cached pages.** For every schedule of invalidation faults, all runs that meet it list what
  the table holds if and only if no invalidation is lost (`TaskCache.TransparentWithoutLoss`).

## Model

| member | source | states |
|---|---|---|
| `AttachmentProtocol.EveryRowHasItsBlob` | internal/attachment/service.go:250-281 | In every reachable state of any interleaving of crashable uploads, deletes, task cascades and collector passes every row's blob exists, if and only if Create comes within minAge of the blob's appearance and never inserts a row it reports as failed |
| `AttachmentProtocol.StepKeepsInv` | internal/attachment/service.go:407-446 | Every single step keeps the inductive invariant: what uploads, deletes and collectors know about keys, rows, blobs and ages |
| `AttachmentProtocol.CollectKeepsBlobs` | internal/attachment/service.go:433-443 | Deleting a blob that no row has and no upload can still register harms no upload and no row |
| `AttachmentProtocol.SlowCreateLosesItsBlob` | internal/attachment/service.go:387-398 | With minAge shorter than the gap before Create, as with zero, some run reaches a row without a blob |
| `AttachmentProtocol.LostReplyLosesTheBlob` | internal/attachment/service.go:274-281 | If Create can insert and still report an error, Upload's clean-up reaches a row without a blob |
| `AttachmentGarbage.LeftBehindIsCollected` | internal/attachment/service.go:334-341 | In every interleaving and under any timing, a key whose row is gone never has a row again, its blob only ages, and past minAge a pass alone removes it |
| `AttachmentGarbage.SoloPassCollects` | internal/attachment/service.go:407-446 | From every state a pass that runs alone can remove a blob if and only if no row has it and it is older than minAge, and then removes it and nothing else |
| `AttachmentQuota.QuotaOvershoot` | internal/attachment/service.go:177-193 | With at most k of a user's uploads between check and Create all along, the user's bytes never exceed maxBytesPerUser - 1 + k * maxBytes and a task's attachments never exceed 49 + k |
| `QuotaBounds.BytesBoundIsExact` | internal/attachment/service.go:149-165 | For every user, every k and the positive limits the configuration demands: with at most k of the user's uploads in flight all along, a bound on the user's bytes holds over all runs if and only if it is at least maxBytesPerUser - 1 + k * maxBytes, or 0 when k is 0 |
| `QuotaBounds.CountBoundIsExact` | internal/attachment/service.go:186-193 | For every user, task and k, under the same limit on uploads in flight, a bound on the user's attachments of that task holds over all runs if and only if it is at least 49 + k, or 0 when k is 0 |
| `AttachmentQuota.StepKeepsBytes` | internal/attachment/service.go:177-184 | Each step keeps rows plus uploads past their quota check within the byte budget |
| `AttachmentQuota.StepKeepsCount` | internal/attachment/service.go:186-193 | Each step keeps a task's rows plus the uploads past their count check within the count budget |
| `PgTextArray.PqTextArray` | internal/attachment/postgres_repository.go:393-411 | The nested loops write exactly the quoted and escaped array literal of the keys |
| `PgTextArray.LiteralReadsBack` | internal/attachment/postgres_repository.go:393-411 | Read by PostgreSQL's array input rules (section 8.15.6 of its documentation) the literal gives back exactly the keys, for every list of strings |
| `AttachmentStore.BlobStore.Put` | internal/attachment/storage.go:106-148 | Stores exactly the stream when it fits the limit and no fault is met before the limit; otherwise fails and leaves no file, unless removing the partial one fails too |
| `AttachmentStore.BlobStore.List` | internal/attachment/storage.go:180-216 | Names every stored blob with its modification time, each once |
| `AttachmentStore.Repository.Create` | internal/attachment/memory_repository.go:43-73 | Inserts one row for an owned task with a new ID and storage key, and says which of the three was missing otherwise |
| `AttachmentStore.Repository.Delete` | internal/attachment/memory_repository.go:112-151 | Removes the one row of a key that leads to a task of the caller, and nothing in every other case |
| `AttachmentStore.Repository.FindByTask` | internal/attachment/memory_repository.go:153-182 | Every attachment of an owned task, each once, oldest first, whatever the map's order |
| `AttachmentStore.Repository.TotalBytesForUser` | internal/attachment/memory_repository.go:191-215 | The loop adds up exactly the sizes of the rows whose task the user owns |
| `AttachmentStore.Repository.CountByTask` | internal/attachment/memory_repository.go:217-245 | The number of attachments of an owned task, zero for anyone else's |
| `AttachmentStore.Repository.UnreferencedKeys` | internal/attachment/memory_repository.go:247-267 | Exactly the given keys no row refers to |
| `AttachmentService.Service.Upload` | internal/attachment/service.go:167-284 | Succeeds exactly under its listed conditions, then adds one row and one blob and size bytes to the user's total; says exactly when the input is at fault, a head that cannot be read coming before any verdict on its content; a failure leaves at most an unreferenced blob; no row is ever without its blob |
| `AttachmentService.Service.Delete` | internal/attachment/service.go:342-354 | Row first and blob best effort: the row of an owned key goes, a failing blob delete is no error, and no row loses its blob |
| `AttachmentService.Service.CollectOrphans` | internal/attachment/service.go:407-446 | A non-positive minAge is an error; a clean pass removes exactly the unreferenced blobs older than minAge; a broken pass removes only such blobs and still counts them |
| `AttachmentCalls.UploadTakesItsSteps` | internal/attachment/service.go:167-284 | A successful Upload is the protocol's two checks, three steps of Put and Create, with the same stores after it |
| `AttachmentCalls.RefusedUploadTakesItsSteps` | internal/attachment/service.go:250-281 | An Upload whose Create fails, as for a task that is not the user's, is the protocol's steps up to the clean-up, done or abandoned |
| `AttachmentCalls.FailedPutTakesItsSteps` | internal/attachment/service.go:250-262 | An Upload whose Put fails after any number of bytes, one past the limit included, is the protocol's steps up to the removal of the partial blob, done or abandoned |
| `AttachmentCalls.DeleteTakesBothSteps` | internal/attachment/service.go:342-354 | A Delete is the protocol's row step and then its blob step, which a failing store abandons |
| `AttachmentCalls.CollectTakesAPass` | internal/attachment/service.go:407-446 | A clean CollectOrphans is one whole pass of the interleaved protocol, with the same stores after it |
| `AttachmentCalls.BrokenCollectTakesAPass` | internal/attachment/service.go:433-443 | Whatever a CollectOrphans that breaks off leaves, a pass of the protocol that crashes leaves the same |
| `SessionCap.CapNeedsTheLock` | internal/user/postgres_repository.go:200-256 | With the transaction taken statement by statement under READ COMMITTED, no reachable committed state exceeds the cap, if and only if the advisory lock is taken |
| `SessionCap.UnlockedHasNoCap` | internal/user/postgres_repository.go:210-228 | Without the lock, for every n some interleaving commits n sessions of one user |
| `SessionCap.NewestSurvive` | internal/user/postgres_repository.go:238-250 | No session a commit drops is newer than one it keeps, and other users lose none |
| `SessionCap.NewSessionCanBeEvicted` | internal/user/postgres_repository.go:238-250 | Some outcome of the eviction drops the session just inserted if and only if at least cap other visible sessions of its user are no older |
| `SessionCap.CommitCanDropItsOwn` | internal/user/postgres_repository.go:194-256 | For every cap some run commits a login that drops its own session: stamped first, it takes the lock last |
| `SessionCap.CommitKeepsInv` | internal/user/postgres_repository.go:248-255 | A commit keeps the cap and what every other transaction knows |
| `TokenCache.Cache.DeleteAllForUser` | internal/user/token_cache.go:105-113 | The deleting loop leaves exactly the entries of other users, unchanged |
| `TokenCache.Cache.DeleteAllForUserExcept` | internal/user/token_cache.go:120-128 | The deleting loop leaves exactly the entries of other users and the kept token, unchanged |
| `TokenCache.Cache.Sweep` | internal/user/token_cache.go:137-146 | The deleting loop leaves exactly the entries still valid |
| `TokenCache.SweepsAreUnobservable` | internal/user/token_cache.go:130-146 | Under a monotone clock, adding or removing sweeps anywhere in a run changes no answer of get |
| `TokenCache.SetCountsForTtl` | internal/user/token_cache.go:73-89 | Set at t, a token answers its user exactly until t + ttl, whatever gets, sweeps, other sets and revocations of other tokens come in between |
| `Validation.StalenessIsBounded` | internal/user/service.go:439-458 | A token accepted at t, validations interleaved with revocations, evictions and pruning, had an unexpired session in the store at some instant no earlier than t - ttl - gap |
| `Validation.BoundIsExact` | internal/user/token_cache.go:83-89 | A bound holds over all runs if and only if it is at least ttl + gap, so with atomic calls exactly ttl, past session expiry included |
| `Validation.RunKeepsInv` | internal/user/service.go:439-458 | In every run a cache entry and every session copy in flight names the owner its hash was issued to, and what a revocation deleted stays deleted |
| `Validation.RevocationIsComplete` | internal/user/service.go:216-245 | After a revocation has returned, an old token it is meant for (the one named, any of the user, or any of the user but the kept one) is never accepted again in any run, if and only if no validation that had read its session is still able to finish |
| `Validation.RevocationSparesTheRest` | internal/user/service.go:342-348 | Neither the store half nor the cache half of a revocation touches any other token: not the kept one, not another user's, and of a single revocation none but the one named |
| `LoginBackoff.DelayFollowsCurve` | internal/user/login_backoff.go:89-98 | In wrapping 64-bit arithmetic the delay for n failures is min(250ms * 2^(n-3), 4s) from three failures on and zero below, for every n |
| `LoginBackoff.DocumentedDelays` | internal/user/login_backoff.go:14-27 | No delay for up to two failures, then 250 ms, 500 ms, 1 s, 2 s, and 4 s for every larger count |
| `LoginBackoff.FailuresCountForFifteenMinutes` | internal/user/login_backoff.go:22-27 | The failures of an account count until fifteen minutes after the latest |
| `LoginBackoff.LargeShiftsAreCapped` | internal/user/login_backoff.go:89-97 | From 25 doublings on the wrapped shift is never positive and under the cap |
| `LoginBackoff.DelayIsMonotone` | internal/user/login_backoff.go:73-99 | More failures never mean a shorter delay, and none exceeds the cap |
| `LoginBackoff.MapHoldsStreak` | internal/user/login_backoff.go:103-125 | Over every run the map's count is the streak of failures since the last success or long silence |
| `LoginBackoff.DelayIsCurveOfStreak` | internal/user/login_backoff.go:73-99 | Over every run under a monotone clock the delay is the documented curve at that streak |
| `LoginBackoff.SweepsAreUnobservable` | internal/user/login_backoff.go:127-140 | Sweeps anywhere in a run change no delay |
| `LoginBackoff.Backoff.Delay` | internal/user/login_backoff.go:73-99 | The delay for the live failures, forgetting an idle account |
| `LoginBackoff.Backoff.Sweep` | internal/user/login_backoff.go:131-140 | The deleting loop leaves exactly the accounts not idle |
| `UserStore.Repository.CreateUser` | internal/user/memory_repository.go:29-44 | Refuses a taken email without a change, otherwise stores the user and keeps both maps in step |
| `UserStore.Repository.FindUserByEmail` | internal/user/memory_repository.go:48-61 | Finds a user exactly if one has that email |
| `UserStore.Repository.DeleteUser` | internal/user/memory_repository.go:109-124 | Removes the user from both maps, which stay in step |
| `UserStore.Repository.CreateSession` | internal/user/memory_repository.go:130-155 | Insert, collect, sort and evict leave every other user's sessions and of the user's as many as the cap allows, none dropped without need and none newer than one that stays |
| `UserStore.CapHolds` | internal/user/memory_repository.go:126-155 | However ties are broken, the cap holds afterwards, others keep all, and nothing is evicted below the cap |
| `UserStore.Repository.FindSessionsForUser` | internal/user/memory_repository.go:211-229 | Exactly the sessions of the user, each once, by descending creation time |
| `UserStore.Repository.DeleteSessionsForUserExcept` | internal/user/memory_repository.go:176-190 | The deleting loop leaves exactly the kept session and other users' sessions |
| `UserStore.Repository.DeleteExpiredSessions` | internal/user/memory_repository.go:248-262 | The deleting loop leaves exactly the sessions whose expiry is not before now |
| `AuthService.Service.ValidateToken` | internal/user/service.go:439-458 | Accepts exactly cached or live tokens, caches only a session just found live, drops an expired one, and never memoizes a failure |
| `AuthService.Service.CreateSession` | internal/user/service.go:313-334 | Stores the new session within the cap, dropping only older ones of the same user; the cache is not told of evictions |
| `AuthService.Service.Logout` | internal/user/service.go:463-475 | Store and cache forget the one token, or neither does, and no other token is touched |
| `AuthService.Service.LogoutAll` | internal/user/service.go:342-348 | Store and cache forget every token of the user, or neither does, and nobody else's |
| `AuthService.Service.ChangePassword` | internal/user/service.go:216-245 | When it succeeds; that exactly the caller's own token and other users' tokens then survive, in store and cache; and that only a failed revocation leaves the new password behind an error |
| `AuthService.Service.RevokeSession` | internal/user/service.go:401-423 | Revokes exactly the caller's own session the derived ID names, and answers ErrNotFound for anyone else's |
| `AuthService.Service.DeleteAccount` | internal/user/service.go:295-304 | Sessions and cache entries of exactly this user go first; the user row stays on every failure |
| `AuthService.Service.PruneExpiredSessions` | internal/user/service.go:493-500 | Sweeps both caches and removes exactly the sessions whose expiry is before now |
| `AuthService.PruneIsUnobservable` | internal/user/service.go:477-500 | What a prune keeps is exactly what a validation would accept at that instant, and no validation from then on answers differently for it |
| `AuthService.Service.Authenticate` | internal/user/service.go:174-198 | Success and refusal alike pay the delay earned before the attempt, a store error none; success clears the count, a refusal adds one, other accounts keep theirs |
| `AuthService.RevocationTakesBothSteps` | internal/user/service.go:460-475 | A revocation run alone is the two steps of the interleaved model, with the same stores after it |
| `AuthService.ValidationTakesItsSteps` | internal/user/service.go:439-458 | A validation run alone, whether it hits, misses, fails, or finds nothing, an expired or a live session, is a run of the interleaved model with the same stores after it |
| `TaskHistory.NoUpdateIsLost` | internal/task/service.go:332-414 | In every reachable state of any number of clients a stored task is its first version with every acknowledged change applied in order, and its version is one more than their number |
| `TaskHistory.HistoryIsLegal` | internal/task/service.go:50-55 | Consecutive versions keep id, owner and creation time and count up by one; what is done is never cancelled next, and what is cancelled stays so or becomes pending |
| `TaskHistory.ReopensThroughPending` | internal/task/service.go:45-49 | Between a cancelled version and a later one in progress or done lies a pending one |
| `TaskHistory.CancelledOnlyWhenOpen` | internal/task/service.go:41-44 | Between a done version and a later cancelled one lies a pending one or one in progress |
| `TaskHistory.VersionsShowTheirWrites` | internal/task/service.go:332-414 | Each version is the one before it with the title, description, given priority or status of its acknowledged write and that time stamp, and nothing else changed |
| `TaskHistory.MovesKeepTexts` | internal/task/service.go:386-414 | However many transitions follow each other, title, description and priority stay |
| `TaskHistory.LastEditShows` | internal/task/service.go:332-362 | A stored task shows the title, description and given priority of the last acknowledged edit |
| `TaskHistory.OwnerNeverChanges` | internal/task/memory_repository.go:232-234 | Owner and creation time are those of the first version all along |
| `TaskHistory.AcceptedReadLatest` | internal/task/memory_repository.go:224-235 | An accepted write was computed from the very latest version |
| `TaskHistory.VersionFixesContent` | internal/task/memory_repository.go:216-236 | Two reads at any two instants of a run that see the same ID and version see the same task |
| `TaskTransactions.TransactionsRefineCas` | internal/task/postgres_repository.go:389-438 | Whatever the statement-by-statement transactions commit against concurrent updates and deletes, the one-step compare-and-swap could have committed |
| `TaskTransactions.StatementRefines` | internal/task/postgres_repository.go:389-438 | Each statement is one step of the compare-and-swap on the committed tables, or none |
| `TaskTransactions.ChainsNeedTheRowLock` | internal/task/postgres_repository.go:373-404 | Every reachable history is a chain of versions made one from the other, if and only if the SELECT locks its row |
| `TaskTransactions.SecondOverwritesFirst` | internal/task/postgres_repository.go:375-379 | Without the lock a run exists in which the second commit undoes the first one's change |
| `TaskRepository.MatchesAny` | internal/task/memory_repository.go:72-82 | True for no wanted values at all, otherwise exactly for the listed ones |
| `TaskRepository.Repository.Create` | internal/task/memory_repository.go:25-40 | A new task is stored at version 1, a taken ID changes nothing |
| `TaskRepository.Repository.Update` | internal/task/memory_repository.go:216-236 | ErrNotFound exactly for a task that is gone or of another owner, ErrConflict exactly for one whose version moved on, otherwise a write that keeps the creation time and raises the version by one |
| `TaskRepository.Repository.Delete` | internal/task/memory_repository.go:240-255 | Removes an owned task and nothing else |
| `TaskRepository.Repository.FindAll` | internal/task/memory_repository.go:84-114 | The requested window of the one sorted listing, whatever order the map is visited in |
| `TaskRepository.Repository.CountAll` | internal/task/memory_repository.go:119-141 | The length of the unlimited listing |
| `TaskRepository.Repository.CountByStatusAndPriority` | internal/task/memory_repository.go:146-181 | Both groupings of the listed tasks, every status and priority present |
| `TaskQuery.ListingIsUnique` | internal/task/memory_repository.go:106-111 | The order by creation time and ID leaves one arrangement, so map iteration order cannot show |
| `TaskQuery.ListingIs` | internal/task/memory_repository.go:84-114 | The listing is exactly the tasks of the owner with a wanted status and priority, oldest first and by ID among those of one instant |
| `TaskQuery.PageIs` | internal/task/memory_repository.go:188-199 | So is every page of it, and the unlimited one is the whole listing |
| `TaskQuery.PagingIsComplete` | internal/task/memory_repository.go:188-199 | For any page size above zero the pages before the first empty one, put together, are the whole listing with no row missed or repeated |
| `TaskQuery.GroupsAddUp` | internal/task/service.go:236-270 | The counts by status and the counts by priority each add up to the listing's length, for every filter |
| `TaskQuery.FilterIsASet` | internal/task/cached_repository.go:102-115 | Order and repetition of filter values do not change the listing |
| `TaskQuery.OthersDoNotShow` | internal/task/memory_repository.go:93-96 | A listing depends on its owner's tasks alone |
| `TaskService.ValidateStatusFilters` | internal/task/service.go:532-553 | Accepts exactly at most fifty values that are empty or one of the four names, and returns each status that is named once |
| `TaskService.ValidatePriorityFilters` | internal/task/service.go:564-584 | The same for the three priorities |
| `TaskService.FiltersAreBounded` | internal/task/service.go:522-527 | At most four statuses and three priorities ever reach a query |
| `TaskService.Service.CreateTask` | internal/task/service.go:134-167 | Stores a pending task at version 1; the Task returned would be refused by Update |
| `TaskService.Service.UpdateTask` | internal/task/service.go:332-362 | When it succeeds; that the stored task then has the new title, description, priority if one is named and time stamp, everything else as it was, and the next version; and that the Task returned carries the version from before and would be refused by Update |
| `TaskService.Service.TransitionStatus` | internal/task/service.go:386-414 | Succeeds exactly for the nine moves of the documented table and for the current status, which writes nothing; changes status and time stamp alone; the Task returned would be accepted by Update exactly in that last case |
| `TaskService.Service.ListTasks` | internal/task/service.go:208-229 | The page asked for and the size of everything that matches |
| `TaskService.Service.GetStats` | internal/task/service.go:249-270 | Total, the sum by status and the sum by priority all equal the listing's length |
| `TaskService.Service.ExportTasks` | internal/task/service.go:296-319 | Everything that matches, or nothing past the row limit |
| `ETag.PageTag` | internal/task/handler.go:292-298 | The tag is the quoted digest of the rows' text in order |
| `ETag.PageTextDecodes` | internal/task/handler.go:284-298 | Two pages digest the same text if and only if their rows agree on ID and version one by one |
| `ETag.NotModifiedIsSound` | internal/task/handler.go:284-319 | Two list responses at any two instants of any run with the same tag carry identical rows (section 13.1.2 of RFC 9110) |
| `ETag.TaskNotModifiedIsSound` | internal/task/handler.go:272-282 | The same for a single task's tag |
| `ETag.TaskTagIsTag` | internal/task/handler.go:280-282 | A task's tag is quoted and free of commas, so a header can list it |
| `ETag.IfNoneMatchHits` | internal/task/handler.go:305-319 | Never for the empty header, always for the wildcard, otherwise exactly if one of the comma-separated items, trimmed, is the tag |
| `ETag.HeaderNamesItsTags` | internal/task/handler.go:300-319 | A header that lists tags this service issued hits if and only if the current tag is among them |
| `ETag.ConditionalGetIsExact` | internal/task/handler.go:187-192 | A client that sends back the tags of pages it saw at any earlier instants of the run gets a 304 if and only if the current page is one of them, row for row |
| `TaskSqlText.BuildTaskFilterWhere` | internal/task/postgres_repository.go:237-268 | The loops produce exactly the clause list and the arguments that `WhereSelectsAsRead` reads back |
| `TaskSqlText.WhereSelectsAsRead` | internal/task/postgres_repository.go:237-268 | Read the way PostgreSQL reads it, the clause list selects with its arguments exactly the tasks the in-memory filter selects, of every table |
| `TaskSqlText.FindAllQuery` | internal/task/postgres_repository.go:178-196 | The finished text, read the way PostgreSQL reads it and answered with its arguments, allows exactly the page the in-memory repository returns, of every table |
| `TaskSql.EveryPlaceholderOnce` | internal/task/postgres_repository.go:237-253 | The clauses, LIMIT and OFFSET use $1 to $n in order, each once, n being the number of arguments |
| `TaskSqlText.TextNamesEveryPlaceholderOnce` | internal/task/postgres_repository.go:178-196 | The query read back from the finished text names 1 to n in order, n being the number of arguments |
| `TaskSqlText.TextReadsBack` | internal/task/postgres_repository.go:178-196 | A reader of such texts that knows nothing of how they are built gives back the compiled query, for every filter |
| `TaskSql.WhereMeansMatches` | internal/task/postgres_repository.go:223-229 | The WHERE clause accepts exactly the rows the in-memory filter accepts |
| `TaskSql.WhereSelects` | internal/task/postgres_repository.go:278-366 | COUNT(*) and both GROUP BY queries range over exactly the listed tasks |
| `TaskSql.CompiledMeansTheSame` | internal/task/postgres_repository.go:174-221 | Over every table, a sequence answers the compiled query if and only if it is the page the in-memory repository returns |
| `TaskSqlText.TextMeansTheSame` | internal/task/postgres_repository.go:174-221 | The same of the query as read back from its text |
| `TaskCache.KeyTextInjective` | internal/task/cached_repository.go:137-140 | Key texts of different requests never collide |
| `TaskCache.SortedJoinForgetsOrder` | internal/task/cached_repository.go:121-131 | Joined filter values are equal if and only if the values are the same up to order |
| `TaskCache.KeyFixesAnswer` | internal/task/cached_repository.go:94-115 | Requests that share a key have the same answer on every table |
| `TaskCache.ReorderedFilterHits` | internal/task/cached_repository.go:102-115 | The same values in another order share the key |
| `TaskCache.TagInjective` | internal/task/cached_repository.go:153-155 | No two users share a tag |
| `TaskCache.WriteKeepsCoherent` | internal/task/cached_repository.go:157-166 | A write leaves other owners' pages right, and invalidation removes its owner's |
| `TaskCache.CachedRepository.FindAll` | internal/task/cached_repository.go:168-172 | Returns exactly what the wrapped repository would, keeps the page, and disturbs no other |
| `TaskCache.CachedRepository.Create` | internal/task/cached_repository.go:73-79 | Writes through, drops exactly the owner's pages, and keeps every page right, if the invalidation gets through |
| `TaskCache.CachedRepository.Update` | internal/task/cached_repository.go:174-184 | Writes through, drops exactly the owner's pages, and keeps every page right, if the invalidation gets through |
| `TaskCache.CachedRepository.Delete` | internal/task/cached_repository.go:186-192 | Writes through, drops exactly the owner's pages, and keeps every page right, if the invalidation gets through |
| `TaskCache.CachedRepository.Vanish` | internal/task/cached_repository.go:51-69 | Pages vanishing from the cache never make a remaining one wrong |
| `TaskCache.CacheIsTransparent` | internal/task/cached_repository.go:168-192 | Over every serialized run of reads, writes and vanishing entries in which each successful write's invalidation got through, each listing is what the table alone would answer |
| `TaskCache.TransparentWithoutLoss` | internal/task/cached_repository.go:157-192 | For every sequence of outcomes of the invalidations, all runs whose writes meet it answer every listing as the table would, if and only if none of them is lost |
| `TaskCache.LostInvalidationShows` | internal/task/cached_repository.go:157-166 | The shortest such loss: a page listed, then a create whose invalidation fails |
| `Migrate.SchemaIsWhatIsRecorded` | internal/platform/migrate/migrate.go:42-75 | With any number of racing and crashing boots, and downs between them if the files are reversible, the schema is the fold of exactly the recorded migrations, which are the first in filename order with applied_at in that order |
| `Migrate.CommittedOnce` | internal/platform/migrate/migrate.go:180-200 | Without downs each migration is committed at most once, in filename order |
| `Migrate.CommitKeepsInv` | internal/platform/migrate/migrate.go:175-200 | A commit that overwrites the schema with what its transaction saw is never stale |
| `Migrate.DownRevertsLast` | internal/platform/migrate/migrate.go:86-149 | A down alone reverts exactly the last migration, schema and record together |
| `Migrate.DownsRestore` | internal/platform/migrate/migrate.go:86-149 | k downs alone restore schema and records of k migrations earlier |
| `Migrate.NothingToRevert` | internal/platform/migrate/migrate.go:91-97 | A down is refused exactly if nothing is recorded |
| `MigrationFiles.EmbeddedFilesRestore` | internal/platform/migrate/migrate.go:33-34 | All of that holds for the eight embedded files, with no assumption left about them |
| `Migrate.Database.RunMigrations` | internal/platform/migrate/migrate.go:42-75 | Ensures the bookkeeping table without losing a record, resumes wherever an earlier boot stopped and ends with everything applied unless a statement fails |
| `Migrate.Database.ApplyMigration` | internal/platform/migrate/migrate.go:180-200 | DDL and record together, or neither |
| `Migrate.Database.RunMigrationsDown` | internal/platform/migrate/migrate.go:86-109 | Takes the latest migration back, or changes nothing |
| `Migrate.Database.LatestAppliedMigration` | internal/platform/migrate/migrate.go:113-122 | A recorded version no other was applied after |
| `MigrationFiles.FilesAreReversible` | internal/platform/migrate/migrate.go:25-34 | The eight embedded migrations, statement by statement, run in order on an empty schema with every foreign key naming a table already there, and each down script takes its up script back |
| `AccountDeletion.Api.DeleteAccount` | internal/user/handler.go:432-468 | Success leaves no task, attachment row, session, cache entry or user row of the account and changes nothing else; failure keeps the user row; knowing the password, a fault-free call succeeds whatever an earlier one left behind; no row loses its blob |
| `AccountDeletion.Api.DeleteAccountCascade` | cmd/api/main.go:346-369 | The nested loops remove exactly the account's tasks and their attachments, or stop at the first failure with only some of those gone |
| `AccountDeletion.Api.DeleteAttachments` | cmd/api/main.go:353-363 | The inner loop removes exactly the rows of one task, blobs best effort |
| `AccountDeletion.LeftBehindIsCollected` | internal/attachment/service.go:407-446 | However many calls came since, a blob the deletion left behind has no row, kept its age, and outlives a clean collector pass exactly while it is not older than minAge |

## Left out

- PqTextArray: keys are strings of valid Unicode. For invalid UTF-8 the Go loop writes U+FFFD, and PostgreSQL rejects a NUL character in any text.
- HTTP routing, JSON, status codes, logging, metrics, cookies and CSRF: input and output.
- parsePagination: per-request parsing. A request with `If-None-Match: *` gets a 304 for any page, which the soundness of equal tags says nothing about.
- Circuit breakers, rate limiting, cairn links and the minio store: thin wrappers over libraries that are not part of this model.
- Concurrent filling and invalidation inside the cache library: its contract is used for serialized operations only.
- bcrypt, SHA-256, random identifiers, password-strength rules, email and title normalization, file name and content type checks: their verdicts are parameters.
- Names in the blob store that are not storage keys: the two repositories treat them differently, and the model has storage keys only.
- A server without attachments enabled: deleteAccountCascade then skips the attachment loop.
- The foreign key from tasks to users, which in PostgreSQL refuses a user row that still owns tasks: account deletion is proved without relying on it, and without relying on ON DELETE CASCADE.
- Rows that stop a DDL statement, such as a NOT NULL column added to a filled table: the schema model has no data, and such a failure is a crash of that boot.
- `applied_at` ties: a transaction that begins after another committed has a later time.
- Down concurrent with boots, which is not an intended mode.
- The failure count of the login backoff is unbounded, so the wrap of a 64-bit counter is not modelled.
- Negative session caps, which the repository's documentation calls a programming error.
- Two accounts created with one random ID: `UserStore.Repository.CreateUser` keeps its maps in step for fresh IDs.
- Loops over Go maps visit keys in an arbitrary order here too; the locks of the in-memory stores are modelled by one call at a time.
