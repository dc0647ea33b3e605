# Sentinal Chat: verified protocols

Dafny models and proofs of the stateful protocols of the Sentinal Chat backend: its three rate
limiters, the transactional outbox, message sending with sequence numbers and paging, the
WebSocket hub, login sessions, the prekey server, receipts, bulk archiving with undo, presence
and call-quality metrics. `dafny verify dfyconfig.toml` verifies all of it.

Every table, key space or mutex-protected map is a value; every statement, handler or
transaction is one step. Where the program updates an object in place the model has a class
whose methods are proved equal to a step function on the state; the theorems are then lemmas
about that function over every run. The clock is an input, every store call may fail (a
parameter says which), and whatever the program leaves open (which client is evicted, the order
of equal timestamps, the rounding of a TTL) is left open in the model too.

| file | part of the system |
|---|---|
| `Prelude.dfy` | identities, options and results, filtering and counting over sequences |
| `ConnectionLimiter.dfy` | the hub's pruned log of connections per user |
| `EpochBound.dfy` | the counting argument shared by the two counters below |
| `ClientLimiter.dfy` | the token counter of a WebSocket client |
| `RedisLimiter.dfy` | the counter key with a time to live |
| `Transactions.dfy` | the transaction helper over PostgreSQL: nested uses, dropped errors, aborted transactions |
| `Conversations.dfy` | creating a conversation with its participants |
| `Outbox.dfy`, `OutboxRuns.dfy` | outbox table and worker; what they guarantee over runs |
| `MessageStore.dfy`, `MessageRuns.dfy` | the send transaction; sequence numbers and events over runs |
| `Paging.dfy` | reading a conversation page by page |
| `Hub.dfy` | connected clients, send channels, online flags |
| `Sessions.dfy` | refresh-token rotation, in the manner of section 10.4 of RFC 6749 |
| `PreKeys.dfy` | one-time and signed prekeys, in the manner of section 3.3 of the X3DH specification |
| `Receipts.dfy` | delivery and read receipts |
| `Commands.dfy` | command log, bulk archive and undo |
| `Presence.dfy` | online set, heartbeats and their cleanup |
| `CallQuality.dfy` | packet-loss ratio and resolution, stored and read back |

## Where the code differs from what it says

The model follows the code. These differences are proved, each with the exact condition.

- The Redis limiter is described as a sliding window; it is a fixed window started by the first
  accepted action. It admits up to 2 * limit - 1 actions in two milliseconds
  (`WorstCaseReached`), never more in one window (`AcceptedInAnySpan`), so it keeps the promise
  of a sliding window if and only if the limit is 1 (`SlidingWindowExactly`). A window below one
  second disables it (`SubSecondWindowNeverLimits`). The status reports a full window instead of
  the last, rounded-down second (`StatusThenCheck`).
- A publish failure is final: the row stays PROCESSING, so the retry limit is never reached
  (`FailedPublishIsNeverRetried`). Two workers that hold the same row publish it at most once if
  and only if a claim fails or the payload cannot be decoded (`TwoWorkersPublishTwice`,
  `TwoWorkersReachable`).
- The metadata update inside a send writes back a sequence number it never read, so every
  readable message ends up without one (`HistoryHasNoNumbers`). Paging is correct for numbered
  rows (`WalkIsExact`) and breaks exactly when a whole page of unnumbered rows exists
  (`WalkNeverCompletes`); hence a history can be paged only while it is shorter than one page
  (`HistoryReadable`).
- Dropping an error inside a transaction does not save it. If a statement failed, PostgreSQL has
  aborted the transaction and its commit fails; only an error that no failing statement caused
  can be dropped (`DroppedErrorCommits`). Creating a conversation drops the error of every
  participant insert, and yet succeeds if and only if all of them succeed; one duplicate
  participant undoes it (`CreatesExactly`).
- A stale refresh token revokes its session only if the revoking update succeeds; the failure is
  ignored (`StaleTokenRevokes`).
- Undoing a bulk archive unarchives conversations that were archived before
  (`CleanUndoRestoresExactly`, `ArchivedBeforeIsLost`). A command that completes after its undo
  window can still be undone: it becomes UNDONE and nothing is restored, so the table is as
  before if and only if the command had changed nothing of it (`LateUndoRestoresNothing`).
- A presence cleanup reports users it failed to take offline as removed (`CountIsHonest`).
- A receipt's status can return from READ to DELIVERED. It shows READ if and only if every
  delivery mark was followed by a read mark (`StatusIsLastMark`); the read time cannot be lost
  (`ReadIsForever`).
- An uploaded loss ratio comes back unchanged if and only if it makes up a whole number of the
  packets sent, or no packet was sent, exactly one was received and the ratio is whole
  (`RatioComesBackExactly`). Without packets sent, the count lost among the received packets is
  read back in place of the ratio, and with none received either, or a negative number sent,
  the ratio reads back as 0 (`NothingSentReadsBackACount`, `CloseWithoutSent`).

## Model

| member | source | states |
|---|---|---|
| `ConnectionLimiter.WebSocketRateLimiter.AllowConnection` | internal/server/hub.go:57-77 | refuses exactly when ten entries of the user are younger than a minute; an admission prunes the user's log and appends now, a refusal changes nothing, other users are untouched |
| `ConnectionLimiter.WebSocketRateLimiter.RunCleanup` | internal/server/hub.go:92-111 | the loop over the map, in any order, leaves each user's entries of the last ten minutes and drops users left with none |
| `ConnectionLimiter.CleanupLeavesRecent` | internal/server/hub.go:92-111 | after a cleanup a user is listed if and only if they had an entry younger than ten minutes, and their entries are exactly the younger ones |
| `ConnectionLimiter.StepSeenFrom` | internal/server/hub.go:57-111 | whatever a step prunes, a recent enough cutoff sees only the newly accepted connection as a change |
| `ConnectionLimiter.PrunedLogAgrees` | internal/server/hub.go:57-111 | after any interleaving of connections and cleanups, any cutoff within the last minute sees the same entries in the pruned log as in the list of all connections ever accepted |
| `ConnectionLimiter.DecidesAsFullHistory` | internal/server/hub.go:57-111 | refinement: the limiter answers as one that never forgets, and holds at most ten entries per user |
| `ConnectionLimiter.AcceptedAreSpaced` | internal/server/hub.go:57-77 | accepted connections are in order and any eleven consecutive ones span at least a minute |
| `ConnectionLimiter.AtMostTenPerMinute` | internal/server/hub.go:57-77 | over every run no half-open minute, open on either side, holds more than ten accepted connections of a user |
| `EpochBound.AnySpan` | internal/server/client.go:71-77 | for any counter topped up at most once per width: at most (1 + ceil(span/width)) * cap actions in any stretch, 2 * cap in one width |
| `EpochBound.AnySpanOpened` | internal/redis/ratelimit.go:93-104 | one fewer when every epoch is opened by an action of its own |
| `EpochBound.FromTheStart` | internal/server/client.go:55-77 | counted from the first top-up, at most (1 + floor(span/width)) * cap actions |
| `ClientLimiter.ClientRateLimiter.constructor` | internal/server/client.go:55-65 | every class starts with its full allowance |
| `ClientLimiter.ClientRateLimiter.Allow` | internal/server/client.go:67-107 | allowed if and only if the message has a class and that class has a token after the refill due; one token of that class and no other is spent, unknown types are refused but still refill |
| `ClientLimiter.ClientRateLimiter.RefillTokens` | internal/server/client.go:109-115 | all five classes full, the refill time as it was |
| `ClientLimiter.TokensConserved` | internal/server/client.go:67-115 | over every run, tokens left plus calls allowed since the last refill equal the class's maximum |
| `ClientLimiter.AllowedInAnySpan` | internal/server/client.go:67-115 | over every run at most (1 + ceil(span/minute)) * max calls of a class in any half-open stretch |
| `ClientLimiter.AllowedInAnyMinute` | internal/server/client.go:67-115 | at most twice the maximum in any half-open minute |
| `ClientLimiter.AllowedSinceCreation` | internal/server/client.go:67-115 | from creation, at most (1 + floor(span/minute)) * max calls of a class |
| `ClientLimiter.AllowsExactly` | internal/server/client.go:67-107 | over every run a call is allowed if and only if its message is one of the six listed and, since the last top-up that counts then, fewer than 60 typing messages of either kind, 120 "read", 30 "presence", 120 "call" or 60 "ping" were allowed |
| `ClientLimiter.WholeAllowance` | internal/server/client.go:79-106 | of calls of one kind at one instant of the first minute exactly the maximum is allowed and the next one refused |
| `RedisLimiter.RateLimiter.CheckLimit` | internal/redis/ratelimit.go:81-107 | decision, remaining and reset time of the script, and the key it leaves, for every TTL reading |
| `RedisLimiter.RateLimiter.GetStatus` | internal/redis/ratelimit.go:181-203 | reports without counting; only an expired key disappears |
| `RedisLimiter.RateLimiter.StatusThenCheck` | internal/redis/ratelimit.go:79-203 | a status foretells the next check: same decision, one action fewer remaining, same reset time if and only if TTL does not read 0 |
| `RedisLimiter.RunSound` | internal/redis/ratelimit.go:81-107 | in every run the counter counts exactly the acceptances of the current key, every key lives at least a window and begins with an acceptance, and no key accepts more than the limit |
| `RedisLimiter.AcceptedInAnySpan` | internal/redis/ratelimit.go:78-107 | over every run and all TTL readings: fewer than limit * (1 + ceil(span/window)) acceptances in any half-open stretch, fewer than 2 * limit in one window |
| `RedisLimiter.AcceptedSinceFirst` | internal/redis/ratelimit.go:78-107 | from the first acceptance, at most limit * (1 + floor(span/window)) |
| `RedisLimiter.LifeAccepted` | internal/redis/ratelimit.go:86-104 | a call on an absent key and a burst before it expires use up one whole allowance, whatever ran before |
| `RedisLimiter.WorstCaseReached` | internal/redis/ratelimit.go:78-107 | for every limit and window, a run in which every TTL reading is the rounded remaining life accepts 2 * limit - 1 actions within two milliseconds: the bound is sharp |
| `RedisLimiter.SlidingWindowExactly` | internal/redis/ratelimit.go:78-107 | over every run and stretch of one window there are at most `limit` acceptances, as the comment promises, if and only if the limit is 1 |
| `RedisLimiter.FloorBoundExactly` | internal/redis/ratelimit.go:78-107 | likewise limit * (1 + floor(span/window)) bounds arbitrary stretches if and only if the limit is 1 |
| `RedisLimiter.SubSecondWindowNeverLimits` | internal/redis/ratelimit.go:98-109 | a window below a second reaches the script as 0, and then every call of every run is accepted |
| `RedisLimiter.NoLimitAcceptsNothing` | internal/redis/ratelimit.go:98-106 | with a limit of 0 or less no call of any run is accepted |
| `Transactions.AbortsExactly` | internal/repository/sql_helpers.go:41-63 | a body leaves the tables of its last successful statement and the transaction aborted if and only if a statement failed, wherever errors were dropped or uses nested |
| `Transactions.CommitsExactly` | internal/repository/sql_helpers.go:52-62 | a use on the pool takes effect if and only if begin and commit do not fail, the body returns no error and none of the statements it executed failed; otherwise the tables are unchanged |
| `Transactions.AllOrNothing` | internal/repository/sql_helpers.go:41-63 | for bodies that pass every error on: success is exactly the whole body, needs precisely a begin, a body and a commit without error, and failure is exactly nothing |
| `Transactions.NestingIsTransparent` | internal/repository/sql_helpers.go:45-47 | for every body, however deep the nesting and wherever errors go: the same outcome and the same statements as without the nested uses |
| `Transactions.ErrorsReported` | internal/repository/sql_helpers.go:41-63 | the caller gets the body's own error unless begin, rollback or commit fails, and an error without a usable handle |
| `Transactions.DroppedErrorCommits` | internal/repository/sql_helpers.go:52-62 | when an error is dropped and the body goes on: if a statement had failed, the result is an error and the tables are unchanged whatever follows; if none had, what was done stays and the rest decides |
| `Conversations.ConversationService.Create` | internal/services/conversation_service.go:38-81 | refused with nothing changed for invalid input; otherwise the transaction over the inserts, with its exact success condition and result |
| `Conversations.CreateDirect` | internal/services/conversation_service.go:84-115 | the loop that ignores every participant error, on the transaction's tables |
| `Conversations.CreatesExactly` | internal/services/conversation_service.go:84-115 | although every participant error is dropped, creation succeeds if and only if the participants are distinct and known and nothing fails; then exactly the conversation and its participants are added |
| `Conversations.ParticipantsAreListed` | internal/services/conversation_service.go:100-112 | the participants are exactly those listed, the creator as owner and the others as members, and no other row differs |
| `Outbox.OutboxRepository.Create` | internal/repository/outbox_repository.go:17-40 | one PENDING row with no retries, or nothing |
| `Outbox.OutboxRepository.GetPending` | internal/repository/outbox_repository.go:42-79 | distinct rows that are PENDING below the retry limit, oldest first, as many as the limit allows, none skipped that is older than one returned |
| `Outbox.OutboxRepository.MarkProcessing` | internal/repository/outbox_repository.go:81-88 | unconditional change of one row's status, no error for a missing row |
| `Outbox.OutboxRepository.MarkCompleted` | internal/repository/outbox_repository.go:90-98 | status and processing time of one row |
| `Outbox.OutboxRepository.MarkFailed` | internal/repository/outbox_repository.go:100-107 | status and error of one row |
| `Outbox.OutboxRepository.IncrementRetry` | internal/repository/outbox_repository.go:109-116 | retry count of one row, its status untouched |
| `Outbox.OutboxWorker.ProcessEvent` | internal/services/outbox_worker.go:75-98 | claim, publish, complete with a failure possible at each call: exactly one event's row and the list of publish calls change |
| `Outbox.OutboxWorker.ProcessBatch` | internal/services/outbox_worker.go:63-73 | one tick handles the polled rows in order, each exactly once; a failed poll does nothing |
| `OutboxRuns.RunKeeps` | internal/services/outbox_worker.go:63-98 | over every run of inserts, polls and handled events with any failures: no event is passed to Publish twice, no row returns to PENDING, a row that left PENDING never changes again |
| `OutboxRuns.PublishedAtMostOnce` | internal/services/outbox_worker.go:63-98 | from an empty table every event reaches Publish at most once |
| `OutboxRuns.HandledExactly` | internal/services/outbox_worker.go:75-98 | when exactly one event is published, completed, failed or left PENDING; all other rows are untouched |
| `OutboxRuns.FailedPublishIsNeverRetried` | internal/services/outbox_worker.go:88-94 | after a publish failure the row is PROCESSING with one retry counted, if that update succeeds, and no continuation publishes or touches it again |
| `OutboxRuns.TwoWorkersPublishTwice` | internal/repository/outbox_repository.go:81-88 | two workers holding the same row publish it at most once if and only if one of the claims fails or the payload cannot be decoded |
| `OutboxRuns.TwoWorkersReachable` | internal/services/outbox_worker.go:63-98 | one insert and one poll lead to such a row, whose event is then published twice |
| `OutboxRuns.PublishedInCreationOrder` | internal/services/outbox_worker.go:63-98 | with inserts in creation order and no failed claim, events are published in creation order across all batches, whatever else fails |
| `OutboxRuns.PublishedInInsertOrder` | internal/services/outbox_worker.go:63-98 | so of two published events the first was not inserted with a later creation time, by the inserts of the run |
| `OutboxRuns.RowsAsInserted` | internal/repository/outbox_repository.go:18-40 | over every run a row keeps the creation time and payload of the insert that made it |
| `OutboxRuns.BatchIsARun` | internal/services/outbox_worker.go:63-73 | a whole tick is a run of single steps, so every run theorem covers it |
| `OutboxRuns.BacklogDrains` | internal/services/outbox_worker.go:29-73 | without inserts and failed claims, k ticks take exactly min(n, 100k) of n PENDING rows |
| `OutboxRuns.BacklogGoneExactly` | internal/services/outbox_worker.go:29-73 | the backlog is gone after k ticks if and only if k is at least ceil(n/100) |
| `MessageStore.AssignMessageSequence` | migrations/000001_init_extensions.up.sql:122-139 | the trigger hands out the last number plus one and stores it, creating the counter if needed |
| `MessageStore.CreateMessage` | internal/repository/message_repository.go:24-58 | the row carries the next number of its conversation; refused exactly on a fault, a used id or a used client message id |
| `MessageStore.IncrementSequence` | internal/repository/conversation_repository.go:612-646 | the second issuer hands out the last number plus one, or fails with the counter unchanged |
| `MessageStore.CreateCiphertexts` | internal/services/message_service.go:440-463 | the loop carries out lookup and insert per payload and stops at the first error; it succeeds if and only if the sender's device and all recipient devices are known, no device repeats and no call fails |
| `MessageStore.CiphertextsOutcome` | internal/services/message_service.go:440-463 | the steps of the loop succeed exactly then, and leave one row per payload |
| `MessageStore.OneCiphertextPerPayload` | internal/services/message_service.go:440-463 | the insertions add exactly one row per payload, addressed to its device's owner with its body, and change no other row |
| `MessageStore.ExecuteSendMessageDirect` | internal/services/message_service.go:400-466 | exactly when the statements inside the transaction succeed, and the tables they leave |
| `MessageStore.SaveToOutbox` | internal/services/event_publisher.go:216-235 | the event row naming the message, in the same transaction, or an aborted transaction |
| `MessageStore.SendsAllOrNothing` | internal/services/message_service.go:369-396 | the whole send as a use of the transaction helper: one exact condition for its success and then exactly the sent state, otherwise nothing |
| `MessageStore.MessageService.ExecuteSendMessage` | internal/services/message_service.go:342-397 | succeeds under an exact condition with exactly the sent state, any failure leaves every table as it was, the error is the transaction's, and the swapped repository handle is restored in every case |
| `MessageRuns.SendSucceedsExactly` | internal/services/message_service.go:342-466 | in a reachable state with fresh ids a send without faults succeeds if and only if its request is complete, the sender takes part, all devices are known and distinct, and no stored message of that conversation carries its non-empty client message id |
| `MessageRuns.RunKeepsTexts` | migrations/000002_schema.up.sql:139 | in every reachable state no two messages of a conversation share a client message id |
| `MessageRuns.RepeatRefused` | internal/services/message_service.go:408-410 | while a message sent with a client message id is stored, no send with the same text in that conversation succeeds |
| `MessageRuns.CommandRowNumbered` | internal/services/command_executor.go:117-140 | a command send leaves a row that carries the number it was issued, and its event |
| `MessageRuns.HardDeleteExactly` | internal/repository/message_repository.go:172-182 | a hard delete removes the message and its ciphertexts and nothing else |
| `MessageRuns.SendAddsMessageAndEvent` | internal/services/message_service.go:369-397 | one message of that sender, conversation and client message id (none for an empty text) and one event naming it are added; every other message and event row is unchanged |
| `MessageRuns.SendAddsExactly` | internal/services/message_service.go:369-466 | one message, one ciphertext per payload, one event and one counter tick in that conversation only; no other row changes |
| `MessageRuns.RunKeeps` | internal/services/message_service.go:342-466 | over every run of sends, command sends, increments, deletions and rollbacks: issued numbers are exactly 1..last_sequence, messages ever sent and MESSAGE-NEW events correspond one to one, numbers of rows are distinct |
| `MessageRuns.Reachable` | internal/services/event_publisher.go:216-235 | all of this in every state reachable from empty tables |
| `MessageRuns.StepStaysInItsConversation` | migrations/000001_init_extensions.up.sql:131-134 | a step changes nothing of a conversation it is not about, except that a deletion removes rows |
| `MessageRuns.LastNumberCountsCommits` | internal/repository/conversation_repository.go:612-646 | a conversation's last number grows by exactly its own committed steps: rollbacks and other conversations leave no gap |
| `MessageRuns.HistoryHasNoNumbers` | internal/services/message_service.go:421-438 | in every reachable state no message of a device's history has a sequence number |
| `MessageRuns.HistoryReadable` | internal/repository/message_repository.go:184-248 | so every walk over a reachable history completes with all of it if it is shorter than one page, and none ever completes otherwise |
| `Paging.GetConversationMessages` | internal/services/message_service.go:62-81 | the exact condition of each refusal; otherwise a page of 50 rows for a limit that is not positive |
| `Paging.QueryPage` | internal/repository/message_repository.go:184-248 | distinct eligible rows in descending order, unnumbered ones first, as many as the limit allows, none skipped |
| `Paging.WalkReads` | internal/repository/message_repository.go:197-203 | after any number of full pages the walk has read exactly the rows above its cursor that existed when it began |
| `Paging.WalkIsExact` | internal/repository/message_repository.go:184-248 | with fewer unnumbered rows than the page size, the concatenated pages are exactly the rows of the start, each once, in descending order, whatever is inserted meanwhile |
| `Paging.WalkTerminates` | internal/repository/message_repository.go:184-248 | such a walk has at most size/limit full pages |
| `Paging.WalkNeverCompletes` | internal/repository/message_repository.go:197-203 | with a page of unnumbered rows or more, no walk completes: its cursor stays 0 and it sees unnumbered rows only |
| `Paging.ReadHistory` | internal/services/message_service.go:62-81 | the client's loop ends, having read the history once, newest first |
| `Hub.Hub.HandleRegister` | internal/server/hub.go:161-205 | refused by the limiter, or filed under its user, an arbitrary client of a full user evicted and its channel closed |
| `Hub.Hub.HandleUnregister` | internal/server/hub.go:207-226 | removes and closes exactly a filed client, and reports the user offline exactly with the last one |
| `Hub.Hub.BroadcastToUser` | internal/server/hub.go:248-258 | touches exactly the channels of the user's clients: delivers to those with room in their buffer and drops the message for the full ones |
| `Hub.Hub.BroadcastToConversation` | internal/server/hub.go:260-272 | likewise exactly the clients of all users that listen to the conversation |
| `Hub.Hub.Stop` | internal/server/hub.go:294-307 | closes the channel of every filed client once more and empties the map |
| `Hub.RunKeeps` | internal/server/hub.go:161-307 | over every run: no channel is closed twice, every filed client has an open channel, one to ten clients per user, and before a stop a user is reported online if and only if a client is filed for them |
| `Hub.SafeFromStart` | internal/server/hub.go:136-159 | all of this from a fresh hub |
| `Hub.UnregisterRemoves` | internal/server/hub.go:211-220 | unregistering a filed client takes out exactly that client, closes its channel once more, and reports its user offline exactly if it was their last |
| `Hub.FiledExactly` | internal/server/hub.go:161-226 | over every run a client is filed if and only if it was admitted and has not since been evicted, unregistered or stopped |
| `Hub.ClosedExactly` | internal/server/hub.go:161-231 | over every run a channel has been closed, once, if and only if its client was admitted and is no longer filed |
| `Hub.RegisterChangesListeners` | internal/server/hub.go:176-195 | an accepted registration changes who hears a conversation only for the newcomer and the evicted client |
| `Hub.LateUnregisterIsIdle` | internal/server/client.go:157-161 | the reader's exit after an eviction changes nothing, so it cannot close the channel again |
| `Hub.StopClosesAll` | internal/server/hub.go:294-307 | a stop closes exactly the open channels of filed clients, each once |
| `Sessions.AuthService.OpenSession` | internal/services/auth_service.go:222-240 | a session holding the digest of the token handed out, or nothing |
| `Sessions.AuthService.GetSessionByID` | internal/repository/user_repository.go:782-800 | found if and only if there, unrevoked and unexpired |
| `Sessions.AuthService.Refresh` | internal/services/auth_service.go:264-323 | the new table, the exact condition of success, and which refusal is reported when |
| `Sessions.AuthService.Logout` | internal/services/auth_service.go:325-334 | revokes that session or reports that there is none |
| `Sessions.AuthService.LogoutAll` | internal/repository/user_repository.go:885-888 | revokes all sessions of the user |
| `Sessions.AuthService.PasswordReset` | internal/services/auth_service.go:405-432 | success under an exact condition, and then every session of the user is revoked |
| `Sessions.AuthService.ValidateSession` | internal/services/auth_service.go:457-466 | accepts exactly a live session of that user |
| `Sessions.RunKeeps` | internal/services/auth_service.go:264-323 | over every run each refresh token is exchanged at most once and a revoked or deleted session never comes back |
| `Sessions.PassesExactly` | internal/services/auth_service.go:274-286 | in every reachable state a refresh passes its check if and only if the session lives and the token is the one last stored for it |
| `Sessions.SessionAfterStep` | internal/services/auth_service.go:264-338 | what each event makes of one session: whether it is stored, its expiry, its token and whether it is revoked |
| `Sessions.StoredByLast` | internal/services/auth_service.go:227-296 | over every run a stored session has the token of the last event that stored one and expires ttl after it |
| `Sessions.RevokedExactly` | internal/repository/user_repository.go:873-888 | over every run a session is revoked if and only if a logout of it or of its user or a wrong token did so since it was last deleted |
| `Sessions.PassesFromEvents` | internal/services/auth_service.go:264-298 | from the events alone: a token passes if and only if the session was opened and not deleted since, nothing revoked it, and the last event that stored a token stored this one less than ttl ago |
| `Sessions.RenewalProlongs` | internal/services/auth_service.go:293-298 | after a refresh at now, with no later renewal or revocation, the new token passes at a later time if and only if that is before now + ttl |
| `Sessions.RedeemedTokenIsSpent` | internal/services/auth_service.go:288-298 | an exchanged token never passes again, in any session and any continuation |
| `Sessions.StaleTokenRevokes` | internal/services/auth_service.go:283-286 | a wrong token kills a live session if and only if the revoking update succeeds |
| `Sessions.DeadIsFinal` | internal/repository/user_repository.go:782-800 | no continuation refreshes or validates a revoked or deleted session |
| `Sessions.CleanupSparesLive` | internal/repository/user_repository.go:890-893 | deleting expired sessions ends none that still lives, then or later |
| `Sessions.RevokeUserKillsExactly` | internal/repository/user_repository.go:885-888 | logging out everywhere kills the user's sessions and leaves every other as it was |
| `Sessions.LogoutKillsExactly` | internal/repository/user_repository.go:873-883 | a logout kills its session and leaves every other as it was |
| `PreKeys.EncryptionRepository.UploadOneTimePreKeys` | internal/repository/encryption_repository.go:174-190 | all rows or none, with whatever consumption columns they carry; success if and only if the list is empty or every row finds its ids unused and no call fails |
| `PreKeys.UploadsAllOrNothing` | internal/repository/encryption_repository.go:178-189 | the upload as a use of the transaction helper |
| `PreKeys.EncryptionRepository.ConsumeOneTimePreKey` | internal/repository/encryption_repository.go:192-230 | the device's oldest available key, marked; not found if and only if there is none |
| `PreKeys.EncryptionRepository.DeleteConsumedPreKeys` | internal/repository/encryption_repository.go:240-250 | removes the stale consumed rows and counts them |
| `PreKeys.EncryptionRepository.GetActiveSignedPreKey` | internal/repository/encryption_repository.go:133-147 | a newest active key of the device; not found if and only if there is none |
| `PreKeys.EncryptionRepository.RotateSignedPreKey` | internal/repository/encryption_repository.go:149-160 | all active keys of the device off and the new row in, or the old set intact, with the exact condition of each |
| `PreKeys.RotatesAllOrNothing` | internal/repository/encryption_repository.go:150-159 | the rotation as a use of the transaction helper |
| `PreKeys.EncryptionService.RotateThenBundle` | internal/services/encryption_service.go:98-135 | after a successful rotation the next bundle of the device carries the new key's id and public key; after a failed one, a key that was current before |
| `PreKeys.EncryptionService.GetKeyBundle` | internal/services/encryption_service.go:98-135 | fails with the key store unchanged, or returns a current signed prekey and, exactly when one was available, the oldest one-time prekey, now consumed by the caller |
| `PreKeys.RotationTakesOver` | internal/repository/encryption_repository.go:133-160 | after a rotation only the new key can be returned for the device, whatever the creation times, and it is if and only if it is active and filed under that device; other devices are unaffected |
| `PreKeys.RotationKeepsRows` | internal/repository/encryption_repository.go:149-160 | of the old rows a rotation changes the active flag of that device's and nothing else |
| `PreKeys.InsertedRows` | internal/repository/encryption_repository.go:178-188 | an upload adds exactly its rows and changes no other |
| `PreKeys.UploadedRow` | internal/repository/encryption_repository.go:178-188 | a successful upload files every row under its own id, as it came |
| `PreKeys.FitsExactly` | internal/repository/encryption_repository.go:178-188 | an upload fits if and only if no insert fails of itself and every row has an id, and a key id of its device, that neither the table nor another row of the upload has |
| `PreKeys.RunKeeps` | internal/repository/encryption_repository.go:174-250 | over every run of uploads, handouts and purges every uploaded row is available, consumed or purged, and a row is consumed or purged exactly when it was handed out, once, or was uploaded consumed |
| `PreKeys.KeysConserved` | internal/repository/encryption_repository.go:174-250 | uploaded rows number available plus consumed plus purged; rows handed out, none twice, and rows uploaded consumed number the latter two |
| `PreKeys.ConsumedByHandout` | internal/repository/encryption_repository.go:218-224 | over every run a stored key is unconsumed or carries exactly the time, user and device of the one event that handed it out |
| `PreKeys.ConsumedStays` | internal/repository/encryption_repository.go:192-250 | a consumed row never changes until it is purged |
| `PreKeys.CountsAfterSteps` | internal/repository/encryption_repository.go:232-250 | a handout lowers the available count of its device by one and no other; a purge changes none |
| `PreKeys.PurgeSparesAvailable` | internal/repository/encryption_repository.go:240-250 | a purge removes exactly the consumed rows older than its bound |
| `Receipts.MessageRepository.MarkAsRead` | internal/repository/message_repository.go:687-709 | updates the row or inserts one; fails with nothing changed exactly on a fault or an insert for a missing message |
| `Receipts.MessageRepository.MarkAsDelivered` | internal/repository/message_repository.go:663-685 | likewise for delivery |
| `Receipts.MessageRepository.BulkMark` | internal/repository/message_repository.go:721-785 | the transaction over a list equals folding the single operation at one time, or changes nothing; succeeds if and only if every single one would |
| `Receipts.BulkMarksAllOrNothing` | internal/repository/message_repository.go:721-785 | the same of the statements as a use of the transaction helper |
| `Receipts.BulkMarksListed` | internal/repository/message_repository.go:721-785 | bulk marking, duplicates included, marks exactly the listed messages of that user, keeps the other time of each, and touches no other row |
| `Receipts.BulkReadShrinksUnread` | internal/repository/message_repository.go:299-348 | after a bulk read the unread list is the old one without the listed messages, in order; another user's list is unchanged |
| `Receipts.UnreadExactly` | internal/repository/message_repository.go:306-308 | a message is unread for a user if and only if it is in the conversation, from somebody else, not deleted, and the user has no read time for it |
| `Receipts.PlayedExactly` | internal/repository/message_repository.go:711-719 | playing sets the played time of an existing receipt and nothing else |
| `Receipts.ReadIsForever` | internal/repository/message_repository.go:663-785 | over every run of marking operations a read message stays read |
| `Receipts.StatusIsLastMark` | internal/repository/message_repository.go:663-785 | over every run a row shows READ if and only if every delivery mark of it, single or bulk, was followed by a read mark, and it showed READ before or was marked read at all |
| `Receipts.StatusAfterStep` | internal/repository/message_repository.go:663-785 | an event sets the status of a row exactly if it marks that message for that user, alone or in a list |
| `Receipts.StatusCanRevert` | internal/repository/message_repository.go:665-669 | the smallest case: one later delivery mark turns READ back into DELIVERED and keeps the read time |
| `Commands.CommandExecutor.Execute` | internal/services/command_executor.go:50-114 | the log rows written and the participants changed, for every failure of validation, store or command |
| `Commands.CommandExecutor.ExecuteBulkArchive` | internal/services/command_executor.go:205-233 | archives the listed conversations of a member in turn and reports success for each member found, even if the archive update failed |
| `Commands.CommandExecutor.Undo` | internal/services/command_executor.go:236-287 | succeeds if and only if the caller's command is COMPLETED and not undone and no call fails; the tables it leaves |
| `Commands.CommandExecutor.UndoBulkArchive` | internal/services/command_executor.go:309-316 | unarchives every conversation reported as archived, ignoring failures |
| `Commands.ArchiveKeepsRows` | internal/services/command_executor.go:205-233 | a row is archived afterwards if and only if it was before or one of its archive updates ran; nothing else of any row changes |
| `Commands.UndoRestoresExactly` | internal/services/command_executor.go:205-316 | execute then undo inside the window restores the participants if and only if each row's undo update ran on a row not archived before, or did not run on a row archived before or never touched |
| `Commands.CleanUndoRestoresExactly` | internal/services/command_executor.go:205-316 | when no undo update fails: if and only if no listed conversation of the user was already archived, duplicates and non-member conversations included |
| `Commands.ArchivedBeforeIsLost` | internal/services/command_executor.go:309-316 | the smallest loss: one conversation that was archived already |
| `Commands.LateUndoRestoresNothing` | internal/commands/bulk_archive_cmd.go:65-68 | a command completed after its window can be undone and becomes UNDONE with the participants as executed; they are as before the command if and only if every row was archived before or touched by no archive update |
| `Commands.LogsWalkLegally` | internal/services/command_executor.go:50-287 | over every run each log moves PENDING, EXECUTING, COMPLETED or FAILED, and from COMPLETED to UNDONE; Undo succeeds exactly once for an UNDONE command and never for another |
| `Commands.OwnerExactly` | internal/repository/command_repository.go:18-37 | over every run a command has a log if and only if an execution created it, and its user is the one of that execution |
| `Commands.UndoByOwnerOnly` | internal/repository/command_repository.go:166-190 | over every run an undo changes anything only if its caller is the user whose execution created the log |
| `Commands.UndoSucceedsExactly` | internal/repository/command_repository.go:166-190 | with no call failing, an undo succeeds if and only if that user calls, the last status written is COMPLETED and no undo of it succeeded before |
| `Commands.UndoneLog` | internal/services/command_executor.go:281-316 | a successful undo changes of the log its status and time, of other logs nothing, and of the participants only the executing user's |
| `Commands.ExecutedLog` | internal/services/command_executor.go:91-111 | an execution without faults ends FAILED exactly if the command failed, with undo data exactly within thirty minutes of its creation |
| `Presence.PresenceStore.SetOnline` | internal/redis/presence.go:49-82 | record, online set and heartbeat together, or nothing |
| `Presence.PresenceStore.SetOffline` | internal/redis/presence.go:85-113 | out of the online set and the heartbeats, with a day-long record, or nothing |
| `Presence.PresenceStore.Heartbeat` | internal/redis/presence.go:151-168 | a new heartbeat, and a later expiry for a record that has not expired |
| `Presence.PresenceStore.CleanupStalePresence` | internal/redis/presence.go:263-285 | the loop takes exactly the stale users offline for whom the call succeeds, and returns the number of stale users |
| `Presence.CleanupSweeps` | internal/redis/presence.go:263-285 | afterwards every online user has a heartbeat newer than the threshold or could not be taken offline, and users that were not stale are untouched |
| `Presence.CountIsHonest` | internal/redis/presence.go:279-284 | the count equals the heartbeats removed if and only if no stale user's removal failed |
| `Presence.OnlineHaveHeartbeats` | internal/redis/presence.go:49-113 | over every run the online users have heartbeats |
| `Presence.OnlineExactly` | internal/redis/presence.go:49-113 | over every run a user is online if and only if they went online and neither an offline call nor a cleanup took them off since |
| `Presence.RecordAfterStep` | internal/redis/presence.go:49-168 | what each event makes of one record, expiry included |
| `Presence.RecordIsLastWrite` | internal/redis/presence.go:49-113 | over every run a record says online if and only if the last event that wrote it was a going online, and shows its time as last seen |
| `Presence.RecordsAgree` | internal/redis/presence.go:49-113 | over every run the online set holds exactly the users whose record says online |
| `Presence.HeartbeatIsLastSign` | internal/redis/presence.go:151-168 | a heartbeat is the time of the user's last sign of life |
| `CallQuality.RecordQualityMetric` | internal/handler/call_handler.go:345-382 | the stored lost count and resolution for every combination of uploaded fields |
| `CallQuality.UploadAndReadBack` | internal/handler/call_handler.go:345-396 | an uploaded ratio comes back within 1/(2n) if packets were sent, unchanged exactly in the two cases named, a ratio up to 1 stores between 0 and n lost packets, and the text shown is understood when uploaded again |
| `CallQuality.RatioComesBackExactly` | internal/transport/httpdto/call.go:211-227 | the ratio shown is the uploaded one if and only if it makes up a whole number of the packets sent, or none was sent, one was received and it is whole |
| `CallQuality.CloseWithoutSent` | internal/handler/call_handler.go:346-354 | without packets sent, the value shown is within half a received packet of the ratio if and only if one packet was received or the ratio makes up less than half a packet |
| `CallQuality.RatioSurvives` | internal/transport/httpdto/call.go:223-227 | the rounding bound, for every positive ratio and packet count |
| `CallQuality.NothingSentReadsBackACount` | internal/handler/call_handler.go:345-354 | unless packets were sent, the ratio is shown as the count lost among the received packets, or as 0 when none was received or the number sent is negative |
| `CallQuality.ScanItoa` | internal/handler/call_handler.go:375-381 | a printed number in front of a non-digit scans to itself and stops there |
| `CallQuality.ResolutionRoundTrip` | internal/transport/httpdto/call.go:228-230 | the printed "WxH" scans back to the same width and height |
| `CallQuality.TextWins` | internal/handler/call_handler.go:369-382 | an uploaded text that prints two positive numbers is stored as them, whatever explicit numbers come with it |

## Left out

- Interleavings inside one step: `IncrementSequence`, `ConsumeOneTimePreKey`, `Refresh`, `Execute`, `Undo` and `GetStatus` read and then write without locks; each is one atomic step here.
- RedisLimiter.RunSound: the quota-consuming and reset calls of the Redis limiter (no caller uses them) are not among the steps; windows are whole seconds and times whole milliseconds.
- RedisLimiter.AcceptedInAnySpan: stated with the ceiling, because the bound with the floor holds on arbitrary stretches only for a limit of 1 (`FloorBoundExactly`).
- Hub.RunKeeps: channel safety of the hub covers broadcasts, evictions, unregistrations and stops; the reply to a ping, which may write to a closed channel, and the write pumps are not modelled; which buffers are full is an input of each broadcast.
- Hub.Hub.HandleRegister: the online flag is what the hub asked to be stored; whether the user store accepted it is not modelled.
- Fresh identities: new ids and tokens are required to be unused. Prekey handlers and the command executor leave row ids to their callers, so there it is an assumption.
- MessageStore.MessageService.ExecuteSendMessage: the path without a database or without an event publisher, the message type and other enum columns, idempotency key, JSON metadata and headers are left out; the row keeps the sender device that the metadata records.
- Foreign keys: referenced rows are taken to exist, except the devices of a ciphertext, the message of a receipt, and the creator and participants of a new conversation.
- Transactions.CommitsExactly: a commit either takes effect or reports an error; one that takes effect and then loses its answer is not modelled.
- Conversations.ConversationService.Create: the path without a database and the descriptive columns are left out.
- MessageRuns.HistoryReadable: soft deletion and expiry of messages are left out; a walk sees insertions between its pages but no deletions.
- Paging.QueryPage: the order among rows without a number is open, and so is the order of equal timestamps in `GetPending`, `ConsumeOneTimePreKey` and `GetActiveSignedPreKey`.
- Commands.CommandExecutor.Execute: commands other than the bulk archive are opaque (they validate or not, succeed or not, and have some undo deadline), and undoing them does nothing, as in the code.
- Outbox.OutboxRepository.Create: updated-at columns, payload bytes and the text of a publish error are opaque; decoding is a flag of the row.
- Presence.OnlineHaveHeartbeats: the update of a user's status adds to the online set without a heartbeat, so it is not among the steps. A pipeline runs whole or fails without effect. Records keep their expiry time, and an expired one is ignored rather than removed.
- CallQuality.UploadAndReadBack: ratios are exact rationals, not binary floating point; only the leading-space, sign and digit rules of the scanner are modelled; bitrate, jitter and timestamps are copied fields.
- Passwords, JWTs and random tokens: hashing is injective and tokens are inputs; request parsing and the device bookkeeping of a login are left out.
- Calls, upload sessions, Pub/Sub transport, WebSocket framing, storage presigning, participant management and plain reads and writes of single rows add only one-line facts.
