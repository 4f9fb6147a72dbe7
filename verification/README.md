# A verified model of the service's stateful core

This project models the parts of the Express boilerplate where the difficulty
lies, and proves what they promise over every input, every interleaving or every
run. It is written in Dafny 4.11. `dafny verify dfyconfig.toml` checks all of it.

The modules follow the program's own components.

- **Idempotency keys** (`Idempotency*.dfy`). The in-process store is one atomic
  protocol on a map of records. The Postgres store is a bounded loop of SQL
  statements. Any number of such loops, interleaved statement by statement with
  completions, releases, purges and the clock, is proved to refine the atomic
  protocol. Fencing, single execution and replay are proved of the protocol and
  carried over, and so is the exact answer of every claim from what was granted,
  completed and released before it. Every retry of the loop is charged to a write
  of somebody else.
- **Consumer groups** (`Stream*.dfy`). A ledger kept beside the in-memory stream
  store accounts for every entry a group is owed, over every run with trimming.
  Grants of one entry are an idle floor apart, and whoever was granted an entry
  last holds it. Listing pending entries by pages is complete exactly when two
  orders of the ids agree at the cuts.
- **Transactional outbox** (`Outbox*.dfy`). Relays, crashes, rollbacks and late
  deliveries interleave. No message is lost, the retry ladder keeps its bound, and
  no message is taken before its moment.
- **Refresh tokens** (`Token*.dfy`). Rotation families under every interleaving
  of store steps, the exact condition under which a revoked family comes back,
  what presenting a token is answered with from its history alone, and a proof
  that dropping expired records cannot be observed.
- **Bulkhead** (`Bulkhead.dfy`). A FIFO semaphore with hand-off, deadlines and aborts.
- **HTTP fields** (`HttpText.dfy`, `Accept*.dfy`, `EntityTag.dfy`, `IfMatch.dfy`,
  `Range.dfy`). Scanners proved to be inverses of writing, a negotiation whose
  answer depends on the set of members only and on what the field says, strong
  comparison of versions, and byte ranges against exact arithmetic.
- **Keyset pagination** (`Pagination.dfy`). A walk by pages over a table that
  anyone may change between pages.
- **Log redaction** (`KeyPolicy.dfy`, `Redactor*.dfy`). A bounded walk over cyclic
  object graphs, its noninterference, what it does show, and a memoised key matcher.
- **Field encryption** (`Utf8Text.dfy`, `Envelope.dfy`, `FieldCipher.dfy`). The
  stored format, the authenticated contexts, and rotation over any number of rewraps.

Code that updates fields in place is a class here, or a method with loops, proved
against a function of the old state. Code made of expressions is functions and
lemmas. Time, random draws, the text detectors and what other actors do are
parameters. A run is an explicit list of states and events, so a statement about
`run.states[n]` is a statement about every reachable state.

Where the code and its own comments disagree, the model follows the code.

- src/http/accept.ts:252 says `*` is not a token character; the pattern at line
  134 accepts it.
- src/http/accept.ts:237 says wildcards and weights in an offer are parsed and
  ignored; `parseOffer` refuses both.
- src/http/range.ts:45-52 says the clamped position compares correctly against
  every real size. `ByteRanges.ExactUpToTheLimit` and `ByteRanges.AnswersExactlyIff`
  show for which sizes and headers that holds.
- src/redis/stream.memory.ts:330-341 says ids compare by their numbers, but the
  page filter at line 253 compares them as text.
  `StreamPaging.PagingIsCompleteIff` shows when that matters.

## Model

| member | source | states |
|---|---|---|
| IdempotencyProtocol.RecordKeyInjective | src/idempotency/memory.store.ts:178-191 | The length-prefixed map key names one (scope, key) pair, whatever characters the two strings hold. |
| MemoryIdempotency.MemoryIdempotencyStore.constructor | src/idempotency/memory.store.ts:56-69 | A store with positive retention and lease starts without records. |
| MemoryIdempotency.MemoryIdempotencyStore.TryClaim | src/idempotency/memory.store.ts:81-112 | A claim gives the protocol's answer (claimed, in progress, fingerprint mismatch or replay) and leaves exactly the protocol's records. |
| MemoryIdempotency.MemoryIdempotencyStore.OwnedRecord | src/idempotency/memory.store.ts:169-175 | Finds a record exactly when this claim id still owns an unfinished one at its key. |
| MemoryIdempotency.MemoryIdempotencyStore.Complete | src/idempotency/memory.store.ts:114-125 | Succeeds exactly for the owner and then records the response with a new expiry; otherwise nothing changes. |
| MemoryIdempotency.MemoryIdempotencyStore.Release | src/idempotency/memory.store.ts:127-133 | Succeeds exactly for the owner and then removes only that record. |
| MemoryIdempotency.MemoryIdempotencyStore.Purge | src/idempotency/memory.store.ts:135-145 | Walking the map while deleting removes exactly the expired records and returns their number. |
| IdempotencyFencing.OwnershipIsUnbroken | src/idempotency/memory.store.ts:81-175 | Whoever owns a key was granted it by one earlier step and has owned it without a gap since. |
| IdempotencyFencing.LostStaysLost | src/idempotency/memory.store.ts:157-175 | A claim id that no longer owns its key never owns it again in any continuation. |
| IdempotencyFencing.Fencing | src/idempotency/memory.store.ts:114-175 | In every run a claim is completed or released at most once, and only while its grant has not been taken over, settled or purged. |
| IdempotencyFencing.GrantHolds | src/idempotency/memory.store.ts:81-112 | A grant leaves the key held until it is released or min(lease, retention) has passed. |
| IdempotencyFencing.GrantsAreSeparated | src/idempotency/memory.store.ts:81-112 | Two grants of one key have a release between them or are at least min(lease, retention) apart. |
| IdempotencyFencing.CompletionHolds | src/idempotency/memory.store.ts:114-125 | A completed record stays until retention has passed. |
| IdempotencyFencing.NoGrantWithinRetention | src/idempotency/memory.store.ts:81-125 | No key is granted again within retention of a completion. |
| IdempotencyFencing.CompletedRecordIsLatest | src/idempotency/memory.store.ts:114-125 | A completed record carries the response of the latest completion of its key. |
| IdempotencyFencing.ReplayIsLatestCompletion | src/idempotency/memory.store.ts:81-112 | Every replay is exactly the response of the key's latest successful completion. |
| IdempotencyFencing.RecordRemembersGrant | src/idempotency/memory.store.ts:81-125 | A record carries the id, the fingerprint and the time of the latest grant of its key. |
| IdempotencyFencing.MismatchIffOtherRequest | src/idempotency/memory.store.ts:81-112 | A claim that is not granted is told of a mismatch if and only if its fingerprint is not that of the latest grant. |
| IdempotencyFencing.TurnedAwayOnlyWhileHeld | src/idempotency/memory.store.ts:81-160 | A claim is turned away only within min(lease, retention) of the latest grant or within retention of a completion. |
| IdempotencyAnswers.KeyHistory | src/idempotency/memory.store.ts:81-175 | What is on record at a key follows from its latest grant, the latest completion of that grant and the releases since, until it expires. |
| IdempotencyAnswers.ClaimAnswerIs | src/idempotency/memory.store.ts:81-112 | The whole answer of every claim, from the history of its key: replayed with the completed response, in progress, refused for another fingerprint, or granted, each exactly when. |
| IdempotencyAnswers.SettlingAnswerIs | src/idempotency/memory.store.ts:114-133 | A completion or a release that succeeds is of its key's latest grant, neither completed nor released since; within retention of that grant it succeeds exactly then. |
| IdempotencySql.NormaliseIsIdentityIff | src/idempotency/postgres.store.ts:274-281 | A stored response comes back as written exactly when its body flag and its body agree. |
| IdempotencySql.InsertIsClaim | src/idempotency/postgres.store.ts:70-76 | An INSERT into a free slot is the atomic claim; into a taken one it changes nothing. |
| IdempotencySql.ReadIsClaim | src/idempotency/postgres.store.ts:195-232 | What a claim answers after reading a live row is what the atomic claim answers, which changes nothing then. |
| IdempotencySql.TakeoverIsClaim | src/idempotency/postgres.store.ts:95-116 | A takeover whose WHERE clause holds is the atomic claim; otherwise it changes nothing. |
| IdempotencySql.HoldsIsOwns | src/idempotency/postgres.store.ts:118-134 | The WHERE clause of completing and releasing is ownership in the atomic store. |
| IdempotencySql.CompleteIsComplete | src/idempotency/postgres.store.ts:238-252 | The completing UPDATE is the atomic completion of the response as it will be read back. |
| IdempotencySql.ReleaseIsRelease | src/idempotency/postgres.store.ts:254-261 | The releasing DELETE is the atomic release. |
| IdempotencySql.PurgeIsPurge | src/idempotency/postgres.store.ts:263-265 | The purging DELETE removes the same records as the atomic purge and counts as many. |
| IdempotencyInterleaving.StepRefines | src/idempotency/postgres.store.ts:174-265 | Each statement is either exactly one atomic operation with the same answer and change, or changes nothing and answers nobody. |
| IdempotencyInterleaving.StepKeepsIds | src/idempotency/postgres.store.ts:177-190 | Ids drawn by running claims stay unspent and pairwise different. |
| IdempotencyInterleaving.RunRefinesStore | src/idempotency/postgres.store.ts:174-265 | Under every interleaving, the answers given form a legal run of the atomic store that ends with the records in the table. |
| IdempotencyRetries.StepKeepsCharged | src/idempotency/postgres.store.ts:177-235 | Any step, by anyone, keeps the attempts of every call paid for by distinct foreign writes to its key. |
| IdempotencyRetries.RetriesAreCharged | src/idempotency/postgres.store.ts:177-235 | The same in every reachable state. |
| IdempotencyRetries.NoInterferenceNoRetry | src/idempotency/postgres.store.ts:177-235 | A claim that answers in attempt k met at least k - 1 foreign writes to its key, and one that gives up at least three; undisturbed, it answers first time. |
| IdempotencyRetries.AtMostThreeTries | src/idempotency/postgres.store.ts:174-236 | In every interleaving a claim sends at most three INSERTs, and gives up after the third and not before. |
| PostgresIdempotency.PostgresIdempotencyStore.constructor | src/idempotency/postgres.store.ts:164-172 | A store with positive retention and lease starts on an empty table. |
| PostgresIdempotency.UnchangedSlotStays | src/idempotency/postgres.store.ts:174-236 | Of any list of others' statements: the clock does not go back, and a row stays as it was unless one of them, when its turn comes, changes it. |
| PostgresIdempotency.GoneWasChanged | src/idempotency/postgres.store.ts:184-198 | A row that made the INSERT fail and is gone at the read was changed in between. |
| PostgresIdempotency.RevivedWasChanged | src/idempotency/postgres.store.ts:200-215 | A row that was expired or stale at the read and refuses the takeover was changed in between. |
| PostgresIdempotency.PostgresIdempotencyStore.RunAttempt | src/idempotency/postgres.store.ts:178-232 | One round answers as the atomic claim at its last statement, or changes nothing and somebody else changed the row inside its window. |
| PostgresIdempotency.PostgresIdempotencyStore.TryClaim | src/idempotency/postgres.store.ts:174-236 | With anything run before each of its statements, the loop answers as the atomic claim at its last statement or gives up having changed nothing, and in each failed attempt a statement of somebody else changed the row inside that attempt's window. |
| PostgresIdempotency.PostgresIdempotencyStore.RunInsert | src/idempotency/postgres.store.ts:184-193 | Returns a row exactly when the slot was free, and the slot is taken afterwards. |
| IdempotencyGuarantees.OnlyOwnStatementAnswers | src/idempotency/postgres.store.ts:174-236 | Only a call's own statement can make it answer, and that statement takes effect as the atomic claim. |
| IdempotencyGuarantees.AnswerTakesEffect | src/idempotency/postgres.store.ts:174-236 | The answer a call ends with is the atomic claim made at that very statement. |
| IdempotencyGuarantees.InterleavedSingleExecution | src/idempotency/postgres.store.ts:174-265 | Whatever the interleaving, grants of one key are a release or min(lease, retention) apart, and none comes within retention of a completion. |
| IdempotencyGuarantees.InterleavedClaimAnswerIs | src/idempotency/postgres.store.ts:174-265 | Whatever the interleaving of statements, a claim gets the answer its key's history gives. |
| MemoryStream.MemoryStreamCommands.DoCreateGroup | src/redis/stream.memory.ts:128-149 | Creating a group: the command's outcome and the whole new state, including the refusals. |
| MemoryStream.MemoryStreamCommands.DoAppend | src/redis/stream.memory.ts:151-173 | Appending: a fresh id from clock and counter, and the stream trimmed oldest first. |
| MemoryStream.MemoryStreamCommands.DoReadGroup | src/redis/stream.memory.ts:183-205 | The reading loop delivers, moves the cursor and fills the pending list as specified. |
| MemoryStream.MemoryStreamCommands.DoAck | src/redis/stream.memory.ts:230-237 | Acknowledging: the new state and the count, repeated ids included. |
| MemoryStream.MemoryStreamCommands.DoClaim | src/redis/stream.memory.ts:267-301 | The claim loop refuses below the idle floor, drops trimmed entries and grants the rest. |
| MemoryStream.MemoryStreamCommands.DoDeleteConsumer | src/redis/stream.memory.ts:314-327 | Deleting a consumer destroys exactly what it holds, and counts it. |
| MemoryStream.AckPending | src/redis/stream.memory.ts:230-237 | Deleting ids one by one removes their set and counts each pending id once. |
| MemoryStream.DestroyPending | src/redis/stream.memory.ts:314-327 | Deleting while walking the pending list removes exactly the consumer's entries. |
| StreamAccounting.ReadIsSlice | src/redis/stream.memory.ts:183-205 | A read hands out the first `count` unread entries in stream order and nothing else. |
| StreamAccounting.ReadKeepsOwed | src/redis/stream.memory.ts:183-205 | A read moves entries from unread to delivered and loses none. |
| StreamAccounting.ReadKeepsGrants | src/redis/stream.memory.ts:183-205 | After a read every pending record counts the grants of its id. |
| StreamAccounting.ClaimShape | src/redis/stream.memory.ts:267-301 | A claim grants only pending ids and drops only ids whose entry is gone. |
| StreamAccounting.ClaimKeepsGrants | src/redis/stream.memory.ts:267-301 | A claim grants an id only once the floor has passed since its last grant, also when one call repeats the id. |
| StreamAccounting.ClaimGrantsIff | src/redis/stream.memory.ts:267-301 | A claim grants a listed id if and only if it is pending, has been idle for the floor and its entry is still on the stream. |
| StreamAccounting.AppendKeepsOwed | src/redis/stream.memory.ts:151-173 | An appended entry is owed and unread; what trimming takes unread is counted as missed. |
| StreamRuns.StepKeepsInv | src/redis/stream.memory.ts:128-327 | Every command, on this group or any other, keeps the accounts. |
| StreamRuns.Accounting | src/redis/stream.memory.ts:128-327 | In every reachable state owed ids split disjointly into unread, missed and delivered, and delivered ones into pending, acknowledged, destroyed and dropped, in append order without repetition. |
| StreamRuns.SettledStaysSettled | src/redis/stream.memory.ts:230-327 | What has left the pending list never returns to it. |
| StreamRuns.HandedOutWasNotSettled | src/redis/stream.memory.ts:183-301 | Nothing handed out had left the pending list, and a read hands out nothing delivered before. |
| StreamRuns.NeverAgain | src/redis/stream.memory.ts:183-301 | Once an id has left the pending list it is never delivered and never claimed again. |
| StreamRuns.ClaimExclusivity | src/redis/stream.memory.ts:183-301 | With an idle floor used by all claims, grants of one id are that far apart; a pending id was delivered exactly once, its delivery count is one plus the claims of it that succeeded, and it is held by the consumer of its last grant since the moment of that grant. |
| StreamRuns.CreationIsAnswered | src/redis/stream.memory.ts:128-149 | Creating a group is refused without a stream unless one may be made, leaves an existing group alone, and else adds a group that holds nothing; no stream's entries change. |
| StreamRuns.ClaimHandsOutIff | src/redis/stream.memory.ts:267-301 | In every run a claim hands out a listed id if and only if it is pending, was last granted at least the floor ago and its entry is on the stream, and hands out that entry. |
| StreamRuns.DeletionDestroysItsOwn | src/redis/stream.memory.ts:314-327 | Deleting a consumer destroys exactly the pending ids whose last grant was to it. |
| StreamRuns.AckSettlesListed | src/redis/stream.memory.ts:230-237 | Acknowledging settles exactly the listed ids that were pending, and counts them. |
| StreamRuns.AppendKeepsNewest | src/redis/stream.memory.ts:151-173 | After an append the stream is its newest entries in order: as many as the cap allows, all of them when they fit. |
| StreamPaging.PendingEntries | src/redis/stream.memory.ts:239-265 | The page is the first `count` entries past the place that are idle long enough, in numeric order, each with its holder, idle time and count; a short page leaves none of them out. |
| StreamPaging.TextLessIs | src/redis/stream.memory.ts:253 | The comparison as text is by the first place where two ids differ; a text comes before all it begins. |
| StreamPaging.SortedMatches | src/redis/stream.memory.ts:250-256 | Filtering and sorting give exactly the idle ids past the place, in numeric order. |
| StreamPaging.PagingIsCompleteIff | src/redis/stream.memory.ts:239-265 | Every walk by pages over given ids shows each exactly once if and only if, at every `count`th of the sorted ids and at the last, ids past it as text are those past it as numbers. |
| StreamPaging.SameWidthsAreShown | src/redis/stream.memory.ts:239-265 | Ids whose clock readings all have one number of digits, and whose counters do, are shown by every walk. |
| StreamPaging.TenthIsNotPastNinth | src/redis/stream.memory.ts:253 | In any millisecond the tenth id is not past the ninth as text, and the ninth is past the tenth. |
| StreamPaging.TenthIsNeverShown | src/redis/stream.memory.ts:239-265 | With those two pending, a walk of single-entry pages ends without having shown the tenth. |
| OutboxRelay.PostgresOutboxStore.ClaimDue | src/outbox/outbox.store.ts:63-92 | Claims due, unlocked rows, at most the limit, soonest first, passing over none that is sooner than one taken. |
| OutboxRelay.PostgresOutboxStore.RunOutboxBatch | src/outbox/relay.ts:171-241 | A batch commits each message's end with counts that add up, or a store failure leaves the table as it was. |
| OutboxRelay.PostgresOutboxStore.RunOutboxRelay | src/outbox/relay.ts:251-279 | A tick is a chain of committed batches, each starting from the table the one before and the others left, all full but the last; it stops at the first short one or at the cap with their balanced sum, and a failed batch leaves the table as it met it. |
| OutboxRuns.StepKeepsInv | src/outbox/relay.ts:171-241 | Claiming, dispatching, marking, committing, crashing and enqueueing all keep the system's invariant. |
| OutboxRuns.NoLoss | src/outbox/relay.ts:171-241 | In every run every message ever enqueued is in the table or had a dispatch that resolved, and open batches hold disjoint rows. |
| OutboxRuns.LadderBound | src/outbox/outbox.store.ts:98-132 | Committed pending rows were tried fewer than `maxAttempts` times and dead ones exactly that often; a batch ready to commit gave each message one end. |
| OutboxRuns.DeadStaysDead | src/outbox/outbox.store.ts:123-132 | A dead row is never touched again. |
| OutboxRuns.RemovalNeedsDelivery | src/outbox/outbox.store.ts:94-96 | A message leaves the table only by the commit of a batch that holds it, after a dispatch of it resolved. |
| OutboxRuns.BatchLeavesOthers | src/outbox/relay.ts:192-240 | A batch leaves rows it did not claim as they were. |
| OutboxRuns.BatchEndsEachRow | src/outbox/relay.ts:192-240 | Each row of a batch meets its own end whatever its neighbours meet. |
| OutboxCounts.CountsAreSeen | src/outbox/relay.ts:192-240 | Of the messages a committed batch claimed, as many are gone from the table as it reports delivered, as many are dead as it reports given up, and as many pending as it reports rescheduled. |
| OutboxTiming.PendingHasItsMoment | src/outbox/outbox.store.ts:98-121 | In every run every pending message has its moment: that of its enqueueing, or of the batch its last attempt failed in plus the backoff drawn. |
| OutboxTiming.ClaimedInTime | src/outbox/outbox.store.ts:63-92 | In every run no message is claimed before its moment; a claim that came back short left out none that was waiting, and a full one none due before one it took. |
| InMemoryTokens.InMemoryTokenStore.Live | src/auth/token-store.ts:56-64 | Returns a record exactly when it is there and unexpired, and drops it when expired. |
| InMemoryTokens.InMemoryTokenStore.Prune | src/auth/token-store.ts:66-76 | Drops exactly the expired records. |
| InMemoryTokens.InMemoryTokenStore.Issue | src/auth/token-store.ts:79-83 | Adds an active token, after a prune when one is due. |
| InMemoryTokens.InMemoryTokenStore.ConsumeToken | src/auth/token-store.ts:94-105 | Spends an active token; a spent one is reported as reuse and a revoked one as revoked, each with its family; an expired or unknown one as unknown. |
| InMemoryTokens.InMemoryTokenStore.Revoke | src/auth/token-store.ts:107-110 | Marks an unexpired token revoked and touches nothing else. |
| InMemoryTokens.InMemoryTokenStore.RevokeFamily | src/auth/token-store.ts:122-137 | Marks every unexpired member revoked, spent ones included, drops expired ones, and counts those newly revoked. |
| InMemoryTokens.InMemoryTokenStore.RevokeAllForUser | src/auth/token-store.ts:139-149 | Marks every unexpired token of a user revoked and drops the expired ones. |
| InMemoryTokens.InMemoryTokenStore.TokenIsActive | src/auth/token-store.ts:151-153 | Says exactly whether a token is unexpired and neither spent nor revoked. |
| InMemoryTokens.DropExpired | src/auth/token-store.ts:66-76 | Deleting while walking the map removes exactly the expired records. |
| InMemoryTokens.Sweep | src/auth/token-store.ts:122-149 | Deleting and revoking while walking the map give exactly the swept map and count. |
| TokenFamilies.StepKeepsLinear | src/auth/auth.service.ts:136-185 | Every store step of any login, refresh, logout or sweep keeps the chain linear. |
| TokenFamilies.LinearChain | src/auth/auth.service.ts:57-185 | At any moment a family has at most one active token or one refresh between consuming and issuing, never both. |
| TokenFamilies.SpentAtMostOnce | src/auth/token-store.ts:94-105 | No token is spent twice however refreshes interleave. |
| TokenHistory.PresentationIsAnswered | src/auth/token-store.ts:94-149 | Presenting an issued token is answered from its history alone: unknown once expired, else revoked if a logout or an alarm was aimed at it, else reused if it was presented before, else spent, always for the user and family it was issued for. |
| TokenHistory.ActiveIs | src/auth/token-store.ts:151-153 | A token is good exactly until it expires, is presented, or a logout or an alarm is aimed at it. |
| TokenHistory.NeverIssuedIsUnknown | src/auth/token-store.ts:94-97 | A string that was never issued is unknown and changes nothing. |
| TokenHistory.IssueSweepsInTime | src/auth/token-store.ts:66-83 | Issuing drops what has expired if a minute has passed since that was last done, and otherwise nothing. |
| TokenHistory.RefreshGoesOn | src/auth/auth.service.ts:136-185 | A successor joins the family of the token spent for it, and an alarm revokes the family of the token that was reused. |
| TokenRevocation.RevocationReachesEveryone | src/auth/token-store.ts:122-137 | After a family revocation every member left in the store is revoked. |
| TokenRevocation.StepKeepsDead | src/auth/auth.service.ts:136-203 | No step brings back a revoked family that has no rotation in flight. |
| TokenRevocation.DeadStaysDead | src/auth/auth.service.ts:136-203 | Nor does any continuation. |
| TokenRevocation.InFlightRevives | src/auth/auth.service.ts:136-185 | A refresh that had consumed before the revocation still issues a successor that is accepted. |
| TokenRevocation.RevivesIffInFlight | src/auth/auth.service.ts:136-185 | A revoked family has a token spent or flagged as reused again, in some continuation, if and only if a rotation of it was in flight. |
| TokenRevocation.RevokedFamilyComesBack | src/auth/auth.service.ts:136-185 | A run from the empty store gets there: two refreshes present one token, the second revokes the family, and the first still brings it back. |
| TokenRevocation.StepAgrees | src/auth/token-store.ts:56-153 | Each operation answers as it would on a store that never deletes. |
| TokenRevocation.PruningIsInvisible | src/auth/token-store.ts:56-153 | Over every sequence of operations a store that drops expired records answers as one that never deletes. |
| BulkheadModel.AcquireKeepsInv | src/resilience/bulkhead.ts:186-260 | Arriving, whether granted, queued or refused, keeps the invariant. |
| BulkheadModel.LeaveKeepsInv | src/resilience/bulkhead.ts:210-260 | A timeout or an abort keeps it. |
| BulkheadModel.ReleaseKeepsInv | src/resilience/bulkhead.ts:262-298 | A release, with or without a waiter to hand off to, and a repeated one, keep it. |
| BulkheadModel.CapacityHolds | src/resilience/bulkhead.ts:186-298 | Unreleased permits are exactly the slots in flight and within the limit, somebody waits only while all are taken, and the queue keeps its bound. |
| BulkheadModel.EachCallerSettlesOnce | src/resilience/bulkhead.ts:210-298 | Each caller that arrived is queued or was answered exactly once. |
| BulkheadModel.FirstComeFirstServed | src/resilience/bulkhead.ts:288-298 | Slots go out in arrival order, and nobody granted arrived after anybody still waiting. |
| BulkheadModel.AcquireIsAnswered | src/resilience/bulkhead.ts:186-260 | A caller gets a slot if one is free, a place at the end of the queue if none is, and is refused only with every slot taken and the queue at its bound. |
| BulkheadModel.ReleaseIsHandedOn | src/resilience/bulkhead.ts:262-298 | A permit given back goes to whoever has waited longest, or frees a slot; given back twice it changes nothing. |
| BulkheadModel.LeaverIsAnswered | src/resilience/bulkhead.ts:210-260 | A deadline or an abort takes its own caller out of the queue and nobody else. |
| BulkheadClass.Bulkhead.constructor | src/resilience/bulkhead.ts:132-158 | A bulkhead starts idle. |
| BulkheadClass.Bulkhead.DoAcquire | src/resilience/bulkhead.ts:186-260 | An arrival is refused, granted or queued as specified, with its callbacks armed. |
| BulkheadClass.Bulkhead.Leave | src/resilience/bulkhead.ts:210-260 | The waiter is found by identity and spliced out; the others keep their order. |
| BulkheadClass.Bulkhead.FireTimeout | src/resilience/bulkhead.ts:210-260 | A deadline settles its caller as timed out and disarms its callbacks. |
| BulkheadClass.Bulkhead.FireAbort | src/resilience/bulkhead.ts:210-260 | An abort settles its caller as aborted and disarms its callbacks. |
| BulkheadClass.Bulkhead.DoRelease | src/resilience/bulkhead.ts:262-278 | A second release of a permit fails and changes nothing; a first one frees or hands off the slot. |
| BulkheadClass.Bulkhead.HandOff | src/resilience/bulkhead.ts:288-298 | The slot goes to the first waiter, or is freed when nobody waits. |
| AcceptSplit.SplitUnquoted | src/http/accept.ts:166-193 | The scanning loop computes the split, or nothing for an unterminated quote. |
| AcceptSplit.SplitOfJoin | src/http/accept.ts:166-193 | Splitting a join gives the members back whatever they hold inside quotes. |
| AcceptSplit.SplitIsInverseOfJoin | src/http/accept.ts:166-193 | The parts are the one list of quote-balanced members without a bare delimiter whose join is the field. |
| AcceptRanges.ParseParameterValue | src/http/accept.ts:203-228 | The loop reads a token, or a quoted string with its escapes undone, or nothing. |
| AcceptRanges.QuotedRoundTrip | src/http/accept.ts:203-228 | Any text survives being written as a quoted string and read back. |
| AcceptMeaning.QualityReads | src/http/accept.ts:146-149 | Every weight from 0 to 1 in thousandths, written out, reads back as itself. |
| AcceptMeaning.MediaRangeRoundTrip | src/http/accept.ts:240-301 | Any media range, in any case and spacing and whatever its parameters hold, written out reads back as exactly that range in lower case. |
| AcceptMeaning.TokenCharIs | src/http/accept.ts:133-135 | A character may stand in a token exactly when it is visible ASCII and none of the delimiters of RFC 9110. |
| AcceptMeaning.FurtherParameter | src/http/accept.ts:267-298 | After the weight a further parameter is an extension and changes nothing; before one, a parameter named again in any case spoils the range. |
| AcceptMeaning.SecondWeight | src/http/accept.ts:267-298 | A range with a second weight is no media range. |
| AcceptFields.QualityIs | src/http/accept.ts:146-149 | A text is a weight exactly when it is 0 or 1 with up to three decimals and at most one, and then it is read as those thousandths. |
| AcceptFields.BareOrQuoted | src/http/accept.ts:203-228 | A token means itself, written bare or quoted. |
| AcceptFields.FieldRoundTrip | src/http/accept.ts:312-330 | Any list of written ranges, joined by commas, is read as exactly those ranges. |
| AcceptRanges.ParseMediaRange | src/http/accept.ts:240-301 | The loop over parameters computes the media range, weights, extensions and repeated names included, or nothing. |
| AcceptRanges.ParseAccept | src/http/accept.ts:312-330 | The field is read in full or not at all. |
| AcceptRanges.ReadMembers | src/http/accept.ts:318-329 | Blank members are skipped and one bad member spoils the list. |
| AcceptRanges.WeightExists | src/http/accept.ts:93-103 | Among the ranges that match an offer, one is such that none is more specific. |
| AcceptRanges.WeightIsUnique | src/http/accept.ts:93-103 | All such ranges carry the same weight, so the weight is a function of the set of ranges. |
| AcceptRanges.QualityFor | src/http/accept.ts:383-392 | The loop returns the weight of the most specific matching range, or 0. |
| AcceptMeaning.ExactRangeDecides | src/http/accept.ts:65-119 | When ranges name an offer exactly, the smallest of their weights is the offer's, whatever wildcards stand beside them. |
| AcceptFields.SelectByWritten | src/http/accept.ts:410-448 | For a field of written ranges the answer is the choice among those ranges. |
| AcceptFields.WildcardAcceptsAll | src/http/accept.ts:65-119 | Under `*/*` alone every offer has its weight. |
| AcceptFields.PrecedenceOfRanges | src/http/accept.ts:65-119 | Of `*/*`, `t/*`, `t/s` and `t/s` with parameters side by side, each decides the offers that no more precise one covers. |
| AcceptFields.TypeBesideEverything | src/http/accept.ts:65-119 | Beside `*/*`, a range `t/*` gives its weight to the offers of type t and to no others. |
| AcceptFields.ElsewhereIsRefused | src/http/accept.ts:65-119 | An offer that every range differs from, in type, subtype or a parameter, has weight 0. |
| AcceptFields.CoveringRangeDecides | src/http/accept.ts:65-119 | A range that differs from the offer in nothing it names gives the offer its weight. |
| AcceptFields.AnythingGetsTheFirst | src/http/accept.ts:410-448 | `*/*` is answered with the first offer that is a media type. |
| AcceptFields.OfferOfWritten | src/http/accept.ts:349-355 | A written range can be offered exactly when it names a type and a subtype and has no weight. |
| AcceptFields.SpoiltFieldIsAbsent | src/http/accept.ts:312-330 | A field with one member that cannot be read is answered as no field at all. |
| AcceptSelection.SelectMediaType | src/http/accept.ts:410-448 | The loop returns the specified choice; without a readable field, the first offer. |
| AcceptSelection.PickIsFirstBest | src/http/accept.ts:426-447 | The choice is the first of the offers with the highest weight, and there is none exactly when all weights are zero. |
| AcceptSelection.RangesOfMeans | src/http/accept.ts:312-330 | The ranges are exactly what the readable members say. |
| AcceptSelection.OrderDoesNotMatter | src/http/accept.ts:410-448 | Two fields with the same set of members, in any order and with any repetition, get the same answer. |
| EntityTags.ReadEntityTag | src/http/entity-tag.ts:111-133 | The scanner computes the tag at a place and where it ends. |
| EntityTags.ReadIsInverseOfFormat | src/http/entity-tag.ts:45-133 | Reading at a place gives a tag exactly when that tag's written form stands there. |
| EntityTags.WrittenTagReads | src/http/entity-tag.ts:111-138 | A written tag reads back exactly when it holds no quote, no space, no control character and nothing past U+00FF. |
| EntityTags.ParseEntityTag | src/http/entity-tag.ts:54-59 | A header is one tag exactly when, trimmed, it is that tag's written form. |
| EntityTags.DoSkipOws | src/http/entity-tag.ts:77-79 | Stops at the first character that is no space or tab. |
| EntityTags.DoSkipSeparators | src/http/entity-tag.ts:84-90 | Stops at the first character that is no space, tab or comma. |
| EntityTags.ParseEntityTagList | src/http/entity-tag.ts:73-109 | The scanning loop computes the list of tags, or nothing. |
| EntityTags.ListIsInverseOfRendering | src/http/entity-tag.ts:73-133 | A header reads as a list of tags if and only if it is those tags, at least one, with separators around them and a comma at least between any two. |
| IfMatch.ParseIfMatch | src/concurrency/etag.ts:90-117 | The loops compute the precondition or the refusal. |
| IfMatch.ToVersionIsOctetEquality | src/concurrency/etag.ts:120-124 | A tag names a version exactly when it is the text that version is written as, for 1 to 2147483647. |
| IfMatch.MatchesByStrongComparison | src/concurrency/etag.ts:90-124 | A list of strong tags admits a version if and only if one of them matches that version's own tag by strong comparison. |
| IfMatch.RefusedIff | src/concurrency/etag.ts:90-107 | A header is refused exactly when it is neither `*` nor a list, or holds a weak tag. |
| IfMatch.ServedTagRoundTrip | src/concurrency/etag.ts:67-124 | The tag served for a version, sent back, admits exactly that version. |
| ByteRanges.ParseRangeHeader | src/http/range.ts:67-90 | The loop computes the ranges listed, or nothing. |
| ByteRanges.PositionIsClamped | src/http/range.ts:120-126 | A position is read exactly below 10^15, leading zeros aside, and as 2^53 - 1 from there on. |
| ByteRanges.WrittenRangeReads | src/http/range.ts:67-117 | `bytes=first-last` and `bytes=first-` read as that range; bounds the wrong way round as none. |
| ByteRanges.WrittenSuffixReads | src/http/range.ts:67-117 | `bytes=-length` reads as the last `length` bytes. |
| ByteRanges.ListIsAnswered | src/http/range.ts:67-90 | In a list with any spacing and any empty places, one range is answered as if it stood alone; none and several are ignored. |
| ByteRanges.ServesWhatIsAsked | src/http/range.ts:149-175 | The bytes served are those asked for that exist, with start <= end < size; it is refused exactly when there are none, and throws exactly on a size that is negative or no safe integer. |
| ByteRanges.AnswersExactlyIff | src/http/range.ts:67-175 | For every size accepted, the answer is that of exact integers if and only if the header's one range neither has both bounds past 10^15 and the wrong way round, nor a position past 10^15 that falls inside the representation. |
| ByteRanges.InvertedIsLost | src/http/range.ts:92-126 | There are headers of the first kind: one is refused at every size where exact integers ignore it. |
| ByteRanges.ExactUpToTheLimit | src/http/range.ts:45-175 | The exact answer is given to all other headers for sizes up to 10^15 and for no larger size. |
| Pagination.CursorRoundTrip | src/lib/pagination.ts:60-94 | A cursor made from a row asks for what lies beyond exactly that row. |
| Pagination.PageFacts | src/lib/pagination.ts:100-115 | A page is strictly ordered, starts beyond its cursor, and skips no row up to the next page's start; it says there is a next page, and has a cursor to it, exactly when the table holds a row past it. |
| Pagination.WindowsAreDisjoint | src/lib/pagination.ts:60-115 | No two pages answer for the same key. |
| Pagination.ShownIffHeld | src/lib/pagination.ts:60-115 | In a completed walk each key has one page that answers for it, and is shown, once and there, if and only if the table held it when that page was read. |
| Pagination.PersistentRowIsShownOnce | src/lib/pagination.ts:60-115 | A key held throughout a completed walk is shown exactly once whatever else changes. |
| Pagination.WalkAscends | src/lib/pagination.ts:60-115 | However the table changes, keys shown never repeat and never go back. |
| Pagination.UnchangedTableIsShown | src/lib/pagination.ts:60-115 | On an unchanged table the pages joined are the table in order. |
| Pagination.WalkEnds | src/lib/pagination.ts:100-115 | On an unchanged table all pages but the last are full, so the walk ends. |
| KeyWords.WordsSpellTheKey | src/logging/key-policy.ts:97-106 | A key's words, joined, are the key without its separators in lower case. |
| KeyWords.KeyRuns | src/logging/key-policy.ts:97-117 | The nested loops give exactly the joins of one to four consecutive words. |
| KeySpelling.PiecesAreFound | src/logging/key-policy.ts:97-106 | A key in camel case comes apart into its words: capitalised ones, acronyms and numbers, where no two acronyms or numbers touch. |
| KeyMatcher.BuildTerms | src/logging/key-policy.ts:142-147 | The terms are the built-in ones and the normalised extra ones that are not empty. |
| KeyMatcher.SomeRunIn | src/logging/key-policy.ts:155 | The unmemoised test: some run of the key is a term. |
| KeyMatcher.SensitiveKeyMatcher.constructor | src/logging/key-policy.ts:142-149 | A matcher starts with an empty memo. |
| KeyMatcher.SensitiveKeyMatcher.IsSensitiveKey | src/logging/key-policy.ts:151-161 | Whatever is remembered or was cleared, the answer is that of the unmemoised test, and the memo keeps its cap. |
| KeyMatcher.ConfiguredKeyIsCaughtIff | src/logging/key-policy.ts:97-161 | A configured term, written as a key, catches that key if and only if the key has at most four words. |
| KeySpelling.CaughtHoweverSpelled | src/logging/key-policy.ts:97-161 | A key is caught when up to four of its words in a row spell a term, written with any separator or in camel case, numbers and acronyms included. |
| KeySpelling.FiveWordsAreMissed | src/logging/key-policy.ts:97-161 | A term configured as five or more separated words does not catch the very key it was written as. |
| KeySpelling.LongTermMissesItsOwnKey | src/logging/key-policy.ts:97-161 | The key `a-b-c-d-e` is such a key. |
| RedactorClass.Redactor.constructor | src/logging/redact.ts:193-199 | A redactor joins a policy with a matcher for its terms. |
| RedactorClass.Redactor.DoRedact | src/logging/redact.ts:200-211 | The top call gives the specified entry and leaves the stack of ancestors empty. |
| RedactorClass.Redactor.DoVisit | src/logging/redact.ts:105-187 | Pushing and popping ancestors computes the specified walk and restores the stack. |
| RedactorClass.Redactor.DoVisitNode | src/logging/redact.ts:140-187 | Dates, errors, arrays, plain and opaque objects are rendered as specified. |
| RedactorClass.Redactor.DoVisitHead | src/logging/redact.ts:83-89 | An error's name, message, stack and cause come first. |
| RedactorClass.Redactor.DoVisitItems | src/logging/redact.ts:157-163 | Elements are visited in order. |
| RedactorClass.Redactor.DoVisitProps | src/logging/redact.ts:174-182 | The loop puts each property under its scrubbed key, a marker under a sensitive one. |
| RedactionProperties.NestingIsBounded | src/logging/redact.ts:105-187 | On any graph, cycles included, a log entry nests at most `maxDepth` + 1 lists and records. |
| RedactionProperties.Noninterference | src/logging/redact.ts:82-187 | Two graphs that agree on everything reached without crossing a sensitive key give the same log entry. |
| RedactionProperties.SecretsDoNotShow | src/logging/redact.ts:169-187 | Whatever is put under a sensitive key, anywhere in the graph, no log entry changes. |
| RedactionProperties.SharedIsNotCircular | src/logging/redact.ts:132-138 | On a graph without cycles the ancestor test never bites, so an object met twice is rendered twice. |
| RedactionShows.PropertyShows | src/logging/redact.ts:169-187 | A property stands under its scrubbed key: as the marker if the key is sensitive, as its own rendering if not. |
| RedactionShows.ErrorShows | src/logging/redact.ts:83-89 | An error shows its name, its message and stack scrubbed and cut to the cap, and its cause, where no property of its own replaces them. |
| RedactionShows.ListShows | src/logging/redact.ts:157-163 | Elements up to the cap stand in their places; if there are more, one marker says how many. |
| RedactionShows.PathShows | src/logging/redact.ts:82-187 | A string at the end of a path that no sensitive key, cap or cycle cuts short stands in the entry at the end of the same path, scrubbed, and cut with an ellipsis if its scrubbed form is too long. |
| RedactionShows.LeafShows | src/logging/redact.ts:105-150 | Numbers, dates and the other values that hold nothing are written as they read; a repeated ancestor and a value too deep give way to their markers. |
| Utf8Text.Utf8Determines | src/crypto/field-cipher.ts:104-119 | Two JavaScript strings have the same UTF-8 bytes exactly when they have the same characters, stray surrogates read as U+FFFD. |
| Utf8Text.PointsInjective | src/crypto/field-cipher.ts:104-119 | Of strings without stray surrogates, the characters determine the string. |
| EnvelopeFormat.DecodeEnvelope | src/crypto/envelope.ts:101-141 | Cutting the buffer at a moving offset gives the specified parts, or the specified refusal. |
| EnvelopeFormat.DecodeOfEncode | src/crypto/envelope.ts:68-141 | An envelope comes back as written if and only if its parts have their sizes and its key id is ASCII. |
| EnvelopeFormat.EncodedLayout | src/crypto/envelope.ts:68-92 | Where each part of a stored envelope lies: version 1, the length of the key id, the key id and the six parts after it. |
| EnvelopeFormat.EncodeOfDecode | src/crypto/envelope.ts:68-141 | Stored bytes are written back unchanged if and only if no byte of their key id has its high bit set. |
| FieldCipher.ContextIsAllowedIff | src/crypto/field-cipher.ts:104-119 | A context can be serialised exactly when no part of it is empty and there is no NUL in it. |
| FieldCipher.ContextDetermines | src/crypto/field-cipher.ts:104-119 | Two contexts are serialised alike if and only if table, column and id have the same characters. |
| FieldCipher.SamePlaceIsEquality | src/crypto/field-cipher.ts:104-119 | For strings without stray surrogates that is equality of contexts. |
| FieldCipher.AadLabels | src/crypto/field-cipher.ts:134-143 | A wrap authenticates the words `dek` and `1`, its key id and the context; a payload the word `field` and the context. |
| FieldCipher.WrapAadDetermines | src/crypto/field-cipher.ts:134-139 | The data a wrap authenticates determines the key id and the context. |
| FieldCipher.AadsAreDisjoint | src/crypto/field-cipher.ts:134-143 | A wrap and a payload never authenticate the same data. |
| KeyRotation.WrappedProtects | src/crypto/field-cipher.ts:147-157 | A wrap under the active key is stored in a form that decodes to exactly itself. |
| KeyRotation.RewrapsKeepProtecting | src/crypto/field-cipher.ts:256-276 | Any number of rewraps keeps data key, nonce and payload, under the last ring's active key. |
| KeyRotation.RewrapPreservesMeaning | src/crypto/field-cipher.ts:199-282 | After any number of rewraps through rings that each still hold the key before, a value decrypts to its plaintext, its payload bytes are untouched and it needs no rewrap. |
| KeyRotation.RewrapIsDue | src/crypto/field-cipher.ts:278-282 | An envelope is due for a rewrap if and only if it names a key that is not the active one; bytes that are no envelope are refused. |
| KeyRotation.WrittenIsDue | src/crypto/field-cipher.ts:199-282 | What one ring wrote is due under another if and only if the two write under different keys. |
| KeyRotation.OpensOnlyInItsPlace | src/crypto/field-cipher.ts:104-216 | A value whose wrap opens under no other additional data opens in a place if and only if that is the place it was written for, before and after rewraps. |
| KeyRotation.BindingIsPossible | src/crypto/field-cipher.ts:134-139 | The assumption of the row above can be met: some lawful cipher binds everything sealed with given data. |

## Left out

- Express routers, middleware, the container, environment parsing, error classes, `ioredis`, BullMQ, tracing and metrics: wiring with no property of its own.
- Postgres itself: each SQL statement is one atomic step, and `SKIP LOCKED` returns unlocked due rows.
- Real timers and promises: deadlines, aborts and late deliveries are events that may come at any time.
- AES-GCM, UUIDs and random bytes: the cipher is a pair of functions that invert each other, and fresh names and nonces are parameters. Overwriting of key buffers is not modelled.
- `parseKeyring`: a ring is taken as parsed, with plain ids and an active one it holds.
- `value-patterns.ts`: the detectors are an arbitrary function on strings, so what they recognise is not modelled.
- RedactorClass.Redactor.DoRedact: does not model getters that throw while a value is walked, nor the fallback entry for that case, because what a getter does is code of the caller's.
- The order of keys in a rendered log record: records are maps.
- Strings outside field encryption are sequences of characters rather than of UTF-16 units, so lengths and cuts inside surrogate pairs are not modelled.
- Pagination.CursorRoundTrip: does not model the text of a cursor (JSON in base64url), because the codec is the platform's; a cursor is the fields it carries. Null sort values and the numbering of placeholders are left out with it.
- Conditional reads (`If-None-Match`, `If-Range`) and `Retry-After`: their branches on dates turn on the engine's own date parsing. `Content-Range` is only written, never read back.
- The `completed_at` and `last_error` columns, which nothing reads back, and the size counters of the stores.
- The stream worker and blocking reads: a read is one command with one clock reading.
- TokenFamilies.LinearChain: a refresh is modelled as its separate store steps, without user lookup and token signing, because those do not touch the store.
- The rest of the repository (uploads, sagas, caching, rate limits, ingest): not modelled.
