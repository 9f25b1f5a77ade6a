# Verified model of the outage and webhook services

A Dafny model of the parts of the repository whose guarantees are about whole runs: webhook
delivery with its circuit breaker and dispatch limiter, keyset pagination with opaque cursors,
Stellar addresses with their checksum, the audit hash chain, refresh-token families, the ledger
poller and its sanitizer, the rate limiters, and the latest-row bookkeeping of SLA results.

`dafny verify dfyconfig.toml` checks everything.

How a component is modelled:

- An object whose methods update its fields is a class with those fields. Each method is proved
  against a function on plain values (`Allow`, `FinishRow`, `AfterPoll`, `Handle`, ...), and the
  properties are lemmas about every run of those functions. Loops of the source are loops.
- Concurrency is a state machine over the steps other workers can see: a call of the breaker, a
  conditional update of a delivery row, one semaphore operation, one Redis command, one statement
  of an audit transaction. Runs are arbitrary interleavings with crashes where a crash is possible.
- SQL tables are sequences or maps of rows. Redis keys are values with an expiry time. Clock
  readings are real numbers that never run back. Hashes are arbitrary functions, injective where a
  result needs it. Fresh tokens are numbers from one counter.
- What is outside (replies of a server or a database, handler verdicts, the order of rows where a
  query does not fix one) is an argument or an arbitrary choice.

## Files

| file | content |
|---|---|
| `Common.dfy` | options, pruned lists of time stamps, strings |
| `Breaker.dfy`, `BreakerAdmission.dfy` | the circuit breaker, one process and many, with the shared marker; when a request is let through |
| `Delivery.dfy`, `DeliveryHistory.dfy`, `DeliveryFate.dfy` | the life of a delivery; what its row says about its past; what can still happen to it |
| `DispatchLimiter.dfy` | the two-level semaphore |
| `Codec.dfy`, `Cursor.dfy` | bit groups and base64url (RFC 4648); JSON text of a cursor |
| `Pagination.dfy` | pages and walks of the outage list |
| `Crc16.dfy`, `StrKey.dfy` | the checksum as a linear register and as polynomial division; SEP-0023 addresses |
| `AuditChain.dfy`, `AuditProgress.dfy` | verifier, backfill, concurrent writers; that every writer can commit |
| `TokenFamilies.dfy`, `TokenLife.dfy` | sessions and refresh-token families; what the tokens handed out are good for, and until when |
| `Poller.dfy` | the polling loop |
| `JsonTree.dfy`, `JsonText.dfy` | JSON values, the length of their text, and the text itself |
| `Sanitizer.dfy`, `SanitizerMeaning.dfy` | cleaning of untrusted blocks; what is accepted and what becomes of it, node by node |
| `RateLimiters.dfy` | sliding windows, per-key dictionaries, the fixed window in Redis |
| `SlaLatest.dfy`, `SlaReports.dfy` | the latest mark, its backfill, the two reports; what a write changes and a report counts |

## Where the code and the expectation differ

- **Breaker marker.** A worker that has the host OPEN since before another worker publishes the
  marker keeps its own, earlier, reset time, so the marker does not hold it off for the full reset
  period. `Breaker.MarkerHoldsWorkerIff` gives the exact condition, `MarkerMissesOpenWorker` a run.
- **Deliveries in BREAKER_OPEN.** The sweep selects them (`webhook_service.py:515`) but the claim
  refuses them (`webhook_service.py:354`). `DeliveryFate.AttemptedIff` says exactly which deliveries
  can still be attempted: neither these nor those whose worker crashed while sending. They also keep
  their due times, so a batch of them that is due shuts out every later retry:
  `LaterRetrySweptIff` is the exact condition, and `DeferredBatchIsReached` a run to it for every
  batch size.
- **Interrupted waiters.** A thread interrupted while it waits for a webhook's semaphore gives back a
  permit it never took (`webhook_service.py:135-138`). The limit of that webhook then grows by one,
  up to the global limit: `DispatchLimiter.LimitsHold` and `InterruptsLiftTheLimit` are the bound and
  the runs that fill it, `NoInterruptNoExtra` the case without.
- **Descending walks.** The cursor filter compares ids downward while rows are ordered by ascending
  id. `Pagination.DescendingWalkIff` shows the walk is exact if and only if no page ends on a row
  that shares its value with the row before or after it in the order, wherever that row is; if the
  one after is equal a row is lost (`DescendingWalkLosesTie`), if the one before is, a row is
  returned twice (`DescendingWalkRepeatsTie`).
- **Sanitized blocks.** The added field `sequence` can take a block past the limit on keys, on the
  length of a key, or on the length of the JSON text, and the block then fails its own checks.
  `Sanitizer.AcceptedBlockAgainIff` gives the exact condition; `OneKeyTooMany` and `TextTooLong`
  are payloads.
- **Refresh.** A rotated session is numbered two above the family's old counter, because the counter
  is read after its increment (`auth_store.py:343`, `auth_store.py:358`); the reuse branch is out of
  reach in every sequential run (`TokenFamilies.RefreshOutcomes`). Expiry is not consulted on refresh:
  `RefreshIgnoresExpiry` for every expired session, `ExpiredLoginIsRefreshed` for one.
- **Fixed event window.** The comment promises a budget per window; in an arbitrary interval of that
  length the bound is one less than twice the limit, and that is reached for every limit and window
  (`FixedWindow.BoundIsReached`).

## Model

| member | source | states |
|---|---|---|
| `Breaker.ProbeFlagMeansHalfOpen` | app/services/webhook_breaker.py:96-156 | after any calls, a host is HALF_OPEN exactly when its probe flag is set |
| `Breaker.OneProbePerTrip` | app/services/webhook_breaker.py:112-127 | from OPEN, any number of requests lets in at most one, and none before the reset time; from HALF_OPEN none |
| `Breaker.ClosedListIsWindow` | app/services/webhook_breaker.py:61-66 | while CLOSED the pruned list is every failure since the last success or reset, cut to the window ending at the latest failure |
| `Breaker.FailureTripsAtThreshold` | app/services/webhook_breaker.py:61-72 | a failure trips a CLOSED host if and only if it is the threshold-th in one window, which never holds more |
| `Breaker.WorkersAreIndependent` | app/services/webhook_breaker.py:37-51 | in every interleaving a worker's memory of a host is what its own calls alone leave |
| `Breaker.EveryRunKeepsProbeInv` | app/services/webhook_breaker.py:96-144 | the probe flag law holds for every worker and host in every interleaving |
| `Breaker.MarkerHolds` | app/services/webhook_breaker.py:73-110 | a live marker keeps a worker that is not already OPEN earlier from every request until reset seconds after it was published, in every interleaving without a success |
| `Breaker.MarkerHoldsWorkerIff` | app/services/webhook_breaker.py:61-127 | after a publication at t, a worker is held off until t + reset in every quiet continuation if and only if it does not have the host OPEN since before t |
| `Breaker.MarkerMissesOpenWorker` | app/services/webhook_breaker.py:99-116 | a reachable run in which an already OPEN worker probes before the published marker's deadline |
| `BreakerAdmission.HealthyAdmitsIff` | app/services/webhook_breaker.py:96-127 | after any timed calls with no marker seen and fewer than the threshold of failures in every window since the last success or reset, a request is let through if and only if it finds no marker, or is decided the reset time or more after it adopted it |
| `BreakerAdmission.TripAdmitsIff` | app/services/webhook_breaker.py:61-127 | after a trip at t and any requests decided before t + reset, a request is let through if and only if it is decided at t + reset or later |
| `BreakerAdmission.MarkerAdmitsIff` | app/services/webhook_breaker.py:101-127 | the same from the moment at which a marker was adopted |
| `BreakerAdmission.LateFailureAdmitsIff` | app/services/webhook_breaker.py:61-144 | a failure reported while OPEN restarts the reset time if the window then holds the threshold, and otherwise leaves it |
| `BreakerAdmission.FailedProbeAdmitsIff` | app/services/webhook_breaker.py:112-144 | while the probe is out nothing else is let through; if it fails at u, the next request is let through if and only if it is decided at u + reset or later |
| `BreakerAdmission.FailureOpensIff` | app/services/webhook_breaker.py:61-72 | a failure of a CLOSED host opens it, as of then, if and only if the failures of the window, this one included, reach the threshold |
| `BreakerAdmission.AnyFailureOpensIff` | app/services/webhook_breaker.py:61-144 | in whatever state the calls have left: a failure of the probe reopens without publishing; any other opens as of then and publishes if and only if the recorded failures of the window reach the threshold, and otherwise leaves the phase and the time of opening |
| `BreakerAdmission.OpenAdmitsIff` | app/services/webhook_breaker.py:112-127 | from every state in which the host is OPEN since t, after any requests decided before t + reset, a request is let through if and only if it is decided at t + reset or later |
| `BreakerAdmission.HealthyWorkerAdmitsIff` | app/services/webhook_breaker.py:96-127 | the first of these for any worker in every interleaving, the marker being the one other workers left in Redis |
| `BreakerAdmission.TrippedWorkerAdmitsIff` | app/services/webhook_breaker.py:112-127 | the second for any worker in every interleaving |
| `BreakerAdmission.HealthyWorkerPublishesIff` | app/services/webhook_breaker.py:68-77 | in every interleaving a failure of a healthy host publishes the marker if and only if it reaches the threshold and Redis is up |
| `Breaker.CircuitBreaker.AllowRequest` | app/services/webhook_breaker.py:96-127 | the four dictionaries change for this host as the one-host machine does, the answer is its answer, other hosts stay |
| `Breaker.CircuitBreaker.OnSuccess` | app/services/webhook_breaker.py:79-89 | the host is CLOSED with no failures, the marker is gone, other hosts stay |
| `Breaker.CircuitBreaker.OnFailure` | app/services/webhook_breaker.py:134-144 | a failed probe reopens without publishing; any other failure is recorded and publishes if it trips |
| `Breaker.CircuitBreaker.Reset` | app/services/webhook_breaker.py:150-156 | the host is forgotten, other hosts stay |
| `Delivery.EveryRunIsSafe` | app/services/webhook_service.py:348-423 | in every interleaving with crashes no two workers send one delivery, a reporting worker finds its row SENDING, and claims since creation or replay equal attempt_count and stay within the budget plus one |
| `DeliveryHistory.RowTellsItsStory` | app/services/webhook_service.py:348-423 | in every run a row is SUCCESS if and only if the last report of its holder since creation or replay was a delivery, BREAKER_OPEN if and only if it was deferred, RETRYING or DEAD_LETTER if and only if it was refused, by the number of attempts; PENDING and SENDING likewise; a retry is due when the last refusal said |
| `DeliveryHistory.RowKeepsFitting` | app/services/webhook_service.py:348-423 | how one event of any worker moves that story on |
| `DeliveryHistory.SettledIgnoresReports` | app/services/webhook_service.py:375-377 | a worker that finds its delivery delivered or dead leaves every row as it is |
| `DeliveryHistory.ReplayStartsAfresh` | app/services/webhook_service.py:545-572 | a replay makes a dead letter a new delivery, and touches nothing else |
| `Delivery.SettledIsFinal` | app/services/webhook_service.py:350-392 | once SUCCESS or BREAKER_OPEN, no attempt ever starts again and the row never changes |
| `Delivery.RefusalsUseTheBudget` | app/services/webhook_service.py:394-415 | a delivery that is always refused is retried exactly budget times and then dead-lettered: the bound is reached |
| `Delivery.DeliveryTable.DispatchDelivery` | app/services/webhook_service.py:348-423 | one dispatch is a claim step and a report step of the machine |
| `Delivery.DeliveryTable.RetryPendingDeliveries` | app/services/webhook_service.py:505-528 | for any list the query may return, the sweep is the dispatches of that list in order, and the count is its length, at most the batch size |
| `Delivery.DueListExists` | app/services/webhook_service.py:511-521 | the query (due RETRYING and BREAKER_OPEN rows, earliest first, cut to the batch, ties in any order) always has an answer |
| `Delivery.SweptForCertainIff` | app/services/webhook_service.py:511-521 | a due row is in every answer of the query if and only if fewer rows than the batch size are due no later, BREAKER_OPEN ones counted |
| `Delivery.DeferredRowsBlockTheSweep` | app/services/webhook_service.py:511-528 | once a batch of BREAKER_OPEN rows is due by t, no later sweep in any run selects a row that becomes due after t |
| `DeliveryFate.AttemptedIff` | app/services/webhook_service.py:349-423 | in every state that keeps the invariant, some continuation attempts a delivery if and only if it is PENDING or RETRYING, is a dead letter, or is SENDING with a worker that may still report |
| `DeliveryFate.DeferredBatchIsReached` | app/services/webhook_service.py:316-320 | for every batch size a run leaves that many BREAKER_OPEN rows due, none of which is ever attempted again |
| `DeliveryFate.LaterRetrySweptIff` | app/services/webhook_service.py:505-528 | from any state that keeps the invariant, some continuation sweeps a retry due after t if and only if there are delays and fewer BREAKER_OPEN rows than the batch size are due by t |
| `Delivery.DeliveryTable.ReplayDeadLetterDelivery` | app/services/webhook_service.py:545-572 | a replay restarts exactly a dead letter and dispatches it, and otherwise changes nothing |
| `DispatchLimiter.InitialInv` | app/services/webhook_service.py:116-120 | both limits are the given ones or one, and every permit is in its semaphore |
| `DispatchLimiter.StepKeepsInv` | app/services/webhook_service.py:122-139 | every step keeps each permit either in its semaphore or with a thread |
| `DispatchLimiter.LimitsHold` | app/services/webhook_service.py:130-139 | in every interleaving, interruptions included, the threads inside never exceed the global limit, nor any webhook's limit and the permits wrongly given back for it |
| `DispatchLimiter.NoInterruptNoExtra` | app/services/webhook_service.py:130-139 | without interruptions both limits hold as they are |
| `DispatchLimiter.InterruptsLiftTheLimit` | app/services/webhook_service.py:135-139 | for all limits and every number of interrupted waiters a run fills the bound: the webhook's limit plus that number, or the global limit |
| `DispatchLimiter.EveryWaiterCanEnter` | app/services/webhook_service.py:130-139 | from every reachable state each waiting thread has a continuation in which it gets inside: no deadlock |
| `DispatchLimiter.InterruptEndsTheWait` | app/services/webhook_service.py:130-139 | what an interruption does where the thread is, the wrongly returned permit included |
| `Base64Url.PaddingComesBack` | app/utils/cursor.py:64 | stripping the padding and padding to a multiple of four restores the padded text of section 5 of RFC 4648, for every byte string |
| `Base64Url.StrippedRoundTrip` | app/utils/cursor.py:48-65 | every byte string survives encoding, stripping, padding and decoding |
| `Base64Url.VectorOfF` | app/utils/cursor.py:48 | the test vector of section 10 of RFC 4648 for the byte f |
| `Codec.RoundTrip` | app/services/stellar_keypair_generator.py:24 | every byte string survives regrouping into k-bit symbols and back |
| `Cursor.StringRoundTrip` | app/utils/cursor.py:47-66 | every string survives JSON escaping (short names, \u escapes, surrogate pairs) and parsing |
| `Cursor.CursorRoundTrip` | app/utils/cursor.py:37-68 | decode_cursor(encode_cursor(id, v)) is (id, v) for all strings |
| `Cursor.PayloadIs` | app/utils/cursor.py:47 | for an id and a value in plain characters, the JSON text in the cursor, character by character |
| `Cursor.SurrogatesAre` | app/utils/cursor.py:47 | characters beyond the basic plane are escaped as their two surrogates |
| `Cursor.HexDigitsAre` | app/utils/cursor.py:47 | an escape holds the four hexadecimal digits of its number |
| `Pagination.OpaqueCursorIsLastRow` | app/repositories/outage_repository.py:150-185 | the next cursor of any page decodes to the last row of that page |
| `Pagination.OpaqueWalkIsWalk` | app/repositories/outage_repository.py:150-185 | a client that sends back the opaque strings collects, over tables that change between pages, exactly the walk that follows the last rows |
| `Pagination.PageContract` | app/repositories/outage_repository.py:156-173 | a page holds, in order of value and then id and without repeats, the first rows past the cursor, and has_more, like a next cursor, says whether more are past it |
| `Text.LessIff` | app/repositories/outage_repository.py:156-168 | the comparison of sort values and ids is the usual one of strings: the first difference decides |
| `Pagination.CursorAdvances` | app/repositories/outage_repository.py:161-179 | along an ascending walk the cursor strictly increases |
| `Pagination.AscendingWalk` | app/repositories/outage_repository.py:147-185 | an ascending walk over tables that change between pages returns strictly increasing rows, each past the cursor |
| `Pagination.WalkInOrder` | app/repositories/outage_repository.py:147-185 | in either direction, where the filter agrees with the order, a walk over changing tables returns rows in order, each past the cursor and from the tables |
| `Pagination.StableRowExactlyOnce` | app/repositories/outage_repository.py:147-185 | a row present in every table of a finished walk over opaque cursors is returned exactly once: upward always, downward if no two rows the tables ever hold share a sort value |
| `Pagination.AscendingFixedWalk` | app/repositories/outage_repository.py:161-185 | over a fixed table the ascending walk is the sorted table, for every page size |
| `Pagination.DescendingWalkIff` | app/repositories/outage_repository.py:156-168 | over a fixed table the descending walk is the sorted table if and only if no page ends on a row that shares its value with a neighbour in the order; otherwise it does not even return every row exactly once |
| `Pagination.DistinctValuesAreUntied` | app/repositories/outage_repository.py:156-168 | pairwise distinct values meet that condition for every page size |
| `Pagination.DescendingWalkLosesTie` | app/repositories/outage_repository.py:156-168 | a table with a tie on which the descending walk misses a row |
| `Pagination.DescendingWalkRepeatsTie` | app/repositories/outage_repository.py:156-168 | a table on which a page ends between different values and the walk still is not exact, the last row being tied with the one before it |
| `Crc16.Crc16XModem` | app/utils/stellar_checksum.py:6-12 | the two nested loops on numbers compute the value of the bit-list fold that the laws below are about, a sixteen-bit number |
| `Crc16.WordMeaning` | app/utils/stellar_checksum.py:9-11 | the bit-list operations are those on numbers: exclusive or with the byte times 256, and the turn of the inner loop decided by bit 0x8000, with 0x1021 and the cut to sixteen bits |
| `Crc16.CrcIsSerial` | app/utils/stellar_checksum.py:6-12 | the byte-wise loop is a bit-serial linear register fed with the message bits |
| `ShiftRegister.Laws` | app/utils/stellar_checksum.py:11 | the zero-input step is xor-linear and injective |
| `ShiftRegister.BurstDetected` | app/utils/stellar_checksum.py:8-12 | messages of equal length that differ only inside sixteen consecutive bits have different checksums |
| `Crc16.BurstChangesCrc` | app/utils/stellar_checksum.py:6-12 | for payloads of any equal length, changing one byte or two adjacent bytes changes the CRC |
| `Crc16.CrcIsPolynomialRemainder` | app/utils/stellar_checksum.py:6-12 | the CRC is the remainder, and the only one, of the message times x^16 by x^16 + x^12 + x^5 + 1 |
| `StrKey.Base32RoundTrip` | app/services/stellar_keypair_generator.py:24 | base32 of section 6 of RFC 4648 without padding decodes to the same bytes |
| `StrKey.LittleEndianRoundTrip` | app/utils/stellar_checksum.py:15-18 | reading the two checksum bytes little-endian gives back the CRC they were written from |
| `StrKey.NormalizeCanonical` | app/utils/wallet_address.py:31-71 | for any Unicode upper-casing that is the usual one on ASCII: an input is accepted if and only if its stripped upper case is canonical, a canonical address is unchanged, and normalising twice is normalising once |
| `StrKey.NormalizeErrors` | app/utils/wallet_address.py:44-71 | which error an input is refused with: the first of the four checks that fails |
| `Text.StripMeans` | app/utils/wallet_address.py:44 | stripping takes all whitespace from both ends and nothing else |
| `StrKey.CaseAndSpaceIgnored` | app/utils/wallet_address.py:44-49 | an address in any mix of cases and with surrounding whitespace is normalised to its canonical form |
| `StrKey.GeneratedKeyIsValid` | app/services/stellar_keypair_generator.py:15-24 | for every 32-byte key the address has 56 characters, is accepted unchanged by normalize, and decodes to version, key and a checksum that checks |
| `StrKey.ChecksumMeansCodeword` | app/utils/stellar_checksum.py:15-18 | has_valid_checksum holds if and only if the bits, checksum bytes swapped, leave the register at zero |
| `StrKey.MistypedCharacterIsNoticed` | app/utils/stellar_checksum.py:15-18 | changing any one character of an address that checks gives one that does not |
| `AuditChain.VerifyChain` | app/services/audit_log.py:102-132 | verified if and only if the table is a good chain; otherwise first_bad_id names the first entry that breaks it; total and last hash are the table's |
| `JsonText.TextDeterminesTree` | app/services/formatters.py:5-7 | two trees of JSON values, keys sorted, with the same json.dumps text are the same tree |
| `JsonText.SizeIsLength` | app/services/block_poller_hardening.py:219-221 | the size payloads are measured by is the length in UTF-8 of that text |
| `JsonText.SampleText` | app/services/formatters.py:5-7 | the text of one small tree, character by character |
| `AuditChain.HashedTextInjective` | app/services/audit_log.py:37-44 | the canonical JSON text that is hashed determines the previous hash and every hashed field, so injective hashes exist |
| `AuditChain.CollisionFreeDigest` | app/services/audit_log.py:44-45 | a digest without collisions over that text is an injective hash |
| `AuditChain.BackfillMakesChain` | alembic/versions/0017_audit_chain.py:37-63 | the backfill turns any table into a good chain and changes nothing but the two hash columns |
| `AuditChain.Backfill` | alembic/versions/0017_audit_chain.py:37-63 | the loop over the rows in place computes that table |
| `AuditChain.LastHashFixesTheLog` | app/services/audit_log.py:29-45 | with an injective hash two good chains with the same last hash have equal length and equal hashed fields entry by entry |
| `AuditChain.AlterationUnnoticedIff` | app/services/audit_log.py:102-132 | replacing one entry of a good chain goes unnoticed if and only if the new entry carries the right hashes itself and, unless it is the last, keeps the hash its successor refers to |
| `AuditChain.AlteredFieldIsNamed` | app/services/audit_log.py:119-125 | with an injective hash, an entry before the last can change unnoticed if and only if its hashed fields and hashes stay; altering a hashed field of entry i alone makes the verifier name entry i |
| `AuditChain.HashesAreDistinct` | app/services/audit_log.py:29-45 | no two entries of a good chain share a hash |
| `AuditChain.WritersKeepOneChain` | app/services/audit_log.py:47-81 | with any number of concurrent writers, locks, commits and aborts, every reachable table is one good chain that extends the first with exactly the committed requests in order |
| `AuditProgress.EveryCallCanCommit` | app/services/audit_log.py:47-81 | each call under way has a continuation after which its own request is the last row, and before it at most the row of the call that had the lock: no deadlock, also after rollbacks |
| `AuditProgress.EveryReachedCallCanCommit` | app/services/audit_log.py:47-81 | so it is in every state of every run that starts from a good log with no calls and a free lock |
| `AuditProgress.EveryRequestCanBeWritten` | app/services/audit_log.py:47-81 | a call may begin in every such state, and its request can become the last row |
| `AuditProgress.AddTakesTheNextId` | app/services/audit_log.py:47-81 | rows take consecutive ids as they are added, and nothing else takes one |
| `AuditProgress.RunKeepsLock` | app/core/lock.py:93-114 | in every run the lock is taken exactly while the call of its holder is under way and past waiting |
| `AuditChain.BackfilledStart` | app/core/lock.py:93-114 | the same from any table the migration rewrote |
| `TokenFamilies.EveryRunKeepsFamilies` | app/services/auth_store.py:187-205 | in every sequential run a family has at most one session, which is not behind it, and no family is compromised |
| `TokenFamilies.RefreshOutcomes` | app/services/auth_store.py:285-347 | refresh never reports reuse, compromise or a missing family; it rotates if and only if the token is live, the account unlocked and the user there |
| `TokenFamilies.RefreshIgnoresExpiry` | app/services/auth_store.py:285-342 | in every state that keeps the invariant, the refresh token of an expired session rotates although its access token is refused |
| `TokenFamilies.ExpiredLoginIsRefreshed` | app/services/auth_store.py:285-342 | such a session right after a login |
| `TokenFamilies.SpentStaysSpent` | app/services/auth_store.py:223-290 | tokens that no session answers to are never accepted again, on either path, whatever follows |
| `TokenFamilies.EndedSessionIsSpent` | app/services/auth_store.py:342-344 | rotation, logout, logout-all, expiry and a refused access each spend both tokens of the session for good |
| `TokenLife.LoginGivesWorkingTokens` | app/services/auth_store.py:187-205 | the two tokens of a login are new and different; the access token acts for the account until the expiry and not after, the refresh token rotates unless the account is locked or the user gone |
| `TokenLife.RefreshGivesWorkingTokens` | app/services/auth_store.py:342-372 | the same of the two tokens a refresh hands out, for the same account and family |
| `TokenLife.RefreshCounts` | app/services/auth_store.py:299-362 | a refresh moves the counter of the family on by one and numbers the new session two above the old counter; a session without a family is given one first; if the user is gone only the counter moves and the old session goes |
| `TokenLife.ReuseEndsTheFamily` | app/services/auth_store.py:308-340 | in any tables, also those no sequential run reaches: which of the refusals a token gets, and that reuse compromises the family and deletes all its sessions and no other |
| `TokenLife.WorkUntilEnded` | app/services/auth_store.py:223-392 | after any run the tokens still work if and only if no event of it ended their session: its own rotation, a logout, a logout of the account, a refused access, the clean-up after the expiry |
| `TokenLife.StepKeepsSession` | app/services/auth_store.py:223-392 | every other event leaves the session as it is |
| `TokenFamilies.AuthStore.LoginUser` | app/services/auth_store.py:187-205 | a login adds one family and one session with fresh tokens and keeps the invariant |
| `TokenFamilies.AuthStore.GetUserForToken` | app/services/auth_store.py:223-270 | a user is returned if and only if the session is live, unexpired, its family not revoked and the user there; otherwise a refused session is deleted |
| `TokenFamilies.AuthStore.RefreshToken` | app/services/auth_store.py:279-375 | the tables and the outcome are those of the specification, the invariant kept |
| `TokenFamilies.AuthStore.LogoutSession` | app/services/auth_store.py:384-392 | exactly the token's session goes |
| `TokenFamilies.AuthStore.LogoutAllSessions` | app/services/auth_store.py:442-449 | exactly the account's sessions and families go, and the count is that of the sessions |
| `TokenFamilies.AuthStore.DeleteExpiredSessions` | app/repositories/session_repository.py:70-84 | the batches together delete exactly the expired sessions and the total says how many, whatever the batch order; a batch size of zero deletes none |
| `TokenFamilies.AuthStore.DeleteOrphanedFamilies` | app/repositories/token_family_repository.py:70-89 | the batches together delete exactly the families without a session |
| `Poller.EveryRunHandlesInOrder` | app/services/block_poller.py:309-385 | under arbitrary fetch and handler failures the handled blocks are the chain up to a point, without gap or repeat, and the cursor names the last |
| `Poller.EnoughGoodPollsHandleAll` | app/services/block_poller.py:309-385 | as many good polls as blocks are left handle all of them, wherever failures fall |
| `Poller.PageContinues` | app/services/block_poller.py:387-393 | at the cursor of the n-th block an honest source serves the blocks from n on, up to the batch size |
| `Poller.PollOutcome` | app/services/block_poller.py:309-385 | exactly what one poll does: no page counts as a failure and handles nothing; of a page, the next blocks of the chain, those up to the first rejection are handled |
| `Poller.FailuresCountTheTail` | app/services/block_poller.py:325-366 | after any run the failure counter is the number of polls that failed since the last that did not |
| `Poller.DelayDoubles` | app/services/block_poller.py:414-417 | each wait is twice the one before, up to the cap |
| `Poller.Deciding` | app/services/block_poller.py:390-412 | the fetch is decided by the first attempt that is not a retryable failure, or by the last |
| `Poller.DelayGrows` | app/services/block_poller.py:414-417 | waits start at the base, never shrink and never pass the cap |
| `Poller.BlockPoller.FetchWithRetry` | app/services/block_poller.py:387-433 | at most max_attempts fetches, one wait between each two, the first the base and each next one doubled up to the cap; only retryable failures before the deciding attempt, and a failure before the last attempt is not retryable |
| `Poller.BlockPoller.HandlePage` | app/services/block_poller.py:325-366 | blocks before the first rejected one are handled and the cursor is past exactly those; a rejection is recorded, a full page clears the failures |
| `Poller.BlockPoller.PollOnce` | app/services/block_poller.py:309-385 | one poll is the specification's poll, with the cursor, counter, last error and handled blocks |
| `Sanitizer.SanitizeIsIdempotent` | app/services/block_poller_hardening.py:148-216 | at every depth the result is clean, exactly the clean trees come back unchanged, and sanitising the result again returns it |
| `SanitizerMeaning.CleanIff` | app/services/block_poller_hardening.py:148-216 | a tree is clean if and only if every node, at the end of every path, is within the depth and by itself in order: finite, short, free of control characters, with short distinct keys that are not blank |
| `SanitizerMeaning.StrippedNodes` | app/services/block_poller_hardening.py:148-216 | the stripped tree has the same nodes, each with its control characters gone and nothing else changed |
| `SanitizerMeaning.PlainIff` | app/services/block_poller_hardening.py:149-150 | no null character is found if and only if no text or key of any node has one |
| `SanitizerMeaning.RemoveControlIs` | app/services/block_poller_hardening.py:151 | control characters are removed one by one, the others stay in order |
| `Sanitizer.SanitizeValue` | app/services/block_poller_hardening.py:189-216 | the one-pass recursion accepts exactly the trees whose stripped form is within every limit and that hold no null character, and returns the stripped form |
| `Sanitizer.SanitizeMapping` | app/services/block_poller_hardening.py:170-180 | the same for a dictionary, with duplicate keys after stripping refused |
| `Sanitizer.SanitizeList` | app/services/block_poller_hardening.py:183-186 | the same for lists and tuples |
| `Sanitizer.SanitizeIdentifiers` | app/services/block_poller_hardening.py:254-275 | the loop over the five fields cleans every identifier in its place, or fails if one cannot be cleaned |
| `Sanitizer.SanitizeTransactionList` | app/services/block_poller_hardening.py:282-297 | every transaction of a list is cleaned in its place, or the block fails |
| `Sanitizer.SanitizeBlockPayload` | app/services/block_poller_hardening.py:300-315 | the whole pipeline, with the length of the JSON text computed from the payload, gives the specified block |
| `SanitizerMeaning.AcceptedIff` | app/services/block_poller_hardening.py:300-315 | exactly which payloads are accepted |
| `SanitizerMeaning.BlockBecomes` | app/services/block_poller_hardening.py:300-315 | the accepted block field by field: sequence, identifiers and transactions cleaned, everything else the stripped payload, in its order |
| `SanitizerMeaning.TransactionsBecome` | app/services/block_poller_hardening.py:282-297 | the transactions keep number and order, and only their identifiers are cleaned |
| `SanitizerMeaning.SequenceIff` | app/services/block_poller_hardening.py:231-251 | which of the three fields gives the sequence, and which numbers and texts are taken |
| `SanitizerMeaning.DecimalReads` | app/services/block_poller_hardening.py:243 | the text of every number is read back as that number |
| `SanitizerMeaning.GrammarIs` | app/services/block_poller_hardening.py:32 | the grammar of identifiers |
| `Sanitizer.AcceptedBlockIsGood` | app/services/block_poller_hardening.py:300-315 | every accepted block respects depth, length and collection limits of its values, has no control characters, a sequence in 0..2^63-1 taken from the payload, grammatical identifiers in the block and each transaction, and every other field is the payload's, stripped |
| `Sanitizer.AcceptedBlockSize` | app/services/block_poller_hardening.py:219-228 | the JSON text of an accepted block is no longer than the payload's, but for the 12 characters and the digits of the field sequence where it had to be added |
| `Sanitizer.AcceptedBlockAgainIff` | app/services/block_poller_hardening.py:300-315 | an accepted block is within every limit, and is accepted again unchanged, if and only if its payload had the key sequence, or there was room for the key and the longer text is within the size limit |
| `Sanitizer.CleanPayloadAgainIff` | app/services/block_poller_hardening.py:300-315 | for a payload that needs no cleaning and lacks the key sequence, its block is accepted again if and only if there is room for the key and the payload's own text leaves room for 12 characters and the digits of the number |
| `Sanitizer.OneKeyTooMany` | app/services/block_poller_hardening.py:312 | a payload whose accepted block has one key more than is allowed |
| `Sanitizer.TextTooLong` | app/services/block_poller_hardening.py:312 | a payload of the maximum size whose accepted block is past it |
| `SlidingWindow.NoWindowOverLimit` | app/services/block_poller_hardening.py:96-109 | no interval of one window's length holds more grants than the limit, for every run |
| `SlidingWindow.GrantsAreSpaced` | app/services/block_poller_hardening.py:96-109 | each grant comes a whole window after the one limit places before |
| `SlidingWindow.GrantedIff` | app/services/block_poller_hardening.py:101-109 | in every run a request is granted if and only if the number of grants less than a window old is below the limit |
| `SlidingWindow.SlidingWindowRateLimiter.DiscardExpired` | app/services/block_poller_hardening.py:96-99 | popping from the left leaves exactly the stamps of the window |
| `SlidingWindow.SlidingWindowRateLimiter.TryAcquire` | app/services/block_poller_hardening.py:101-109 | grants if and only if the number of grants ever made that lie in the last window is below the limit |
| `KeyedWindows.SweepingChangesNothing` | app/core/rate_limiter.py:122-150 | pruning and sweeping, whenever they happen, never change a decision: every run decides as a limiter that forgets nothing |
| `KeyedWindows.NoKeyOverLimit` | app/core/rate_limiter.py:122-131 | in every run of the pruning and sweeping limiter no key is granted more than the limit in any interval of one window's length |
| `KeyedWindows.SweepsAboveThreshold` | app/services/event_listener_rate_limit.py:61-72 | a request that finds more subscribers than the threshold leaves no stale one but its own, any other leaves all |
| `KeyedWindows.CullStale` | app/core/rate_limiter.py:145-150 | deleting one by one removes exactly the stale keys and counts them |
| `KeyedWindows.SimpleRateLimiter.IsAllowed` | app/core/rate_limiter.py:122-131 | grants if and only if the number of grants the key ever had that lie in the window is below the limit; the dictionary is the specified one |
| `KeyedWindows.EventRateLimiter.AllowLocal` | app/services/event_listener_rate_limit.py:61-72 | the same for the local path of the event limiter |
| `KeyedWindows.EventRateLimiter.CullExpired` | app/services/event_listener_rate_limit.py:142-160 | a sweep removes exactly the stale subscribers and nothing a later request would count |
| `FixedWindow.BudgetHolds` | app/services/event_listener_rate_limit.py:74-83 | in every interleaving of workers and crashes an epoch grants at most the limit, epochs start at least a window apart, and any half-open interval of window length holds at most twice the limit less one |
| `FixedWindow.BoundIsReached` | app/services/event_listener_rate_limit.py:74-83 | for every limit and window a run reaches that bound |
| `FixedWindow.CompletedCallArms` | app/services/event_listener_rate_limit.py:74-83 | a completed call leaves the key with an expiry, whether or not an earlier one crashed before setting it: the budget comes back |
| `FixedWindow.AnswerIff` | app/services/event_listener_rate_limit.py:74-83 | a call is granted if and only if the life of the key it falls in has had fewer than the limit; a dead key starts a new life |
| `FixedWindow.SharedBudget.AllowRedis` | app/services/event_listener_rate_limit.py:74-83 | a call is three steps of the machine and is answered yes exactly when the machine logs a grant |
| `SlaLatest.EveryRunKeepsOneLatest` | app/repositories/sla_repository.py:54-125 | every run of create and create_if_changed keeps at most one latest row per outage and changes nothing of a stored row but its mark |
| `SlaLatest.HashIsNeverRepeated` | app/repositories/sla_repository.py:62-67 | no run adds a row for an outage and compute_hash that is already stored |
| `SlaLatest.CreateIsIdempotent` | app/repositories/sla_repository.py:62-67 | creating the same hashed result again changes nothing |
| `SlaReports.CreateAddsTheLatest` | app/repositories/sla_repository.py:54-105 | a known hash adds nothing; any other result becomes the last row, with the next id, as the only latest row of its outage, and every other row stays |
| `SlaReports.ChangeAddsUnlessSame` | app/repositories/sla_repository.py:107-145 | create_if_changed leaves the table as it is if and only if the hash is known or the current row equals the payload; otherwise it is create |
| `SlaLatest.BackfillLeavesOne` | alembic/versions/0012_sla_latest_backfill.py:41-58 | any table ends with at most one latest row per outage, one wherever there was any, and nothing but marks changed |
| `SlaReports.BackfillKeepsTheHighest` | alembic/versions/0012_sla_latest_backfill.py:41-58 | a mark stays if and only if no marked row of the outage has a higher id |
| `SlaLatest.ReportsAgreeIff` | app/repositories/sla_repository.py:155-259 | given the foreign key, both reports count the same outages if and only if no outage has two of the selected rows, and then the violations agree |
| `SlaLatest.ReportsAgreeAfterEveryRun` | app/repositories/sla_repository.py:155-259 | after the backfill and any run of writes both reports give the same totals for the same window and filters |
| `SlaReports.PerformanceCounts` | app/repositories/sla_repository.py:155-211 | on any table the performance report counts the outages with a latest row in the window that pass the filters, and as violations those whose newest such row is violated |
| `SlaReports.DashboardCounts` | app/repositories/sla_repository.py:213-259 | on any table the dashboard counts those rows themselves |
| `SlaReports.ReportsCountOutages` | app/repositories/sla_repository.py:155-259 | after the backfill and any run of writes both totals are the size of the set of outages whose latest row is in the window and passes the filters, and of those among them whose latest row is violated |
| `SlaLatest.SlaRepository.Store` | app/repositories/sla_repository.py:54-105 | the table is the specified one; the returned row is the stored one with the hash, or the new latest row |
| `SlaLatest.SlaRepository.StoreIfChanged` | app/repositories/sla_repository.py:107-145 | a payload equal to the current row adds nothing; otherwise as create |
| `SlaLatest.SlaRepository.Backfill` | alembic/versions/0012_sla_latest_backfill.py:27-58 | the loop over the duplicated outages, in any order, leaves exactly the highest id of each marked |

## Left out

- Breaker: the calls of one worker follow one another (the source holds a lock), those of different workers may overlap and are ordered by the instant at which each reads or writes the marker; publishing takes the instant of the failure; all workers share one clock; the URL parsing of `_host_key`, metrics and logging are not part of the model.
- Delivery: the time at which a retry becomes due is arbitrary (delays, cap and jitter are not modelled); `max_retries` is fixed per delivery; replays are not interleaved with each other; the retention cleanup, which deletes old SUCCESS, FAILED and DEAD_LETTER rows and never BREAKER_OPEN ones, is not part of this model. Liveness is not claimed: a crash leaves a delivery in SENDING.
- DispatchLimiter: an interruption between the two releases, or while the webhook's semaphore is looked up (where the `finally` meets a name that is not bound and the global permit is lost), is not modelled.
- Pagination: sort values are compared as the strings the cursor carries; the other filters are part of the table's contents; the page size is at least one, as the API demands.
- Cursor: `decode_cursor` is modelled on texts of the form `encode_cursor` writes, and refuses other JSON; the leniency of Python's base64 decoder towards foreign characters is not modelled.
- StrKey: upper-casing is an arbitrary function beyond ASCII; key generation is an argument of 32 bytes.
- AuditChain: the hash is an arbitrary function, injective where stated; details are trees of JSON values with string keys, so the fallback of the writer for other types is not modelled; `scrub_details`, correlation ids and the archiving task are not part of this model.
- TokenFamilies: failed and locked logins, password checks and caches are not modelled; operations follow one another, so two refreshes of one token at the same time are not covered.
- Poller: the source is honest (it serves the blocks after the cursor in order, possibly fewer than asked for); the HTTP source, the run loop, logging and time stamps are not modelled.
- Sanitizer: error messages are not modelled; the text of a float is part of its value; Python's own limit on the digits of an integer and lone surrogates are not modelled; digits of the sequence are ASCII (Python's `isdigit` admits more); the second poller in the same file is not modelled.
- RateLimiters: the database ledger and the Lua script for Redis are not modelled; the fixed window is modelled for one key, since keys do not affect each other.
- SlaLatest: averages, sums and rounding, trends and snapshots are not modelled; the window of a report has a start and no end; that writers follow one another is an assumption: a writer that waits for the row lock of another re-reads a demoted row and skips the demotion, and only the partial unique index of migration 0011 then refuses its insert; that index is not part of this model.
- HTTP, Celery wiring, middleware, configuration, exporters, query validators and the remaining migrations are not part of this model: library wrappers, or easy and finite properties.
