# BinCrypt: verified model

A Dafny model of the stateful parts of the BinCrypt pastebin, with proofs of what they keep in every run.
`dafny verify dfyconfig.toml` checks everything.

## What is modelled

**SQL storage** (`SqlTables`, `SqlRefinement`, `SqlUploads`, `SqlBackend`, `ExpiryWindow`). The tables `pastes`, `hash_index`,
`burned_pastes` and `banned_hashes`, with their foreign-key actions. Each serializable transaction is a function on
the tables. The abstract store they refine is a map from ids to ciphertexts with a set of deleted and a set of burned
ids; it has no rows, index, references or cascades. `SqlBackend.Backend` is the mutable object whose methods, statement
by statement with rollback, compute those functions. The two Go backends issue the same statements, so one class serves
both; its `tick` is the resolution of stored instants (one second for SQLite, one microsecond for PostgreSQL). The second
statement of the PostgreSQL delete is a transaction of its own in the runs.

**Paste service** (`PasteService`). The create and fetch handlers as methods, and the whole service as a transition
system: clients between the store's answer and the response, the deletion queue with its workers, failed deletions,
answers lost after commit, and any other legal transaction in between. `PasteAnswers` tells every answer by the abstract
store, with its exact condition.

**Deletion queue** (`DeletionQueue`). Every goroutine in `QueueDeletion` or `Shutdown` is a program counter; each step is
one operation on the mutex, the flag, the channel or the wait group, so a send on a closed channel or a second close
would show up as a panic. `RunIsAtomic` shows that every such run is a run of whole calls, closings and worker steps;
the paste service uses the queue in that form. `TaskQueue` is the same queue as an object; between the operations of its
worker loop other goroutines may do anything.

**Object store** (`GcsProtocol`, `GcsRaces`, `GcsAlone`, `GcsBackend`). Readers, deleters, markers and savers in any number, and bans,
one object operation per step, any operation possibly failing without effect or taking effect while reporting failure.
`GcsRaces` says what must happen between two claims of a paste, and exactly when a paste can be delivered twice;
`GcsAlone` what each call returns and leaves when nothing runs in between, whichever of its operations fail.
`GcsBackend.Backend` is the imperative form: before each operation of a call other processes may take any number of
steps, and the operation may fail; the object's ghost state shows that the call is a process of the protocol.

**Rate limiters** (`TokenBucket`, `SlidingWindow`). The token bucket with idle eviction, the Firestore list and the Redis
sorted set, each as step functions with run-level theorems and as objects with the source's loops.

**Bracket check** (`BracketLint`, `BracketReports`). The scanner, the Dyck grammar, the reports told by nesting depth, and
the jump from a line and column to an offset.

## Assumptions

- Paste ids are non-empty and never reused (`src/utils/id.go:18`: 256 random bits), and `DeletePaste` is only called for
  ids that were saved (its callers learned them from a stored paste).
- SHA-256 (section 6.2 of FIPS 180-4) is a free constructor, hence injective.
- Time is integer nanoseconds. The rate-limiter theorems order the calls on a key by the clock, as each says.
- A key keeps one limit and window (`src/middleware.go:266`, `src/middleware.go:304`); the token bucket is only
  defined for positive ones, where the source would otherwise divide by zero.
- What base64, JSON and metadata validation say of a value is a parameter of the handlers.

## Where the code and its comments differ

- The handler's answer "Paste has been burned" (`src/handlers_paste.go:209-213`) cannot be reached over the SQL stores: a paste
  burned earlier comes back without content and is answered as corrupted. See `BurnedIsReportedCorrupted`.
- `src/services/storage_gcs.go:195-196` says that losing readers get a not-found error; the code returns a burned
  paste, and the model does too.
- On GCS at-most-once delivery fails in two ways, and in no other. A reference paste can be delivered twice without any
  fault: its own deletion removes its marker while the content object lives on. A paste with its own content can be
  delivered twice only if a cleanup at its expiry fails to delete the content, whose error the code ignores and which
  removes the marker all the same; one such failure is enough. See `DeliveredTwiceExactly`.
- Between two deliveries of an id its marker need not be deleted: the first reader's claim can be overtaken before it has
  read (`OvertakenDeliveries`). Between the two claims it always is (`BetweenTwoClaims`, `BetweenTwoDeliveries`).
- Banning a plaintext hash that is already banned as a ciphertext hash changes the reason and not the type, so such a
  ban has no effect. See `PlaintextBanTakesEffect`.
- `retryAfter` of the token bucket is rounded down: waiting exactly that long is enough for every client if and only if the limit
  divides the window. See `RetryAfterIsHonoured`.

## Model

| member | source | states |
|---|---|---|
| SqlTables.SaveKeepsInv | src/services/storage_sqlite.go:154-212 | saving keeps hash_index exact and references one hop deep, to a row of the same hash |
| SqlTables.GetKeepsInv | src/services/storage_sqlite.go:227-335 | so does reading, with its claim or rolled-back claim |
| SqlTables.MarkKeepsInv | src/services/storage_sqlite.go:337-343 | so does marking as burned, which the foreign key refuses for an id without row |
| SqlTables.DeleteRowKeepsInv | src/services/storage_sqlite.go:70-86 | so does deleting with its cascades: no index entry, marker or reference is left dangling |
| SqlTables.DeleteMarkerKeepsInv | src/services/storage_postgres.go:253-253 | so does the marker statement of the PostgreSQL delete |
| SqlTables.BanKeepsInv | src/services/storage_sqlite.go:356-378 | so does banning |
| SqlTables.ContentStoredOnce | src/services/storage_sqlite.go:162-206 | two rows never store the same content |
| SqlTables.SavedIsRead | src/services/storage_sqlite.go:154-335 | what was saved under a fresh id is read back, deduplicated or not, exactly while it has not expired |
| SqlTables.RefusedExactly | src/services/storage_sqlite.go:110-149 | an upload is refused as banned iff its stored form is banned as a ciphertext, encrypted or not, or its text is banned as a plaintext; and fails iff it does not decode |
| SqlTables.PlaintextBanTakesEffect | src/services/storage_sqlite.go:368-378 | a plaintext ban stops uploads of that text exactly when the hash was not banned as a ciphertext before |
| SqlRefinement.IndexFindsHolder | src/services/storage_sqlite.go:162-168 | the index lookup finds exactly the live paste that holds the same content, if there is one |
| SqlRefinement.SaveRefines | src/services/storage_sqlite.go:107-225 | a save under a fresh id commits, reports the paste it was deduplicated against, and does what the abstract save does |
| SqlRefinement.GetRefines | src/services/storage_sqlite.go:227-335 | a read succeeds iff the id was saved and is not deleted, burned or expired and its holder was never deleted; success returns the saved ciphertext; no other answer changes a table |
| SqlRefinement.MarkRefines | src/services/storage_sqlite.go:337-343 | marking succeeds iff the paste is saved and present, and burns it |
| SqlRefinement.DeleteRowRefines | src/services/storage_sqlite.go:345-354 | the cascading delete is the abstract delete of one id |
| SqlRefinement.DeleteMarkerIsNoOp | src/services/storage_postgres.go:247-256 | the second statement of the PostgreSQL delete finds nothing, whatever ran in between |
| SqlRefinement.StepRefines | src/services/storage_postgres.go:26-256 | every transaction that may be committed is the corresponding abstract step |
| SqlRefinement.RunRefines | src/services/storage_sqlite.go:107-354 | after every legal run the tables represent the abstract store of that run |
| SqlRefinement.EveryReadIsAbstract | src/services/storage_postgres.go:145-237 | after every legal run each read answers as the abstract store and is a no-op unless it succeeds |
| SqlRefinement.TablesStayExact | src/services/storage_sqlite.go:70-86 | the index and reference invariant holds after every run, even one that reuses deleted ids |
| SqlRefinement.StaysDeleted | src/services/storage_postgres.go:247-256 | a deleted paste that is not saved again has neither row nor marker, whatever is committed afterwards |
| SqlRefinement.EntryIsWhatWasSaved | src/services/storage_sqlite.go:196-199 | an id is in the abstract store iff the run saved it, with the ciphertext and metadata of that save |
| SqlRefinement.DeletedIsADeleteAfterTheSave | src/services/storage_sqlite.go:345-354 | an id is deleted iff the run deletes it after its save |
| SqlRefinement.BurnedIsAReadOrAMark | src/services/storage_sqlite.go:294-307 | an id is burned iff some read of it succeeded as burn-after-read or it was marked while present |
| SqlUploads.BansLast | src/services/storage_sqlite.go:356-378 | in every run a hash is banned iff some transaction banned it, with the type of the first and the reason of the last such transaction |
| SqlUploads.BannedGetsNoRow | src/services/storage_sqlite.go:142-149 | content banned as a ciphertext gets no new row, whatever is uploaded, encrypted or not, and committed later |
| SqlUploads.BanTakesEffect | src/services/storage_sqlite.go:356-366 | so it is from the moment of the ban, unless the hash was banned as a plaintext before |
| SqlUploads.BannedTextIsRefused | src/services/storage_sqlite.go:131-139 | a text banned as a plaintext is refused in every later upload that decodes to it |
| SqlUploads.UnbannedIsSaved | src/services/storage_sqlite.go:107-225 | what decodes and is not banned gets its row |
| SqlBackend.Backend.SavePaste | src/services/storage_sqlite.go:107-225 | the method refuses banned or undecodable uploads without touching a table, and otherwise is the save transaction with the truncated expiry |
| SqlBackend.Backend.GetPaste | src/services/storage_sqlite.go:227-335 | the method with its claim and rollback is the read transaction; every non-success leaves the tables as they were |
| SqlBackend.Backend.MarkBurned | src/services/storage_postgres.go:239-245 | the method is the marking transaction |
| SqlBackend.Backend.DeletePasteSqlite | src/services/storage_sqlite.go:345-354 | the one-statement delete is the cascading delete |
| SqlBackend.Backend.DeletePastePostgres | src/services/storage_postgres.go:247-256 | with any other transactions between its two statements, the delete is the one cascading delete followed by those transactions |
| SqlBackend.Backend.BanHash | src/services/storage_sqlite.go:356-378 | inserts a ban, or updates only the reason of an existing one |
| ExpiryWindow.ServedUpToOneCutOff | src/services/storage_sqlite.go:257-261 | one cut-off within a tick before the promised expiry and never after it: selected exactly before it, served exactly up to it |
| PasteService.BurnedIsReportedCorrupted | src/handlers_paste.go:180-214 | the burned branch is unreachable and a paste burned before is answered as corrupted |
| PasteService.ServedWithinThePromise | src/handlers_paste.go:191-196 | in every run a paste saved with its clamped lifetime is never served after the promised expiry, and refused as expired only within the last tick before it or later |
| PasteService.Server.CreatePaste | src/handlers_paste.go:19-150 | which requests are refused without a trace, and that the rest are saved with the clamped and truncated lifetime |
| PasteService.Server.GetPasteAPI | src/handlers_paste.go:154-230 | the answer, the tables and the queue after the decision chain; what is served is served in time; never the burned answer |
| PasteService.StepKeepsInv | src/handlers_paste.go:154-230 | every step of clients, workers and other transactions keeps: one winner per burn-after-read id, who holds its saved content |
| PasteService.ServedIsWhatWasSaved | src/handlers_paste.go:169-229 | in every run a response with content carries exactly what the one save of that id stored |
| PasteService.BurnServedAtMostOnce | src/handlers_paste.go:198-229 | in every run a burn-after-read id is served to one client at most |
| PasteService.DrainedQueueLeavesNoRow | src/handlers_paste.go:205-208 | when the closed queue has drained, every accepted id whose deletion did not fail has lost its row |
| PasteAnswers.AnswersAreRight | src/handlers_paste.go:169-229 | every answer of a fetch exactly when, over the abstract store: missing, corrupted, invalid metadata, expired, or served with the saved ciphertext; deletion exactly with expired, queueing exactly with a served burn |
| PasteAnswers.CreatedIsServed | src/handlers_paste.go:169-229 | from its save on, whatever else is committed, an unexpired paste is served with what was saved as long as neither it nor its holder is deleted and nobody burned it |
| PasteAnswers.TransactionsTakePlace | src/services/storage_sqlite.go:107-354 | every transaction takes place in the running service, but a save under a taken or empty id and a marker statement before its row statement |
| PasteAnswers.ClientIsAnswered | src/handlers_paste.go:154-230 | in every state of the service a new client is given the right answer; expired means deleted, a served burn means burned, and queued if the queue is open with room |
| PasteAnswers.CreatedThenFetched | src/handlers_paste.go:154-230 | in every state of the service a paste created now and fetched before it expires is served as it was saved |
| PasteAnswers.ShutdownStopsQueueing | src/services/deletion_queue.go:138-144 | once the service is shut down its queue takes no further id in any run |
| PasteAnswers.WorkerDeletes | src/services/deletion_queue.go:76-96 | a worker's successful attempt deletes the paste it was handed |
| PasteAnswers.AcceptedExactly | src/handlers_paste.go:35-98 | a request is stored iff it holds exactly one of ciphertext and plaintext, of at most 384 or 512 KiB, with a lifetime from a minute to thirty days; the ciphertext as it is, the plaintext as its envelope |
| DeletionQueue.StepKeepsInv | src/services/deletion_queue.go:70-166 | every operation of every goroutine keeps conservation, capacity, mutual exclusion and the agreement of flag and channel |
| DeletionQueue.Conservation | src/services/deletion_queue.go:48-117 | in every run accepted ids equal those queued, in flight and attempted; they leave in acceptance order; at most 1000 are queued; one close at most and no panic |
| DeletionQueue.ClosedAcceptsNothing | src/services/deletion_queue.go:107-111 | once the channel is closed no id is ever accepted again |
| DeletionQueue.NilShutdownMeansAllAttempted | src/services/deletion_queue.go:138-157 | once a Shutdown has returned nil, attempted ids equal accepted ids as multisets, for ever |
| DeletionQueue.StepDrains | src/services/deletion_queue.go:76-96 | after closing each worker step lowers the measure by exactly one and nothing else changes it |
| DeletionQueue.WorkerAlwaysEnabled | src/services/deletion_queue.go:76-98 | a closed queue with a live worker always has an enabled worker step |
| DeletionQueue.DrainsInMeasureSteps | src/services/deletion_queue.go:145-157 | after closing all workers are gone exactly when the measure's number of worker steps was taken, and then every accepted id was attempted |
| DeletionQueue.LockHolderAdvances | src/services/deletion_queue.go:107-144 | the holder of the mutex can always take a step |
| DeletionQueue.SectionIsAtomic | src/services/deletion_queue.go:107-123 | while one goroutine holds the critical section, from check to send to unlock, no other changes the flag, the closing of the channel or the accepted ids |
| DeletionQueue.StepIsAtomic | src/services/deletion_queue.go:76-157 | each operation of each goroutine is one whole enqueue, one closing, one worker step, or nothing, for the queue as seen |
| DeletionQueue.RunIsAtomic | src/services/deletion_queue.go:76-157 | every run is a run of those: same queue, and each decided call was answered exactly once, as the whole call is: refused when closed or full, appended otherwise |
| DeletionQueue.LinearizedGrows | src/services/deletion_queue.go:106-123 | what has taken place stays in its place, so calls take place in the order in which they follow one another |
| DeletionQueue.EnqueueIsExact | src/services/deletion_queue.go:106-123 | a whole call is refused iff the queue is closed, full iff it is open with 1000 tasks, and otherwise appends the id |
| DeletionQueue.AnswersAreDecided | src/services/deletion_queue.go:106-123 | in every run each answer was given at one step of the caller's own, holding the mutex, that found the flag set, exactly 1000 tasks, or room |
| DeletionQueue.CallReturns | src/services/deletion_queue.go:106-123 | a call that finds the mutex free returns in four steps with the effect and answer of the whole call |
| DeletionQueue.LockIsReleased | src/services/deletion_queue.go:107-144 | whoever holds the mutex gives it back within four steps of its own |
| DeletionQueue.ShutdownCanFinish | src/services/deletion_queue.go:131-157 | from every state a Shutdown called now can close, drain and return nil |
| DeletionQueue.PoolKeepsItsSize | src/services/deletion_queue.go:41-60 | in every run there are as many workers as configured, ten by default, and never more deletions in flight |
| DeletionQueue.TaskQueue.QueueDeletion | src/services/deletion_queue.go:106-123 | the method computes the result and state of the whole call |
| DeletionQueue.OthersDrain | src/services/deletion_queue.go:76-96 | whatever others do to a closed queue, they accept nothing, add no task, lose nothing received or attempted, and leave this worker alone |
| DeletionQueue.TaskQueue.RunWorker | src/services/deletion_queue.go:70-99 | from the closing on, with other workers and callers running in between, the loop ends with the channel empty, and the worker received in acceptance order and attempted all it received in that order |
| DeletionQueue.TaskQueue.Close | src/services/deletion_queue.go:138-144 | closing is idempotent |
| GcsProtocol.ReadStepOk | src/services/storage_gcs.go:133-248 | a reader holds the attributes as written, reads only its own or its one-hop referenced object, claims only where no marker is, and drops a marker only after its own content |
| GcsProtocol.SaveStepOk | src/services/storage_gcs.go:30-131 | a saver writes each id once, references and index entries lead to content-bearing objects of the same content, and a save answered as banned was banned |
| GcsProtocol.RunGrows | src/services/storage_gcs.go:271-279 | in every run a paste object is written once, never changes, and once removed never comes back |
| GcsProtocol.BannedIsNeverWritten | src/services/storage_gcs.go:51-68 | content, or a plaintext, banned before SavePaste is called is never written, in any interleaving |
| GcsProtocol.StepKeepsInv | src/services/storage_gcs.go:30-279 | every operation of every process, failing or not, keeps the protocol invariant |
| GcsProtocol.LeftBehindByFailure | src/services/storage_gcs.go:187-191 | content outlives its cleanup exactly when some step of the run is a refused delete of an object that was there |
| GcsProtocol.OwnContentDeliveredOnce | src/services/storage_gcs.go:137-247 | in every interleaving without a failed cleanup of it, a burn-after-read paste with its own content is delivered to one reader at most |
| GcsProtocol.OwnContentDeliveredOnceUnrefused | src/services/storage_gcs.go:137-247 | in particular in every run none of whose operations is refused |
| GcsProtocol.DeliveriesNeedUnburning | src/services/storage_gcs.go:173-226 | for every burn-after-read paste deliveries never exceed one plus the deletions of its marker |
| GcsRaces.ClaimNeedsUnburning | src/services/storage_gcs.go:198-226 | whoever claims while a marker stands does so only after the marker was deleted, from any state and in any continuation |
| GcsRaces.BetweenTwoClaims | src/services/storage_gcs.go:198-226 | between any two claims of one id its marker was deleted |
| GcsRaces.BetweenTwoDeliveries | src/services/storage_gcs.go:173-247 | two readers that were given one burn-after-read paste claimed at two moments, and its marker was deleted between them |
| GcsRaces.DeliveryNeedsUnburning | src/services/storage_gcs.go:173-247 | while the marker stands, who has not claimed yet is given the paste only after another deletion of the marker |
| GcsRaces.OvertakenDeliveries | src/services/storage_gcs.go:198-247 | from every reachable state with a ready reference paste, fault-free, two deliveries with no deletion of the marker between them |
| GcsProtocol.DeliveredIsWhatWasSaved | src/services/storage_gcs.go:228-247 | delivered content is what the id was saved with, through any deduplication |
| GcsProtocol.PendingReadIsAnswered | src/services/storage_gcs.go:228-247 | in every reachable state a reader that got as far as the content is given it iff its object is still there: the generation never differs |
| GcsAlone.ReadsAlone | src/services/storage_gcs.go:133-248 | GetPaste without interference, any of its operations failing: delivered, burned, not found or failed, each exactly when, and the bucket it leaves |
| GcsAlone.PresentIsDelivered | src/services/storage_gcs.go:133-248 | without faults a paste, burning or not, is delivered iff it and its content object are there, no marker is, and it has not expired |
| GcsAlone.DeletesAlone | src/services/storage_gcs.go:271-279 | DeletePaste without interference: an error with the paste object ends the call, one with the marker is ignored |
| GcsAlone.MarksAlone | src/services/storage_gcs.go:250-269 | MarkBurned without interference: what it reports, and that the marker is there unless its write was refused |
| GcsAlone.SavesAlone | src/services/storage_gcs.go:30-131 | SavePaste without interference, for every upload and any failing operation: saved, banned or failed, each exactly when, and the objects it writes |
| GcsAlone.SavedThenRead | src/services/storage_gcs.go:30-248 | from every reachable state, saved and then read before the expiry: delivered with what was saved, iff the indexed paste is still there and the id was not marked before |
| GcsAlone.BanThenSave | src/services/storage_gcs.go:281-297 | content banned is refused by the next save of it |
| GcsRaces.LeftBehindDeliveries | src/services/storage_gcs.go:185-191 | from every state with a ready paste of own content, two deliveries under a clock that never goes back, with the refused delete of one cleanup as the only fault |
| GcsRaces.DeliveredTwiceExactly | src/services/storage_gcs.go:137-279 | from every reachable state with a ready, unexpired burn-after-read paste and no failed cleanup of it so far: some continuation with at most n failed cleanups delivers it twice iff it is a reference or n is at least 1 |
| GcsRaces.OwnContentGetsReady | src/services/storage_gcs.go:69-111 | any burn-after-read draft, with any expiry, gets ready by one save |
| GcsRaces.ReferenceGetsReady | src/services/storage_gcs.go:76-87 | and as a reference by a second save of the same content |
| GcsBackend.OthersLeaveMe | src/services/storage_gcs.go:133-248 | steps of other processes never change a call in progress |
| GcsBackend.Backend.GetPaste | src/services/storage_gcs.go:133-248 | the method, interrupted before any operation and with any operation failing, returns what its process returns: the saved content, and to no one else when it burns |
| GcsBackend.Backend.DeletePaste | src/services/storage_gcs.go:271-279 | the method is a deleter of the protocol, content before marker, with its early error return; once it reports success the paste object is gone |
| GcsBackend.Backend.MarkBurned | src/services/storage_gcs.go:250-269 | the method is a marker process of the protocol, failures included; once it reports success the marker is there |
| GcsBackend.Backend.SavePaste | src/services/storage_gcs.go:30-131 | the method is a saver of the protocol, ban checks and failures included: saved means written with its content or one hop from the same content, and refused as banned means banned |
| GcsBackend.Backend.BanContent | src/services/storage_gcs.go:281-317 | a ban is one unconditional write |
| TokenBucket.AdmissionBound | src/services/ratelimit.go:73-113 | A admissions over time T satisfy A * window < (limit + 1) * window + limit * T |
| TokenBucket.AtMostTwiceTheLimit | src/services/ratelimit.go:73-113 | at most 2 * limit admissions of a key in any span of one window |
| TokenBucket.LimiterAdmitsAtMostTwice | src/services/ratelimit.go:69-157 | the same for the whole limiter with other keys, of whatever windows, and cleanups interleaved |
| TokenBucket.TwiceTheLimitIsReached | src/services/ratelimit.go:86-104 | the bound is reached for every limit and window |
| TokenBucket.BurstIsExact | src/services/ratelimit.go:86-104 | of a burst from any bucket the k-th call is admitted iff the limit allows k and what is missing to k tokens has been earned since the last refill |
| TokenBucket.RemainingIsTrue | src/services/ratelimit.go:101-107 | the announced remaining is the number of further calls admitted at the same instant |
| TokenBucket.TokensLast | src/services/ratelimit.go:86-104 | along every run tokens at hand are only spent on admitted calls, and as many calls as there are tokens are all admitted |
| TokenBucket.FewCallsAreNeverDenied | src/services/ratelimit.go:77-104 | a key called no more than limit times is never denied |
| TokenBucket.DeniedClientIsLetIn | src/services/ratelimit.go:86-113 | after a denial some poll is admitted once window / limit has passed, however many denied polls come first |
| TokenBucket.RetryAfterIsHonoured | src/services/ratelimit.go:109-112 | waiting exactly retryAfter is enough for every denied client iff the limit divides the window |
| TokenBucket.RetryAfterIsLeast | src/services/ratelimit.go:109-112 | a client whose last token was just taken is denied until retryAfter has passed |
| TokenBucket.ResetMeansFull | src/services/ratelimit.go:104-104 | from the reset time announced with an admission on the key is answered as a new one |
| TokenBucket.ResetIsNeeded | src/services/ratelimit.go:104-104 | and not before, for a client whose last token it was |
| TokenBucket.RunSimulates | src/services/ratelimit.go:140-157 | what eviction removed has been idle long enough to be full again |
| TokenBucket.EvictionIsInvisible | src/services/ratelimit.go:76-157 | for a key with a window up to the idle limit (and one tick) every call is answered as without eviction, whatever the windows of other keys |
| TokenBucket.EvictionIsVisible | src/services/ratelimit.go:140-157 | for every longer window some run is answered differently |
| TokenBucket.EvictionIsInvisibleExactly | src/services/ratelimit.go:140-157 | every call of a key is answered as without eviction, in every run, iff its window is at most the idle limit and one tick |
| TokenBucket.RememberedExactly | src/services/ratelimit.go:140-157 | after every run a key is remembered iff no cleanup came more than two hours after its last call |
| TokenBucket.RateLimitService.CheckRateLimit | src/services/ratelimit.go:69-118 | the method gives the specified answer and changes only that key's bucket |
| TokenBucket.RateLimitService.IdleKeys | src/services/ratelimit.go:142-150 | collects exactly the keys idle for more than two hours |
| TokenBucket.RateLimitService.Cleanup | src/services/ratelimit.go:140-157 | removes exactly those |
| SlidingWindow.FirestoreRefinesHistory | src/services/ratelimit_firestore.go:57-126 | with pruning and document expiry every call is decided as by a limiter that keeps every admitted timestamp |
| SlidingWindow.FirestoreHoldsTheLimit | src/services/ratelimit_firestore.go:84-125 | never more than limit admissions in any half-open span of one window |
| SlidingWindow.FirestoreAdmitsExactly | src/services/ratelimit_firestore.go:84-125 | every call is admitted iff fewer than limit were admitted in the half-open window that ends with it, and remaining is what is left of the limit |
| SlidingWindow.RemainingIsTrue | src/services/ratelimit_firestore.go:114-125 | the announced remaining is the number of further calls admitted at the same instant |
| SlidingWindow.DocumentLastsTwoWindows | src/services/ratelimit_firestore.go:114-122 | after an admission the store may drop the document exactly two windows later |
| SlidingWindow.AdmittedResetIsExact | src/services/ratelimit_firestore.go:114-126 | from the reset time announced with an admission on, and not before, nothing admitted so far counts |
| SlidingWindow.RetryDelayIsExact | src/services/ratelimit_firestore.go:105-112 | the retry delay leads exactly to the reset time, or is zero when that has passed |
| SlidingWindow.ResetTimeIsExact | src/services/ratelimit_firestore.go:93-112 | after a denial that announced resetAt, whatever is called before it and dropped meanwhile: a call is denied before resetAt and the first one from then on is admitted |
| SlidingWindow.RedisCountsHistory | src/services/ratelimit_redis.go:73-79 | the pruned set has as many members as the history has recent timestamps |
| SlidingWindow.LimitersAgree | src/services/ratelimit_redis.go:65-93 | with distinct timestamps or a limit of one, and an expiry no shorter than the window, script and transaction give the same decision and remaining count on every call |
| SlidingWindow.RedisHoldsTheLimit | src/services/ratelimit_redis.go:72-85 | under the same conditions Redis too admits never more than limit requests in any half-open span of one window |
| SlidingWindow.RedisAdmitsExactly | src/services/ratelimit_redis.go:72-92 | under the same conditions Redis too admits exactly the calls with fewer than limit admissions in their window |
| SlidingWindow.ResetTimesAgree | src/services/ratelimit_redis.go:86-92 | under the same conditions the oldest score named in a denial gives the reset time that the transaction announces |
| SlidingWindow.WholeMillisecondsAreCovered | src/services/ratelimit_redis.go:82-82 | the expiry covers every window of whole milliseconds and is the next whole second |
| SlidingWindow.ShortExpiryIsVisible | src/services/ratelimit_redis.go:82-82 | whenever the expiry is shorter than the window some run is answered differently |
| SlidingWindow.ExpiryMustCover | src/services/ratelimit_redis.go:82-82 | the two agree on every run with distinct timestamps iff the expiry is no shorter than the window |
| SlidingWindow.EqualTimestampsAreVisible | src/services/ratelimit_redis.go:81-81 | for every limit from two on, two calls at one instant make the answers to a third differ |
| SlidingWindow.SimultaneousCallsAreAdmitted | src/services/ratelimit_redis.go:81-81 | for every limit from two on Redis admits any number of calls at one instant |
| SlidingWindow.DistinctCallsAreNeeded | src/services/ratelimit_redis.go:81-81 | under a covering expiry the two agree on every run, equal timestamps included, iff the limit is one |
| SlidingWindow.FirestoreRateLimitService.After | src/services/ratelimit_firestore.go:84-90 | the filter loop keeps exactly the timestamps after the window start, in order |
| SlidingWindow.FirestoreRateLimitService.Oldest | src/services/ratelimit_firestore.go:99-104 | the search loop returns the least timestamp |
| SlidingWindow.FirestoreRateLimitService.CheckRateLimit | src/services/ratelimit_firestore.go:53-133 | the method gives the specified answer, reset time and retry delay, and rewrites the document only when it admits |
| SlidingWindow.RedisRateLimitService.RunScript | src/services/ratelimit_redis.go:65-93 | the script prunes, counts, and adds or denies as specified; a denial names the least score in the set |
| BracketLint.BalancedMeansCloses | src/static/index.html:1758-1775 | a bracket word is in the Dyck grammar iff a stack closes it |
| BracketLint.CleanMeansBalanced | src/static/index.html:1756-1779 | the scan reports nothing iff the text's brackets are a Dyck word |
| BracketLint.ThreePairs | src/static/index.html:1757-1759 | of two characters only the three pairs are balanced, and only the six brackets are ever reported |
| BracketReports.DiagnosticsExactly | src/static/index.html:1762-1778 | the reports in full and in order: every closer that takes no opener of its kind, then every opener never closed, innermost first, each once with its position |
| BracketLint.JumpUndoesScan | src/static/index.html:1806-1811 | jumping to the position tracked for a character returns its index, also in content longer than the checked text |
| BracketLint.DiagnosticsLeadToBrackets | src/static/index.html:1770-1778 | jumping to any bracket diagnostic lands on the bracket it names |
| BracketLint.JumpIsClamped | src/static/index.html:1806-1811 | any line and column lead to that column or the line's end; before the first line to the start, beyond the last one past the end |
| BracketLint.RunBracketCheck | src/static/index.html:1756-1779 | the loops report as specified: nothing iff balanced, and only positions that lead back to the bracket |
| BracketLint.Jump | src/static/index.html:1806-1811 | the loop computes the specified offset for every line and column |

## Left out

- HTTP plumbing, middleware, headers, logging, metrics, configuration, static pages, migrations, invoices and the ban commands: wiring without deep state.
- Base64, JSON, encryption and hashing libraries: their verdicts are parameters, hashes a free constructor.
- Request metadata of plaintext pastes, and the columns `plaintext_hash`, `is_plaintext`, `reason` dates: stored and never read by the modelled operations.
- Database errors inside a transaction: a transaction takes effect or not; an answer lost after commit is modelled.
- The ban checks and the insert transaction of SavePaste as separate steps: the runs let an insert happen at any time, whatever is banned; the method performs both in one call.
- SanitizeString and the id pattern of the fetch handler: one flag says whether the id is accepted.
- GCS content types and size metadata; an object is read in one operation.
- GcsBackend.Backend.Interfere, SqlBackend.Backend.OthersCommit and DeletionQueue.TaskQueue.Interfere stand for everything other
  processes do: they change nothing themselves, and callers rely on their contracts only.
- TokenBucket.AdmissionBound: floating-point rounding of the refill is not modelled; the refill is the integer part of the exact product.
- DeletionQueue.TaskQueue.RunWorker: begins when the channel is closed, since a receive on an open empty channel blocks; the
  transition system covers workers before the closing.
- Shutdown's waiting as a method, a second call of RateLimitService.Stop, and goroutines after a shutdown timeout.
- Decoding of the Redis reply and the fallback; rounding of scores to floating point; timestamps that Firestore rounds to microseconds.
- Other lint rules, the cap of 200 diagnostics, and a leading byte order mark, which the decoder drops before the scan.
