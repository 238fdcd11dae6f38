# Verified model of the bid system's stateful core

A Dafny model of the parts of the system whose correctness depends on order, interleaving or failure, with
proofs of what the design promises about them. `dafny verify dfyconfig.toml` checks everything.

The pattern is the same throughout. A pure function says what one operation makes of a state; where the
program changes objects in place, a class with the same fields does so too, and each method is proved to have
the effect of that function; lemmas then prove the promises about the functions, over every run. `log` fields
and ledgers are history variables: they record what happened and no rule looks at them.

| modules | what they model |
|---|---|
| `Common`, `Backoff` | result types, Python's blank strings, ceilings; capped exponential backoff |
| `OutboxEvent`, `OutboxQuery`, `OutboxTransactions`, `OutboxStore` | the transactional outbox: one row's state machine, the claiming query, many workers with row locks and SKIP LOCKED, the mutable objects |
| `DocumentModel`, `DocumentTable`, `DocumentTransactions`, `DocumentRepository` | append-only document versions: the aggregate, the row table that refines it, concurrent transactions split at each statement, the repository object |
| `DocumentUpload`, `UploadTransactions` | ingestion: staging, content-addressed storage, recording, and referential integrity between blob store and database, for uploads in sequence and for uploads interleaved at every stat, put and statement |
| `RefreshSession`, `SessionStore`, `SessionFamilies`, `SessionTransactions`, `RefreshEndpoint` | refresh-token rotation with reuse detection (section 4.14.2 of RFC 9700), families over whole runs of atomic operations and over interleaved statements, the HTTP requests as transactions |
| `RateLimit` | the fixed-window limiter and what it allows in any sliding interval |
| `ToolExecutor` | bounded tool execution and its event trace |
| `Lifecycle` | the application container and the worker runtime |
| `ComparisonSymbols` | extraction of comparison symbols from text and tables |
| `Instream` | the clamd INSTREAM upload (clamd(8), COMMANDS, INSTREAM) |

## Assumptions

- Times and delays are reals (outbox, executor) or integers (sessions, seconds or finer; limiter, milliseconds of
  the store's clock, which does not run backwards). A rate-limit key is expired once the clock is past
  its expiry, and still in force at that very millisecond. Clocks, identifiers, tokens and
  everything foreign systems answer are inputs.
- Claim tokens and session family ids are new whenever they are drawn.
- Row locks last until the transaction ends; other transactions see committed rows only; a claim takes the rows
  it selects and locks them in one step. Sessions do not flush by themselves
  (`backend/src/bid_system/platform/database/session.py:17`), so a transaction that calls `claim_batch` again has
  flushed its changes before. `mark_published` and `apply_failure` get the current row, locked by their
  transaction.
- In `SessionFamilies` and `RefreshEndpoint` each refresh-store call is one atomic step. `SessionTransactions` splits
  the calls into their statements: an UPDATE sees the rows committed when it starts, waits for the locks on those
  it must change, checks its condition again when it gets them, and does not see rows committed later.
- Closing an event-loop runner does not raise.
- The digest is an unknown function whose values are 64 lower-case hexadecimal digits.

## Where a promise needs a condition

- `attempt_count <= max_attempts` is not an invariant: a takeover counts an attempt without asking the policy
  (`OutboxEvent.TakeoversAreUnbounded`). Under one policy it holds exactly as long as no claim takes over a row
  that is PROCESSING with its attempts used up (`OutboxEvent.AttemptsStayWithinPolicy`).
- A replay or a logout revokes the whole family as one atomic call does exactly if no rotation of the family has
  committed since its UPDATE started, or whatever has joined was revoked by another call
  (`SessionTransactions.SweepsAreAtomicExactly`, `UniformRevocationExactly`). Otherwise the replacement of the
  concurrent rotation stays usable (`ReplayMissesConcurrentReplacement`). A family that has been revoked as a whole
  stays so under every interleaving (`CompleteRevocationIsFinal`).
- An upload can reach the repository with an invalid version, exactly when the caller passes an `expires_at`
  without a timezone; its objects then stay behind without a row (`DocumentUpload.InvalidExactlyForNaiveExpiry`,
  `NaiveExpiryLeavesAnOrphan`).
- Extraction from concatenated texts is extraction from the parts exactly unless the boundary falls inside a
  compound symbol (`ComparisonSymbols.ExtractionIsLocal`).
- The limiter's bound of twice the capacity cannot be improved (`RateLimit.BoundIsTight`). It holds of all runs
  exactly for policies that deny during an outage (`RateLimit.BoundedExactlyUnderDeny`); under ALLOW the requests
  waved through come on top (`RateLimit.SlidingBound`).
- A request one Retry-After after a denial is allowed, other requests for the key aside, exactly if the window that
  denied has ended by then (`RateLimit.RetryIsAllowed`). That is so at any later time, but not always at that very
  millisecond (`RetryAtTheTieIsDenied`).
- Every event-loop runner of a worker is closed exactly if the container factory never raises
  (`Lifecycle.RunnersAreClosedUnlessTheFactoryRaised`, `FailedFactoryAbandonsARunner`).

## Model

| member | source | states |
|---|---|---|
| `Backoff.UncappedIsScaled` | backend/src/bid_system/agent_runtime/tools/executor.py:181-184 | the delay before the cap is base * 2 ** (attempt - 1), for every integer attempt |
| `Backoff.DelayIsCappedPower` | backend/src/bid_system/platform/database/outbox.py:222-225 | the delay is base * 2 ** (attempt - 1) or the cap, whichever is smaller |
| `Backoff.DelayMonotone` | backend/src/bid_system/platform/database/outbox.py:222-225 | a later attempt never waits less than an earlier one |
| `Backoff.TotalIsBounded` | backend/src/bid_system/platform/database/outbox.py:219-227 | waiting after any increasing attempts up to N - 1 takes at most min((N - 1) * cap, base * (2^(N-1) - 1)) in all |
| `Backoff.ExactTotal` | backend/src/bid_system/agent_runtime/tools/executor.py:181-184 | n retries in a row wait exactly base * (2^n - 1) if and only if the last delay is not capped |
| `OutboxEvent.RunHasShape` | backend/src/bid_system/platform/database/outbox.py:185-227 | after any history a row is PROCESSING exactly when its last update is a claim, and then holds that claim's token, time and lease end; PUBLISHED exactly after an acknowledgement; DEAD_LETTER exactly after a failure with the attempts used up; otherwise no token and no lease; recorded errors have no line breaks and at most 2000 characters |
| `OutboxEvent.SupersededTokenIsFenced` | backend/src/bid_system/platform/database/outbox.py:194-216 | once anything has happened after a claim, its token can neither publish nor fail the event |
| `OutboxEvent.SettlementsMatchTheLatestClaim` | backend/src/bid_system/platform/database/outbox.py:194-216 | every publication or failure comes right after a claim and uses that claim's token |
| `OutboxEvent.TerminalIsAbsorbing` | backend/src/bid_system/platform/database/outbox.py:172-227 | nothing ever follows PUBLISHED or DEAD_LETTER in a history |
| `OutboxEvent.PublishedAtMostOnce` | backend/src/bid_system/platform/database/outbox.py:194-201 | a publication is the last entry of a history, so there is at most one |
| `OutboxEvent.TakeoversWaitForTheLease` | backend/src/bid_system/platform/database/outbox.py:172-190 | in a row of takeovers every claim is at least the lease of each earlier one later |
| `OutboxEvent.ClaimsAreSeparated` | backend/src/bid_system/platform/database/outbox.py:170-190 | two claims of one event are separated by a recorded failure or by at least the first lease, whatever the clocks of the workers |
| `OutboxEvent.ClaimAccounting` | backend/src/bid_system/platform/database/outbox.py:185-227 | attempt_count = returns to PENDING + lease takeovers + (1 unless PENDING) |
| `OutboxEvent.ReturnsAreIncreasing` | backend/src/bid_system/platform/database/outbox.py:219-227 | the attempts at which an event returned to PENDING strictly increase and stay below max_attempts |
| `OutboxEvent.ReturnsAreBounded` | backend/src/bid_system/platform/database/outbox.py:219-227 | under one policy an event returns to PENDING at most max_attempts - 1 times |
| `OutboxEvent.BackoffBudget` | backend/src/bid_system/platform/database/outbox.py:219-227 | all backoff of one event together stays within both budgets of its policy |
| `OutboxEvent.BackoffIsHonoured` | backend/src/bid_system/platform/database/outbox.py:222-227 | after a failure the next update is a claim, and not before the backoff of that failure has passed |
| `OutboxEvent.FailureDecides` | backend/src/bid_system/platform/database/outbox.py:219-227 | a failure with attempts left makes the event available exactly min(base * 2 ** (attempts - 1), cap) later; one with none left dead-letters it |
| `OutboxEvent.OnlyFailuresReschedule` | backend/src/bid_system/platform/database/outbox.py:185-227 | nothing but a failure with attempts left moves available_at |
| `OutboxEvent.NextClaimExactly` | backend/src/bid_system/platform/database/outbox.py:172-181 | an event can be claimed next if and only if it is PENDING and its time has come, or its last update is a claim whose lease is over |
| `OutboxEvent.NewEventsAreAvailable` | backend/src/bid_system/platform/database/outbox.py:122-140 | a new event can be claimed from its creation on, and not before |
| `OutboxEvent.NextSettlementExactly` | backend/src/bid_system/platform/database/outbox.py:194-216 | an event can be published or failed next if and only if its last update is a claim, with the token of that claim |
| `OutboxEvent.SanitizedText` | backend/src/bid_system/platform/database/outbox.py:216-217 | the recorded error is the text cut to 2000 characters, with a blank for every line break and nothing else changed |
| `OutboxEvent.AttemptsStayWithinPolicy` | backend/src/bid_system/platform/database/outbox.py:170-227 | under one policy attempt_count <= max_attempts holds if and only if no claim has taken over a row that was still PROCESSING with its attempts used up |
| `OutboxEvent.PendingHasAttemptsLeft` | backend/src/bid_system/platform/database/outbox.py:219-227 | a PENDING event always has attempts left |
| `OutboxEvent.TakeoversAreUnbounded` | backend/src/bid_system/platform/database/outbox.py:185-190 | attempt_count <= max_attempts is not an invariant: for every policy and every n there is a history with n takeovers, no failure and attempt_count n + 1, beyond max_attempts from n = max_attempts on |
| `OutboxQuery.ClaimedRowsAreNotCandidates` | backend/src/bid_system/platform/database/outbox.py:170-190 | claiming a batch takes exactly its rows, and their number, out of what can be selected at that instant |
| `OutboxQuery.BatchInTermsOfRows` | backend/src/bid_system/platform/database/outbox.py:170-184 | a batch holds distinct due unlocked rows by available_at and then created_at, at most the limit, all of them if there are fewer, and none left out comes before one in it |
| `OutboxQuery.DrainingClaimsEachEventOnce` | backend/src/bid_system/platform/database/outbox.py:170-191 | repeated claims at one instant list each of the n eligible unlocked events exactly once, in (available_at, created_at) order, in ceil(n / limit) non-empty calls |
| `OutboxTransactions.OperationKeepsInv` | backend/src/bid_system/platform/database/outbox.py:159-227 | insert, claim, load, publish, fail, commit and abort of any transaction keep every committed row and every working copy equal to what its history makes of a new row, with tokens drawn for it once each; whoever has a copy holds the row lock, and no copy is behind what is committed |
| `OutboxTransactions.RunsKeepInv` | backend/src/bid_system/platform/database/outbox.py:159-227 | the same in every state of every interleaving |
| `OutboxTransactions.HistoriesOnlyGrow` | backend/src/bid_system/platform/database/outbox.py:159-227 | no operation loses a committed update of any event |
| `OutboxTransactions.CommittedHistoryGrows` | backend/src/bid_system/platform/database/outbox.py:159-227 | over a whole run a committed history is only ever extended |
| `OutboxTransactions.OneWorkerPerEvent` | backend/src/bid_system/platform/database/outbox.py:170-184 | in no state of any interleaving do two transactions work on copies of one event |
| `OutboxTransactions.EveryRunIsSafe` | backend/src/bid_system/platform/database/outbox.py:159-227 | in every state of every interleaving: PROCESSING exactly with a live token and lease, the accounting law, and two committed claims a failure or the first lease apart |
| `OutboxTransactions.StaleTokensChangeNothing` | backend/src/bid_system/platform/database/outbox.py:194-216 | in every reachable state a worker holding the current row changes nothing with a superseded token or with a token drawn for another event |
| `OutboxTransactions.SettlementsTakeEffectExactly` | backend/src/bid_system/platform/database/outbox.py:194-227 | in every reachable state a settlement of a held copy publishes, dead-letters or reschedules it if the token is that of the claim it ends in, and otherwise changes nothing |
| `OutboxTransactions.CommitPublishesOwnCopies` | backend/src/bid_system/platform/database/transaction.py:53-84 | a commit makes exactly the own copies of its transaction the committed rows and gives up its locks |
| `OutboxTransactions.AbortDiscardsOwnCopies` | backend/src/bid_system/platform/database/transaction.py:53-84 | an abort gives up locks and copies and leaves the committed rows |
| `OutboxTransactions.TerminalRowsNeverChange` | backend/src/bid_system/platform/database/outbox.py:172-216 | a row committed as PUBLISHED or DEAD_LETTER is the same in every later state |
| `OutboxTransactions.AttemptsStayWithinPolicyInRuns` | backend/src/bid_system/platform/database/outbox.py:170-227 | in every state of every interleaving under one policy a committed event is within max_attempts if and only if none of its committed claims took over a spent row |
| `OutboxTransactions.GuardedClaimsStayWithinPolicy` | backend/src/bid_system/platform/database/outbox.py:170-191 | if every claim passes over spent rows, no committed or locked row ever exceeds max_attempts |
| `OutboxTransactions.DrainingTransactionsClaimEachEventOnce` | backend/src/bid_system/platform/database/outbox.py:170-191 | repeated claims at one instant, each in its own transaction that commits, claim every eligible event that nobody has locked exactly once, in delivery order, in ceil(n / limit) transactions |
| `OutboxStore.CreateEvent` | backend/src/bid_system/platform/database/outbox.py:101-140 | refuses exactly the envelopes that some check fails, with the error of the first such check; the new event is PENDING, never attempted, unclaimed and available from when it occurred |
| `OutboxStore.Event.constructor` | backend/src/bid_system/platform/database/outbox.py:122-140 | the columns of a new event |
| `OutboxStore.Event.Claim` | backend/src/bid_system/platform/database/outbox.py:185-190 | the claiming assignments yield the claimed row of the rules proved in OutboxEvent |
| `OutboxStore.Event.MarkPublished` | backend/src/bid_system/platform/database/outbox.py:194-201 | publishes exactly under the live claim token; otherwise raises and changes no field |
| `OutboxStore.Event.ApplyFailure` | backend/src/bid_system/platform/database/outbox.py:204-227 | dead-letters or reschedules, after exactly the capped exponential delay, if and only if the token is that of the live claim; otherwise raises and changes no field |
| `OutboxStore.Store.First` | backend/src/bid_system/platform/database/outbox.py:182 | an open event with the smallest (available_at, created_at) key |
| `OutboxStore.Store.SelectForUpdate` | backend/src/bid_system/platform/database/outbox.py:170-184 | the first `limit` eligible unlocked rows in key order, no eligible row before any of them left out |
| `OutboxStore.Store.ClaimAll` | backend/src/bid_system/platform/database/outbox.py:185-191 | claims each row of the batch once and no other |
| `OutboxStore.Store.ClaimBatch` | backend/src/bid_system/platform/database/outbox.py:159-191 | rejects a limit below one and a lease that is not positive, changing nothing; otherwise claims exactly a batch of the selection |
| `DocumentModel.CheckDocument` | backend/src/bid_system/modules/documents/domain/models.py:84-97 | accepts exactly the non-empty histories 1, 2, .., n of this document with distinct hashes; otherwise reports the fault of the first version out of order |
| `DocumentModel.AppendAccepts` | backend/src/bid_system/modules/documents/domain/models.py:114-119 | appending to a valid history is accepted if and only if it is this document's next number with content not yet in the history |
| `DocumentModel.ValidVersionsExactly` | backend/src/bid_system/modules/documents/domain/models.py:46-74 | which versions are valid, rule by rule |
| `DocumentTable.MaxVersionIsCount` | backend/src/bid_system/modules/documents/infrastructure/repository.py:69-74 | for a valid history max(version) over the rows is their number, and NULL exactly without rows |
| `DocumentTable.AppendRefinesAggregate` | backend/src/bid_system/modules/documents/infrastructure/repository.py:49-87 | append on the rows succeeds exactly when the aggregate accepts a valid version n + 1 (and the row id is new), inserts that version, reports known content as a duplicate, and never hits the version conflict or a missing first version |
| `DocumentTable.AppendErrorsExactly` | backend/src/bid_system/modules/documents/infrastructure/repository.py:49-87 | when an append reports a wrong target, an unknown document, duplicate content or another conflict, and that it never reports the others |
| `DocumentTable.HistoriesAreSeparate` | backend/src/bid_system/modules/documents/infrastructure/repository.py:34-87 | adding a row extends the history of its own document and changes no other |
| `DocumentTable.AppendKeepsInv` | backend/src/bid_system/modules/documents/infrastructure/repository.py:54-87 | a successful append leaves every document with a valid non-empty history and row ids distinct |
| `DocumentTable.CreateAccepts` | backend/src/bid_system/modules/documents/infrastructure/repository.py:34-47 | creation succeeds exactly for a valid first version of a new document under a new row id |
| `DocumentTable.CreateErrorsExactly` | backend/src/bid_system/modules/documents/infrastructure/repository.py:34-47 | when a creation reports a conflict, and otherwise which fault |
| `DocumentTable.CreateKeepsInv` | backend/src/bid_system/modules/documents/infrastructure/repository.py:34-47 | a successful creation keeps the invariant and starts a history of exactly one version |
| `DocumentTransactions.StatementKeepsInv` | backend/src/bid_system/modules/documents/infrastructure/repository.py:34-87 | each single statement of each transaction keeps: valid histories, what every open transaction found out still true, row locks held, no two pending rows in conflict |
| `DocumentTransactions.RunsKeepInv` | backend/src/bid_system/modules/documents/infrastructure/repository.py:34-87 | the same in every state of every interleaving of statements |
| `DocumentTransactions.PendingAppendIsAtomic` | backend/src/bid_system/modules/documents/infrastructure/repository.py:54-87 | a row inserted but not committed is what one atomic append would produce on the tables as committed now |
| `DocumentTransactions.HistoriesAreAlwaysValid` | backend/src/bid_system/modules/documents/infrastructure/repository.py:49-87 | in every reachable state each document's committed rows are versions 1..n with distinct hashes |
| `DocumentTransactions.VersionConflictNeverFires` | backend/src/bid_system/modules/documents/infrastructure/repository.py:75-87 | no interleaving makes the INSERT of an append fail on the version sequence or on the content hash |
| `DocumentTransactions.FirstVersionIsNeverMissing` | backend/src/bid_system/modules/documents/infrastructure/repository.py:69-74 | no interleaving makes append find a document without versions |
| `DocumentTransactions.CommitsAreAtomic` | backend/src/bid_system/modules/documents/infrastructure/repository.py:34-87 | serializability: every committing transaction does what one atomic create or append does at that moment |
| `DocumentTransactions.AppendAlone` | backend/src/bid_system/modules/documents/infrastructure/repository.py:49-87 | an append that nobody obstructs goes through statement by statement to the version of the atomic append, or raises exactly its error and leaves the tables alone |
| `DocumentTransactions.HistoriesOnlyGrow` | backend/src/bid_system/modules/documents/infrastructure/repository.py:34-87 | committed rows are never changed, reordered or removed |
| `DocumentRepository.Repository.constructor` | backend/src/bid_system/modules/documents/infrastructure/repository.py:31-32 | empty tables satisfy the invariant |
| `DocumentRepository.Repository.Create` | backend/src/bid_system/modules/documents/infrastructure/repository.py:34-47 | the outcome and the new tables are those of the specification, unchanged on error |
| `DocumentRepository.Repository.Append` | backend/src/bid_system/modules/documents/infrastructure/repository.py:49-87 | the outcome and the new tables are those of the specification, unchanged on error |
| `DocumentUpload.StageUpload` | backend/src/bid_system/modules/documents/infrastructure/file_processing.py:80-102 | chunked copying, counting and hashing equals hashing the concatenation of the reads up to the first empty one, with the same verdict on name, size and emptiness |
| `DocumentUpload.FileEndsAtTheFirstEmptyRead` | backend/src/bid_system/modules/documents/infrastructure/file_processing.py:84-95 | the staged file is everything read up to the first empty read, in order |
| `Common.StripIsTrimmed` | backend/src/bid_system/modules/documents/infrastructure/file_processing.py:104-111 | stripping a name takes the spaces at both ends and nothing else |
| `DocumentUpload.HashFile` | backend/src/bid_system/modules/documents/infrastructure/file_processing.py:236-250 | hashing in blocks of any size yields the digest of the whole file |
| `DocumentUpload.PutBacksItsUrl` | backend/src/bid_system/modules/documents/infrastructure/object_store.py:39-75 | a put, failed or not, keeps every object under the key of its own digest and replaces none; a successful one returns a URL whose object has the given digest |
| `DocumentUpload.PutSucceedsExactly` | backend/src/bid_system/modules/documents/infrastructure/object_store.py:39-75 | a put succeeds if and only if the stat works, an object already there has the same size, and a put that is needed works; then the object is there, and no other changes |
| `DocumentUpload.UrlForm` | backend/src/bid_system/modules/documents/infrastructure/object_store.py:47-75 | the URL of an object, spelt out from bucket and digest |
| `DocumentUpload.StoreIsSound` | backend/src/bid_system/modules/documents/application/upload.py:70-95 | the two puts leave a sound store and back both URLs; a PDF is its own normalized PDF |
| `DocumentUpload.PreparedIsValid` | backend/src/bid_system/modules/documents/application/upload.py:63-110 | whatever reaches the repository passes every check of DocumentVersion under every number, except that a naive expires_at, and nothing else, is reported |
| `DocumentUpload.InvalidExactlyForNaiveExpiry` | backend/src/bid_system/modules/documents/application/upload.py:63-110 | an upload ends with an invalid version if and only if it gets that far and its expires_at has no timezone; its objects are stored by then, and no row is added |
| `DocumentUpload.NaiveExpiryLeavesAnOrphan` | backend/src/bid_system/modules/documents/application/upload.py:63-110 | it happens: a one-byte PDF with a naive expiry is refused by the repository and leaves its object behind |
| `DocumentUpload.PrepareIsSound` | backend/src/bid_system/modules/documents/application/upload.py:63-108 | however far the pipeline got, the store is sound, nothing is lost, and prepared URLs are backed |
| `DocumentUpload.AcceptableExactly` | backend/src/bid_system/modules/documents/application/upload.py:63-77 | which uploads get anything stored, said of their own fields: name, size, reading, format, safety verdict, conversion, page count |
| `DocumentUpload.UnacceptableUploadsChangeNothing` | backend/src/bid_system/modules/documents/application/upload.py:63-77 | any other upload, one found unsafe for instance, fails and leaves object store and tables as they were |
| `DocumentUpload.IngestSucceedsExactly` | backend/src/bid_system/modules/documents/application/upload.py:63-110 | an upload succeeds if and only if it is acceptable, both puts work, and the repository can take it |
| `DocumentUpload.ReturnedVersion` | backend/src/bid_system/modules/documents/application/upload.py:88-110 | the version an upload returns has the name, digests, page count, times and ids of that upload, and is the next of its document |
| `DocumentUpload.IngestKeepsIntegrity` | backend/src/bid_system/modules/documents/application/upload.py:63-110 | one upload, failing anywhere or nowhere, keeps referential integrity and adds exactly the returned version |
| `DocumentUpload.UploadsKeepIntegrity` | backend/src/bid_system/modules/documents/application/upload.py:63-110 | over any sequence of uploads with any failures every committed version's URLs name stored bytes with the recorded digests |
| `DocumentUpload.BlobStore.Put` | backend/src/bid_system/modules/documents/infrastructure/object_store.py:39-75 | stat-then-put against the stored objects, including failed stats, size mismatches and puts that fail before or after storing |
| `DocumentUpload.UploadDocumentHandler.StoreObjects` | backend/src/bid_system/modules/documents/application/upload.py:70-95 | the storing stages act on the blob store as specified |
| `DocumentUpload.UploadDocumentHandler.RecordVersion` | backend/src/bid_system/modules/documents/application/upload.py:96-110 | the repository call commits as specified or leaves the tables as they were |
| `DocumentUpload.UploadDocumentHandler.Handle` | backend/src/bid_system/modules/documents/application/upload.py:63-110 | the whole pipeline changes blob store and tables exactly as the specification proved to keep integrity; an upload found unsafe or otherwise unacceptable fails and changes nothing |
| `UploadTransactions.OperationKeepsInv` | backend/src/bid_system/modules/documents/application/upload.py:63-110 | every stat, every put, failed or not, and every repository statement of every upload keeps: content addressing, backed rows, sound prepared facts, transactions that record what their uploads prepared |
| `UploadTransactions.RunsKeepInv` | backend/src/bid_system/modules/documents/application/upload.py:63-110 | the same in every state of every interleaving of uploads |
| `UploadTransactions.EveryRunKeepsIntegrity` | backend/src/bid_system/modules/documents/application/upload.py:63-110 | in every interleaving each document has a valid history and each committed version names stored objects with the recorded digests |
| `UploadTransactions.UploadsOnTheirWayAreSafe` | backend/src/bid_system/modules/documents/application/upload.py:63-77 | in no run is an upload on its way that is unacceptable or has an unsafe verdict |
| `UploadTransactions.NothingIsLost` | backend/src/bid_system/modules/documents/infrastructure/object_store.py:52-75 | no interleaving removes an object or a committed version |
| `UploadTransactions.InvalidExactlyForNaiveExpiry` | backend/src/bid_system/modules/documents/application/upload.py:88-110 | in every interleaving a statement reports an invalid version if and only if it is the one that makes the version and the upload has a naive expiry, and that is the fault it reports |
| `UploadTransactions.PutKeepsInv` | backend/src/bid_system/modules/documents/infrastructure/object_store.py:52-75 | putting an object that another upload has put in between disturbs nobody |
| `UploadTransactions.StatThenPutIsPut` | backend/src/bid_system/modules/documents/infrastructure/object_store.py:52-75 | stat and put as two steps with nothing in between do what put does in one |
| `UploadTransactions.StoringAloneIsStore` | backend/src/bid_system/modules/documents/application/upload.py:70-95 | an upload on its own, going on by nothing but stat and put operations, arrives at what the storing stages of the sequential pipeline compute |
| `RefreshSession.RotationNeedsActivity` | backend/src/bid_system/modules/identity/domain/session.py:83-116 | rotation succeeds exactly for the presented digest of an active session with a positive idle TTL and usable replacement ids |
| `RefreshSession.IssuedSessionsLast` | backend/src/bid_system/modules/identity/domain/session.py:56-81 | a session just issued can be used exactly until its idle or its absolute lifetime is over, and issuing fails exactly for blank values or lifetimes that are not positive |
| `RefreshSession.ReplacementsLast` | backend/src/bid_system/modules/identity/domain/session.py:83-116 | a replacement has the family, user and tenant of the consumed session and can be used exactly until a new idle lifetime or the old absolute one is over; the consumed session never again |
| `RefreshSession.RotationErrors` | backend/src/bid_system/modules/identity/domain/session.py:83-116 | when a rotation reports a replay and when an invalid token |
| `SessionStore.FindDigest` | backend/src/bid_system/modules/identity/infrastructure/repository.py:175-182 | the row with the digest, or the certainty that there is none |
| `SessionStore.FindSession` | backend/src/bid_system/modules/identity/infrastructure/repository.py:281-289 | a row with the session id, or the certainty that there is none |
| `SessionStore.Store.AddRefreshSession` | backend/src/bid_system/modules/identity/infrastructure/repository.py:83-97 | adds the row, or reports a duplicate session id or digest and changes nothing |
| `SessionStore.Store.RotateRefreshSession` | backend/src/bid_system/modules/identity/infrastructure/repository.py:167-208 | table and status are those of the specification: consume and replace, revoke the family, or nothing |
| `SessionStore.Store.RevokeRefreshFamilyByDigest` | backend/src/bid_system/modules/identity/infrastructure/repository.py:210-232 | revokes exactly the sessions of the family that are not yet revoked |
| `SessionFamilies.OperationKeepsInv` | backend/src/bid_system/modules/identity/infrastructure/repository.py:83-232 | login, refresh and logout keep every family a chain: one unconsumed session, each consumed at its successor's issue, user, tenant, deadline and revocation common to all |
| `SessionFamilies.RunsKeepInv` | backend/src/bid_system/modules/identity/infrastructure/repository.py:83-232 | the same in every reachable table, families interleaving freely |
| `SessionFamilies.UnconsumedIsNewest` | backend/src/bid_system/modules/identity/domain/session.py:83-116 | the unconsumed session of a family is its newest |
| `SessionFamilies.AtMostOneActive` | backend/src/bid_system/modules/identity/domain/session.py:124-131 | in every reachable table at most one session of a family can ever be used, and it is the newest |
| `SessionFamilies.IssueTimesAreBounded` | backend/src/bid_system/modules/identity/domain/session.py:69-116 | the k-th replacement is issued before k idle lifetimes have passed |
| `SessionFamilies.FamiliesExpire` | backend/src/bid_system/modules/identity/domain/session.py:69-131 | after any number of rotations issued_at < idle_expires_at <= absolute_expires_at = first issue + absolute TTL, and no session is active at or after that |
| `SessionFamilies.LoginOpensAFamily` | backend/src/bid_system/modules/identity/infrastructure/repository.py:83-97 | a login with usable values opens a family of one session that can be used until its lifetimes are over |
| `SessionFamilies.RevokedFamilyIsFrozen` | backend/src/bid_system/modules/identity/infrastructure/repository.py:167-232 | no admissible operation changes any session of a revoked family, its revocation time included |
| `SessionFamilies.RevokedForever` | backend/src/bid_system/modules/identity/infrastructure/repository.py:167-232 | over a whole run a revoked family stays as it is |
| `SessionFamilies.ReplayAndLogoutRevokeTheFamily` | backend/src/bid_system/modules/identity/infrastructure/repository.py:193-232 | a replay or a logout revokes all sessions of the family at one time, the first ever recorded, and changes nothing else in it |
| `SessionTransactions.StatementKeepsInv` | backend/src/bid_system/modules/identity/infrastructure/repository.py:83-232 | every statement of every login, refresh and logout keeps families linked: one unconsumed session, each consumed at its successor's issue, user, tenant and deadline common to all |
| `SessionTransactions.RunsKeepInv` | backend/src/bid_system/modules/identity/infrastructure/repository.py:83-232 | the same in every state of every interleaving of statements |
| `SessionTransactions.AtMostOneActive` | backend/src/bid_system/modules/identity/infrastructure/repository.py:167-208 | however statements interleave, at most one session of a family can be used, and it is the newest |
| `SessionTransactions.RotationsAreAtomic` | backend/src/bid_system/modules/identity/infrastructure/repository.py:175-208 | a committed rotation is the atomic rotation of the store at the moment of its commit |
| `SessionTransactions.RevocationIsComplete` | backend/src/bid_system/modules/identity/infrastructure/repository.py:193-205 | a replay or logout leaves no unrevoked session in the family if and only if every session that joined after its UPDATE had started has been revoked meanwhile |
| `SessionTransactions.SweepsAreAtomicExactly` | backend/src/bid_system/modules/identity/infrastructure/repository.py:193-205 | it is the atomic family revocation of the store under exactly that condition |
| `SessionTransactions.SweepIsUniformExactly` | backend/src/bid_system/modules/identity/infrastructure/repository.py:193-205 | from a uniformly revoked or unrevoked family it leads to one if and only if the family was revoked before or no session has joined since the UPDATE started |
| `SessionTransactions.UniformRevocationExactly` | backend/src/bid_system/modules/identity/infrastructure/repository.py:193-232 | over a run a family always carries one revocation time or none if and only if no replay or logout commits on it, unrevoked, after a rotation that committed since its UPDATE started |
| `SessionTransactions.OnlyRotationsJoin` | backend/src/bid_system/modules/identity/infrastructure/repository.py:206-208 | an existing family is joined only by the replacement of a committed rotation |
| `SessionTransactions.ReplayMissesConcurrentReplacement` | backend/src/bid_system/modules/identity/infrastructure/repository.py:193-208 | the condition can fail: a run in which a replay commits and the replacement of a concurrent rotation stays usable |
| `SessionTransactions.RevokedFamilyIsFrozen` | backend/src/bid_system/modules/identity/infrastructure/repository.py:167-232 | once all sessions of a family are revoked, no statement of anybody changes the family |
| `SessionTransactions.RevokedForever` | backend/src/bid_system/modules/identity/infrastructure/repository.py:167-232 | over a whole run of interleaved statements such a family stays as it is |
| `SessionTransactions.CompleteRevocationIsFinal` | backend/src/bid_system/modules/identity/infrastructure/repository.py:193-232 | after a replay or logout that was not overtaken no session of the family is ever changed, rotated, added or active again; it revokes them all if and only if it was not overtaken |
| `RefreshEndpoint.TransactionManager.Enter` | backend/src/bid_system/platform/database/transaction.py:39-51 | a session that sees the committed rows, or an error that leaves the manager without one; re-entry is refused |
| `RefreshEndpoint.TransactionManager.Exit` | backend/src/bid_system/platform/database/transaction.py:53-84 | commits exactly when the body did not raise and the commit works; the session is given up in every case |
| `RefreshEndpoint.ReplacementResolves` | backend/src/bid_system/modules/identity/application/resolve_identity.py:37-51 | the session just created always passes the session part of identity resolution at the same instant |
| `RefreshEndpoint.AuthRoutes.Refresh` | backend/src/bid_system/entrypoints/api/routes/auth.py:358-430 | commits exactly one of consume-and-replace, whole-family revocation and nothing; grants a session exactly when it has committed that replacement, only to an account that can authenticate with an active membership, and commits nothing when it raises |
| `RefreshEndpoint.AuthRoutes.Logout` | backend/src/bid_system/entrypoints/api/routes/auth.py:433-454 | revokes the family of a known cookie, answers the same for an unknown or absent one, and commits nothing when it raises |
| `RefreshEndpoint.RequestsAreFamilyOperations` | backend/src/bid_system/entrypoints/api/routes/auth.py:358-430 | what a refresh request commits is the refresh step of the family runs |
| `RefreshEndpoint.EffectIsDecidedByTheSession` | backend/src/bid_system/entrypoints/api/routes/auth.py:385-407 | replacement exactly for an active session whose account is known and can authenticate and whose membership is known and active, revocation exactly for a consumed one |
| `RefreshEndpoint.ResolvesExactly` | backend/src/bid_system/modules/identity/application/resolve_identity.py:37-51 | an identity resolves if and only if account, membership and session are known, usable and belong together |
| `RefreshEndpoint.UnknownTokensDoNothing` | backend/src/bid_system/entrypoints/api/routes/auth.py:385-400 | a token nobody has issued changes nothing |
| `RateLimit.RedisRateLimiter.Check` | backend/src/bid_system/platform/security/rate_limit.py:91-113 | rejects exactly blank keys; otherwise decision and counters are those of the script, whose windows are proved fixed below, outages before and after it included |
| `RateLimit.HitsDoNotProlongWindows` | backend/src/bid_system/platform/security/rate_limit.py:11-17 | a hit on a key in force counts one and leaves the end of its window where it is |
| `RateLimit.WindowsAreFixed` | backend/src/bid_system/platform/security/rate_limit.py:11-17 | over any run a window ends exactly one window length after the request that opened it, and its counter counts exactly the requests for the key since then that reached the store |
| `RateLimit.DecisionsCountTheWindow` | backend/src/bid_system/platform/security/rate_limit.py:91-113 | an answered request is allowed if and only if it opens a window, or no more requests than the capacity have reached the store in the window, itself included |
| `RateLimit.DecisionsInFull` | backend/src/bid_system/platform/security/rate_limit.py:91-113 | remaining is what is left of the capacity, and an outage is answered by the mode and marked as degraded |
| `RateLimit.AllowedIsCountedOrWaved` | backend/src/bid_system/platform/security/rate_limit.py:91-113 | an allowed request was allowed by the counter or, under ALLOW only, waved through during an outage |
| `RateLimit.CountWindows` | backend/src/bid_system/platform/security/rate_limit.py:11-17 | all requests that the counter allows from a time on are accounted for by the window in force and full windows before it, in both outage modes |
| `RateLimit.SlidingBound` | backend/src/bid_system/platform/security/rate_limit.py:91-113 | in any interval of length L a key is allowed at most capacity * (ceil(L / window) + 1) times plus the requests waved through during outages, of which DENY has none, for any request times, outages and other keys; the same with the window one millisecond longer |
| `RateLimit.TwiceTheCapacity` | backend/src/bid_system/platform/security/rate_limit.py:91-113 | at most twice the capacity in any interval of at most a window and a millisecond, outages under ALLOW aside |
| `RateLimit.BoundedExactlyUnderDeny` | backend/src/bid_system/platform/security/rate_limit.py:91-113 | that bound holds of all runs without exception if and only if the policy denies during an outage |
| `RateLimit.BoundIsTight` | backend/src/bid_system/platform/security/rate_limit.py:11-17 | for every policy there are requests that reach twice the capacity within a window and a millisecond |
| `RateLimit.RetryAfterIsLongEnough` | backend/src/bid_system/entrypoints/api/routes/auth.py:155-166 | the window that denied a request ends at most one Retry-After later, and any window in force after that is a later one, whatever came in between |
| `RateLimit.RetryIsAllowed` | backend/src/bid_system/entrypoints/api/routes/auth.py:155-166 | after a denial, with no other request for the key in between, a request is allowed if and only if it comes after the end of the window that denied, hence any time after one Retry-After |
| `RateLimit.RetryAtTheTieIsDenied` | backend/src/bid_system/entrypoints/api/routes/auth.py:155-166 | at the very millisecond it can still be denied |
| `ToolExecutor.Execute` | backend/src/bid_system/agent_runtime/tools/executor.py:58-119 | for any tool behaviour the trace is n - 1 times (STARTED, failure, RETRYING) and then STARTED n with a terminal event matching the response; the response is what the last behaviour stands for; n <= max_attempts, n = 1 unless idempotent, every retried failure retryable, and an error is returned only with the attempts used up, for a tool that is not idempotent, or if it is not retryable; one sleep per retry; the error after the loop is unreachable |
| `ToolExecutor.EventsTellTheBehaviour` | backend/src/bid_system/agent_runtime/tools/executor.py:121-175 | a timeout is a retryable timeout, an exception or a misfit value a failed execution, and any other answer the tool's own, and the event says which |
| `ToolExecutor.SleepIsBounded` | backend/src/bid_system/agent_runtime/tools/executor.py:181-184 | sleeps never shorten, and together they are within both budgets of the policy |
| `ToolExecutor.UncappedSleepIsExponential` | backend/src/bid_system/agent_runtime/tools/executor.py:181-184 | n retries sleep the full exponential sum if and only if the last delay was not capped |
| `Lifecycle.ApplicationContainer.Create` | backend/src/bid_system/bootstrap/container.py:114-117 | a created resource is registered; a factory that raises registers nothing |
| `Lifecycle.ApplicationContainer.CreateAndProbe` | backend/src/bid_system/bootstrap/container.py:119-123 | a resource whose probe fails is registered all the same |
| `Lifecycle.ApplicationContainer.CreateResources` | backend/src/bid_system/bootstrap/container.py:102-106 | for every point of failure exactly the resources created before it are registered, in order |
| `Lifecycle.ApplicationContainer.CloseResources` | backend/src/bid_system/bootstrap/container.py:132-142 | closes every registered resource once, newest first, whatever the close calls raise, and reports whether any raised |
| `Lifecycle.ApplicationContainer.Start` | backend/src/bid_system/bootstrap/container.py:98-112 | only a new container starts; a failed start closes what it created, suppressing close errors, and ends CLOSED |
| `Lifecycle.ApplicationContainer.Close` | backend/src/bid_system/bootstrap/container.py:125-130 | repeated closure is harmless; when a close call raised, everything is closed but the state not advanced |
| `Lifecycle.WorkerRuntime.Run` | backend/src/bid_system/entrypoints/worker/lifecycle.py:56-61 | starts a container and a runner at most once and hands the container to the operation; after a failed start the runtime can be started again, after closing it cannot |
| `Lifecycle.WorkerRuntime.Close` | backend/src/bid_system/entrypoints/worker/lifecycle.py:63-78 | always ends closed, without container and runner, even when closing the container raises |
| `Lifecycle.OperationsGetOpenResources` | backend/src/bid_system/entrypoints/worker/lifecycle.py:56-61 | an operation always gets a started container whose four resources are exactly what is open |
| `Lifecycle.CallOutcomes` | backend/src/bid_system/entrypoints/worker/lifecycle.py:56-99 | what each call comes to: the first run that nothing spoils performs its operation, as does every later one until closing; a close raises exactly if a resource does |
| `Lifecycle.ClosedExactlyOnce` | backend/src/bid_system/bootstrap/container.py:132-142 | under the stack discipline a resource is created at most once and closed exactly once unless it is still open |
| `Lifecycle.ClosedInReverse` | backend/src/bid_system/bootstrap/container.py:132-142 | before a resource is closed, everything created after it has been closed |
| `Lifecycle.StartKeepsAccounts` | backend/src/bid_system/bootstrap/container.py:98-112 | a failed start leaves nothing open; a successful one exactly the four resources of its container |
| `Lifecycle.CloseKeepsAccounts` | backend/src/bid_system/bootstrap/container.py:125-142 | closing leaves nothing open, whatever the close calls raise |
| `Lifecycle.StartOutcomes` | backend/src/bid_system/bootstrap/container.py:98-123 | which points of failure make a start raise, and how many resources it has then created and closed |
| `Lifecycle.CloseOutcomes` | backend/src/bid_system/bootstrap/container.py:125-142 | a close raises exactly if some resource does, and then does not advance the state |
| `Lifecycle.ContainersAccountForResources` | backend/src/bid_system/bootstrap/container.py:98-142 | for any sequence of starts and closes with any exceptions a container that is not started holds nothing open |
| `Lifecycle.RuntimesAccountForResources` | backend/src/bid_system/entrypoints/worker/lifecycle.py:56-99 | for any sequence of calls a runtime has a live container and a runner exactly when it is started, never two, nothing else is open, and no runner is closed twice |
| `Lifecycle.ClosedRuntimesHoldNothing` | backend/src/bid_system/entrypoints/worker/lifecycle.py:56-99 | once a runtime is closed, every resource ever created has been closed exactly once |
| `Lifecycle.RunnersAreClosedUnlessTheFactoryRaised` | backend/src/bid_system/entrypoints/worker/lifecycle.py:90-96 | once a runtime is closed, every runner has been closed exactly once if and only if the container factory never raised; one runner stays unclosed for each time it did |
| `Lifecycle.FailedFactoryAbandonsARunner` | backend/src/bid_system/entrypoints/worker/lifecycle.py:90-96 | it happens: a factory that raises once leaves one runner unclosed in a closed runtime |
| `ComparisonSymbols.PatternIsMaximalMunch` | backend/src/bid_system/modules/documents/domain/elements.py:17 | the first alternative of the ordered pattern that matches at a position is the longest that does, and is told by two characters |
| `ComparisonSymbols.TokenLength` | backend/src/bid_system/modules/documents/domain/elements.py:17 | the pattern matches exactly at symbol characters, one or two characters long |
| `ComparisonSymbols.ScanIsLocal` | backend/src/bid_system/modules/documents/domain/elements.py:290-309 | the leftmost scan finds, in order and without overlap, exactly the positions that a character and its left neighbour single out, each at maximal length |
| `ComparisonSymbols.SymbolsAreSound` | backend/src/bid_system/modules/documents/domain/elements.py:242-309 | every match reproduces the text at its span, has the operator its characters mean, and passes all checks of ComparisonMatch |
| `ComparisonSymbols.ValidMatchesExactly` | backend/src/bid_system/modules/documents/domain/elements.py:242-253 | which matches are valid: the symbol means the operator, the span has its length, the field has text |
| `ComparisonSymbols.ExtractFailsExactlyOnBlankFields` | backend/src/bid_system/modules/documents/domain/elements.py:290-309 | extraction fails if and only if the field name is blank; no match it constructs is ever refused |
| `ComparisonSymbols.SymbolsAreCoveredOnce` | backend/src/bid_system/modules/documents/domain/elements.py:290-309 | a character lies in a match if and only if it is a symbol character, and then in exactly one |
| `ComparisonSymbols.ExtractionIsLocal` | backend/src/bid_system/modules/documents/domain/elements.py:290-309 | extract(a + b) = extract(a) ++ shift(extract(b), length of a) if and only if the boundary does not part an angle bracket from its equals sign |
| `ComparisonSymbols.TornSymbolsMerge` | backend/src/bid_system/modules/documents/domain/elements.py:290-309 | at a torn boundary the angle bracket that ends the left part and the equals sign that starts the right part are one compound symbol of the whole text, and all other symbols stay |
| `ComparisonSymbols.CheckTable` | backend/src/bid_system/modules/documents/domain/elements.py:541-561 | accepts exactly the tables with a sound header and valid cells; otherwise reports the first fault in the order of the checks |
| `ComparisonSymbols.CheckCells` | backend/src/bid_system/modules/documents/domain/elements.py:555-561 | the cell loop accepts exactly distinct cell ids inside the dimensions; otherwise reports the first fault |
| `ComparisonSymbols.CellSymbolsComeFromCells` | backend/src/bid_system/modules/documents/domain/elements.py:569-580 | every symbol reported from the cells is a symbol of some cell at that span |
| `ComparisonSymbols.TableSymbolsAreTraceable` | backend/src/bid_system/modules/documents/domain/elements.py:569-580 | every symbol of a valid table is the text at its span in the title or in the one cell its source id names |
| `ComparisonSymbols.CellSymbolsAreComplete` | backend/src/bid_system/modules/documents/domain/elements.py:569-580 | no symbol of any cell is lost |
| `ComparisonSymbols.TableSymbolsInOrder` | backend/src/bid_system/modules/documents/domain/elements.py:569-580 | the symbols of a table are those of its title and then those of its cells in order |
| `Instream.StreamFrames` | backend/src/bid_system/modules/documents/infrastructure/safety.py:110-116 | the write loop produces the length-prefixed frames of the whole file |
| `Instream.StreamFile` | backend/src/bid_system/modules/documents/infrastructure/safety.py:105-118 | what is written is command, frames and terminator |
| `Instream.PrefixIsNetworkOrder` | backend/src/bid_system/modules/documents/infrastructure/safety.py:112 | a length is four bytes, most significant first |
| `Instream.WireEnds` | backend/src/bid_system/modules/documents/infrastructure/safety.py:109-118 | the stream begins with the command word and a NUL and ends with a length of zero |
| `Instream.FramesCarryTheParts` | backend/src/bid_system/modules/documents/infrastructure/safety.py:110-114 | the frames are those of consecutive parts that make up the file |
| `Instream.NoFrameIsEmpty` | backend/src/bid_system/modules/documents/infrastructure/safety.py:110-114 | no frame before the terminator has length zero, its length fits the prefix, and all but the last are full chunks |
| `Instream.DecodeInvertsEncode` | backend/src/bid_system/modules/documents/infrastructure/safety.py:105-118 | a reader of the protocol recovers exactly the file, for every file and chunk size, and stops at the end of the upload whatever follows |
| `Instream.EncodingsAreUnambiguous` | backend/src/bid_system/modules/documents/infrastructure/safety.py:105-118 | equal streams carry equal files, whatever the chunk sizes |
| `Instream.WireLength` | backend/src/bid_system/modules/documents/infrastructure/safety.py:105-118 | the stream is 10 + size + 4 * (ceil(size / chunk) + 1) bytes long |

## Left out

- ComparisonSymbols.CheckTable: cells, positions, confidences and provenance have passed their own constructors, which are left out, each check being one branch.
- OutboxStore.CreateEvent: payload and metadata, which nothing inspects, and the default clock and id.
- RefreshEndpoint.AuthRoutes.Refresh: the cookie, CSRF, limiter and configuration checks are one input that may reject the request, and issuing the access token is one that may raise; whether the framework sends the response before or after the commit is not modelled.
- DocumentUpload.UploadDocumentHandler.Handle: one upload at a time; interleaved uploads are the subject of `UploadTransactions`.
- Instream.StreamFile: a connection that breaks, and what the scanner answers.
- Claiming twice in one transaction without a flush in between: the second query is then answered from rows that the first claim has not reached.
- Redaction of error texts: the failure text is an arbitrary string, taken after redaction.
- Floating point: rounding and the overflow of very large powers of two.
- Timezone checks of session times, which compare instants only after them.
- Lifecycle.WorkerRuntime.Run: what the operation does with the container, its result, and the error of an operation that closes its own container.
- Digests, JWT, Argon2, cookies, CSRF and the rest of HTTP: routing, limits before the request, response bodies.
- PostgreSQL, Redis, MinIO, LibreOffice, pypdf, zip inspection and clamd themselves: only the answers the core relies on, and the reply interpretation of the scanner is not modelled.
- File names: staging starts from the base name after Unicode normalisation and path removal; the workspace directory and its removal are not modelled.
- Element validators other than the cell loop, and the comparison of text and picture elements, which are single extractions.
- The tool registry, permissions, tracing spans and durations of the executor, and failures of its recorder or sleeper.
- `BaseException`s escaping from a resource's close, and timeouts around probes (a timeout is a probe that raises).
- `WorkerRuntime` locking: calls are one at a time, as its lock makes them.
- Settings, migrations, telemetry, logging, permission lookup, registration and password checks, which one branch settles.
