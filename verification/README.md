# Verification of the OGPU SDK's write path

The SDK sends Ethereum transactions for one signer from many threads. A shared cache
(`NonceManager`) hands out transaction nonces; `TxExecutor.execute` reserves one, builds, signs,
sends and waits, and retries on some failures; `publish_task` pins a configuration to IPFS and then
runs an executor, both under one optional time budget. This project models that path, together with
paginated reads, revert decoding and the RPC caches beside it, and proves what holds on every run.

## How it is organised

| file | what it holds |
|---|---|
| `NonceOps.dfy`, `NonceManager.dfy` | one cache operation on one entry; the cache class; the `fix_nonce` loop |
| `NonceProtocol.dfy`, `NonceOwnership.dfy` | any number of threads interleaving whole cache operations, against a chain that moves by itself: no gap; who owns a nonce, and which events end that |
| `LockProtocol.dfy` | the same threads with every lock, read and write as its own step; each run refines the previous file's |
| `TxExecutor.dfy` | the executor loop, as methods proved equal to a function of the answers it gets and the time they take |
| `TxProperties.dfy`, `TxAnswers.dfy`, `TxOutcomes.dfy`, `TxRetries.dfy`, `TxResults.dfy` | conservation and bounds; how one attempt ends, told from its answers; double broadcasts and typed outcomes; how often an execution retries and how late it sends; how failures are recognised and what a result says about the chain |
| `TxReports.dfy` | the transcript: what an attempt shows, reports and takes for each way in which it can end, in the source's own words and constants |
| `TxDeadline.dfy`, `TxBudget.dfy` | sends and waits under the deadline; how long an execution takes, and by how much exactly it may overrun |
| `Composition.dfy` | executors and cache together: what finished executions leave behind, under every schedule |
| `IpfsPublish.dfy`, `PublishTask.dfy` | the pin's retry loop and time bound; the pipeline that composes pin and executor |
| `Pagination.dfy` | half-open ranges over inclusive getters: two paths, one result |
| `Revert.dfy`, `Strings.dfy` | revert messages to typed errors, on Python's string operations |
| `RpcConfig.dfy` | RPC endpoints per chain and the clients cached from them |
| `Prelude.dfy`, `Errors.dfy` | shared small types; the SDK's error values |

The node, the scheduler, the IPFS endpoint and the other threads are *oracles*: functions from the
attempt number to an answer and to the time it takes, about which nothing is assumed unless a
`requires` says so. An answer may be any exception, `KeyboardInterrupt` included. Seconds are `real`;
time runs through each loop and into its log. Each loop of the source is a Dafny loop, proved equal
to a recursive function, and the properties are proved about that function.

## Hypotheses

These are forced by the code and appear as preconditions or as the shape of the state.

- One chain per run: the cache is keyed by address only (`ogpu/chain/nonce.py:51`) while the client
  follows the active chain, so nothing here survives a `set_chain` between two reservations.
- The chain is at least as far as any pending reading says (readings may be stale, never ahead), and
  does not forget a transaction it accepted. Only gap freedom needs this; exclusive ownership holds
  for arbitrary readings.
- A `send_raw_transaction` that raises did not land.
- `clear_all` and `increment_nonce` are not steps of the runs; for each there is a lemma that says
  exactly when it does harm.
- `fix_nonce` appears in the runs as what it does there: replacements are outside transactions at
  nonces the mempool already has, and its closing `reset_nonce` is a step like any other.
- Time bounds take posts, receipt waits and interrupted pauses to end within what they were given, and
  nothing to take negative time.

## Where code and documentation disagree

The model follows the code. Each line names the lemma that draws the exact boundary.

- `execute` is documented to raise typed errors only. `_get_web3` and `reserve_nonce` stand outside
  the `try` (`ogpu/protocol/_base.py:469`, `485`), interrupts and the pauses in the handlers outside
  any: `TxOutcomes.RawExceptionExactly`. A publish adds a task input that does not dump or serialise
  (`ogpu/ipfs/publish.py:103`), an interrupted sleep of the pin (`ogpu/ipfs/publish.py:174`), refused
  parameters and two lookups: `PublishTask.RawExceptionExactly`, `PinEscapesExactly`.
- Post-broadcast errors are documented not to be retried, because a second send could publish twice.
  Only the transport branch tests `broadcast`; the nonce and underpriced branches
  (`ogpu/protocol/_base.py:552-580`) do not, and "unknown transaction" contains "known transaction":
  `DoubleBroadcastExactly`, `UnknownReadsAsKnown`.
- `PublishTimeoutError` is documented as "no gas spent". After such a retry the deadline check of the
  next attempt raises it although a transaction is out: `BudgetErrorAfterBroadcastExactly`.
- `total_timeout` is documented to bound the whole call (`ogpu/client/__init__.py:246-248`). A receipt
  wait is granted at least one second (`ogpu/protocol/_base.py:516-518`) and the five second pause
  ignores the deadline (`ogpu/protocol/_base.py:578`). The least bound on the overrun is the sum of
  both: `CallOverrunExactly`, `OverrunExactly`; which of them fit: `PlansKeepBudgetExactly`,
  `InsideExactly`; a run that overruns by its pause alone: `PauseOverrunsAlone`.
- Transient errors are documented to be retried once (`CHANGELOG.md:12`). That holds of every execution
  if and only if there are at most two attempts; the default is three: `TransientRetriedOnceExactly`.
- `reserve_nonce` tells callers to `reset_nonce` after a failure before broadcast and says the executor
  does so (`ogpu/chain/nonce.py:109-113`); the executor calls `release_nonce` on every such failure
  (`ogpu/protocol/_base.py:507-508`) and resets on collisions only, before or after the broadcast:
  `GivesUpExactly`. The protocol covers both ways of giving a reservation up.
- Expiry is documented to be checked right before the transaction is sent
  (`ogpu/client/__init__.py:275-278`). Nothing checks it again before a retry, so a broadcast may come
  up to ten seconds past it, without counting slow legs: `SentAfterExpiryExactly`.
- A reservation is documented as exclusively owned (`ogpu/chain/nonce.py:120`). This ends when the
  cache entry is dropped while another reservation is outstanding: `ExposureExactly`,
  `CollisionExactly`, `DroppedCollidesExactly`, `RollbackCollidesExactly`, and with an up-to-date node
  `FreshCollisionExactly`; `DropBreaksOwnership` is a run.
- `fix_nonce(address=...)` reads and resets the given address but signs as the key's own
  (`ogpu/chain/nonce.py:358-366`): `RepairActsOnAddressExactly`.
- `clear_all` discards lock objects without holding them (`ogpu/chain/nonce.py:203-205`):
  `ClearAllUnsafeExactly`.
- `fetch_from_zero` is documented as a workaround that returns the same range. With a negative lower
  bound it slices from the end where the chunked loop panics: `PathsAgreeExactly`.
- A first `get_web3_instance` probes its client without a lock; an override that lands meanwhile is
  overwritten in the cache by the old endpoint's client: `RacingLookupCoherentExactly`.

## Model

| member | source | states |
|---|---|---|
| NonceManagement.NonceManager.constructor | ogpu/chain/nonce.py:51-53 | the cache and the lock table start empty |
| NonceManagement.NonceManager.GetLock | ogpu/chain/nonce.py:58-61 | an address is given its one lock, made on first use and unlike every other; no other entry of the table changes |
| NonceManagement.NonceManager.GetNonce | ogpu/chain/nonce.py:81-89 | a read stores and returns the larger of cache and pending count (the pending count alone on a refresh) and reserves nothing; a failing read changes no entry; other addresses keep theirs |
| NonceManagement.NonceManager.ReserveNonce | ogpu/chain/nonce.py:122-128 | the nonce handed out is the larger of cache and pending count, the entry ends one above it; a failing read changes no entry; other addresses keep theirs |
| NonceManagement.NonceManager.ReleaseNonce | ogpu/chain/nonce.py:152-158 | the top reservation is rolled back, any other release drops the entry, other addresses keep theirs |
| NonceManagement.NonceManager.IncrementNonce | ogpu/chain/nonce.py:172-176 | an existing entry goes up by one, an absent one stays absent |
| NonceManagement.NonceManager.ResetNonce | ogpu/chain/nonce.py:190-194 | exactly this address's entry is gone |
| NonceManagement.NonceManager.ClearAll | ogpu/chain/nonce.py:203-205 | every entry and every lock is gone |
| NonceOps.NestedUseRestores | ogpu/chain/nonce.py:124-158 | however reservations and give-backs nest, held nonces are consecutive and the next one depends on the depth alone |
| NonceOps.BalancedUseIsInvisible | ogpu/chain/nonce.py:154-158 | after giving everything back the next nonce is what it was at the start |
| NonceManagement.FixNonce | ogpu/chain/nonce.py:292-337 | without a key, a node or a count it fails with that error, attempts nothing and changes nothing; else a replacement for n, signed by the key, is attempted if and only if latest <= n < pending and none before it was cut short, in ascending order; a cut or an interrupted pause is the error and keeps the cache, otherwise the asked address's entry is gone and the last reading is the answer; the successes are the attempts that went out |
| NonceManagement.CancelStuck | ogpu/chain/nonce.py:313-321 | the loop tries every stuck nonce in ascending order up to the first whose cancellation is cut short, which it reports, and counts those that went out |
| NonceManagement.RepairCoversStuckNonces | ogpu/chain/nonce.py:308-321 | when nothing is cut short, n gets a replacement if and only if mined <= n < pending, and each only one |
| NonceManagement.RepairActsOnAddressExactly | ogpu/chain/nonce.py:358-366 | the replacements act on the requested address if and only if it is the key's own or nothing is stuck |
| NonceManagement.RepairThenReserve | ogpu/chain/nonce.py:332-337 | whichever cancellations failed, and even if the last reading did, the reservation after an uninterrupted repair is exactly the pending count it reads itself |
| NonceProtocol.PendingFrom | ogpu/chain/nonce.py:125 | the pending count is the first nonce at or above the mined count that the mempool lacks |
| NonceProtocol.TransactionsConserved | ogpu/chain/nonce.py:132-147 | each event makes the chain know exactly the transactions it sends and the threads have spent exactly what they broadcast; mining takes one out of the mempool |
| NonceProtocol.ReservationsKept | ogpu/chain/nonce.py:104-120 | a thread owns a reservation from its own reserve until its own broadcast, release or reset, whatever the others do |
| NonceProtocol.BroadcastInAnyOrder | ogpu/chain/nonce.py:94-108 | reservations at or above the mined count may be broadcast in any order: all of them reach the chain, and nobody else's is touched |
| NonceProtocol.PendingMonotone | ogpu/chain/nonce.py:40-43 | no event moves the pending count back, and mining leaves it |
| NonceProtocol.GapFreeStep | ogpu/chain/nonce.py:122-158 | every event under an honest reading keeps each nonce between pending count and counter in flight or owned |
| NonceProtocol.NoNonceGap | ogpu/chain/nonce.py:132-147 | no permanent gap after any interleaving of reservations, releases, resets, reads and chain progress, drops and duplicates included |
| NonceProtocol.QuiescentRecovery | ogpu/chain/nonce.py:125-128 | when nobody holds a reservation, the next one under a fresh reading is the chain's pending nonce |
| NonceProtocol.IncrementKeepsGapFreeExactly | ogpu/chain/nonce.py:174-176 | `increment_nonce` keeps gap freedom if and only if the skipped nonce is behind the chain or accounted for |
| NonceOwnership.OwnedStep | ogpu/chain/nonce.py:122-158 | an event that does not drop the entry over another reservation keeps ownership exclusive, for arbitrary readings |
| NonceOwnership.ExposureExactly | ogpu/chain/nonce.py:141-145 | from exclusive ownership an event makes a nonce with two owners possible if and only if it drops the entry while another reservation is outstanding, or refreshes the counter down to one |
| NonceOwnership.CollisionExactly | ogpu/chain/nonce.py:104-120 | some drop-free honest continuation gives one nonce to two threads if and only if some owner is not below the counter |
| NonceOwnership.FreshCollisionExactly | ogpu/chain/nonce.py:125-128 | under fresh readings, if and only if some owner is neither below the counter nor below the pending count |
| NonceOwnership.DroppedCollidesExactly | ogpu/chain/nonce.py:157-158 | after a drop that is so if and only if any reservation is outstanding |
| NonceOwnership.RollbackCollidesExactly | ogpu/chain/nonce.py:155-156 | after a rollback, if and only if another thread owns the nonce handed back |
| NonceOwnership.ReissueExactly | ogpu/chain/nonce.py:125-128 | an owned or broadcast nonce can be handed out again if and only if the counter is not past it |
| NonceOwnership.ExclusiveStep | ogpu/chain/nonce.py:122-158 | an event that drops nothing keeps all outstanding and spent nonces distinct and below the counter, for arbitrary readings |
| NonceOwnership.ExclusiveOwnership | ogpu/chain/nonce.py:94-120 | in every run that drops entries only while no other reservation is outstanding no nonce has two owners, for arbitrary readings; if none is dropped, none is broadcast twice either |
| NonceOwnership.DropBreaksOwnership | ogpu/chain/nonce.py:141-145 | a concrete run in which a release after a drop rolls back a nonce another thread owns; gap freedom holds in it |
| NonceOwnership.SpentStaysKnown | ogpu/chain/nonce.py:143-145 | what our threads broadcast stays mined or in the mempool along every run |
| NonceOwnership.ReissueIsNeverSpent | ogpu/chain/nonce.py:141-145 | the first reservation under a fresh reading after a drop may duplicate an owned nonce, never a broadcast one |
| LockProtocol.LockingStep | ogpu/chain/nonce.py:55-61 | each step keeps one distinct lock per address, current references, and owners inside their sections |
| LockProtocol.LockingExcludes | ogpu/chain/nonce.py:82-83 | that invariant means at most one thread per address in its critical section |
| LockProtocol.LocksArePermanent | ogpu/chain/nonce.py:58-61 | once made, an address's lock object stays its lock in every run without `clear_all` |
| LockProtocol.StoreIsAtomic | ogpu/chain/nonce.py:124-128 | a store computed from the entry loaded earlier is the whole operation on the present entry |
| LockProtocol.StepRefines | ogpu/chain/nonce.py:122-158 | at each address each step is invisible or exactly one honest whole operation |
| LockProtocol.ConsistentStep | ogpu/chain/nonce.py:82-89 | what a thread inside its section has read stays true through everybody's steps |
| LockProtocol.RunRefines | ogpu/chain/nonce.py:55-194 | every fine-grained run, failing readings included, is, address by address, an honest run of whole operations |
| LockProtocol.ScheduleIsSafe | ogpu/chain/nonce.py:55-194 | from process start, under every schedule: mutual exclusion, distinct locks, no gap, and exclusive ownership unless an entry is dropped over an outstanding reservation |
| LockProtocol.CallPerforms | ogpu/chain/nonce.py:55-194 | left alone, a call of any operation runs through all its steps to its end, gives both locks back, and changes the entry and the reservations of its address as reserve, release, reset or read should, and nothing else |
| LockProtocol.FailedReadLeaves | ogpu/chain/nonce.py:83-84 | a call whose reading fails runs to its end as well, gives both locks back and changes no entry and no reservation |
| LockProtocol.StepsUnlessBlocked | ogpu/chain/nonce.py:58-61 | a thread inside the registry or its critical section can always take its next step |
| LockProtocol.NoDeadlock | ogpu/chain/nonce.py:82-83 | while any call is in progress, some call can move on |
| LockProtocol.ClearAllKeepsLockingExactly | ogpu/chain/nonce.py:203-205 | `clear_all` keeps the locking invariant if and only if no thread has fetched a lock it has not left |
| LockProtocol.ClearAllBreaksExclusion | ogpu/chain/nonce.py:203-205 | with such a thread and one idle thread there is a continuation with two threads in one critical section |
| LockProtocol.ClearAllUnsafeExactly | ogpu/chain/nonce.py:203-205 | some continuation after `clear_all` breaks mutual exclusion if and only if there is such a thread |
| TxExecution.NewExecutor | ogpu/protocol/_base.py:415-430 | at least one attempt, never fewer than asked for; an empty or missing context is derived from contract and function; everything else as given |
| TxExecution.Execute | ogpu/protocol/_base.py:467-602 | for every oracle the loop emits exactly the events, in order, and ends in exactly the outcome and at exactly the time of the recursive specification, the one all executor results below are about |
| TxExecution.RecoverOnce | ogpu/protocol/_base.py:543-599 | the handlers tried one after the other amount to one decision by error class, pauses and interrupts included |
| TxProperties.ReservationsConserved | ogpu/protocol/_base.py:480-509 | on every path, interrupts included, each reservation is broadcast or released before the next, resets happen in between, and none is left at exit |
| TxProperties.NeverBroken | ogpu/protocol/_base.py:480-509 | at every moment of an execution at most one reservation is unresolved |
| TxProperties.ReservationsBalance | ogpu/protocol/_base.py:480-509 | reserves equal successful sends plus releases |
| TxProperties.AttemptCounts | ogpu/protocol/_base.py:472-599 | an attempt reserves and broadcasts at most once, sleeps at most five seconds and only to retry, and is retried after a broadcast only on a mistaken collision |
| TxProperties.ExecutionBounded | ogpu/protocol/_base.py:421-602 | at most `max_retries` reservations, at most 5 * (`max_retries` - 1) seconds of sleep, and the code after the loop is unreachable |
| TxProperties.ConfirmFails | ogpu/protocol/_base.py:550-599 | a failure after the broadcast is retried if and only if it reads as a collision, an attempt is left and no interrupt strikes |
| TxProperties.BroadcastsAtMostOnce | ogpu/protocol/_base.py:486-599 | without such an error before the last attempt, at most one transaction is sent |
| TxRetries.TransientRetriesExactly | ogpu/protocol/_base.py:581-597 | n bounds the retries after transport errors of every execution if and only if it is at least `max_retries` - 1, deadline or not |
| TxRetries.TransientRetriedOnceExactly | CHANGELOG.md:12 | every execution retries transport errors at most once if and only if there are at most two attempts; with three, some execution retries twice |
| TxRetries.BroadcastsInTime | ogpu/protocol/_base.py:472-597 | no broadcast comes later after the start than a pause, and a wait if one is retried after, per earlier attempt, and the time of the legs |
| TxRetries.LatestBroadcastExactly | ogpu/protocol/_base.py:578 | a number bounds that delay with instant legs if and only if it is at least five seconds per attempt but the last |
| TxOutcomes.DoubleBroadcastExactly | ogpu/protocol/_base.py:552-588 | given the receipt answers, two transactions with different nonces and hashes can go out if and only if an answer before the last attempt reads as a collision |
| TxRetries.BroadcastsTwiceExactly | ogpu/protocol/_base.py:472-599 | one execution broadcasts more than once if and only if its own answers lead, retry by retry, two of its attempts to send |
| TxOutcomes.UnknownReadsAsKnown | ogpu/protocol/_base.py:69-73 | "unknown transaction" is classified as a nonce collision |
| TxOutcomes.BudgetErrorSentNothing | ogpu/protocol/_base.py:462-463 | a budget error means nothing was sent, if no post-broadcast error reads as a collision |
| TxOutcomes.BudgetErrorAfterBroadcastExactly | ogpu/protocol/_base.py:475-478 | given the receipt answers, a budget error after a broadcast is possible if and only if there is a deadline and such an error before the last attempt |
| TxOutcomes.CollisionErrorsExhaustAttempts | ogpu/protocol/_base.py:556-580 | NonceError and GasError are raised only after every attempt was used |
| TxOutcomes.RawExceptionExactly | ogpu/protocol/_base.py:467-485 | a raw exception escapes if and only if connecting fails or the answers lead, retry by retry, to a failing reservation, an uncaught exception or an interrupted pause; a returned receipt has status 1 |
| TxDeadline.ExecutionDisciplined | ogpu/protocol/_base.py:501-522 | every send directly follows a reading before the deadline, every wait starts at the reading directly before it and is capped by it, and every pause is five seconds or one |
| TxDeadline.NoSendPastDeadline | ogpu/protocol/_base.py:473-505 | when time goes forward, after any reading at or past the deadline no later send occurs, across all retries and sleeps |
| TxDeadline.WaitEndsInTime | ogpu/protocol/_base.py:514-522 | a wait from t may last at most `receipt_timeout`, and until the deadline or a second; and no less than that: exactly `receipt_timeout`, or at least the time left and at least a second |
| TxDeadline.ReadingsInOrder | ogpu/protocol/_base.py:475-527 | all clock readings of an execution lie in order between its start and its end |
| TxBudget.OverrunBounded | ogpu/protocol/_base.py:501-597 | an execution ends by the deadline (or its start), plus one granted wait of at most a second, one five second pause, and the time its RPC legs take |
| TxBudget.OverrunExactly | ogpu/protocol/_base.py:516-578 | a number bounds the overrun of every execution with instant legs if and only if it is at least that wait plus, with a second attempt possible, that pause |
| TxBudget.PlansKeepBudgetExactly | ogpu/protocol/_base.py:514-518 | a wait begun at t is planned inside the budget if and only if a second is left or the receipt timeout fits, a pause if and only if its five seconds, or its one, fit |
| TxBudget.InsideExactly | ogpu/protocol/_base.py:501-597 | with instant legs an execution ends inside the budget if and only if each of its pauses and waits does |
| TxBudget.PauseOverrunsAlone | ogpu/protocol/_base.py:578 | a concrete run without any receipt wait: a send rejected a second before the deadline, and the budget error four seconds past it |
| TxBudget.UnderpricedReadsSo | ogpu/protocol/_base.py:69-75 | the underpriced message is not mistaken for a nonce error, which is tested first |
| TxReports.NoStartReported | ogpu/protocol/_base.py:475-485 | entered at or past the deadline, an attempt reads the clock and raises the budget error; refused a nonce, it lets that exception out |
| TxReports.UnsentFailureReported | ogpu/protocol/_base.py:485-509 | a failing build, signature, second deadline check or send is shown by exactly its own events and readings, gives the nonce back, and reaches the handlers as a failure from before the broadcast |
| TxReports.SentFailureReported | ogpu/protocol/_base.py:505-541 | a receipt timeout (with the hash and the time allowed), any other failure of the wait, a reverted receipt or a failing conversion follows exactly the events of a broadcast and its wait, and reaches the handlers as one from after it |
| TxReports.ReceiptReported | ogpu/protocol/_base.py:510-541 | otherwise the node's receipt is returned, after exactly these events and this time |
| TxReports.EveryEndIsTold | ogpu/protocol/_base.py:472-541 | an attempt that got its nonce ends in one of those ways |
| TxReports.FailureHandled | ogpu/protocol/_base.py:543-599 | what the handlers make of each kind of exception and each class of message, before and after the broadcast, with and without another attempt: error and its fields, reset, pause of 5 or 1 s, interrupt, time |
| TxReports.RunIsItsAttempts | ogpu/protocol/_base.py:467-602 | an execution is its attempts from the first on, each entered when the one before it ended, all but the last retried; the last gives outcome and end; a failing connection escapes before any |
| TxResults.ClassifiedExactly | ogpu/protocol/_base.py:69-85 | which words, anywhere in the lowered message and in which order of tests, make a failure a nonce collision, a gas price collision or a transport blip |
| TxResults.MissingBlockExactly | ogpu/protocol/_base.py:80 | the missing-block pattern matches if and only if the text splits into "block", blanks, a word, blanks and "not found" |
| TxResults.CapitalsIrrelevant | ogpu/protocol/_base.py:605-616 | a message is classified as its lowered form is |
| TxResults.AbortedConnectionIsTransient | ogpu/protocol/_base.py:81 | "Connection aborted" is a transport blip |
| TxResults.NonceErrorsRecognisedAnywhere | ogpu/protocol/_base.py:605-607 | a message classified as nonce collision is still so when embedded in any longer one |
| TxResults.MissingBlockIsTransient | ogpu/protocol/_base.py:78-79 | "block", blanks, any word, blanks, "not found" passes the transient test wherever it stands, whatever surrounds it |
| TxAnswers.AttemptEndsExactly | ogpu/protocol/_base.py:475-599 | told from the answers: there is another attempt if and only if one is left, the failure reads as a collision or as a transport blip before the broadcast, and no interrupt strikes; a raw exception gets out if and only if the reservation fails, no handler catches the failure, or the pause is interrupted |
| TxAnswers.GivesUpExactly | ogpu/protocol/_base.py:507-569 | an attempt hands its nonce back if and only if it does not broadcast it, and resets the entry if and only if its failure reads as a collision, the last attempt included |
| TxAnswers.RetryPreparation | ogpu/protocol/_base.py:552-597 | the pause before a retry is 0, 5 or 1 s by the class of the failure |
| TxAnswers.UnretriedFailureSurfaces | ogpu/protocol/_base.py:565-599 | a failure of an attempt that is neither retried nor interrupted surfaces as the error of its class, with its own words |
| TxAnswers.KnownRevertSurfaces | ogpu/protocol/_base.py:543-544 | a known revert surfaces from an attempt as its own error, attributed to context and signer |
| TxResults.ResultsNameSentTransactions | ogpu/protocol/_base.py:520-567 | a receipt is the node's status-1 answer to the wait for the hash sent in that attempt; a receipt timeout names its hash, a nonce error a nonce reserved |
| TxResults.WaitsOnlyForSent | ogpu/protocol/_base.py:505-522 | every receipt wait is for a hash this execution has broadcast |
| Composition.JobsEndFree | ogpu/protocol/_base.py:480-509 | any sequence of executions keeps the ownership discipline and ends owning nothing |
| Composition.ShareTracks | ogpu/chain/nonce.py:104-119 | what a thread did in an interleaved run determines what it owns at its end |
| Composition.FinishedThreadsHoldNothing | ogpu/protocol/_base.py:480-509 | once all executions of all threads are over, no reservation is outstanding |
| Composition.FinishedExecutionsRecover | ogpu/protocol/_base.py:472-599 | then, whatever mix of success, failure, retry, release order and resets by anybody came before, a fresh reservation is the pending nonce |
| Composition.ScheduledExecutionsRecover | ogpu/chain/nonce.py:55-194 | the same at every address under every thread schedule, lock steps and failing readings spelled out |
| Strings.ContainsExactly | ogpu/protocol/_base.py:607 | a text contains a needle if and only if it splits around it |
| Strings.LowersCapitalsOnly | ogpu/protocol/_base.py:606 | lowering turns the 26 capitals into the small letters and leaves a text without capitals alone |
| Strings.DroppedCharacters | ogpu/protocol/_base.py:299-302 | the characters that stripping drops are exactly white space, or the colon and the blank |
| Strings.StripTrims | ogpu/protocol/_base.py:299-302 | stripping removes dropped characters at both ends, all of them, and nothing else |
| Revert.NoKeyInsideLaterKey | ogpu/protocol/_base.py:256-276 | no table key occurs inside a later one |
| Revert.Lookup | ogpu/protocol/_base.py:332 | the exact lookup finds the key equal to the reason, or there is none |
| Revert.LookupIsRedundant | ogpu/protocol/_base.py:331-338 | exact lookup then scan gives what one first-match scan gives, for every reason |
| Revert.OneKeyDecides | ogpu/protocol/_base.py:335-337 | a reason with exactly one known key decodes to that key's error, wherever it stands |
| Revert.UnknownExactly | ogpu/protocol/_base.py:335-338 | the generic error comes out, with the reason intact, if and only if no known key occurs |
| Revert.ReasonDecodes | ogpu/protocol/_base.py:256-338 | for every reason: the key listed first among those in it decides, each with its own error and fields, a bare ownership revert by the word "source" in the context; without a key the generic error |
| Revert.PrefixExtracts | ogpu/protocol/_base.py:298-299 | after the node's prefix the reason is what remains of the rest without blanks at its ends |
| Revert.MarkerExtracts | ogpu/protocol/_base.py:300-302 | else what follows the first "revert", in any case, loses colons and blanks and then white space at its ends, and nothing else |
| Revert.UnmarkedStays | ogpu/protocol/_base.py:303 | without either marker the message is the reason |
| Revert.UsualFormatExtracts | ogpu/protocol/_base.py:297-299 | the usual prefix around a reason without blank ends extracts to that reason |
| Revert.KnownReasonDecodes | ogpu/protocol/_base.py:289-338 | the usual prefix around any key decodes to that key's handler |
| Revert.TrimmingLosesNoKey | ogpu/protocol/_base.py:289-338 | every message decodes as one scan over all that follows its first revert marker, trimming notwithstanding |
| IpfsPublish.PublishToIpfs | ogpu/ipfs/publish.py:103-179 | for every payload, endpoint and clock exactly the run of the recursive specification; a payload that does not serialise escapes; else the answers in turn, another post only after no answer or a status of 500 and more, and the link, gateway or fetch error, or exception, that the last answer (or an interrupted sleep, or a budget spent before any) stands for |
| IpfsPublish.TryOnce | ogpu/ipfs/publish.py:114-174 | an attempt past the budget posts nothing; any other posts once and either decides, or leaves its error and sleeps the clipped backoff if another attempt is left, and an interrupted sleep escapes |
| IpfsPublish.LoopExplained | ogpu/ipfs/publish.py:113-179 | from any attempt on, the result is explained by the answers seen: all but the last transient, posting stopped for one of four reasons |
| IpfsPublish.FirstDecisiveAnswerWins | ogpu/ipfs/publish.py:112-179 | told from the raw answers: a status of 200 or 201 with a link pins it, any other below 500 is the gateway error at once, the last transient failure is the fetch or gateway error; at most max(1, retries) posts, and fewer only after a decisive answer, an interrupted sleep or a spent budget |
| IpfsPublish.ClockIrrelevantWithoutDeadline | ogpu/ipfs/publish.py:107-119 | without a deadline, result and posts do not depend on the clock |
| IpfsPublish.PinEscapesExactly | ogpu/ipfs/publish.py:103-174 | a raw exception escapes the pin if and only if the payload does not serialise, or transient answers and whole sleeps lead to an answer no handler catches or to an interrupted sleep |
| IpfsPublish.AllowedIsGeometric | ogpu/ipfs/publish.py:169 | the allowance of the remaining attempts is their timeouts plus a geometric sum of backoffs |
| IpfsPublish.PinTimeBound | ogpu/ipfs/publish.py:105-174 | a pin with `a` attempts takes at most `a` timeouts plus backoff * (2^(a-1) - 1), plus what the scheduler loses |
| IpfsPublish.SleepsDouble | ogpu/ipfs/publish.py:113-174 | posts and sleeps take turns, each starting where the one before it ended; a post may take the timeout, the sleep after attempt k lasts backoff * 2^(k-1), and the deadline, if there is one, clips both |
| IpfsPublish.PinKeepsDeadline | ogpu/ipfs/publish.py:115-119 | every post and sleep is planned to end by the deadline, and a call that starts past it posts nothing and says so |
| IpfsPublish.PinEndsInTime | ogpu/ipfs/publish.py:115-174 | with posts and sleeps that keep to their times the call ends by the deadline (or its start) plus what the scheduler loses |
| PublishTask.Publish | ogpu/client/__init__.py:305-325 | the pipeline, calling the pin and executor loops, goes through exactly the stages and ends in exactly the outcome and at exactly the time of its specification |
| PublishTask.EffectsNeedLife | ogpu/client/__init__.py:57-66 | a pin and an executor run only directly after a reading that found the task alive, so an expired start does neither; the executor only last, after exactly one pin, with its link |
| PublishTask.EarlyEndReported | ogpu/client/__init__.py:305-309 | a failing signer lookup, a passed expiry (with the task's own expiry time) or a task input that does not dump ends the call before its pin, with that error |
| PublishTask.PinFailureReported | ogpu/client/__init__.py:309-315 | the pin gets the caller's settings and the deadline counted from the call; its error or exception is the call's, unchanged |
| PublishTask.LateEndReported | ogpu/client/__init__.py:309-316 | refused parameters, an expiry passed during the pin or a failing contract lookup ends the call before its executor, with that error |
| PublishTask.ExecutorIsBuilt | ogpu/protocol/controller.py:68-79 | the executor gets the four fields of the task with its link, the signer, the context, three attempts, the receipt timeout, the deadline and the budget |
| PublishTask.ExecutionReported | ogpu/client/__init__.py:317-325 | every error and exception of the executor is the call's, unchanged; a receipt yields its task, or the error of its extraction |
| PublishTask.SentSoonAfterExpiry | ogpu/client/__init__.py:316-323 | with a wall clock in step, a broadcast comes past the expiry by less than two pauses, two waits that are retried after, and the time of the other legs |
| PublishTask.SentAfterExpiryExactly | ogpu/client/__init__.py:275-278 | a number bounds that lateness with instant legs and no mistaken collision if and only if it is at least ten seconds |
| PublishTask.EverySendCarriesTheLink | ogpu/client/__init__.py:151-165 | every broadcast of every retry carries the one pinned link and the task's own fields, in the contract's order |
| PublishTask.OneBudgetBindsBoth | ogpu/client/__init__.py:305-323 | pin and sends obey one deadline, the budget counted from the call |
| PublishTask.PublishBounded | ogpu/protocol/controller.py:70-79 | at most three reservations and ten seconds of executor sleep per call, and no receipt wait above the caller's limit |
| PublishTask.CallEndsInBudget | ogpu/client/__init__.py:243-248 | the whole call ends by the budget, plus the granted wait, the five second pause and the time spent outside posts, waits and pauses |
| PublishTask.CallOverrunExactly | ogpu/client/__init__.py:246-248 | a number bounds the overrun of every call whose executor starts in time if and only if it is at least that wait plus that pause |
| PublishTask.RawExceptionExactly | CHANGELOG.md:12 | a raw exception escapes a publish if and only if the signer lookup, the dump or serialisation of the task input, the pin, the checks of the parameters, the contract lookup, the executor or the address extraction lets one out, each under its own condition |
| PublishTask.PublishedTaskWasMined | ogpu/client/__init__.py:317-325 | a returned task is what the receipt yields, and the receipt the node's status-1 answer to the wait for a hash this call sent |
| Pagination.PaginatedCall | ogpu/protocol/_base.py:208-227 | an empty range makes no call; else the page calls of the range, or the one call from zero, and each filled slot of the range exactly once and in order, a negative lower bound counting from the end on the second path; a panic if and only if the getter rejects a bound; the count stands in for a missing upper bound |
| Pagination.FetchChunks | ogpu/protocol/_base.py:218-227 | the accumulating loop makes the calls and collects the items of the recursive form, in order, panics included |
| Pagination.Compact | ogpu/protocol/_base.py:223-225 | each filled slot's item stands in the result behind as many as there are filled slots before it, and nothing else does |
| Pagination.FilledKeeps | ogpu/protocol/_base.py:216 | the recursive filter keeps exactly that |
| Pagination.ZeroOnlyAnswersExactly | ogpu/protocol/_base.py:198-203 | in chunks, a getter that only accepts a lower bound of zero answers if and only if the range starts there and fits one page |
| Pagination.ChunkedReturnsRange | ogpu/protocol/_base.py:218-227 | the loop returns exactly the filled slots of the half-open range, in order |
| Pagination.FromZeroReturnsRange | ogpu/protocol/_base.py:214-216 | so does the single fetch from zero with its local slice |
| Pagination.ChunkedPanicsExactly | ogpu/protocol/_base.py:176-181 | the loop panics if and only if a non-empty range leaves the array |
| Pagination.PathsAgreeExactly | ogpu/protocol/source.py:195-204 | the two paths agree if and only if the range does not start below zero (or is empty, or both panic) |
| Pagination.ChunkSizeIrrelevant | ogpu/protocol/_base.py:196-197 | the page size never shows in the result, panics included |
| Pagination.PagesAdd | ogpu/protocol/_base.py:176-181 | pages [l, m) and [m, u) concatenate to page [l, u) |
| Pagination.CallsArePages | ogpu/protocol/_base.py:221-222 | call i covers page i of the range: full except perhaps the last, never empty |
| Pagination.CallsCount | ogpu/protocol/_base.py:220-226 | the number of calls is the size of the range over the page size, rounded up |
| Pagination.CallsPartitionRange | ogpu/protocol/_base.py:218-227 | the inclusive calls partition the range into non-empty in-bounds pages |
| RpcConfig.Web3Manager.constructor | ogpu/chain/web3.py:36 | no clients, the built-in endpoints |
| RpcConfig.Web3Manager.UpdateRpcUrl | ogpu/chain/web3.py:100-102 | the chain's endpoint is replaced and its client dropped, nothing else |
| RpcConfig.Web3Manager.GetWeb3Instance | ogpu/chain/web3.py:65-85 | a cached client is served; otherwise one for the current endpoint is cached if and only if it is configured and reachable; a failure changes nothing |
| RpcConfig.ChainConfig.constructor | ogpu/chain/config.py:96 | mainnet is active at the start |
| RpcConfig.ChainConfig.SetChain | ogpu/chain/config.py:123-125 | switches the chain, or fails and changes nothing if and only if it is unsupported |
| RpcConfig.ChainConfig.SetRpc | ogpu/chain/config.py:291-305 | succeeds if and only if the chain is supported and the URL reachable, and otherwise changes nothing |
| RpcConfig.ChainConfig.GetRpc | ogpu/chain/config.py:331-334 | the endpoint in force, or the unsupported-chain error |
| RpcConfig.ChainConfig.ResetRpc | ogpu/chain/config.py:359-364 | the built-in endpoint is back and the client dropped |
| RpcConfig.ChainConfig.GetWeb3 | ogpu/chain/web3.py:62-75 | a successful lookup returns the client that is cached for its chain |
| RpcConfig.ChainConfig.GetAsyncWeb3 | ogpu/events/_async_web3.py:15-28 | a successful lookup returns the client cached under the active chain's endpoint |
| RpcConfig.ActiveIsLastSet | ogpu/chain/config.py:96-125 | after any history the active chain is the supported one that was set last, mainnet until one is set; setting any other changes nothing |
| RpcConfig.CoherentAfter | ogpu/chain/web3.py:62-102 | after any history every cached client talks to the endpoint it would be made with now |
| RpcConfig.UrlIsLastWritten | ogpu/chain/config.py:291-364 | a chain's endpoint is the last one successfully written for that chain, or the initial one |
| RpcConfig.LookupsAreCurrent | ogpu/events/_async_web3.py:15-28 | from process start, after any history, sync and async lookups yield clients of the last endpoint written |
| RpcConfig.ResetRestoresDefault | ogpu/chain/config.py:359-364 | after any history a reset leaves the built-in endpoint and no client of the old one |
| RpcConfig.ClientServedExactly | ogpu/chain/web3.py:65-66 | a cached client is served if and only if no operation since has written its own chain's endpoint |
| RpcConfig.RacingLookupCoherentExactly | ogpu/chain/web3.py:68-74 | a first lookup finishing after other operations leaves a coherent cache if and only if they left the endpoint as it was read |
| RpcConfig.RacingAsyncLookupStaysCoherent | ogpu/events/_async_web3.py:15-28 | an async lookup, keyed by URL, stays coherent whatever runs during its probe |

## Left out

- NonceProtocol.NoNonceGap: readings that run ahead of the chain, and a node that evicts accepted
  transactions, are outside it; the code offers nothing against either.
- NonceOwnership.ExclusiveOwnership: promises nothing after an entry was dropped over an outstanding
  reservation, because it is false there (`ExposureExactly`).
- NonceOwnership.ReissueIsNeverSpent: speaks of the first reservation under a fresh reading; when any
  later or staler one can re-issue a broadcast nonce is `ReissueExactly`.
- LockProtocol.RunRefines: runs contain no `clear_all`; `ClearAllUnsafeExactly` covers that call.
- TxExecution.Execute: exceptions come out of the node calls and the pauses, where the code makes them;
  an interrupt delivered elsewhere is not modelled. `release_nonce` and `reset_nonce` read nothing, and
  can only reject an address that the reservation before them has just accepted.
- NonceManagement.NonceManager.ReserveNonce: takes an address the checksum rule accepts, as every
  operation of the class does; any other raises before anything is touched.
- PublishTask.RawExceptionExactly: like the executor's, says nothing of an interrupt delivered outside the
  calls and sleeps of the code; nor of arguments of the wrong type, which fail wherever they are used.
- PublishTask.SentSoonAfterExpiry: takes the wall clock to keep step with the monotonic one during a call.
- `get_cached_nonce`, which reads the entry without a lock and changes nothing.
- IpfsPublish.PinTimeBound: takes a post to last at most its timeout; `requests` applies it per socket read.
- Pagination.PaginatedCall: takes a positive page size; with any other the source's loop makes no progress.
- RpcConfig.ChainConfig.GetRpc: takes every supported chain to have an endpoint, which `CoherentAfter` keeps.
- Lowercasing and blanks are those of ASCII; `str.lower` and `\s` cover more.
- HTTP, JSON-RPC, signing, ABI encoding, and the event decoding of `extract_task_address` are oracles.
- The receipt's wall-clock timestamp and event list, and `int()` conversions of node answers.
- Gas prices of replacement transactions, and whether a node accepts one: `cancel` is an oracle.
- `set_chain` between two reservations, and `None` as the active chain, which no operation can install.
- `publish_source`, environment flags, and the other writes: the same executor with other arguments.
- `load_abi` and its cache, `get_nonce_info`, and the cache wrappers in `ogpu/chain/nonce.py`: easy forwarders.
- Nexus, controller, terminal, vault and agent functions, snapshots and event watchers: they only forward or filter.
- The Solidity contracts; the repository has their ABIs only.
- Logging, printing, environment files, and the FastAPI service.
