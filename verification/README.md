# tomoxlending: lending-order bookkeeping, modelled in Dafny

The lending service of a TomoX exchange node does six pieces of bookkeeping:

- **Admission.** It takes pending lending-order transactions least nonce first across accounts. It turns each into a lending item, commits it through the matching engine and sorts the result by the engine's verdict (`ProcessOrderPending`).
- **Mirroring.** It mirrors each matched taker order into a secondary store: its trades, its makers and the orders the match rejected (`SyncDataToSDKNode`).
- **History.** Before it first touches a record for a transaction, it saves the record's state in a per-transaction history cache (`UpdateLendingItemCache`).
- **Rollback.** When a chain reorganisation evicts a transaction, it undoes that transaction's records and trades, using the cache (`RollbackLendingItems`).
- **Liquidation.** It sweeps the liquidation indices for loans whose price or time has been crossed (`ProcessLiquidationData`).
- **State root.** It finds the lending state root a block commits to (`GetLendingStateRoot`).

The model is functional:

- The secondary store is a pair of maps keyed by each record's own hash, and the history cache is a map of buckets.
- The matching engine's `CommitOrder` is an oracle passed in as a function.
- A write the store refuses is modelled by a set `faults` of hashes whose write fails.
- Loops are recursion over sequences.
- Two loops of the program never end on some inputs (see "## Findings"): admission on an unparsable `V`, and the time pass of liquidation. Each is modelled twice. The loop as written runs with a fuel bound, and lemmas show where it stalls. The corrected loop is the one the rest of the model uses, and its rows below start with "Corrected:". `Admission.AsWrittenAgrees` shows the two admission loops agree whenever every `V` parses.
- Integers are unbounded, except the dirty counter and the ids and nonces, which are `uint64` in the program. Those are written out: the counter wraps modulo 2^64 and a nonce is reinterpreted as `int64`.

**Store semantics for a sync call.** The program's bulk session does not show whether reads see earlier writes. The model fixes one semantics:

- Every read inside one `SyncDataToSDKNode` call sees the store as it was when the call began.
- Writes are buffered in order, and a later write to the same hash replaces an earlier one.
- The buffer is applied when the call commits.
- A failed write ends the call with an error. The store is unchanged, but the history cache and the dirty counter keep what was done to them before the failure.

Two consequences follow, and the model states them rather than their opposites:

- A maker that is also a rejected order gets this call's fill added once, not twice. The rejected-record pass re-reads the record as stored.
- A rejected taker that had a stored record ends as that stored record, re-read by the rejected-record pass (tomoxlending/tomoxlending.go:365). It is marked Reject and stamped, with only its maker fill added, so the fill it gained from this call's own trades is lost (`SyncProperties.RejectedStoredTaker`).

**Staleness gate.** The gate skips a call when its match time is before the stored update time. It also skips a call whose match time equals the stored update time while the dirty counter is zero. The model follows the code (tomoxlending/tomoxlending.go:244-247): with the counter at zero an exact replay is ignored, and with any other value it passes the gate and is applied again. `SyncProperties.ReplayIsIgnored` proves both halves.

Files:

| file | module | contents |
|---|---|---|
| types.dfy | `Types` | hashes, addresses, `uint64`, lending items and trades, the store |
| bytes.dfy | `Bytes` | big-endian byte strings, `BytesToHash`, trading-id hashes |
| history.dfy | `History` | the history cache |
| rollback.dfy | `Rollback` | reorganisation rollback |
| sdk_sync.dfy | `SdkSync` | the synchroniser and its passes |
| sync_properties.dfy | `SyncProperties` | what a sync call does to each record |
| round_trip.dfy | `RoundTrip` | sync followed by rollback restores the store and cache |
| admission.dfy | `Admission` | the admission loop |
| admission_properties.dfy | `AdmissionProperties` | what the admission loop promises |
| liquidation.dfy | `Liquidation` | the liquidation scanner |
| state_root.dfy | `StateRoot` | locating the lending state root |

## Model

| member | source | states |
|---|---|---|
| History.UpdateLendingItemCache | tomoxlending/tomoxlending.go:427-441 | The bucket of the transaction exists afterwards. The key of the order keeps an earlier recording, if any, and otherwise records the given state. Every other key of that bucket and every other bucket is unchanged. |
| History.RecordedKeyIsFinal | tomoxlending/tomoxlending.go:427-441 | Recording a key that is already recorded under the transaction leaves the whole cache unchanged, whatever value is offered. |
| History.FirstTouchWins | tomoxlending/tomoxlending.go:427-441 | Recording one key twice under one transaction keeps the first value; the second recording is a no-op. |
| SdkSync.RecordedKeyIsFinalWhen | tomoxlending/tomoxlending.go:349-355 | The re-snapshot of the taker in the rejected-order loop never replaces the state recorded at the start of the call. |
| Rollback.Restore | tomoxlending/tomoxlending.go:466-469 | A restored record carries exactly the snapshot's four journalled fields (transaction hash, status, filled amount, update time). Its hash and its history key are unchanged. |
| Rollback.SnapshotFor | tomoxlending/tomoxlending.go:446-465 | A record has a snapshot to restore from exactly when the bucket of the transaction holds its key and the entry is not the zero history item. |
| Rollback.RolledBack | tomoxlending/tomoxlending.go:446-470 | A record stamped by another transaction is kept. A record stamped by this one is restored when it has a snapshot and deleted otherwise. Restoring its rolled-back fields back gives the record as it was. |
| Rollback.RollbackTrades | tomoxlending/tomoxlending.go:476 | Exactly the trades stamped with the transaction are deleted; the others are kept unchanged. |
| Rollback.RollbackLendingItems | tomoxlending/tomoxlending.go:443-478 | Records of other transactions are kept as they are. Records of this transaction are deleted when there is no bucket, no entry or only the zero item. Otherwise they get exactly the four journalled fields back and every other field unchanged. The transaction's trades are deleted and its bucket is dropped, and every other bucket is unchanged. |
| Rollback.RollbackUnsyncedIsNoop | tomoxlending/tomoxlending.go:443-478 | Rolling back a transaction that stamped no record and no trade leaves the store unchanged. |
| SdkSync.Present | tomoxlending/tomoxlending.go:308 | The records fetched by hash are exactly the listed hashes the store holds, each once. |
| SdkSync.FoldTrades | tomoxlending/tomoxlending.go:256-290 | The trade loop writes no record and no cache entry, and a failed trade write ends it. When every write succeeds, the taker's fill grows by the sum of all trade amounts. Its status is then PartialFilled for a limit order below its quantity and Filled otherwise, or unchanged when there was no trade. No other taker field changes. |
| SdkSync.FoldStep | tomoxlending/tomoxlending.go:272-280 | One stored trade adds its amount to the accumulated fill of its own maker and to no other. |
| SdkSync.FoldFills | tomoxlending/tomoxlending.go:272-280 | Each maker's accumulated fill grows by the sum of the amounts of exactly the trades naming it. |
| SdkSync.FoldMakers | tomoxlending/tomoxlending.go:272-280 | The loop lists the maker of every trade, in trade order. |
| SdkSync.TouchStored | tomoxlending/tomoxlending.go:310-337 | Fetched records not newer than the match are written in their touched form: maker fill and limit status, or Reject, stamped with the transaction and match time. Fetched records newer than the match are skipped. Every record buffered before is kept unless touched, no trade is written, and a failed write ends the pass. |
| SdkSync.TouchedFromStep | tomoxlending/tomoxlending.go:312-336 | Touching or skipping the first fetched record and then running the rest of the pass gives the touch relation for the whole list. |
| SdkSync.RejectTaker | tomoxlending/tomoxlending.go:345-364 | The taker comes out rejected exactly when some rejected order names it and is not newer than the match. Only the taker's record is written, it holds the returned taker, and no trade is written. The taker's history entry is never replaced. |
| SdkSync.RejectMatchStep | tomoxlending/tomoxlending.go:348-362 | A first rejected order naming the taker makes the taker rejected for the whole loop. |
| SdkSync.RejectSkipStep | tomoxlending/tomoxlending.go:346-347 | A first rejected order that does not name the taker, or is newer than the match, changes nothing about the loop's outcome. |
| SdkSync.Prepared | tomoxlending/tomoxlending.go:216-243 | The taker worked on is the stored record when there is one and the incoming order otherwise, with the same hash. Its status is Cancelled when the incoming order is cancelled and Open otherwise. It is stamped with the transaction and keeps its creation time, or takes the match time when it had none. No other field changes. |
| SdkSync.IsStale | tomoxlending/tomoxlending.go:244-247 | A match before the stored update time is ignored, one after it is applied, and one at exactly that time is ignored exactly when the dirty counter is zero. |
| SdkSync.MarketStatus | tomoxlending/tomoxlending.go:293-299 | A market order becomes Filled exactly when something filled and Reject exactly when nothing did. Any other order, and every other field, is unchanged. |
| SdkSync.Touched | tomoxlending/tomoxlending.go:322-329 | A touched record gets the fill added and is stamped with the transaction and match time. As a maker it is PartialFilled exactly below its quantity and Filled exactly at or above it; as a rejected order (lines 379-385) it is Reject. No other field changes. |
| SdkSync.Commit | tomoxlending/tomoxlending.go:392-394 | The committed store holds every buffered record and trade under its hash and keeps every other stored one. |
| SyncProperties.RejectedStoredTaker | tomoxlending/tomoxlending.go:365-389 | On success, a rejected taker that had a stored record ends as the stored record with only its maker fill added, marked Reject and stamped; the fill from this call's own trades is lost. |
| SdkSync.SyncDataToSDKNode | tomoxlending/tomoxlending.go:204-396 | A stale call writes nothing, leaves cache and counter unchanged and returns no error. Any other call increments the `uint64` dirty counter by one, wrapping. A call that returns an error leaves the store unchanged. When the store held the taker, the caller's taker object is untouched; when it did not, even a stale call leaves the caller's object as the prepared taker, status reset and stamped with the transaction. |
| SyncProperties.RejectedHashesCover | tomoxlending/tomoxlending.go:345-347 | A rejected order that names the taker is among the hashes the rejected-record pass fetches. |
| SyncProperties.NoMakerNoFill | tomoxlending/tomoxlending.go:272-280 | An order no trade names as maker accumulates no fill. |
| SyncProperties.MakerLayer | tomoxlending/tomoxlending.go:305-337 | After the taker write and the maker pass, each hash holds its touched maker record, or else the taker, or else nothing. |
| SyncProperties.RejectedTakerLayer | tomoxlending/tomoxlending.go:345-364 | The rejected-taker pass replaces the taker's record and no other. |
| SyncProperties.RejectedLayer | tomoxlending/tomoxlending.go:365-389 | The rejected-record pass replaces the fetched rejected records not newer than the match and no other. |
| SyncProperties.SyncReadsTrace | tomoxlending/tomoxlending.go:248-396 | Past the gate, the call's error, cache, store and returned taker are those of its sequence of passes. |
| SyncProperties.SyncCommitsTrace | tomoxlending/tomoxlending.go:248-396 | Past the gate, the error and cache are the last pass's, and the store is committed exactly when no write failed. |
| SyncProperties.SyncReturnsTaker | tomoxlending/tomoxlending.go:229-233 | Past the gate, the caller's taker object is the in-memory taker at return when the store held no record of it, and untouched otherwise. |
| SyncProperties.TraceShape | tomoxlending/tomoxlending.go:250-389 | The passes of a call feed one another in program order: trade loop, market rule, taker write and maker pass, rejected-taker pass, rejected-record pass. |
| SyncProperties.TraceRecord | tomoxlending/tomoxlending.go:305-389 | When no write failed, each hash ends holding its final record: rejected-touched, else rejected taker, else maker-touched, else the taker, else nothing. |
| SyncProperties.TraceStart | tomoxlending/tomoxlending.go:216-251 | The trade loop starts from the prepared taker stamped with the match time, with the taker's prior state journalled. |
| SyncProperties.TraceFold | tomoxlending/tomoxlending.go:256-290 | When no trade write failed, the trade loop computed the taker's fill and status and every maker's fill from the trades. |
| SyncProperties.FoldFromStart | tomoxlending/tomoxlending.go:256-290 | The trade loop run from the call's starting state accumulates everything the trades carry. |
| SyncProperties.FoldTaker | tomoxlending/tomoxlending.go:284-289 | Starting from the prepared taker, the loop adds every trade amount to it and sets its status by the limit/market rule. |
| SyncProperties.FoldAllFills | tomoxlending/tomoxlending.go:272-280 | Starting with no fills, every maker's fill is the sum of the amounts of the trades naming it. |
| SyncProperties.CommittedRecord | tomoxlending/tomoxlending.go:204-396 | On success, each hash of the committed store holds its final record, or the stored one when the call did not touch it. |
| SyncProperties.TakerFillAndStatus | tomoxlending/tomoxlending.go:235-299 | On success, the committed taker is the stored or incoming order with every trade amount added, unclamped. It is stamped with the transaction and the match time, and back-filled with a creation time when it had none. Its status: a market order is Filled when anything filled and Reject otherwise. A limit order with no trade is Open, or Cancelled when it came in cancelled. A traded limit order is PartialFilled below its quantity and Filled otherwise. An order of any other type is Open (or Cancelled) with no trade and Filled once traded. |
| SyncProperties.TakerRecord | tomoxlending/tomoxlending.go:284-307 | The committed taker record is what `TakerFillAndStatus` promises, given the trace. |
| SyncProperties.MakerUpdate | tomoxlending/tomoxlending.go:310-336 | On success, a stored maker that is neither the taker nor rejected is left alone when newer than the match. Otherwise it gets the sum of its trades added, PartialFilled below its quantity and Filled otherwise (whatever its order type), and is stamped with the transaction and match time. |
| SyncProperties.MakerRecord | tomoxlending/tomoxlending.go:310-336 | The committed maker record is what `MakerUpdate` promises, given the trace. |
| SyncProperties.RejectedRecords | tomoxlending/tomoxlending.go:365-389 | On success, a stored rejected record not newer than the match ends as Reject, stamped with the transaction and match time, its fill grown once by what it got as a maker. One newer than the match and not the taker is unchanged. |
| SyncProperties.RejectedRecord | tomoxlending/tomoxlending.go:365-389 | The committed rejected record is what `RejectedRecords` promises, given the trace. |
| SyncProperties.TakerAliasing | tomoxlending/tomoxlending.go:229-233 | When the store held no record of the taker, the caller's taker object after a successful call equals the committed taker record. |
| SyncProperties.TakerStamped | tomoxlending/tomoxlending.go:251 | After a successful call the committed taker carries the match time. |
| SyncProperties.ReplayIsIgnored | tomoxlending/tomoxlending.go:244-248 | Replaying a successful call on the store and cache it produced is ignored, with nothing changed, when the counter is zero, whatever the replay carries. With any other counter it passes the gate and the counter increments. |
| RoundTrip.JournalKeeps | tomoxlending/tomoxlending.go:427-441 | Journalling an order's stored state keeps the rollback invariant and leaves the order's key recorded. |
| RoundTrip.JournalCache | tomoxlending/tomoxlending.go:427-441 | Journalling into a bucket whose entries are stored states keeps that so, and changes no other bucket. |
| RoundTrip.PutItemKeeps | tomoxlending/tomoxlending.go:305-307 | Buffering an undoable record keeps the rollback invariant. |
| RoundTrip.PutTradeKeeps | tomoxlending/tomoxlending.go:267-269 | Buffering a new trade stamped with the transaction keeps the rollback invariant. |
| RoundTrip.FoldKeeps | tomoxlending/tomoxlending.go:256-290 | The trade loop keeps the rollback invariant. |
| RoundTrip.TouchKeeps | tomoxlending/tomoxlending.go:310-389 | The maker and rejected-record passes keep the rollback invariant. |
| RoundTrip.RejectFrame | tomoxlending/tomoxlending.go:345-364 | Every record after the rejected-taker pass is unchanged or is the rejected taker. |
| RoundTrip.RejectKeeps | tomoxlending/tomoxlending.go:345-364 | The rejected-taker pass keeps the rollback invariant. |
| RoundTrip.StartKeeps | tomoxlending/tomoxlending.go:216-251 | The state the trade loop starts from satisfies the rollback invariant. |
| RoundTrip.TraceKeeps | tomoxlending/tomoxlending.go:204-396 | Every session a call passes through satisfies the rollback invariant. |
| RoundTrip.UndoRecord | tomoxlending/tomoxlending.go:446-470 | Each record of the committed store rolls back to its stored state, up to a back-filled creation time, or is deleted when it was not stored. |
| RoundTrip.UndoItems | tomoxlending/tomoxlending.go:446-470 | The records after rollback are the stored ones, up to back-filled creation times. |
| RoundTrip.UndoBuckets | tomoxlending/tomoxlending.go:445 | Dropping the transaction's bucket gives back the cache the call started from. |
| RoundTrip.UndoTrades | tomoxlending/tomoxlending.go:476 | Deleting the transaction's trades gives back the stored trades. |
| RoundTrip.UndoJournaled | tomoxlending/tomoxlending.go:443-478 | Rolling back a store overlaid with a journalled session restores the starting store and cache. |
| RoundTrip.EmptiedKeeps | tomoxlending/tomoxlending.go:392-394 | A session whose writes were never committed still satisfies the rollback invariant and commits nothing. |
| RoundTrip.UndoOutcome | tomoxlending/tomoxlending.go:443-478 | A call outcome, committed or not, whose cache is a journalled session's rolls back to the starting store and cache. |
| RoundTrip.SyncThenRollbackRestores | tomoxlending/tomoxlending.go:216-250 | Whatever a sync call does (ignored as stale, failed part-way, or committed), rolling back its new transaction restores the starting cache, the trades and the set of records exactly. Each record gets back every field except possibly a back-filled creation time where the stored one was zero. A taker with no prior record is deleted again. |
| Bytes.LeadingZerosIgnored | tomoxlending/tomoxlending.go:420 | Leading zero bytes do not change the hash an input converts to. |
| Bytes.BytesToHashPads | tomoxlending/tomoxlending.go:420 | An input of at most 32 bytes ends its hash unchanged, after zero padding. |
| Bytes.BytesToHashIdempotent | tomoxlending/tomoxlending.go:420 | Converting a hash to a hash again changes nothing. |
| Bytes.TradingIdRoundTrip | tomoxlending/tomoxlending.go:495 | A trading id read back from the hash it is stored under is the same id. |
| Bytes.U64ToHashInjective | tomoxlending/tomoxlending.go:495 | Distinct trading ids are stored under distinct hashes. |
| StateRoot.GetLendingStateRoot | tomoxlending/tomoxlending.go:416-425 | The root is read past the first 32 bytes of the first transaction sent to the state address with more than 32 bytes of payload. It is the empty root when no transaction qualifies. |
| StateRoot.FirstCarrierWins | tomoxlending/tomoxlending.go:416-425 | Transactions after the first root-carrying one never change the root. |
| StateRoot.NonCarrierIgnored | tomoxlending/tomoxlending.go:416-425 | Removing a transaction that carries no root never changes the root. |
| StateRoot.CarrierKept | tomoxlending/tomoxlending.go:416-425 | With a carrier present, removing a non-carrier keeps the same first carrier. |
| StateRoot.FirstCarrier | tomoxlending/tomoxlending.go:418-423 | The index found carries a root and no earlier transaction does. |
| Admission.ParseV | tomoxlending/tomoxlending.go:116-122 | `V` parses exactly when it lies in [-128, 127], and the byte keeps its low eight bits. |
| Admission.ParseVRoundTrip | tomoxlending/tomoxlending.go:116-122 | A parsed `V` reads back as the signed value it came from, and every byte is the parse of its signed value. |
| Admission.Int64Of | tomoxlending/tomoxlending.go:125 | The nonce reinterpreted as `int64` lies in the signed 64-bit range and has the same 64 bits. |
| Admission.Int64OfInjective | tomoxlending/tomoxlending.go:125 | Distinct nonces stay distinct once reinterpreted. |
| Admission.Build | tomoxlending/tomoxlending.go:124-142 | The order built from a transaction has the transaction's hash, lending id and nonce. It has no fill, no term, zero timestamps and no transaction hash. |
| Admission.Attempt | tomoxlending/tomoxlending.go:116-157 | A transaction whose `V` does not parse commits nothing and leaves the state alone. Otherwise the order committed is the one built with the parsed `V`, and the outcome carries the commit's verdict, lending id and rejects. |
| Admission.Record | tomoxlending/tomoxlending.go:188-194 | The step is appended to the log, and the accepted list grows by one exactly when the step accepted an order. |
| AdmissionProperties.RecordAgrees | tomoxlending/tomoxlending.go:188-194 | Recording a step keeps the accepted list and the results equal to the reference definitions over the log. |
| Admission.Admit | tomoxlending/tomoxlending.go:104-197 | Corrected: the loop extends the log it was given, by at least one step when anything is pending and at most one step per pending transaction, and accepts at most one order per step. |
| Admission.ProcessOrderPending | tomoxlending/tomoxlending.go:104-197 | Corrected: one step per transaction taken, at least one when anything is pending, never more steps than pending transactions, at most one accepted order per step. |
| Admission.AdmitAsWritten | tomoxlending/tomoxlending.go:104-197 | The loop as written, run with fuel: when it finishes it extends the log by at most one step per pending transaction, and with nothing pending it always finishes. |
| Admission.Peek | tomoxlending/tomoxlending.go:108-110 | The account picked has a pending transaction whose nonce is least among all account heads, and it is the lowest such account. Nothing is picked only when every queue is empty. |
| Admission.Shift | tomoxlending/tomoxlending.go:167-184 | Only the account's head transaction is dropped, as the `Shift` calls at lines 167, 178 and 184 do. |
| Admission.Pop | tomoxlending/tomoxlending.go:170-174 | Only the account's whole queue is dropped. |
| Admission.SizeUpdate | tomoxlending/tomoxlending.go:104-197 | Replacing one queue changes the pending count by the difference in lengths. |
| Admission.Next | tomoxlending/tomoxlending.go:163-186 | Corrected: nonce-too-high drops the whole account. Nonce-too-low, success, a failed parse and any other error drop only its head. No other account changes and fewer transactions remain. |
| Admission.AsWrittenStalls | tomoxlending/tomoxlending.go:116-122 | As written, the loop never finishes once the least-nonce transaction has an unparsable `V`, for any amount of fuel. |
| Admission.AsWrittenStep | tomoxlending/tomoxlending.go:116-186 | With a parsable `V` at the head, the loop as written and the corrected loop take the same step. |
| Admission.AsWrittenAgrees | tomoxlending/tomoxlending.go:104-197 | When every `V` parses, the loop as written and the corrected loop compute the same result. |
| Admission.NextKeepsParse | tomoxlending/tomoxlending.go:163-186 | The remaining transactions still all parse after a step. |
| AdmissionProperties.AdmitBookkeeping | tomoxlending/tomoxlending.go:188-194 | From any consistent accumulator, the loop keeps the accepted list and the results equal to the reference definitions over its log. |
| AdmissionProperties.Bookkeeping | tomoxlending/tomoxlending.go:157-194 | An order is accepted exactly when its commit reports no error. It is appended, in order, as its pre-commit copy with the committed lending id, and the results map its hash to that commit's rejects. The log's outcomes are the commit's replies: each step's outcome is what the commit returned for its order in the state the earlier commits left, and the loop ends in the state the last commit left. |
| AdmissionProperties.AdmitReplays | tomoxlending/tomoxlending.go:104-194 | From any accumulator, the steps the loop appends replay the commits: each outcome is the parse and commit of its transaction in the state the earlier commits left, and the loop ends in the state the last commit left. |
| AdmissionProperties.ResultsKeys | tomoxlending/tomoxlending.go:188-194 | The matching results are keyed by exactly the accepted order hashes. |
| AdmissionProperties.AccountsTreated | tomoxlending/tomoxlending.go:163-186 | Each account's transactions are taken in queue order. Either the whole queue is taken with no nonce-too-high verdict, or a prefix is taken whose last verdict, and only that one, was nonce-too-high. |
| AdmissionProperties.AdmitAccounts | tomoxlending/tomoxlending.go:163-186 | From any state in which every account's log so far is a prefix of its queue, the loop ends with every account treated as above. |
| AdmissionProperties.StepKeepsAccounts | tomoxlending/tomoxlending.go:163-186 | One step keeps every account's log a prefix of its queue, with the rest still pending. |
| AdmissionProperties.OneAccount | tomoxlending/tomoxlending.go:163-186 | One step keeps one account's log a prefix of its queue. |
| AdmissionProperties.PeekIsLeast | tomoxlending/tomoxlending.go:108-110 | With each queue in nonce order, the transaction taken has the least nonce of all pending ones. |
| AdmissionProperties.NextIsSuffix | tomoxlending/tomoxlending.go:163-186 | The queues after a step hold only transactions that were pending. |
| AdmissionProperties.StepKeepsOrder | tomoxlending/tomoxlending.go:108-186 | One step keeps the queues sorted and the log's nonces ascending and below all pending nonces. |
| AdmissionProperties.NextStaysSorted | tomoxlending/tomoxlending.go:163-186 | A step keeps every queue in increasing nonce order. |
| AdmissionProperties.NextStaysAbove | tomoxlending/tomoxlending.go:108-186 | After taking the least transaction, no logged nonce exceeds any pending one. |
| AdmissionProperties.AdmitOrder | tomoxlending/tomoxlending.go:104-197 | From an ordered state the loop keeps the log's nonces ascending. |
| AdmissionProperties.LeastNonceFirst | tomoxlending/tomoxlending.go:108-110 | With every account's queue in nonce order, the nonces of the transactions taken never decrease. |
| Liquidation.Lowest | tomoxlending/tomoxlending.go:491 | The lowest level of the book strictly between 0 and the bound, or 0 exactly when there is none. |
| Liquidation.KeysAt | tomoxlending/tomoxlending.go:491 | The keys at one level of one book are exactly those the index holds there. |
| Liquidation.Without | tomoxlending/tomoxlending.go:499 | Removing an entry keeps every other entry, and the index shrinks when the entry was present. |
| Liquidation.RemoveEach | tomoxlending/tomoxlending.go:493-501 | Exactly the listed keys at that level of that book are removed. |
| Liquidation.DecodeEncodeIds | tomoxlending/tomoxlending.go:493-495 | Decoding the query's trading-id hashes gives back the stored keys. |
| Liquidation.RemoveLiquidationBucket | tomoxlending/tomoxlending.go:493-501 | One round of the price loop removes the whole bucket at that price of that book and nothing else. |
| Liquidation.PricePass | tomoxlending/tomoxlending.go:489-503 | On termination no entry of the book with a positive price below the liquidation price remains. Every other entry, including those at or above the liquidation price and those of other books, is kept. |
| Liquidation.PricePassIdempotent | tomoxlending/tomoxlending.go:489-503 | A second price pass finds nothing left to remove. |
| Liquidation.ProcessLiquidationPrices | tomoxlending/tomoxlending.go:482-504 | When the trading pairs cannot be read nothing changes. Otherwise exactly the crossed price entries of the listed pairs are removed, each pair with its own liquidation price. |
| Liquidation.PriceAll | tomoxlending/tomoxlending.go:489-504 | Over a list of pairs, exactly the crossed price entries of those pairs are removed. |
| Liquidation.TimePassAsWritten | tomoxlending/tomoxlending.go:507-517 | The time loop as written finishes exactly when no entry of the book is crossed, and then returns the index unchanged. |
| Liquidation.TimePassNeverEnds | tomoxlending/tomoxlending.go:507-517 | As written, the time loop never ends once some entry of the book is crossed, for any amount of fuel. |
| Liquidation.SweepNeverEnds | tomoxlending/tomoxlending.go:510-517 | A loop whose guard is never re-evaluated keeps running for any amount of fuel. |
| Liquidation.RemoveLiquidationTime | tomoxlending/tomoxlending.go:511-516 | One sweep removes the whole bucket at the lowest time of that book and nothing else. |
| Liquidation.TimePass | tomoxlending/tomoxlending.go:507-517 | Corrected: exactly the book's entries with a positive time before the current time are removed, and stored times stay `uint64`. |
| Liquidation.TimePassSettles | tomoxlending/tomoxlending.go:507-517 | After the corrected pass, the loop as written has nothing crossed to spin on and returns at once with the index unchanged. |
| Liquidation.TimeAll | tomoxlending/tomoxlending.go:507-518 | Corrected: over a list of lending books, exactly their crossed time entries are removed. |
| Liquidation.ProcessLiquidationData | tomoxlending/tomoxlending.go:480-519 | Corrected: when the trading pairs cannot be read neither index changes. Otherwise exactly the crossed price entries of the listed pairs and the crossed time entries of the listed lending books are removed. |
| Liquidation.ProcessLiquidationDataIdempotent | tomoxlending/tomoxlending.go:480-519 | Corrected: a scan right after a scan removes nothing. |
| Liquidation.PriceAllSettled | tomoxlending/tomoxlending.go:489-504 | With nothing crossed in the listed pairs, the price passes return the index as it is. |
| Liquidation.TimeAllSettled | tomoxlending/tomoxlending.go:507-518 | Corrected: with nothing crossed in the listed books, the time passes return the index as it is. |

## Left out

- Peer-to-peer and RPC protocol stubs and constructor wiring (tomoxlending/tomoxlending.go:49-102): plumbing with no bookkeeping behaviour.
- LRU capacity of the history cache: the cache is an unbounded map. Eviction would only turn a restore into a delete on rollback.
- The matching engine and `CommitOrder`: they are not part of this model. The commit is an oracle returning the next state, a verdict, a lending id and the rejected orders, and it is assumed not to change the order's hash.
- `NewOrderTransactionByNonce` internals: they are not part of this model. The pending pool is one nonce-ordered queue per account; on equal head nonces the lowest account index is taken.
- The cancel branch of admission (tomoxlending/tomoxlending.go:143-155): it only rewrites fields the commit oracle sees, so it is folded into the oracle.
- The decimal text form of `V`: the model parses its integer value, since `strconv.ParseInt` accepts exactly the values in range.
- `GetLendingState` trie opening (tomoxlending/tomoxlending.go:397-406), `GetStateCache`, `GetTriegc` and the trie garbage-collection queue: external state-store lifecycle.
- `EmptyRoot` and the TomoX state address: parameters of `StateRoot.GetLendingStateRoot`. The program compares addresses by their hex strings, which the model reads as address equality.
- Internals of the liquidation indices (`GetLowestLiquidationPriceData`, `RemoveLiquidationPrice`, `GetAllTradingPairs`, `GetMediumPriceLastEpoch`, `GetLowestLiquidationTime`, `RemoveLiquidationData`): they are not part of this model. Each index is a sequence of entries read as a set. The lowest-bucket queries are assumed to return the least level strictly between 0 and the bound, or 0. The per-pair liquidation price is a function parameter.
- Liquidation side effects beyond the index (the loans being liquidated, balances): the model covers index removal only.
- Logging and error-message text.
- The durability of `CommitLendingBulk` and the bulk session's `Close`: a commit is assumed to succeed. A refused write is an early error return with the store unchanged.
- The back-fill of creation and update times on the caller's trade objects (tomoxlending/tomoxlending.go:259-262) happens in place in the program. The model returns only the stored trades, which carry the back-filled times; it does not return the caller's trade objects.
- Write errors during rollback: the program only logs them; the model's rollback always succeeds.
- The taker's `Term` is not taken from the transaction in the program; `Admission.Build` leaves it zero as the program does.
- RoundTrip.SyncThenRollbackRestores: weaker than an exact restore. The history item does not carry the creation time, so a record whose stored creation time was zero keeps the back-filled one after rollback. It also assumes the transaction is new: no bucket, record or trade carries its hash yet, and every trade it produced is new and carries it.
- SyncProperties.TakerFillAndStatus: stated for a taker that is neither a maker of its own trades nor a rejected order. In those cases a later pass overwrites the taker record, as `SyncProperties.CommittedRecord` and `SyncProperties.RejectedRecords` state.
- SyncProperties.MakerUpdate: stated for a maker that is neither the taker nor a rejected order. The rejected pass overwrites such a maker, as `SyncProperties.RejectedRecords` states.
- SyncProperties.RejectedRecords: for a rejected record newer than the match, it says nothing when that record is the taker, since the taker write replaces it.
- SyncProperties.CommittedRecord, SyncProperties.TakerFillAndStatus, SyncProperties.MakerUpdate, SyncProperties.RejectedRecords: describe successful calls. A failed call leaves the store unchanged, as `SdkSync.SyncDataToSDKNode` states.
- Liquidation.TimePass: requires every stored liquidation time to fit in `uint64`, as the time index stores them. A larger time would be truncated by the conversion at tomoxlending/tomoxlending.go:515.

## Findings

| source | as written | input that shows it | evidently intended | confidence | as-written member | corrected member |
|---|---|---|---|---|---|---|
| tomoxlending/tomoxlending.go:116-122 | When `V` does not parse as an 8-bit signed integer, the loop does `continue` without `Shift`, so the same transaction is peeked again forever. | A single pending transaction whose `V` is 200. | Skip the unparsable transaction like any other failed one and go on to the next. | not executed | Admission.AsWrittenStalls (over Admission.AdmitAsWritten) | Admission.Next and Admission.AsWrittenAgrees (over Admission.Admit) |
| tomoxlending/tomoxlending.go:507-517 | The time loop reads the lowest liquidation time and its ids once, before the loop, and never again. Once the lowest time is crossed, the guard stays true after its ids are removed and the loop never ends. | A lending book with one entry at time 5, scanned at time 10. | Query the lowest time again after each sweep, as the price loop does at :502. | not executed | Liquidation.TimePassNeverEnds (over Liquidation.TimePassAsWritten) | Liquidation.TimePass and Liquidation.TimePassSettles |
