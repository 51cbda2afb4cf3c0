# Payment gateway: verified models of its stateful cores

This project models the parts of a payment gateway that keep state and whose promises span many
calls, and proves those promises for every input, every run or every reachable state. Money is
counted in integers of 1e-8, as the NUMERIC(20, 8) columns hold it; token-bucket time and tokens are
real numbers. `dafny verify dfyconfig.toml` checks everything.

| file | models |
|---|---|
| `TokenBucket.dfy` | the Redis rate limiter: refill, cap, admit, store, expire |
| `Ledger.dfy`, `Posting.dfy`, `LedgerRuns.dfy`, `LedgerService.dfy` | the double-entry journal with its cached balances and snapshots; posting and transferring with retries; whole runs of both; the tables as an object |
| `Hashing.dfy`, `Transitions.dfy` | dispute state transitions as a read and an insert in separate steps, and their hash chain |
| `Holds.dfy`, `DisputeFunds.dfy`, `DisputeCalls.dfy`, `DisputesService.dfy` | holds and releases, interleaved and as service calls |
| `Reserves.dfy`, `ReserveRaces.dfy`, `ReleaseEntries.dfy` | merchants' reserves, their overlapping updates, and the ledger entries of releases |
| `Envelope.dfy`, `CardTemplate.dfy`, `Vault.dfy`, `VaultStore.dfy` | envelope encryption, the stored card text, storing cards and rotating keys |
| `AuditChain.dfy` | the audit log's hash chain |
| `Luhn.dfy`, `Strings.dfy`, `Scopes.dfy` | the card check digit, trimming, granted OAuth scopes |
| `Prelude.dfy` | options, results, finite sums |

Code that updates state is a class or a method with loops, proved against a function of the old
state; the laws are lemmas about those functions. A committed database transaction is one step.
Faults, clocks, random draws and what other clients commit in between are parameters, so a law that
quantifies over them covers every failure pattern.

What the proofs found, beyond the laws the code was meant to keep:

- Dispute histories are good exactly when accepted rows land last in `(created_at, id)` order. The
  creation time is taken in Go before the insert, so two overlapping requests can break it:
  `LateInsertReopensReversed` walks a reversed dispute on to SETTLED.
- A lagging clock can also put the AUTHORIZED row before the PENDING one, and then a second authorization
  is accepted and a third hold is made, with calls one after another and nothing failed
  (`LaggingClockAuthorizesTwice`, `LaggingClockHoldsThrice`). Holds are counted exactly for every landing
  (`HoldsPerDispute`), and there is no room for a second authorization, and so for a
  third hold, exactly while authorizations land last (`OneAuthorizationIff`).
- `VerifyChainIntegrity` hashes a fresh clock reading, and so does the code that makes the row, while
  internal/disputes/README.md:89 says the hash covers `created_at`. An honest chain is accepted if
  and only if every reading made while verifying equals the one that was hashed
  (`VerifiesIffSameTimes`); on an advancing clock only the empty one is (`FreshReadingsReject`). With the
  documented hash every chain of in-order calls would pass (`RecordedTimesVerify`).
- A REVERSED dispute can keep an ACTIVE hold: while transitions land last, in exactly three situations
  (`ReversedHoldsActiveIff`). One of them needs no failure and no lagging clock
  (`OvertakenAuthorizationStrandsHold`) and can be seen when the release runs (`LateHoldWasOpen`).
- Releasing a hold credits its account, but making one posts nothing: `applyFundsHold` relies on a trigger
  that does not exist, and `create_hold_with_entries` (db/migrations/020_disputes.sql:285-332), which would
  post the debit, is never called. Every committed reversal moves the books by the holds it releases
  (`ReversalMovesBooks`), and an account with too little money refuses it (`ReleaseRefusedIff`).
- No Go method writes `disputes.status`. As written it stays PENDING, so `SettleTransaction` settles
  nothing, `InitiateDispute` always refuses and no release runs; the model takes the latest state for it.
- `RotateKey` never asks `rows.Err()`, so a read error ends its loop like the end of the rows: it commits
  what it has, reports success and leaves the other rows under the old key (`ReadErrorLeavesRow`). The
  count tells: it is the number of rows under the old key exactly when none was left out
  (`RotationMovesHanded`). The dispute reads (internal/disputes/service.go:603-618 and :833-846) stop short
  the same way.
- The comment at internal/disputes/service.go:221 speaks of disputes that are authorized at once, but
  every new dispute is held, and authorizing it holds it again (`HoldsPerDispute`).
- `VerifyChainIntegrity` rejects a dispute's history with a row removed inside, swapped or repeated, but not one
  cut off at either end (`RearrangedVerifiesIff`), nor a change hidden by bars in a reason
  (`BarredReasonsCollide`).
- The audit log's chain check accepts some replaced entries: exactly those with the old hash, the old link
  and the same joined text (`TamperingIff`). With bars in timestamps there are such entries
  (`BarredTamperingUndetected`).
- `Transfer` posts its legs in two transactions. Its retry test never matches the driver's error
  type; if it did, a retried transfer could return nil and leave the books unbalanced
  (`RetriedTransferUnbalances`).
- `updateFraudReserve` reads and then writes under the default isolation; overlapping updates lose shares,
  and exactly then the reserve is too low (`ReserveIsSharesIff`).
- Reserves are rounded to a unit at every update, so the percentage bounds them exactly where no share is
  rounded up (`PercentageBoundIff`).
- `DecryptCard` scans with `%[1]s`, which Go's scanner rejects. As written the scan fails on every text,
  and every stored card decrypts to four empty fields; the model reads what the format describes.
- The rate limiter's windows are exact on any clock in accrued time (`AdmissionIsExact`); measured by a
  clock that steps back they admit too much (`BackwardClockBreaksTheWindow`). Snapshots stamped out of
  commit order misreport past balances (`PastReadsRightIff`).

## Model

| member | source | states |
|---|---|---|
| `TokenBucket.AdmissionIsExact` | internal/security/ratelimit.go:26-48 | on any clock, a call is admitted if and only if, for every earlier call of its key, the admissions from that call on, plus this one, are at most capacity + rate x the forward clock steps between successive calls of the key since then |
| `TokenBucket.AdmissionOnOrderedClock` | internal/security/ratelimit.go:26-48 | on a clock that does not step back those windows are measured by the clock itself |
| `TokenBucket.RunAdmissionIsExact` | internal/security/ratelimit.go:26-48 | the same law for every answer in the run of any list of requests |
| `TokenBucket.NoWindowExceedsBound` | internal/security/ratelimit.go:33-43 | no window of any run admits more than capacity + rate x its accrued time, on any clock |
| `TokenBucket.BucketIsTightestWindow` | internal/security/ratelimit.go:30-43 | the refilled token count is the smallest room any window ending now has left, capacity when there is none, on any clock |
| `TokenBucket.BackwardClockBreaksTheWindow` | internal/security/ratelimit.go:33-34 | with windows measured by the clock the law fails when it steps back: three calls that admit twice at one instant with capacity one |
| `TokenBucket.DeniedCallsInvisible` | internal/security/ratelimit.go:33-45 | on a clock that does not step back, deleting any choice of denied calls from a run leaves every other answer as it was |
| `TokenBucket.IdleBucketIsFull` | internal/security/ratelimit.go:64 | after floor(capacity / rate) + 1 idle seconds a bucket is at capacity, as if it did not exist |
| `TokenBucket.TtlIsLeast` | internal/security/ratelimit.go:64 | the time to live is the least whole number of seconds whose gain is above capacity |
| `TokenBucket.ExpiryUnobservable` | internal/security/ratelimit.go:26-46 | on one monotone clock, dropping keys once their time to live has run out changes no answer of any run, and every key still stored holds the undropped bucket |
| `TokenBucket.KeysApart` | internal/security/ratelimit.go:51-56 | within one limiter two callers share a Redis key if and only if they gave the same key; the key is the prefix, a colon and the caller's key, or that alone without a prefix |
| `TokenBucket.OtherKeysInvisible` | internal/security/ratelimit.go:26-46 | what a key's bucket holds depends on that key's calls only |
| `TokenBucket.RedisTokenBucket.RunScript` | internal/security/ratelimit.go:19-49 | the script's answer and its new hash and deadline |
| `TokenBucket.RedisTokenBucket.Allow` | internal/security/ratelimit.go:58-88 | a disabled limiter admits; an unreachable store is an error that changes nothing, a lost reply an error after the script has run; otherwise the answer is the window law over the earlier calls under the same raw key, and depends on no others |
| `TokenBucket.RedisTokenBucket.Expire` | internal/security/ratelimit.go:46 | dropping an expired key keeps the relation between the store and the undropped run |
| `Ledger.RunsKeepSound` | db/migrations/011_entries.sql:104-168 | every run of account creations and postings, accepted or rejected, keeps balances equal to the journal's fold, non-negative, entry numbers unique, rows typed by their account, and snapshots matching rows |
| `Ledger.PostKeepsSound` | db/migrations/011_entries.sql:110-164 | one accepted posting keeps all of that |
| `Ledger.AcceptedIff` | db/migrations/011_entries.sql:110-164 | an entry is accepted if and only if the tables allow it and the journal with its row folds to a balance that is not negative and fits the column, for every account type on both sides; then row, balance and snapshot are those of that fold |
| `Ledger.CreatedIff` | internal/ledger/postgres.go:102-161 | an account is created if and only if its id is new and its fields are filled, with the type and currency asked for and balance 0, all else unchanged |
| `Ledger.BalancesAgreeEverywhere` | db/migrations/012_balances.sql:205-240 | in every reachable database the stored balance is the signed fold and non-negative, and both the validator and the database's consistency function accept |
| `Ledger.ValidatorIsExact` | internal/ledger/validator.go:266-297 | with amounts in units of 1e-8 the epsilon test accepts a balance if and only if it equals the journal's fold |
| `Ledger.SnapshotsTellThePast` | db/migrations/012_balances.sql:47-104 | each account's snapshots are a gap-free chain from 0 to its stored balance, and on an ordered clock the balance at any time is read off the last snapshot at or before it |
| `Ledger.PastBalanceIsLastSnapshot` | db/migrations/012_balances.sql:132-150 | the filtered sum of changes is the balance after the last snapshot at or before the time, or 0 if there is none |
| `Ledger.PastReadsRightIff` | db/migrations/012_balances.sql:132-150 | for a chain of positive changes the past reads right at every time if and only if the snapshot times are ordered |
| `Ledger.UnorderedTimesMisreadThePast` | db/migrations/012_balances.sql:140-146 | two snapshots stamped out of commit order for which that fails |
| `Ledger.AccountingEquation` | db/migrations/011_entries.sql:110-139 | in every reachable database, currency by currency, (assets + expenses) - (liabilities + equity + revenue) equals debits less credits |
| `Ledger.FoldsSumToSkew` | db/migrations/011_entries.sql:110-131 | summing the signed folds of all accounts of a currency cancels to debits less credits of its rows |
| `Posting.PostsExactlyOnce` | internal/ledger/postgres.go:217-238 | for any retry limit, failures, lost acknowledgements and commits of others: never more than one attempt commits; nil if and only if one did and was acknowledged; an error with an entry if and only if the last attempt's acknowledgement was lost; the rest of the database is what the others made it |
| `Posting.LoopStopsAt` | internal/ledger/postgres.go:220-235 | the loop goes on after serialization failures and after nothing else: it returns what the first other attempt returns, and gives up after a last one |
| `Posting.PostAddsRow` | internal/ledger/postgres.go:279-300 | the entry's transaction gains exactly its row when nil is returned or the last acknowledgement was lost, and none otherwise |
| `Posting.TransferLegs` | internal/ledger/service.go:253-311 | a transfer returns nil if and only if both legs are in the journal and the last acknowledgement arrived; the imbalance of its transaction is its amount when only one leg was committed and 0 otherwise, and the double-entry check fails in that case only |
| `Posting.FaultFreeTransferIff` | internal/ledger/service.go:222-311 | without faults a transfer returns nil if and only if its accounts differ, exist and share a currency, an asset account holds the amount, the tables allow both legs and both folds with their leg are valid balances |
| `Posting.TransferContribution` | internal/ledger/service.go:300-311 | what a transfer adds to the accounting equation of each currency, then and after any later commits of others: its amount if it stopped half way, nothing otherwise |
| `Posting.SkewSplitsByTransaction` | internal/ledger/validator.go:186-192 | debits less credits of a journal split into those of any chosen transactions and the rest |
| `Posting.NetPositionByTransaction` | internal/ledger/service.go:253-311 | after any run the net position of a currency is the imbalance of single postings plus the contribution of each transfer |
| `Posting.TransferLoopSkew` | internal/ledger/service.go:182-205 | with the transfer's own retries, the imbalance left behind is the amount times the attempts that stopped half way; if no error is recognised as retryable there is at most one, and none when nil is returned |
| `Posting.TransferStopsAt` | internal/ledger/service.go:185-202 | the transfer's loop goes on after errors it recognises and after nothing else |
| `Posting.RetriedTransferUnbalances` | internal/ledger/service.go:188-197 | were the serialization failure recognised, a run that returns nil with one leg too many |
| `LedgerRuns.TransferCommits` | internal/ledger/service.go:221-312 | an attempt of a transfer, whatever fails, leaves the database of some list of committed transactions, posted under no id it should avoid |
| `LedgerRuns.ActionsCommit` | internal/ledger/postgres.go:217-300 | so does any run of account creations, single postings and transfers with their retries |
| `LedgerRuns.TransfersLeave` | internal/ledger/service.go:182-205 | in such a run the transactions of its transfers are unbalanced, in each currency, by the amount of each transfer of that currency once for every attempt that stopped between its legs |
| `LedgerRuns.BooksOfRuns` | internal/ledger/service.go:253-311 | the accounting equation of every such run: the net position of a currency is the debits less credits of the single postings plus amount x half-done attempts over the transfers of that currency |
| `LedgerRuns.NilTransfersCancel` | internal/ledger/service.go:188-204 | as long as no error is recognised as retryable, transfers that all return nil contribute nothing |
| `LedgerService.PostgresLedger.CreateAccountTx` | internal/ledger/postgres.go:102-161 | the account, of the type and currency asked for, and its zero balance are inserted together, or nothing changes |
| `LedgerService.PostgresLedger.PostJournalEntryTx` | internal/ledger/postgres.go:241-300 | one posting transaction with both triggers: the new tables, or an error and every table as before, or after a lost acknowledgement an error and the new tables; without faults nil if and only if the journal's fold with the entry is a valid balance; keeps the ledger sound |
| `LedgerService.PostgresLedger.CreateBalanceSnapshot` | db/migrations/012_balances.sql:40-108 | the snapshot records the balance before the entry and the signed change |
| `LedgerService.PostgresLedger.UpdateAccountBalance` | db/migrations/011_entries.sql:104-168 | the stored balance moves by the signed amount, or is made with it; a negative result is refused |
| `LedgerService.PostgresLedger.PostJournalEntry` | internal/ledger/postgres.go:217-238 | the retry loop: at most one commit of ours, acknowledged when nil, lost when an error comes with it; the ledger stays sound |
| `LedgerService.PostgresLedger.PostTransaction` | internal/ledger/service.go:107-146 | a missing account or a non-positive amount changes nothing; otherwise one entry is posted under the given or the drawn transaction id, with its number built from that id and the clock and the fallback description |
| `LedgerService.PostgresLedger.TransferWithRetry` | internal/ledger/service.go:221-312 | the checks in order, then the debit, then the credit, as the transfer function says |
| `LedgerService.PostgresLedger.Transfer` | internal/ledger/service.go:182-205 | the loop and the imbalance it leaves; keeps the ledger sound |
| `Transitions.IsValidTransition` | internal/disputes/state_machine.go:93-101 | the loop finds the target if and only if the table allows it |
| `Transitions.TablesAgree` | internal/disputes/state_machine.go:82-130 | the Go table, the operation table, the insert trigger and the status-update check allow the same steps, and every step raises a rank from 1 to 5 |
| `Transitions.GoodHistoryIsShort` | internal/disputes/state_machine.go:82-90 | a history that follows the table has at most five rows, repeats no state and ends at REVERSED once it is reached |
| `Transitions.RunsStayBacked` | internal/disputes/state_machine.go:177-254 | in every run each row in flight either starts a dispute or continues a row its dispute has |
| `Transitions.InsertGoodIffLast` | db/migrations/021_dispute_transitions.sql:75-116 | an accepted insert of a row in flight keeps its history good if and only if the row lands last |
| `Transitions.HistoriesGoodIffInOrder` | db/migrations/021_dispute_transitions.sql:75-116 | for any number of concurrent requests: all histories of a run stay good if and only if every accepted insert landed last |
| `Transitions.ConcurrentHistories` | internal/disputes/state_machine.go:177-254 | under that condition every history starts at PENDING, follows the table, has at most five rows and ends at REVERSED once it is reached |
| `Transitions.LateInsertReopensReversed` | internal/disputes/service.go:794-801 | two requests prepared together and inserted against their creation times put AUTHORIZED after REVERSED, and SETTLED is allowed next |
| `Transitions.OnlyReversalsAreStale` | internal/disputes/state_machine.go:177-189 | while accepted inserts land last, only a reversal can name a predecessor that is not the row before it |
| `Transitions.AnsweredIff` | internal/disputes/state_machine.go:149-260 | a call with nothing in between succeeds if and only if its fields are filled, its row id is new and its target is PENDING for a new dispute or allowed after the latest state; its row says what was asked and hashes the seven texts joined by bars |
| `Transitions.ServeKeepsChainsIff` | internal/disputes/state_machine.go:172-248 | one call with nothing in between keeps all chains if and only if its row lands last, and then its previous hash and state are those of the latest row |
| `Transitions.SequentialCallsChain` | internal/disputes/state_machine.go:172-248 | for calls one at a time: at every point each dispute's rows follow the table and link to the row before, with every hash that of its row, if and only if every inserted row landed last |
| `Transitions.AdvancingCallsChain` | internal/disputes/state_machine.go:235-248 | a call later than all earlier calls of its own dispute lands last, whatever other disputes do |
| `Transitions.VerifiesIffSameTimes` | internal/disputes/state_machine.go:306-346 | such a chain verifies if and only if every clock text read while verifying is the one that was hashed |
| `Transitions.FreshReadingsReject` | internal/disputes/state_machine.go:327-342 | if every reading differs from every hashed one, as on an advancing clock, only the empty history is accepted |
| `Transitions.HonestRowRejected` | internal/disputes/state_machine.go:263-276 | an honest history of one row that is turned down a second later |
| `Transitions.RecordedTimesVerify` | internal/disputes/README.md:89 | were the recorded creation time hashed and read back, every chain of in-order calls would be accepted |
| `Transitions.HashCovers` | internal/disputes/state_machine.go:263-276 | where no field has a bar, equal hashed texts mean equal fields: the hash covers dispute, both states, reason, creator, time and previous hash |
| `Transitions.BarredReasonsCollide` | internal/disputes/state_machine.go:264-272 | with a bar in a reason two different rows have one hash |
| `Transitions.HashesDiffer` | internal/disputes/state_machine.go:263-276 | the rows of an honest chain have different hashes |
| `Transitions.RearrangedVerifiesIff` | internal/disputes/state_machine.go:316-345 | rows taken from an honest chain in any way, read with the texts that were hashed, verify if and only if they are a stretch of it: a row missing inside, a swap or a repetition is rejected, missing ends are not noticed |
| `Transitions.ReplacedVerifiesIff` | internal/disputes/state_machine.go:316-345 | a replaced row, anywhere, verifies if and only if its hash is its own and both links hold |
| `Transitions.ReplacementUndetectedIff` | internal/disputes/state_machine.go:316-345 | a replaced row before the last goes undetected if and only if its hashed text, its hash and its link are the old ones; without bars, if and only if every hashed field is |
| `Transitions.StateMachine.Transition` | internal/disputes/state_machine.go:149-260 | the new table, exactly when it succeeds, the fields and the hash of the new row, and that a refused call changes nothing; from valid chains it leaves valid chains if and only if its row lands last |
| `Transitions.StateMachine.GetCurrentState` | internal/disputes/state_machine.go:279-294 | the last state of a non-empty history, PENDING for an empty one, an error without an id |
| `Transitions.StateMachine.VerifyChainIntegrity` | internal/disputes/state_machine.go:306-346 | accepts if and only if every link and every recomputed hash of the rows that were read agrees; on a valid table, if and only if the clock texts agree |
| `Transitions.CheckRows` | internal/disputes/state_machine.go:316-345 | the verification loop decides that condition |
| `DisputeFunds.AcceptedInsertLands` | db/migrations/021_dispute_transitions.sql:75-116 | every insert the protocol accepts is a transition of the funds model, landing last there exactly when its row does |
| `DisputeFunds.ProtocolInsertLands` | internal/disputes/state_machine.go:177-254 | that holds for every accepted insert of every concurrent run of the protocol |
| `DisputeFunds.ExtensionIsAccepted` | internal/disputes/state_machine.go:191-222 | and every transition of the funds model can be requested, prepared, accepted and inserted last |
| `DisputeFunds.LaggingClockAuthorizesTwice` | internal/disputes/service.go:264-276 | an AUTHORIZED row stamped before the PENDING one is accepted, and so is a second AUTHORIZED row |
| `DisputeFunds.RunsKeepInv` | internal/disputes/service.go:243-296 | the invariant of states, holds, releases and funds transactions over every interleaving, failure pattern and landing of rows |
| `DisputeFunds.HoldsPerDispute` | internal/disputes/service.go:207-232 | wherever rows land, a dispute's holds number one for its creation and one for each AUTHORIZED row, less the funds transactions still open or rolled back; each is the disputed amount plus the fee |
| `DisputeFunds.OneAuthorizationIff` | internal/disputes/service.go:264-276 | no point of a run has, or leaves room for, a second AUTHORIZED row if and only if every recorded authorization landed last |
| `DisputeFunds.AtMostTwoHolds` | internal/disputes/service.go:450-484 | then a dispute has one hold, and one more if it was ever AUTHORIZED, less unfinished transactions |
| `DisputeFunds.ReleasesConserve` | db/migrations/020_disputes.sql:211-253 | a dispute's release entries total exactly its RELEASED holds, no hold is released twice, and every RELEASED hold has its entry |
| `DisputeFunds.ReversalTouchesOnly` | db/migrations/020_disputes.sql:218-247 | a release leaves no ACTIVE hold of its dispute and every other hold, reserve and state as it was; entries grow by what was released |
| `DisputeFunds.ActiveIff` | db/migrations/020_disputes.sql:217-228 | in every run, wherever rows land, a dispute has an ACTIVE hold if and only if some hold of it was committed with no release of it committed after |
| `DisputeCalls.PathsInOrder` | internal/disputes/state_machine.go:82-90 | while recorded transitions land last, a dispute's states are one of nine sequences |
| `DisputeCalls.ReleaseAccount` | internal/disputes/service.go:401-420 | wherever rows land, each REVERSED row has its release, less the transactions still open or rolled back |
| `DisputeCalls.ReversedHoldsActiveIff` | db/migrations/020_disputes.sql:217-228 | while transitions land last, a REVERSED dispute has an ACTIVE hold if and only if its release is open or was rolled back, or a hold was committed after the release |
| `DisputeCalls.CreateComesFirst` | internal/disputes/service.go:278-293 | a hold committed after a release is an authorization's |
| `DisputeCalls.LateHoldWasOpen` | internal/disputes/service.go:278-293 | while transitions land last, a hold committed after a release belongs to an authorization whose funds transaction was open when the release ran |
| `DisputeCalls.SequentialReversals` | internal/disputes/service.go:375-423 | with calls one after another, landing last, a REVERSED dispute has an ACTIVE hold if and only if the funds transaction of its reversal was rolled back |
| `DisputeCalls.AbortedByFailure` | internal/disputes/service.go:417-420 | a rolled-back funds transaction is that of a call on that dispute, of that kind, that failed |
| `DisputeCalls.FaultFreeCalls` | internal/disputes/service.go:243-296 | when no transaction fails midway there is one hold and one more for each AUTHORIZED row, wherever rows land; if they land last, AUTHORIZED comes at most once and no REVERSED dispute has an ACTIVE hold |
| `DisputeCalls.FailedReversalStrandsHold` | internal/disputes/service.go:401-420 | a reversal whose transaction fails leaves the hold ACTIVE, and no second reversal is recorded |
| `DisputeCalls.LaggingClockHoldsThrice` | internal/disputes/service.go:264-288 | three holds of one dispute, with calls one after another and no failure, when an authorization lands before the creation |
| `DisputeCalls.OvertakenAuthorizationStrandsHold` | internal/disputes/service.go:273-293 | a reversal between an authorization's transition and its funds leaves a hold ACTIVE with nothing failed and every row in order |
| `Reserves.ShareRounds` | internal/disputes/service.go:525-532 | an update adds a share that depends on the amount alone, within half a unit of the percentage, equal to it exactly when that is whole and at most it exactly when it is not rounded up |
| `Reserves.ReserveBound` | internal/disputes/service.go:487-539 | in every run, wherever rows land, a merchant's reserve is at most the sum over its disputes of share x (1 + AUTHORIZED rows), with equality when all their funds transactions committed |
| `Reserves.RaisesInOrder` | internal/disputes/service.go:264-288 | where a dispute's authorizations land last that factor is 1 + [AUTHORIZED in history] |
| `Reserves.ReserveIsPercentage` | internal/disputes/service.go:525-532 | the plain percentage bounds the reserve if no share rounds up, and is reached if all shares are whole and held |
| `Reserves.RoundingExceedsPercentage` | internal/disputes/service.go:525-532 | for every amount whose share rounds up, one created dispute lifts the reserve above the percentage |
| `Reserves.PercentageBoundIff` | internal/disputes/service.go:525-532 | the percentage bounds every merchant's reserve in every run with amounts of a given kind if and only if no amount of that kind has a share that rounds up |
| `ReserveRaces.NeverAboveShares` | internal/disputes/service.go:487-539 | with reads and writes of overlapping transactions interleaved in any way, a reserve never exceeds the shares committed to it |
| `ReserveRaces.ReserveIsSharesIff` | internal/disputes/service.go:487-539 | with positive shares it equals their sum if and only if no update was committed between the read and the write of another |
| `ReserveRaces.OverlapLosesShare` | internal/disputes/service.go:489-532 | two overlapping updates that store one of two shares |
| `ReleaseEntries.ReleasesMoveBooks` | db/migrations/020_disputes.sql:229-247 | an accepted release keeps the ledger sound and lowers the net position of each currency by what it gives back |
| `ReleaseEntries.ReleaseRefusedIff` | db/migrations/011_entries.sql:146-149 | on an asset or expense account the balance trigger refuses a release entry if and only if the balance is below its amount |
| `ReleaseEntries.ReversalMovesBooks` | db/migrations/020_disputes.sql:217-247 | a committed reversal moves the net position of its account's currency by exactly the ACTIVE holds it releases, and no other |
| `DisputesService.Service.CreateDispute` | internal/disputes/service.go:207-240 | succeeds exactly for a valid new dispute whose funds transaction commits; the state is that of one whole call |
| `DisputesService.Service.AuthorizeDispute` | internal/disputes/service.go:243-296 | the same for a visible PENDING dispute, which is held a second time |
| `DisputesService.Service.SettleTransaction` | internal/disputes/service.go:299-338 | every AUTHORIZED dispute of the journal entry that was read, and no other, gains one SETTLED row, its latest if it lands last; it stops at the first insert that fails, leaving the rest as they were; what was moved stands even if the commit fails |
| `DisputesService.Service.SettleOne` | internal/disputes/service.go:316-331 | one iteration of that loop |
| `DisputesService.Service.InitiateDispute` | internal/disputes/service.go:341-372 | exactly a visible SETTLED dispute moves to DISPUTED |
| `DisputesService.Service.ReverseDispute` | internal/disputes/service.go:375-423 | success means REVERSED with no ACTIVE hold left; other disputes' holds are untouched in every case |
| `DisputesService.Service.ApplyFundsHold` | internal/disputes/service.go:450-484 | one more ACTIVE hold, on the entry's account, for the amount plus the fee |
| `DisputesService.Service.UpdateFraudReserve` | internal/disputes/service.go:487-539 | the merchant's reserve, created if missing, grows by the rounded share; other reserves stay |
| `DisputesService.Service.HandleDisputeResolution` | db/migrations/020_disputes.sql:211-253 | the release loop: every ACTIVE hold of the dispute becomes RELEASED and gets one entry for its amount |
| `Envelope.XorEncrypt` | internal/crypto/kms.go:143-149 | the buffer loop computes data XOR the repeated key |
| `Envelope.XorTwice` | internal/crypto/kms.go:143-149 | the wrap is its own inverse for data of any length and any non-empty key |
| `Envelope.EncryptDecrypts` | internal/crypto/aead.go:34-98 | no encryption overwrites a master key, and an envelope opens to what was sealed under any later set of master keys |
| `Envelope.OpensIff` | internal/crypto/aead.go:72-98 | an envelope with its nonce, key id or associated data changed, under any master keys, opens to its plaintext if and only if the named master key is the one it was wrapped with and nonce and associated data are its own; otherwise it does not open |
| `Envelope.EncryptsIff` | internal/crypto/aead.go:34-69 | exactly when encryption succeeds; a missing master key is the one drawn, and no other key changes |
| `Envelope.MoreKeysDecrypt` | internal/crypto/kms.go:117-128 | what opens with some master keys opens to the same text with more |
| `Envelope.FileBasedKMS.GenerateDataKey` | internal/crypto/kms.go:80-114 | when it succeeds, what it returns, and the key map it leaves, also when saving the new key fails |
| `Envelope.FileBasedKMS.Decrypt` | internal/crypto/kms.go:117-128 | fails exactly for an unknown key; otherwise the unwrapped data key |
| `Envelope.AEADEncryptor.Encrypt` | internal/crypto/aead.go:34-69 | the envelope and the key map; a success opens to its plaintext |
| `Envelope.AEADEncryptor.Decrypt` | internal/crypto/aead.go:72-98 | opens exactly with the right key, nonce and associated data |
| `CardTemplate.ValidFieldsQuoteFree` | internal/vault/tokenizer.go:62-142 | no field that passes validation holds a double quote, whatever was trimmed or stripped to check it |
| `CardTemplate.PanOfDigits` | internal/vault/tokenizer.go:62-83 | a string of digits is a card number if and only if it has 13 to 19 of them and passes the Luhn check |
| `CardTemplate.PanSpacing` | internal/vault/tokenizer.go:64-65 | spaces and dashes do not matter |
| `CardTemplate.ChangedDigitRefused` | internal/vault/tokenizer.go:77-80 | a valid card number, spaced in any way, with one digit changed is refused |
| `CardTemplate.CvvOfDigits` | internal/vault/tokenizer.go:86-100 | a string of digits is a verification value if and only if it has three or four |
| `CardTemplate.ExpiryOfDigits` | internal/vault/tokenizer.go:103-122 | two digits, a slash and digits are an expiry if and only if the month is 01 to 12 and the year has two to four digits |
| `CardTemplate.CardholderOfLetters` | internal/vault/tokenizer.go:125-142 | letters are a name if there are 1 to 255; a digit anywhere makes it none |
| `CardTemplate.NameCharsAre` | internal/vault/tokenizer.go:136-139 | inside a name stand exactly letters, tab, line feed, form feed, carriage return, space, apostrophe and dash |
| `CardTemplate.PaddingIgnored` | internal/vault/tokenizer.go:87 | white space around the three other fields does not matter |
| `CardTemplate.TemplateText` | internal/vault/store.go:52 | the stored text, letter by letter |
| `CardTemplate.ReadsBackIff` | internal/vault/store.go:144-158 | the stored text reads back as its four fields if and only if none of them holds a double quote |
| `CardTemplate.ReadIsTemplate` | internal/vault/store.go:147-148 | a text that can be read is the template of what was read |
| `CardTemplate.TemplateUnambiguous` | internal/vault/store.go:52 | two validated cards with equal plaintext are equal |
| `Strings.TrimmedQuoteFree` | internal/vault/tokenizer.go:87 | a string whose trimmed form has no double quote has none |
| `Strings.TrimIs` | internal/vault/tokenizer.go:87 | trimming is taking all white space off both ends |
| `Strings.TrimmedEnds` | internal/auth/oauth.go:164 | what is left neither starts nor ends with white space |
| `Vault.RowsMove` | internal/vault/store.go:177-214 | the rotation loop over the rows handed out, in any order: which rows it rewrites, the number it counts and what each row decrypts to |
| `Vault.RotationMovesHanded` | internal/vault/store.go:162-221 | a rotation moves exactly the rows its query hands out before the iteration ends and returns their number, with tokens, masked digits and plaintexts kept; that is all the rows under the old key if and only if the iteration did not stop short; if any step or the commit fails no row changes, unless only the commit's acknowledgement was lost |
| `Vault.RotationMovesRows` | internal/vault/store.go:162-221 | when every such row is handed out, a rotation that succeeds moves exactly the rows under the old key and returns their number; tokens, masked digits and plaintexts stay |
| `Vault.ReadErrorLeavesRow` | internal/vault/store.go:177-220 | two stored cards and a read error after the first: success with a count of one, and the second card still under the old key |
| `Vault.RotationSucceedsIff` | internal/vault/store.go:176-220 | a rotation is told nil if and only if no draw fails and its commit is done, for any number of rows |
| `Vault.RunsKeepReading` | internal/vault/store.go:162-221 | over any interleaving of stores and rotations, successful or not, every row keeps decrypting to the same text |
| `Vault.RunsKeepBound` | internal/vault/store.go:61-63 | over any run the envelope of a row, put beside another token, does not open |
| `Vault.StoredIff` | internal/vault/store.go:44-94 | a card is stored if and only if it validates, its token is new, the draws succeed and the insert does; its row shows six and four characters of the card number, the expiry and the holder |
| `Vault.StoredCardsReadBack` | internal/vault/store.go:44-94 | a stored card reads back as exactly its four fields after any later operations, and its row still shows the first six and last four characters of the card number, the expiry and the holder |
| `VaultStore.Store.StoreCard` | internal/vault/store.go:44-94 | exactly when it succeeds; a success appends one row, with the first six and last four characters of the card number, that opens to the card; a failure appends none |
| `VaultStore.Store.RetrieveCard` | internal/vault/store.go:97-117 | the row with the token, or an error exactly when there is none |
| `VaultStore.Store.DecryptCard` | internal/vault/store.go:120-159 | a stored row gives its four fields; a text that cannot be read gives four empty fields without an error |
| `VaultStore.Store.RotateKey` | internal/vault/store.go:162-221 | the rows handed out change together or none does, and the count is theirs; it is the count of all rows under the old key if and only if all were handed out |
| `VaultStore.Store.RekeyRows` | internal/vault/store.go:176-214 | the loop over the rows handed out stops at the first failure and hands back the rows it would write |
| `AuditChain.VerifyChain` | pkg/audit/chainlogger.go:54-79 | accepts if and only if every entry hashes correctly and names the hash before it |
| `AuditChain.EncodingInjective` | pkg/audit/chainlogger.go:45 | the joined text determines previous hash, timestamp and payload, although payloads may contain bars |
| `AuditChain.BarredTimestampsCollide` | pkg/audit/chainlogger.go:45 | with a bar in the timestamp two different entries have one encoding |
| `AuditChain.SameEndSameTail` | pkg/audit/chainlogger.go:54-79 | two accepted chains with the same last hash agree entry by entry from the end, as far as the shorter reaches |
| `AuditChain.LastHashPinsChain` | pkg/audit/chainlogger.go:28-79 | two accepted chains from the zero hash with the same last hash are equal, length and all fields |
| `AuditChain.TamperingIff` | pkg/audit/chainlogger.go:54-79 | replacing an entry that is not the last, by any entry whatever, goes undetected if and only if its hashed text, its hash and, unless it is the first, its link are the old ones |
| `AuditChain.TamperingDetected` | pkg/audit/chainlogger.go:54-79 | changing any entry but the last makes verification fail, if no timestamp has a bar |
| `AuditChain.BarredTamperingUndetected` | pkg/audit/chainlogger.go:45-74 | an honest chain in which part of a payload moved into the timestamp goes undetected |
| `AuditChain.TailsVerify` | pkg/audit/chainlogger.go:61-62 | the first entry's link is not checked, so every tail of an accepted chain is accepted |
| `AuditChain.ChainLogger.Append` | pkg/audit/chainlogger.go:35-51 | everything appended so far verifies and starts from the zero hash |
| `Luhn.LuhnCheck` | internal/vault/tokenizer.go:145-166 | the left-to-right parity loop accepts exactly the digit strings that pass the right-to-left formula of Annex B of ISO/IEC 7812-1 |
| `Luhn.KnownNumbers` | internal/vault/tokenizer.go:155-160 | the digit before the check digit is the one doubled |
| `Luhn.SumReplace` | internal/vault/tokenizer.go:149-163 | replacing one digit moves the sum by the difference of that position's weights |
| `Luhn.DetectsSingleChange` | internal/vault/tokenizer.go:145-166 | every change of one digit is detected |
| `Luhn.DetectsSwapsBut09` | internal/vault/tokenizer.go:145-166 | a swap of neighbours goes unnoticed if and only if the digits are equal or are 0 and 9 |
| `Luhn.OneCheckDigit` | internal/vault/tokenizer.go:165 | each prefix has exactly one valid check digit |
| `Scopes.SortStrings` | internal/auth/oauth.go:189-197 | the exchange sort leaves a sorted permutation of the array |
| `Scopes.ExchangePass` | internal/auth/oauth.go:191-195 | one inner loop brings a least string of the rest to its place and loses none |
| `Scopes.LessIff` | internal/auth/oauth.go:192 | the string order is the lexical one: the first difference decides, and a proper prefix comes first |
| `Scopes.LessTransitive` | internal/auth/oauth.go:192 | the string order is transitive |
| `Scopes.SortedListUnique` | internal/auth/oauth.go:172-177 | a set has one strictly sorted list, so the map's iteration order cannot show |
| `Scopes.FilterIsSubsequence` | internal/auth/oauth.go:180-186 | the filtered request is the subsequence at exactly the positions of allowed scopes |
| `Scopes.AllowedIff` | internal/auth/oauth.go:162-169 | the allowed scopes are what is left of the listed strings after trimming, if anything is |
| `Scopes.IntersectScopes` | internal/auth/oauth.go:161-187 | with nothing requested, the strictly sorted list of the distinct trimmed non-empty allowed scopes; otherwise the request filtered by them (section 3.3 of RFC 6749) |

## Left out

- HTTP handlers, TLS, JWT signing, configuration, gRPC and deployment files: plumbing.
- float64 rounding: amounts are what the columns hold; the reserve column's rounding is modelled, half up, for the non-negative amounts that reach it.
- Character encoding: strings are sequences of characters and lengths count characters.
- AES-GCM, SHA-256 and random draws: an ideal cipher that opens only for its own key, nonce and associated data; hashes assumed free of collisions only on the strings a theorem names; draws, tokens and ids are parameters.
- The triggers `validate_double_entry` and `validate_transaction_entries` (db/migrations/011_entries.sql:37-101): as written they refuse the first leg of any transaction, so nothing could be posted; the balance check is applied to the finished transaction.
- Ledger.RunsKeepSound: the balance upsert is a read and write of an existing row; the CHECK on the row proposed for insertion, which would refuse every negative change, is not modelled.
- Ledger.RunsKeepSound: account numbers and account ids are one string, as `transferWithRetry` uses them, and no operation of the source deactivates an account.
- LedgerService.PostgresLedger.TransferWithRetry: the three reads of one attempt are taken at one point in time.
- LedgerService.PostgresLedger.PostTransaction: the drawn transaction id and the clock text are parameters; reference fields, metadata and creators are not kept.
- Ledger.SnapshotsTellThePast: `detect_reconciliation_drift` compares against a maximum of balances and is not modelled, nor is `ValidateOverdraftPrevention`, whose debit sign is the opposite of the trigger's.
- Transitions.HistoriesGoodIffInOrder: the column CHECKs on `from_state` and `prev_hash` (db/migrations/021_dispute_transitions.sql:10 and :22) refuse a dispute's first row and are not modelled; the empty state stands for NULL, and the insert trigger's own hash does not replace the Go hash.
- Transitions.HistoriesGoodIffInOrder: inserts pass the trigger one at a time, each seeing all earlier ones.
- Transitions.StateMachine.VerifyChainIntegrity: the history query orders by creation time alone; rows with equal times, which the database may return in any order, are taken in id order.
- Transitions.StateMachine.GetCurrentState: the driver's no-rows error is taken to be recognised as `sql.ErrNoRows`, which the code tests for.
- DisputeFunds.RunsKeepInv: `disputes.status` is the latest state, and every reversal's database transaction runs the release, as if it made the status update the release trigger waits for. The Go methods write no status, so as written no dispute is settled or initiated and no hold is released.
- DisputeFunds.RunsKeepInv: the Go checks, made on an earlier read, and the insert trigger are one step at the insert; a row lands anywhere its creation time may put it.
- DisputeFunds.RunsKeepInv: a dispute's row id and its dispute id are one string; expiry and conversion of holds are not modelled. A release refused by the ledger is an aborted funds transaction; what an accepted one does to the ledger is in `ReleaseEntries`.
- Reserves.ReserveBound: its equality is for updates of one reserve that follow each other; for overlapping ones `ReserveRaces.ReserveIsSharesIff` has the condition. Minimum reserves and currencies are left out.
- DisputesService.Service.CreateDispute: a funds transaction that fails is rolled back; one that commits without acknowledgement is, to the other calls, a success.
- VaultStore.Store.StoreCard: an insert whose acknowledgement is lost is not modelled; its token is never given to the caller.
- DisputesService.Service.CreateDispute: reason codes, masking of personal data and the fee's clamps are finite tables; the fee and the original amount are parameters.
- VaultStore.Store.DecryptCard: Go's `Sscanf` is replaced by a reader of the template its format describes; as written the scan rejects its format and gives four empty fields for every card.
- VaultStore.Store.RotateKey: no other client writes between the query and the commit; a query that fails at once hands out nothing and changes nothing, and a failing update of one row is a shorter list of rows with a commit rolled back.
- Envelope.FileBasedKMS.GenerateDataKey: other key services are stubs and are left out; keys on disk are never read back by the source.
- LedgerRuns.BooksOfRuns: transfer ids are fresh; no other action or client posts under them.
- AuditChain.LastHashPinsChain: assumes that no hashed string of the two chains has the zero digest; signatures are not hashed and not modelled.
