# ScroogeCoin transaction handlers in Dafny

This project models the two transaction handlers of the ScroogeCoin ledger,
`TxHandler` and `MaxFeeTxHandler`, and proves properties of the model.

A handler owns a UTXO pool, which maps each unspent-output identity
`(txHash, index)` to its output (a value and an address). It takes a batch
of candidate transactions and walks it in batch order. Each candidate is
checked by `isValidTx` against the pool as it stands at that moment. The
five rules are:

- every claimed output is in the pool;
- every input's signature verifies;
- no output is claimed twice within the transaction;
- no output value is negative;
- outputs do not exceed claimed inputs.

An accepted candidate is applied before the next one is looked at: its
claims are removed from the pool and its outputs are added.

`TxHandler` returns the accepted transactions in batch order.
`MaxFeeTxHandler` accepts exactly the same ones. It records each one's fee
before applying it, sorts the list ascending by fee with the stable
`Collections.sort`, and returns it back to front.

Modules, one file each:

- `Ledger` (`ledger.dfy`): identities, outputs, inputs, transactions, the
  pool as `map<UTXO, Output>`, and the input and output sums.
- `Validator` (`validator.dfy`): `isValidTx`. It is modelled two ways:
  - as the two loops it is written as (`ScanInputs`, `ScanOutputs`);
  - as the five rules stated declaratively (`Valid`).

  The two are proved equal. The helpers `CoinAvailable`, `verifySignature`
  and `ConsumedMultipleTimes` are the three early-exit branches of
  `ScanInputs`, in the order the code tests them. `isValidTx` is a function
  of a pool value, so it cannot change the pool.
- `PoolUpdate` (`pool_update.dfy`): the removal and insertion loops, and a
  proof that together they compute the closed form
  `(pool - claims) + generated`.
- `TxHandler` (`tx_handler.dfy`): `handleTxs` as a fold over prefixes of the
  batch, with:
  - the pool each candidate meets;
  - the positions that were accepted;
  - the no-double-spend results.
- `BatchSafety` (`batch_safety.dfy`): the no-double-spend argument for any
  run in which an accepted transaction's claims are in the pool it meets,
  the transaction is applied to that pool, and accepted transactions carry
  new hashes.
- `FeeSort` (`fee_sort.dfy`):
  - `SortTx` and its `compareTo`;
  - a stable insertion sort that stands in for `Collections.sort`;
  - the back-to-front read-out.
- `MaxFeeTxHandler` (`max_fee_tx_handler.dfy`): the fee sums, the collection
  pass and the returned ordering.
- `Scenarios` (`scenarios.dfy`): small concrete batches worked through both
  handlers.

Notes on what the code does, where a reader might expect otherwise:

- Only `MaxFeeTxHandler` sorts; its Javadoc says "Sort the accepted
  transactions by fee" (MaxFeeTxHandler.java:81), and the array it returns
  has non-increasing fees (`MaxFeeTxHandler.HandleTxs`).
  `TxHandler.handleTxs` returns batch order (`TxHandler.AcceptedIsSelection`).
- `MaxFeeTxHandler` sorts stably and then reads back to front, so
  equal-fee transactions come out in the reverse of acceptance order, not
  in batch order (`MaxFeeTxHandler.TiesInReverseAcceptanceOrder`).
- When every accepted transaction's hash is new
  (`TxHandler.AcceptedHashesFresh`), an output of an accepted transaction
  is in the pool after the batch exactly when no later accepted transaction
  of the same batch spends it (`TxHandler.OutputsPresentAtEnd`,
  `TxHandler.ClaimsGoneAtEnd`). Without that condition a repeated
  transaction can put a spent output back (`Scenarios.SpentOutputRestored`).
- Both Javadocs promise to return "a mutually valid array of accepted
  transactions" (TxHandler.java:82-84, MaxFeeTxHandler.java:77-79). The
  code delivers this when every accepted transaction's hash is new: it is
  neither the hash of an output already in the starting pool nor the hash
  of an earlier accepted transaction (`TxHandler.AcceptedHashesFresh`).
  - Rejected candidates are not constrained. A duplicate rejected because
    its claims are gone, or a replay rejected against a pool that already
    holds its outputs, stays covered (`Scenarios.RejectedDuplicateCovered`,
    `Scenarios.RejectedReplayCovered`).
  - Hashes new across the whole batch (`BatchSafety.FreshHashes`) are a
    simpler condition that implies it (`BatchSafety.FreshHashesSuffice`).
  - Without the condition mutual validity can fail. Suppose a batch holds
    the same input-less transaction twice, with an accepted spender of its
    output in between. The second copy puts the spent output back under
    the same identity, and a later transaction can then claim it again.
    `Scenarios.RepeatedHashDefeatsMutualValidity` exhibits such a batch
    that the code accepts in full.

## Model

| member | source | states |
|---|---|---|
| Validator.ScanInputs | TxHandler.java:34-48 | The input loop completes exactly when every remaining input claims an output in the pool, its signature verifies under that output's address over the payload for its position, and its identity was not claimed earlier; when it completes, the total is the running sum plus the claimed values |
| Validator.ScanOutputs | TxHandler.java:50-56 | The output loop completes exactly when no remaining output is negative, and then the total is the running sum plus their values |
| Validator.IsValidTx | TxHandler.java:29-63 | `isValidTx` answers true exactly when the five rules hold together (the copy at MaxFeeTxHandler.java lines 29-58 is the same method, and its line-38 lookup is used only after the availability check) |
| Validator.RejectsUnavailableClaim | TxHandler.java:76-79 | A transaction with an input whose claimed output is not in the pool is rejected |
| Validator.RejectsBadSignature | TxHandler.java:69-74 | A transaction with an input whose signature does not verify under the claimed output's address, over `getRawDataToSign(i)`, is rejected |
| Validator.RejectsRepeatedClaim | TxHandler.java:65-67 | Two inputs of one transaction claiming the same output get it rejected, whatever the pool holds |
| Validator.RejectsNegativeOutput | TxHandler.java:53 | A transaction with a negative output value is rejected |
| Validator.RejectsOverspend | TxHandler.java:59 | A transaction whose outputs exceed its claimed inputs is rejected |
| Validator.AcceptsWhenRulesHold | TxHandler.java:29-63 | When all five rules hold the transaction is accepted, including when inputs and outputs balance exactly |
| PoolUpdate.RemoveConsumed | TxHandler.java:112-119 | The removal loop deletes exactly the identities claimed by the inputs and keeps every other entry with its value |
| PoolUpdate.AddGenerated | TxHandler.java:103-110 | The insertion loop makes `(getHash(), j)` map to `outputs[j]` for each output, overriding an entry already there, and leaves every other entry as it was |
| PoolUpdate.AddGeneratedMerges | TxHandler.java:103-110 | The whole insertion loop merges the transaction's generated entries over the pool |
| PoolUpdate.Apply | TxHandler.java:93-94 | After acceptance every output of the transaction is in the pool with its value; claimed outputs it does not itself create are gone; every other entry is unchanged |
| PoolUpdate.LoopsComputeApply | TxHandler.java:93-94 | Removal followed by insertion, as `handleTxs` runs them, computes `Apply`; `MaxFeeTxHandler` runs the same two loops in the same order (its lines 89-90 and 154-170) |
| PoolUpdate.ApplyKeepsOut | TxHandler.java:103-119 | An output absent from the pool, or claimed by the transaction, is absent afterwards unless it is one of the identities `(getHash(), j)` the transaction creates |
| PoolUpdate.ApplyKeeps | TxHandler.java:103-119 | An entry the transaction neither claims nor could create keeps its value |
| TxHandler.HandleTxs | TxHandler.java:86-100 | `handleTxs` returns no more transactions than it was given |
| TxHandler.HandleTxsSnoc | TxHandler.java:88-96 | Appending a candidate to the batch adds one loop iteration at the end: validate against the current pool, then append and apply |
| TxHandler.PoolAtStart | TxHandler.java:16-18 | The first candidate meets the pool the handler was built with |
| TxHandler.PoolAtEnd | TxHandler.java:86-100 | The pool after the last iteration is the pool `handleTxs` leaves |
| TxHandler.PoolEvolution | TxHandler.java:90-95 | A rejected candidate leaves the pool unchanged; an accepted one applies exactly its removal and insertion |
| TxHandler.AcceptedPositionsExact | TxHandler.java:90-91 | A candidate's position is among the accepted positions exactly when it was valid against the pool it met |
| TxHandler.HandleTxsLast | TxHandler.java:88-96 | The last candidate of a batch is appended to the result exactly when it is accepted at its turn |
| TxHandler.AcceptedIsSelection | TxHandler.java:86-100 | The returned array is the candidates at the accepted positions, in increasing position order: a subsequence of the batch, in batch order |
| TxHandler.HandleTxsIsRun | TxHandler.java:88-96 | Every iteration satisfies the step rule: an accepted candidate's claims are in the pool it meets, and the next pool is that pool with the candidate applied |
| TxHandler.AcceptedNeverShareClaims | TxHandler.java:82-84 | When every accepted candidate's hash is new, no output is claimed by two accepted candidates |
| TxHandler.FirstSeenWins | TxHandler.java:88-95 | When every accepted candidate's hash is new: of two candidates claiming one output, once the earlier is accepted the later is rejected, whatever the fees |
| TxHandler.ResultIsMutuallyValid | TxHandler.java:82-84 | When every accepted candidate's hash is new, any two entries of the returned array claim disjoint sets of outputs |
| TxHandler.ClaimsGoneAtEnd | TxHandler.java:93 | When every accepted candidate's hash is new, nothing an accepted candidate claimed is in the pool after `handleTxs` |
| TxHandler.OutputsPresentAtEnd | TxHandler.java:94 | When every accepted candidate's hash is new, each output of an accepted candidate that no later accepted candidate claimed is in the pool after `handleTxs`, with its value |
| BatchSafety.FreshHashesSuffice | TxHandler.java:82-84 | If every candidate's hash is new across the batch and the starting pool, then every accepted candidate's hash is new, whichever candidates are accepted |
| BatchSafety.SpentStaysSpent | TxHandler.java:88-96 | In any run whose accepted transactions carry new hashes, an output claimed by an accepted transaction stays out of every later pool |
| BatchSafety.NeverShareClaims | TxHandler.java:82-84 | In any run whose accepted transactions carry new hashes, two accepted transactions claim disjoint outputs |
| BatchSafety.OutputsSurvive | TxHandler.java:93-94 | In any run whose accepted transactions carry new hashes, an output created by an accepted transaction stays in later pools, with its value, until an accepted transaction claims it |
| FeeSort.CompareTo | MaxFeeTxHandler.java:113-122 | `compareTo` answers -1, 0 or 1: negative exactly when this fee is lower, positive exactly when it is higher |
| FeeSort.Insert | MaxFeeTxHandler.java:94 | Inserting into an ascending list keeps it ascending and adds exactly the one element |
| FeeSort.InsertStable | MaxFeeTxHandler.java:94 | Insertion puts the new element in front of those of equal fee and keeps the order among every fee |
| FeeSort.SortByFee | MaxFeeTxHandler.java:94 | Sorting gives an ascending permutation in which the elements of each fee keep their relative order, as `Collections.sort` promises |
| FeeSort.SortKeepsTxs | MaxFeeTxHandler.java:94 | Sorting keeps every transaction, each as often as before |
| FeeSort.StableSortUnique | MaxFeeTxHandler.java:94 | Two ascending lists that agree on the order of each fee's elements are equal, so any stable ascending sort returns the same list |
| FeeSort.WithFeeReverse | MaxFeeTxHandler.java:96-98 | Reading back to front reverses the order among elements of equal fee |
| FeeSort.ReverseOfAscending | MaxFeeTxHandler.java:96-98 | Reading an ascending list back to front gives non-increasing fees |
| FeeSort.MultisetReverse | MaxFeeTxHandler.java:96-98 | Reading back to front keeps every element, each as often as before |
| MaxFeeTxHandler.SumInputs | MaxFeeTxHandler.java:142-152 | The `InSum` loop adds, to its running total, the pool values of the outputs the remaining inputs claim |
| MaxFeeTxHandler.SumOutputs | MaxFeeTxHandler.java:132-140 | The `OutSum` loop adds the remaining output values to its running total |
| MaxFeeTxHandler.Fee | MaxFeeTxHandler.java:125-130 | The fee is the claimed input value less the output value, both against the given pool |
| MaxFeeTxHandler.FeeOfValidNonNegative | MaxFeeTxHandler.java:56 | A transaction the validator accepts has its claims in the pool and pays a non-negative fee |
| MaxFeeTxHandler.Collect | MaxFeeTxHandler.java:84-92 | The collection pass records at most one entry per candidate, and every recorded fee is non-negative |
| MaxFeeTxHandler.RecordMatchesStep | MaxFeeTxHandler.java:85-92 | One iteration of the collection loop does to the accepted list and the pool what one iteration of `TxHandler.handleTxs` does |
| MaxFeeTxHandler.SameAcceptanceAsTxHandler | MaxFeeTxHandler.java:85-92 | The collection pass accepts the same transactions, in the same order, as `TxHandler.handleTxs`, and leaves the same pool: fees play no part in acceptance |
| MaxFeeTxHandler.RecordedPerAcceptance | MaxFeeTxHandler.java:85-92 | There is one recorded entry per accepted position |
| MaxFeeTxHandler.FeesCapturedBeforeRemoval | MaxFeeTxHandler.java:87-90 | The n-th recorded entry is the n-th accepted candidate, with its fee computed against the pool it met, before its claims were removed |
| MaxFeeTxHandler.EmitReversed | MaxFeeTxHandler.java:95-98 | The copy loop fills `result[i]` from element `size - i - 1`, so the array is the sorted list's transactions back to front |
| MaxFeeTxHandler.HandleTxs | MaxFeeTxHandler.java:83-101 | The returned array holds exactly the transactions `TxHandler.handleTxs` accepts, each as often and with the same length; the pool ends as `TxHandler` leaves it; and the array is read off an ordering of the recorded entries whose fees never increase |
| MaxFeeTxHandler.ResultCarriesRecordedFees | MaxFeeTxHandler.java:94-98 | The returned ordering holds exactly the recorded entries, each with the fee captured at acceptance |
| MaxFeeTxHandler.TiesInReverseAcceptanceOrder | MaxFeeTxHandler.java:94-97 | Among equal fees, the returned ordering is the reverse of acceptance order |
| MaxFeeTxHandler.ResultMatchesLibrarySort | MaxFeeTxHandler.java:94 | Any stable ascending sort of the recorded entries, copied back to front, gives the array `HandleTxs` returns |
| Scenarios.FirstSeenScenario | TxHandler.java:88-96 | Take two candidates spending one output worth 10, paying 4 and 9 in that order. Only the first is accepted, with fee 6, by both handlers |
| Scenarios.BadSignatureScenario | TxHandler.java:42-43 | A signature that does not match the claimed output's address gets the transaction rejected, and the pool is unchanged |
| Scenarios.RepeatedClaimScenario | TxHandler.java:44-45 | Two inputs claiming one available output get the transaction rejected |
| Scenarios.RepeatedHashNotFresh | TxHandler.java:103-110 | In the batch that repeats an input-less transaction around a spender of its output, both copies are accepted, so an accepted hash repeats |
| Scenarios.SpentOutputRestored | TxHandler.java:103-110 | In the batch `[D, SpendD1, D]`, an output of the accepted `D` is spent by the accepted `SpendD1` and is nevertheless in the pool afterwards, because the second `D` re-adds it |
| Scenarios.RepeatedHashDefeatsMutualValidity | TxHandler.java:103-110 | A batch that repeats an input-less transaction around a spender of its output fails the new-hash condition, is accepted in full, and two accepted transactions claim the same output |
| Scenarios.RejectedDuplicateCovered | TxHandler.java:76-79 | A batch holding one transaction twice, whose second copy is rejected because its claim is gone, does not have new hashes throughout yet meets the accepted-hash condition |
| Scenarios.RejectedReplayCovered | TxHandler.java:76-79 | Replaying a transaction against a pool that holds its output but not its claim is rejected; the batch does not have new hashes throughout yet meets the accepted-hash condition |

## Left out

- Values, `inSum`, `outSum` and fees are Java `double` in the source and exact integers here. Rounding and overflow are not modelled.
- `RSAKey.verifySignature` and `Transaction.getRawDataToSign` are two uninterpreted total functions, passed in as a `Crypto` parameter.
- `Transaction.getHash` is a `hash` field of `Tx`, an identifier taken as given. `Transaction`, `UTXO`, `UTXOPool` and `HashSet` are not part of this model. The pool is a Dafny map, which has value semantics.
- The constructors' copy of the caller's pool has no member. A map value cannot be aliased, so the handler's pool is its own. `TxHandler.PoolAtStart` states that the first candidate meets the pool given.
- `isValidTx` leaving the pool alone needs no member. It is a function of a pool value.
- `Collections.sort` is specified by its promises: ascending order, a permutation, and stability. An insertion sort implements them, and `FeeSort.StableSortUnique` shows that any stable sort gives the same list.
- No fee-maximising subset selection is modelled. The code does not implement one; acceptance is first-seen in batch order.
- Null arrays, null elements and malformed transactions cannot arise in the model. Unused imports such as `PublicKey` are left out.
- TxHandler.HandleTxs: its contract states only the length bound. What it returns and leaves is stated by `TxHandler.AcceptedIsSelection`, `TxHandler.AcceptedPositionsExact` and `TxHandler.PoolEvolution`.
- TxHandler.AcceptedNeverShareClaims: requires `TxHandler.AcceptedHashesFresh`, because without it the source's result need not be mutually valid (`Scenarios.RepeatedHashDefeatsMutualValidity`).
- TxHandler.FirstSeenWins: requires `TxHandler.AcceptedHashesFresh`, for the same reason.
- TxHandler.ResultIsMutuallyValid: requires `TxHandler.AcceptedHashesFresh`, for the same reason.
- TxHandler.ClaimsGoneAtEnd: requires `TxHandler.AcceptedHashesFresh`, because a repeated transaction can put a claimed output back.
- TxHandler.OutputsPresentAtEnd: requires `TxHandler.AcceptedHashesFresh` and that no later accepted candidate claims the output, since such a candidate does remove it.
- BatchSafety.SpentStaysSpent: requires that accepted transactions carry new hashes (`BatchSafety.FreshAccepted`), because an accepted repeat can recreate a spent output.
- BatchSafety.NeverShareClaims: requires `BatchSafety.FreshAccepted`, for the same reason.
- BatchSafety.OutputsSurvive: requires `BatchSafety.FreshAccepted`, because an accepted transaction with the same hash would overwrite the output.
- MaxFeeTxHandler.Collect: its contract states the length bound and non-negative fees. Which entries it records is stated by `MaxFeeTxHandler.SameAcceptanceAsTxHandler` and `MaxFeeTxHandler.FeesCapturedBeforeRemoval`.
