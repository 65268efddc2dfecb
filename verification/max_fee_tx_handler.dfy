/**
 `MaxFeeTxHandler.handleTxs`: the same first-seen pass as `TxHandler`, except
 that each accepted transaction is wrapped in a `SortTx` holding its fee,
 computed against the pool before the transaction is applied. After the
 pass the list is sorted ascending by fee with `Collections.sort` and
 copied into the result back to front.

 The validator and the pool update are the shared `Validator.IsValidTx`
 and `PoolUpdate.Apply`; only the fee sums, the collection pass and the
 ordering are new here.
 */
module MaxFeeTxHandler {
  import opened Ledger
  import opened Validator
  import opened PoolUpdate
  import opened FeeSort
  import TxHandler

  // ---------------------------------------------------------------------
  // Fees
  // ---------------------------------------------------------------------

  /** The `InSum` loop from iteration `j` with running total `acc`: each
      claimed output is looked up in the pool and its value added. */
  function SumInputs(ins: seq<Input>, pool: Pool, j: nat, acc: int): (r: int)
    requires j <= |ins| && ClaimsAvailable(ins, pool)
    ensures ClaimsAvailable(ins[j..], pool)
    ensures r == acc + InSum(ins[j..], pool)
    decreases |ins| - j
  {
    if j == |ins| then acc
    else
      var out := GetTxOutput(pool, Claimed(ins[j]));
      assert ins[j..][1..] == ins[j + 1..];
      SumInputs(ins, pool, j + 1, acc + out.value.value)
  }

  /** The `OutSum` loop from iteration `j` with running total `acc`. */
  function SumOutputs(outs: seq<Output>, j: nat, acc: int): (r: int)
    requires j <= |outs|
    ensures r == acc + OutSum(outs[j..])
    decreases |outs| - j
  {
    if j == |outs| then acc
    else
      assert outs[j..][1..] == outs[j + 1..];
      SumOutputs(outs, j + 1, acc + outs[j].value)
  }

  /** `Fee`: the claimed input value less the output value, both summed
      against `pool`. Only called on transactions whose claims are all
      in the pool. */
  function Fee(pool: Pool, tx: Tx): (fee: int)
    requires ClaimsAvailable(tx.inputs, pool)
    ensures fee == InSum(tx.inputs, pool) - OutSum(tx.outputs)
  {
    assert tx.inputs[0..] == tx.inputs;
    assert tx.outputs[0..] == tx.outputs;
    SumInputs(tx.inputs, pool, 0, 0) - SumOutputs(tx.outputs, 0, 0)
  }

  /** A transaction the validator accepts never pays a negative fee. */
  lemma FeeOfValidNonNegative(tx: Tx, pool: Pool, crypto: Crypto)
    requires IsValidTx(tx, pool, crypto)
    ensures ClaimsAvailable(tx.inputs, pool)
    ensures Fee(pool, tx) >= 0
  {
  }

  // ---------------------------------------------------------------------
  // The collection pass
  // ---------------------------------------------------------------------

  /** The `validatedTx` list and the current pool. */
  datatype FeeEpoch = FeeEpoch(ranked: seq<Ranked>, pool: Pool)

  /** One iteration of the loop: a valid candidate is recorded with the fee
      it pays against the pool it meets, then applied. */
  function Record(c: FeeEpoch, tx: Tx, crypto: Crypto): FeeEpoch
  {
    if IsValidTx(tx, c.pool, crypto) then
      FeeEpoch(c.ranked + [Ranked(tx, Fee(c.pool, tx))], Apply(c.pool, tx))
    else c
  }

  /** The loop of `handleTxs` over the batch. */
  function Collect(pool: Pool, txs: seq<Tx>, crypto: Crypto): (c: FeeEpoch)
    ensures |c.ranked| <= |txs|
    ensures forall n :: 0 <= n < |c.ranked| ==> c.ranked[n].fee >= 0
    decreases |txs|
  {
    if |txs| == 0 then FeeEpoch([], pool)
    else
      var last := |txs| - 1;
      Record(Collect(pool, txs[..last], crypto), txs[last], crypto)
  }

  lemma TxsSnoc(s: seq<Ranked>, x: Ranked)
    ensures Txs(s + [x]) == Txs(s) + [x.tx]
  {
    assert forall i :: 0 <= i < |s| ==> (s + [x])[i] == s[i];
  }

  /** Fees play no part in acceptance: the pass accepts the transactions
      `TxHandler` accepts, in the same order, and leaves the same pool. */
  lemma {:induction false} SameAcceptanceAsTxHandler(pool: Pool, txs: seq<Tx>, crypto: Crypto)
    ensures Txs(Collect(pool, txs, crypto).ranked) == TxHandler.HandleTxs(pool, txs, crypto).accepted
    ensures Collect(pool, txs, crypto).pool == TxHandler.HandleTxs(pool, txs, crypto).pool
    decreases |txs|
  {
    if |txs| > 0 {
      var last := |txs| - 1;
      SameAcceptanceAsTxHandler(pool, txs[..last], crypto);
      var prev := Collect(pool, txs[..last], crypto);
      var e := TxHandler.HandleTxs(pool, txs[..last], crypto);
      assert Collect(pool, txs, crypto) == Record(prev, txs[last], crypto);
      assert TxHandler.HandleTxs(pool, txs, crypto) == TxHandler.Step(e, txs[last], crypto);
      RecordMatchesStep(prev, e, txs[last], crypto);
    }
  }

  /** One iteration of either loop does the same to the accepted list and
      the pool. */
  lemma RecordMatchesStep(c: FeeEpoch, e: TxHandler.Epoch, tx: Tx, crypto: Crypto)
    requires Txs(c.ranked) == e.accepted && c.pool == e.pool
    ensures Txs(Record(c, tx, crypto).ranked) == TxHandler.Step(e, tx, crypto).accepted
    ensures Record(c, tx, crypto).pool == TxHandler.Step(e, tx, crypto).pool
  {
    if IsValidTx(tx, c.pool, crypto) {
      TxsSnoc(c.ranked, Ranked(tx, Fee(c.pool, tx)));
    }
  }

  /** The fee recorded for the `n`-th accepted transaction is its fee
      against the pool it met, before its claims were removed. */
  predicate FeeAtAcceptance(pool: Pool, txs: seq<Tx>, crypto: Crypto, ranked: seq<Ranked>, pos: seq<nat>, n: nat)
    requires n < |ranked| && n < |pos| && pos[n] < |txs|
  {
    var before := TxHandler.PoolBefore(pool, txs, crypto, pos[n]);
    && ranked[n].tx == txs[pos[n]]
    && ClaimsAvailable(txs[pos[n]].inputs, before)
    && ranked[n].fee == Fee(before, txs[pos[n]])
  }

  /** Extending the batch by one candidate keeps what was recorded for the
      earlier ones. */
  lemma FeeAtAcceptanceExtends(pool: Pool, txs: seq<Tx>, crypto: Crypto, n: nat)
    requires 0 < |txs|
    requires n < |Collect(pool, txs[..|txs| - 1], crypto).ranked|
    requires n < |TxHandler.AcceptedPositions(pool, txs[..|txs| - 1], crypto)|
    requires FeeAtAcceptance(pool, txs[..|txs| - 1], crypto, Collect(pool, txs[..|txs| - 1], crypto).ranked,
                             TxHandler.AcceptedPositions(pool, txs[..|txs| - 1], crypto), n)
    ensures n < |Collect(pool, txs, crypto).ranked| && n < |TxHandler.AcceptedPositions(pool, txs, crypto)|
    ensures TxHandler.AcceptedPositions(pool, txs, crypto)[n] < |txs|
    ensures FeeAtAcceptance(pool, txs, crypto, Collect(pool, txs, crypto).ranked, TxHandler.AcceptedPositions(pool, txs, crypto), n)
  {
    var last := |txs| - 1;
    var prev, pos' := Collect(pool, txs[..last], crypto), TxHandler.AcceptedPositions(pool, txs[..last], crypto);
    var full, pos := Collect(pool, txs, crypto), TxHandler.AcceptedPositions(pool, txs, crypto);
    CollectExtends(pool, txs, crypto);
    PositionsExtend(pool, txs, crypto);
    assert txs[..last][pos'[n]] == txs[pos'[n]];
    assert TxHandler.PoolBefore(pool, txs[..last], crypto, pos'[n]) == TxHandler.PoolBefore(pool, txs, crypto, pos'[n]) by {
      TxHandler.PoolBeforePrefix(pool, txs, crypto, last);
    }
    FeeAtAcceptanceTransfer(pool, txs[..last], txs, crypto, prev.ranked, full.ranked, pos', pos, n);
  }

  /** Examining one more candidate keeps every entry recorded so far. */
  lemma CollectExtends(pool: Pool, txs: seq<Tx>, crypto: Crypto)
    requires 0 < |txs|
    ensures |Collect(pool, txs[..|txs| - 1], crypto).ranked| <= |Collect(pool, txs, crypto).ranked|
    ensures forall n :: 0 <= n < |Collect(pool, txs[..|txs| - 1], crypto).ranked| ==>
              Collect(pool, txs, crypto).ranked[n] == Collect(pool, txs[..|txs| - 1], crypto).ranked[n]
  {
    var last := |txs| - 1;
    assert Collect(pool, txs, crypto) == Record(Collect(pool, txs[..last], crypto), txs[last], crypto);
    RecordExtends(Collect(pool, txs[..last], crypto), txs[last], crypto);
  }

  /** One iteration of the collection loop keeps the entries recorded so far. */
  lemma RecordExtends(c: FeeEpoch, tx: Tx, crypto: Crypto)
    ensures |c.ranked| <= |Record(c, tx, crypto).ranked|
    ensures forall n :: 0 <= n < |c.ranked| ==> Record(c, tx, crypto).ranked[n] == c.ranked[n]
  {
  }

  /** Examining one more candidate keeps every accepted position so far. */
  lemma PositionsExtend(pool: Pool, txs: seq<Tx>, crypto: Crypto)
    requires 0 < |txs|
    ensures |TxHandler.AcceptedPositions(pool, txs[..|txs| - 1], crypto)| <= |TxHandler.AcceptedPositions(pool, txs, crypto)|
    ensures forall n :: 0 <= n < |TxHandler.AcceptedPositions(pool, txs[..|txs| - 1], crypto)| ==>
              TxHandler.AcceptedPositions(pool, txs, crypto)[n] == TxHandler.AcceptedPositions(pool, txs[..|txs| - 1], crypto)[n]
  {
    TxHandler.AcceptedPositionsSnoc(pool, txs, crypto);
  }

  /** What `FeeAtAcceptance` says of entry `n` carries over to another
      batch and recording that agree on that entry, its position, its
      candidate and the pool it met. */
  lemma FeeAtAcceptanceTransfer(pool: Pool, txs: seq<Tx>, txs': seq<Tx>, crypto: Crypto,
                                ranked: seq<Ranked>, ranked': seq<Ranked>, pos: seq<nat>, pos': seq<nat>, n: nat)
    requires n < |ranked| && n < |pos| && pos[n] < |txs|
    requires n < |ranked'| && n < |pos'| && pos'[n] == pos[n] < |txs'|
    requires ranked'[n] == ranked[n] && txs'[pos[n]] == txs[pos[n]]
    requires TxHandler.PoolBefore(pool, txs', crypto, pos[n]) == TxHandler.PoolBefore(pool, txs, crypto, pos[n])
    requires FeeAtAcceptance(pool, txs, crypto, ranked, pos, n)
    ensures FeeAtAcceptance(pool, txs', crypto, ranked', pos', n)
  {
  }

  /** The candidate examined last, when accepted, is recorded with its fee
      against the pool it met. */
  lemma FeeAtAcceptanceLast(pool: Pool, txs: seq<Tx>, crypto: Crypto)
    requires 0 < |txs|
    requires |Collect(pool, txs[..|txs| - 1], crypto).ranked| == |TxHandler.AcceptedPositions(pool, txs[..|txs| - 1], crypto)|
    requires |Collect(pool, txs, crypto).ranked| > |Collect(pool, txs[..|txs| - 1], crypto).ranked|
    ensures |Collect(pool, txs, crypto).ranked| == |TxHandler.AcceptedPositions(pool, txs, crypto)|
    ensures FeeAtAcceptance(pool, txs, crypto, Collect(pool, txs, crypto).ranked, TxHandler.AcceptedPositions(pool, txs, crypto),
                            |Collect(pool, txs[..|txs| - 1], crypto).ranked|)
  {
    var last := |txs| - 1;
    var prev := Collect(pool, txs[..last], crypto);
    assert prev.pool == TxHandler.PoolBefore(pool, txs, crypto, last) by {
      SameAcceptanceAsTxHandler(pool, txs[..last], crypto);
    }
    assert Collect(pool, txs, crypto) == Record(prev, txs[last], crypto);
    TxHandler.AcceptedPositionsSnoc(pool, txs, crypto);
  }

  /** One recorded entry per accepted position. */
  lemma RecordedPerAcceptance(pool: Pool, txs: seq<Tx>, crypto: Crypto)
    ensures |Collect(pool, txs, crypto).ranked| == |TxHandler.AcceptedPositions(pool, txs, crypto)|
  {
    SameAcceptanceAsTxHandler(pool, txs, crypto);
    TxHandler.AcceptedIsSelection(pool, txs, crypto);
  }

  /** The `n`-th recorded entry is the `n`-th accepted candidate with the
      fee it paid against the pool it met. */
  lemma {:induction false} FeesCapturedBeforeRemoval(pool: Pool, txs: seq<Tx>, crypto: Crypto, n: nat)
    requires n < |Collect(pool, txs, crypto).ranked|
    ensures n < |TxHandler.AcceptedPositions(pool, txs, crypto)|
    ensures FeeAtAcceptance(pool, txs, crypto, Collect(pool, txs, crypto).ranked, TxHandler.AcceptedPositions(pool, txs, crypto), n)
    decreases |txs|
  {
    var last := |txs| - 1;
    RecordedPerAcceptance(pool, txs, crypto);
    RecordedPerAcceptance(pool, txs[..last], crypto);
    if n < |Collect(pool, txs[..last], crypto).ranked| {
      FeesCapturedBeforeRemoval(pool, txs[..last], crypto, n);
      FeeAtAcceptanceExtends(pool, txs, crypto, n);
    } else {
      FeeAtAcceptanceLast(pool, txs, crypto);
    }
  }

  // ---------------------------------------------------------------------
  // The ordering
  // ---------------------------------------------------------------------

  /** The copy loop into `result`: position `i` receives the element
      `size - i - 1` of the sorted list. */
  function EmitReversed(sorted: seq<Ranked>): (result: seq<Tx>)
    ensures result == Txs(Reverse(sorted))
  {
    seq(|sorted|, i requires 0 <= i < |sorted| => sorted[|sorted| - i - 1].tx)
  }

  /** The accepted list after `Collections.sort`, read back to front, with
      each transaction's fee. */
  function Ordered(pool: Pool, txs: seq<Tx>, crypto: Crypto): seq<Ranked>
  {
    Reverse(SortByFee(Collect(pool, txs, crypto).ranked))
  }

  lemma TxsReverse(s: seq<Ranked>)
    ensures Txs(Reverse(s)) == Reverse(Txs(s))
  {
  }

  /** `handleTxs(possibleTxs)` on a handler whose pool is `pool`: the
      returned array holds exactly the transactions `TxHandler` accepts,
      each as often, read off an ordering of the recorded entries whose fees
      never increase; the pool ends as `TxHandler` leaves it. */
  function HandleTxs(pool: Pool, txs: seq<Tx>, crypto: Crypto): (e: TxHandler.Epoch)
    ensures multiset(e.accepted) == multiset(TxHandler.HandleTxs(pool, txs, crypto).accepted)
    ensures |e.accepted| == |TxHandler.HandleTxs(pool, txs, crypto).accepted|
    ensures e.pool == TxHandler.HandleTxs(pool, txs, crypto).pool
    ensures e.accepted == Txs(Ordered(pool, txs, crypto)) && NonIncreasing(Ordered(pool, txs, crypto))
  {
    var c := Collect(pool, txs, crypto);
    var sorted := SortByFee(c.ranked);
    SameAcceptanceAsTxHandler(pool, txs, crypto);
    SortKeepsTxs(c.ranked);
    TxsReverse(sorted);
    MultisetReverse(Txs(sorted));
    ReverseOfAscending(sorted);
    assert |sorted| == |c.ranked| by {
      assert |sorted| == |multiset(sorted)| == |multiset(c.ranked)| == |c.ranked|;
    }
    TxHandler.Epoch(EmitReversed(sorted), c.pool)
  }

  /** Every entry of the ordering is an accepted transaction with the fee
      recorded for it, and the entries are those of the collection pass. */
  lemma ResultCarriesRecordedFees(pool: Pool, txs: seq<Tx>, crypto: Crypto)
    ensures multiset(Ordered(pool, txs, crypto)) == multiset(Collect(pool, txs, crypto).ranked)
  {
    MultisetReverse(SortByFee(Collect(pool, txs, crypto).ranked));
  }

  /** Among transactions of equal fee, the returned array lists them in the
      reverse of the order in which they were accepted. */
  lemma TiesInReverseAcceptanceOrder(pool: Pool, txs: seq<Tx>, crypto: Crypto, f: int)
    ensures WithFee(Ordered(pool, txs, crypto), f) == Reverse(WithFee(Collect(pool, txs, crypto).ranked, f))
  {
    var sorted := SortByFee(Collect(pool, txs, crypto).ranked);
    WithFeeReverse(sorted, f);
  }

  /** Whatever list `Collections.sort` produces — ascending under
      `compareTo` and stable — the array copied from it is the one
      `HandleTxs` returns. */
  lemma ResultMatchesLibrarySort(pool: Pool, txs: seq<Tx>, crypto: Crypto, sorted: seq<Ranked>)
    requires Ascending(sorted)
    requires forall f :: WithFee(sorted, f) == WithFee(Collect(pool, txs, crypto).ranked, f)
    ensures EmitReversed(sorted) == HandleTxs(pool, txs, crypto).accepted
  {
    StableSortUnique(sorted, SortByFee(Collect(pool, txs, crypto).ranked));
  }
}
