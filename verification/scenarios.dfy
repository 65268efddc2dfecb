/**
 Small concrete batches, worked through both handlers. Signatures are a
 toy scheme in which a signature verifies exactly when it equals the
 address it is checked against; the signable payload is left empty.
 */
module Scenarios {
  import opened Ledger
  import opened Validator
  import opened PoolUpdate
  import opened FeeSort
  import TxHandler
  import MaxFeeTxHandler
  import BatchSafety

  /** A signature verifies when it equals the key it is checked under. */
  function ToyCrypto(): Crypto
  {
    Crypto((key: Bytes, msg: Bytes, sig: Bytes) => sig == key, (tx: Tx, i: nat) => [])
  }

  const A: Bytes := [10]
  const B: Bytes := [11]
  const C: Bytes := [12]

  /** `U1`, the single output of the transaction with hash `[1]`. */
  const U1: UTXO := UTXO([1], 0)

  /** Spends `U1` with A's signature, pays 4 to B (fee 6). */
  const TxX: Tx := Tx([2], [Input([1], 0, A)], [Output(4, B)])

  /** Spends `U1` with A's signature, pays 9 to C (fee 1). */
  const TxY: Tx := Tx([3], [Input([1], 0, A)], [Output(9, C)])

  lemma TxXValid()
    ensures IsValidTx(TxX, map[U1 := Output(10, A)], ToyCrypto())
  {
    var pool := map[U1 := Output(10, A)];
    assert Claimed(TxX.inputs[0]) == U1;
    assert SignatureVerifies(TxX, pool, ToyCrypto(), 0);
    assert InSum(TxX.inputs, pool) == 10;
    assert OutSum(TxX.outputs) == 4;
  }

  /** Two candidates spend `U1`; the first in the batch is accepted and
      the second, which pays more to its recipient, is refused because
      `U1` is gone by the time it is examined. `MaxFeeTxHandler` returns
      the same single transaction, recorded with fee 6. */
  lemma FirstSeenScenario()
    ensures TxHandler.HandleTxs(map[U1 := Output(10, A)], [TxX, TxY], ToyCrypto()).accepted == [TxX]
    ensures TxHandler.HandleTxs(map[U1 := Output(10, A)], [TxX, TxY], ToyCrypto()).pool == map[UTXO([2], 0) := Output(4, B)]
    ensures MaxFeeTxHandler.Collect(map[U1 := Output(10, A)], [TxX, TxY], ToyCrypto()).ranked == [Ranked(TxX, 6)]
    ensures MaxFeeTxHandler.HandleTxs(map[U1 := Output(10, A)], [TxX, TxY], ToyCrypto()).accepted == [TxX]
  {
    var pool, txs, crypto := map[U1 := Output(10, A)], [TxX, TxY], ToyCrypto();
    var after := map[UTXO([2], 0) := Output(4, B)];
    TxXValid();
    assert txs[..1] == [TxX] && [TxX][..0] == [];
    assert ClaimSet(TxX) == {U1};
    assert Generated(TxX) == after;
    assert Apply(pool, TxX) == after;
    assert TxHandler.HandleTxs(pool, [TxX], crypto) == TxHandler.Epoch([TxX], after);
    RejectsUnavailableClaim(TxY, after, crypto, 0);
    assert MaxFeeTxHandler.Fee(pool, TxX) == 6;
    assert MaxFeeTxHandler.Collect(pool, [TxX], crypto).ranked == [Ranked(TxX, 6)];
    assert SortByFee([Ranked(TxX, 6)]) == [Ranked(TxX, 6)];
  }

  /** A signature that does not match the claimed output's address gets the
      transaction refused, and the pool is left as it was. */
  lemma BadSignatureScenario()
    ensures !IsValidTx(Tx([2], [Input([1], 0, B)], [Output(5, B)]), map[U1 := Output(5, A)], ToyCrypto())
    ensures TxHandler.HandleTxs(map[U1 := Output(5, A)], [Tx([2], [Input([1], 0, B)], [Output(5, B)])], ToyCrypto())
            == TxHandler.Epoch([], map[U1 := Output(5, A)])
  {
    var tx, pool := Tx([2], [Input([1], 0, B)], [Output(5, B)]), map[U1 := Output(5, A)];
    RejectsBadSignature(tx, pool, ToyCrypto(), 0);
    assert [tx][..0] == [];
  }

  /** Two inputs of one transaction claiming `U1` get it refused, though
      `U1` is in the pool and both signatures verify. */
  lemma RepeatedClaimScenario()
    ensures !IsValidTx(Tx([2], [Input([1], 0, A), Input([1], 0, A)], [Output(5, B)]), map[U1 := Output(5, A)], ToyCrypto())
  {
    RejectsRepeatedClaim(Tx([2], [Input([1], 0, A), Input([1], 0, A)], [Output(5, B)]), map[U1 := Output(5, A)], ToyCrypto(), 0, 1);
  }

  // ---------------------------------------------------------------------
  // Why mutual validity assumes fresh hashes
  // ---------------------------------------------------------------------

  /** An input-less transaction creating one output of value 0 at `(h, 0)`. */
  const D: Tx := Tx([1], [], [Output(0, A)])

  const SpendD1: Tx := Tx([2], [Input([1], 0, A)], [Output(0, B)])
  const SpendD2: Tx := Tx([3], [Input([1], 0, A)], [Output(0, C)])

  lemma DValid(pool: Pool)
    ensures IsValidTx(D, pool, ToyCrypto())
  {
    assert OutSum(D.outputs) == 0;
  }

  lemma SpendValid(tx: Tx, pool: Pool)
    requires tx == SpendD1 || tx == SpendD2
    requires UTXO([1], 0) in pool && pool[UTXO([1], 0)] == Output(0, A)
    ensures IsValidTx(tx, pool, ToyCrypto())
  {
    assert SignatureVerifies(tx, pool, ToyCrypto(), 0);
    assert InSum(tx.inputs, pool) == 0;
    assert OutSum(tx.outputs) == 0;
  }

  lemma ClaimSetSingle(tx: Tx)
    requires |tx.inputs| == 1
    ensures ClaimSet(tx) == {Claimed(tx.inputs[0])}
  {
    assert Claimed(tx.inputs[0]) in ClaimSet(tx);
  }

  lemma GeneratedSingle(tx: Tx)
    requires |tx.outputs| == 1
    ensures Generated(tx) == map[UTXO(tx.hash, 0) := tx.outputs[0]]
  {
  }

  /** The pools met along the batch `[D, SpendD1, D, SpendD2]`. */
  const P1: Pool := map[UTXO([1], 0) := Output(0, A)]
  const P2: Pool := map[UTXO([2], 0) := Output(0, B)]
  const P3: Pool := map[UTXO([2], 0) := Output(0, B), UTXO([1], 0) := Output(0, A)]

  /** `D` is accepted at positions 0 and 2 of `[D, SpendD1, D, SpendD2]`,
      so an accepted hash repeats. */
  lemma RepeatedHashNotFresh()
    ensures !TxHandler.AcceptedHashesFresh(map[], [D, SpendD1, D, SpendD2], ToyCrypto())
  {
    var txs, crypto := [D, SpendD1, D, SpendD2], ToyCrypto();
    var d := TxHandler.Decisions(map[], txs, crypto);
    DValid(TxHandler.PoolBefore(map[], txs, crypto, 0));
    DValid(TxHandler.PoolBefore(map[], txs, crypto, 2));
    assert d[0] && d[2];
    assert txs[0].hash in BatchSafety.AcceptedHashes(txs, d, 2);
  }

  lemma RepeatedFirst()
    ensures TxHandler.HandleTxs(map[], [D], ToyCrypto()) == TxHandler.Epoch([D], P1)
  {
    DValid(map[]);
    GeneratedSingle(D);
    assert ClaimSet(D) == {};
    assert Apply(map[], D) == P1;
    assert [] + [D] == [D];
    TxHandler.HandleTxsSnoc(map[], [], D, ToyCrypto());
  }

  lemma RepeatedSecond()
    ensures TxHandler.HandleTxs(map[], [D, SpendD1], ToyCrypto()) == TxHandler.Epoch([D, SpendD1], P2)
  {
    RepeatedFirst();
    SpendValid(SpendD1, P1);
    ClaimSetSingle(SpendD1);
    GeneratedSingle(SpendD1);
    assert Apply(P1, SpendD1) == P2;
    assert [D] + [SpendD1] == [D, SpendD1];
    TxHandler.HandleTxsSnoc(map[], [D], SpendD1, ToyCrypto());
  }

  /** Accepting `D` again puts back the output `SpendD1` consumed. */
  lemma ReplayD()
    ensures Apply(P2, D) == P3
  {
    GeneratedSingle(D);
    assert ClaimSet(D) == {};
    assert P2 - ClaimSet(D) == P2;
  }

  lemma RepeatedThird()
    ensures TxHandler.HandleTxs(map[], [D, SpendD1, D], ToyCrypto()) == TxHandler.Epoch([D, SpendD1, D], P3)
  {
    RepeatedSecond();
    DValid(P2);
    ReplayD();
    assert [D, SpendD1] + [D] == [D, SpendD1, D];
    TxHandler.HandleTxsSnoc(map[], [D, SpendD1], D, ToyCrypto());
  }

  /** In `[D, SpendD1, D]` the accepted `SpendD1` spends `([1], 0)`, an
      output of the accepted `D`, yet the second `D` puts it back. */
  lemma SpentOutputRestored()
    ensures UTXO([1], 0) in ClaimSet(SpendD1)
    ensures UTXO([1], 0) in TxHandler.HandleTxs(map[], [D, SpendD1, D], ToyCrypto()).pool
  {
    RepeatedThird();
    ClaimSetSingle(SpendD1);
  }

  /** Every candidate of the batch is accepted, in order. */
  lemma RepeatedHashAllAccepted()
    ensures TxHandler.HandleTxs(map[], [D, SpendD1, D, SpendD2], ToyCrypto()).accepted == [D, SpendD1, D, SpendD2]
  {
    RepeatedThird();
    SpendValid(SpendD2, P3);
    assert [D, SpendD1, D] + [SpendD2] == [D, SpendD1, D, SpendD2];
    TxHandler.HandleTxsSnoc(map[], [D, SpendD1, D], SpendD2, ToyCrypto());
  }

  /** When the same transaction is accepted twice in a batch, its second
      acceptance puts back the output the first one's spender consumed, and
      two accepted transactions end up claiming the same output. The batch
      fails `TxHandler.AcceptedHashesFresh`, which the mutual-validity
      lemmas of `TxHandler` require. */
  lemma RepeatedHashDefeatsMutualValidity()
    ensures !TxHandler.AcceptedHashesFresh(map[], [D, SpendD1, D, SpendD2], ToyCrypto())
    ensures TxHandler.HandleTxs(map[], [D, SpendD1, D, SpendD2], ToyCrypto()).accepted == [D, SpendD1, D, SpendD2]
    ensures UTXO([1], 0) in ClaimSet(SpendD1) * ClaimSet(SpendD2)
  {
    RepeatedHashNotFresh();
    RepeatedHashAllAccepted();
    ClaimSetSingle(SpendD1);
    ClaimSetSingle(SpendD2);
  }

  // ---------------------------------------------------------------------
  // Repeats and replays that are rejected stay covered
  // ---------------------------------------------------------------------

  /** A batch that repeats `TxX` accepts only the first copy, since `U1`
      is gone when the second is examined. Its hashes are not all new, yet
      the accepted ones are, so the mutual-validity lemmas apply to it. */
  lemma RejectedDuplicateCovered()
    ensures !BatchSafety.FreshHashes(map[U1 := Output(10, A)], [TxX, TxX])
    ensures TxHandler.AcceptedHashesFresh(map[U1 := Output(10, A)], [TxX, TxX], ToyCrypto())
  {
    var pool, txs, crypto := map[U1 := Output(10, A)], [TxX, TxX], ToyCrypto();
    var after := map[UTXO([2], 0) := Output(4, B)];
    var d := TxHandler.Decisions(pool, txs, crypto);
    assert !BatchSafety.NewHash(pool, txs, 1) by {
      assert txs[0].hash in BatchSafety.BatchHashes(txs, 1);
    }
    TxHandler.PoolAtStart(pool, txs, crypto);
    TxXValid();
    assert d[0];
    assert TxHandler.PoolBefore(pool, txs, crypto, 1) == after by {
      assert ClaimSet(TxX) == {U1};
      GeneratedSingle(TxX);
      assert Apply(pool, TxX) == after;
      assert txs[..1] == [] + [TxX];
      TxHandler.HandleTxsSnoc(pool, [], TxX, crypto);
    }
    RejectsUnavailableClaim(TxX, after, crypto, 0);
    assert !d[1];
    assert BatchSafety.KeyHashes(pool) == {[1]};
    assert BatchSafety.AcceptedHashes(txs, d, 0) == {};
  }

  /** Replaying `TxX` in a later epoch, once its output `([2], 0)` is in the
      pool, is rejected because `U1` is gone. Its hash is that of a pool
      key, yet no accepted hash repeats, so the mutual-validity lemmas
      apply. */
  lemma RejectedReplayCovered()
    ensures !BatchSafety.FreshHashes(map[UTXO([2], 0) := Output(4, B)], [TxX])
    ensures TxHandler.AcceptedHashesFresh(map[UTXO([2], 0) := Output(4, B)], [TxX], ToyCrypto())
  {
    var pool, txs, crypto := map[UTXO([2], 0) := Output(4, B)], [TxX], ToyCrypto();
    var d := TxHandler.Decisions(pool, txs, crypto);
    assert !BatchSafety.NewHash(pool, txs, 0) by {
      assert UTXO([2], 0) in pool;
    }
    TxHandler.PoolAtStart(pool, txs, crypto);
    RejectsUnavailableClaim(TxX, pool, crypto, 0);
    assert !d[0];
  }
}
