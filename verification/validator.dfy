/**
 `isValidTx`, whose logic is the same in `TxHandler` and `MaxFeeTxHandler`
 (only local variable names differ).

 The Java method is two loops with early `return false`: one over the
 inputs (availability, signature, repeated claim, accumulate `inSum`), one
 over the outputs (sign, accumulate `outSum`), then the `outSum > inSum`
 test. `ScanInputs` and `ScanOutputs` model those loops as written;
 `Valid` states the five rules declaratively, and `IsValidTx` is proved to
 agree with it. Being a function of a pool value, the validator cannot
 modify the pool.
 */
module Validator {
  import opened Ledger

  // ---------------------------------------------------------------------
  // The five rules
  // ---------------------------------------------------------------------

  /** Rule 1 for one input: the claimed output is in the pool. */
  predicate ClaimAvailable(tx: Tx, pool: Pool, k: nat)
    requires k < |tx.inputs|
  {
    Claimed(tx.inputs[k]) in pool
  }

  /** Rule 2 for one input: its signature verifies under the claimed
      output's address, over the payload for position `k`. */
  predicate SignatureVerifies(tx: Tx, pool: Pool, crypto: Crypto, k: nat)
    requires k < |tx.inputs| && ClaimAvailable(tx, pool, k)
  {
    crypto.verify(pool[Claimed(tx.inputs[k])].address, crypto.rawDataToSign(tx, k), tx.inputs[k].signature)
  }

  predicate SignaturesVerify(tx: Tx, pool: Pool, crypto: Crypto)
  {
    forall k :: 0 <= k < |tx.inputs| && ClaimAvailable(tx, pool, k) ==> SignatureVerifies(tx, pool, crypto, k)
  }

  /** Rule 3: no identity is claimed by two inputs. */
  predicate NoClaimRepeated(tx: Tx)
  {
    forall j, k :: 0 <= j < k < |tx.inputs| ==> Claimed(tx.inputs[j]) != Claimed(tx.inputs[k])
  }

  /** Rule 4: no output carries a negative value. */
  predicate OutputsNonNegative(tx: Tx)
  {
    forall j :: 0 <= j < |tx.outputs| ==> tx.outputs[j].value >= 0
  }

  /** The five rules together; rule 5 (outputs do not exceed the claimed
      inputs) is only meaningful once rule 1 holds. */
  predicate Valid(tx: Tx, pool: Pool, crypto: Crypto)
  {
    && ClaimsAvailable(tx.inputs, pool)
    && SignaturesVerify(tx, pool, crypto)
    && NoClaimRepeated(tx)
    && OutputsNonNegative(tx)
    && OutSum(tx.outputs) <= InSum(tx.inputs, pool)
  }

  // ---------------------------------------------------------------------
  // The method as written
  // ---------------------------------------------------------------------

  /** What the input loop demands of the inputs from position `i` on,
      given the identities `seen` already claimed before `i`. */
  predicate InputsPassFrom(tx: Tx, pool: Pool, crypto: Crypto, i: nat, seen: set<UTXO>)
    requires i <= |tx.inputs|
  {
    && (forall k :: i <= k < |tx.inputs| ==> ClaimAvailable(tx, pool, k) && SignatureVerifies(tx, pool, crypto, k))
    && (forall k :: i <= k < |tx.inputs| ==> Claimed(tx.inputs[k]) !in seen)
    && (forall j, k :: i <= j < k < |tx.inputs| ==> Claimed(tx.inputs[j]) != Claimed(tx.inputs[k]))
  }

  /** The input loop from iteration `i`, with the `assignedUTXO` set and the
      running `inSum`: `None` is an early `return false`, `Some(s)` is the
      loop completing with `inSum == s`. The pool lookup made at the top of
      an iteration is only used once `CoinAvailable` has held. */
  function ScanInputs(tx: Tx, pool: Pool, crypto: Crypto, i: nat, seen: set<UTXO>, inSum: int): (r: Option<int>)
    requires i <= |tx.inputs|
    ensures r.Some? <==> InputsPassFrom(tx, pool, crypto, i, seen)
    ensures r.Some? ==> ClaimsAvailable(tx.inputs[i..], pool) && r.value == inSum + InSum(tx.inputs[i..], pool)
    decreases |tx.inputs| - i
  {
    if i == |tx.inputs| then Some(inSum)
    else
      var utxo := Claimed(tx.inputs[i]);
      var out := GetTxOutput(pool, utxo);
      if utxo !in pool then assert !ClaimAvailable(tx, pool, i); None
      else if !SignatureVerifies(tx, pool, crypto, i) then None
      else if utxo in seen then None
      else
        var r := ScanInputs(tx, pool, crypto, i + 1, seen + {utxo}, inSum + out.value.value);
        assert tx.inputs[i..][1..] == tx.inputs[i + 1..];
        r
  }

  /** The output loop from iteration `i` with the running `outSum`. */
  function ScanOutputs(outs: seq<Output>, i: nat, outSum: int): (r: Option<int>)
    requires i <= |outs|
    ensures r.Some? <==> forall k :: i <= k < |outs| ==> outs[k].value >= 0
    ensures r.Some? ==> r.value == outSum + OutSum(outs[i..])
    decreases |outs| - i
  {
    if i == |outs| then Some(outSum)
    else if outs[i].value < 0 then None
    else
      var r := ScanOutputs(outs, i + 1, outSum + outs[i].value);
      assert outs[i..][1..] == outs[i + 1..];
      r
  }

  /** `isValidTx`: accepted exactly when the five rules hold. */
  function IsValidTx(tx: Tx, pool: Pool, crypto: Crypto): (valid: bool)
    ensures valid <==> Valid(tx, pool, crypto)
  {
    assert tx.inputs[0..] == tx.inputs;
    assert tx.outputs[0..] == tx.outputs;
    match ScanInputs(tx, pool, crypto, 0, {}, 0)
    case None => false
    case Some(inSum) =>
      match ScanOutputs(tx.outputs, 0, 0)
      case None => false
      case Some(outSum) => !(outSum > inSum)
  }

  // ---------------------------------------------------------------------
  // Each rule on its own
  // ---------------------------------------------------------------------

  lemma RejectsUnavailableClaim(tx: Tx, pool: Pool, crypto: Crypto, k: nat)
    requires k < |tx.inputs| && Claimed(tx.inputs[k]) !in pool
    ensures !IsValidTx(tx, pool, crypto)
  {
  }

  lemma RejectsBadSignature(tx: Tx, pool: Pool, crypto: Crypto, k: nat)
    requires k < |tx.inputs| && Claimed(tx.inputs[k]) in pool
    requires !crypto.verify(pool[Claimed(tx.inputs[k])].address, crypto.rawDataToSign(tx, k), tx.inputs[k].signature)
    ensures !IsValidTx(tx, pool, crypto)
  {
    assert !SignatureVerifies(tx, pool, crypto, k);
  }

  /** Two inputs claiming one output are refused even when that output is
      in the pool and both signatures verify. */
  lemma RejectsRepeatedClaim(tx: Tx, pool: Pool, crypto: Crypto, j: nat, k: nat)
    requires j < k < |tx.inputs| && Claimed(tx.inputs[j]) == Claimed(tx.inputs[k])
    ensures !IsValidTx(tx, pool, crypto)
  {
  }

  lemma RejectsNegativeOutput(tx: Tx, pool: Pool, crypto: Crypto, j: nat)
    requires j < |tx.outputs| && tx.outputs[j].value < 0
    ensures !IsValidTx(tx, pool, crypto)
  {
  }

  lemma RejectsOverspend(tx: Tx, pool: Pool, crypto: Crypto)
    requires ClaimsAvailable(tx.inputs, pool) && OutSum(tx.outputs) > InSum(tx.inputs, pool)
    ensures !IsValidTx(tx, pool, crypto)
  {
  }

  /** When every rule holds the transaction is accepted, including when it
      pays no fee at all. */
  lemma AcceptsWhenRulesHold(tx: Tx, pool: Pool, crypto: Crypto)
    requires ClaimsAvailable(tx.inputs, pool)
    requires forall k :: 0 <= k < |tx.inputs| ==> SignatureVerifies(tx, pool, crypto, k)
    requires NoClaimRepeated(tx) && OutputsNonNegative(tx)
    requires OutSum(tx.outputs) <= InSum(tx.inputs, pool)
    ensures IsValidTx(tx, pool, crypto)
  {
  }
}
