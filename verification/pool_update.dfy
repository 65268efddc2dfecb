/**
 The pool update an accepted transaction causes, identical in both
 handlers: `removeAlreadyConsumedCoinsFromPool` deletes every claimed
 identity, then `addAlreadyGeneratedCoinsToPool` inserts
 `(getHash(), j) -> outputs[j]` for every output. Each loop is modelled as
 written; `LoopsComputeApply` shows that together they compute `Apply`,
 a closed form on maps, which the handlers' models use.
 */
module PoolUpdate {
  import opened Ledger

  /** The identities claimed by the inputs from position `j` on. */
  function ClaimsFrom(tx: Tx, j: nat): set<UTXO>
    requires j <= |tx.inputs|
  {
    set k | j <= k < |tx.inputs| :: Claimed(tx.inputs[k])
  }

  /** `removeAlreadyConsumedCoinsFromPool` from iteration `j`: removes every
      later claim and keeps everything else with its value. */
  function RemoveConsumed(pool: Pool, tx: Tx, j: nat): (r: Pool)
    requires j <= |tx.inputs|
    ensures r == pool - ClaimsFrom(tx, j)
    decreases |tx.inputs| - j
  {
    if j == |tx.inputs| then pool
    else
      var r := RemoveConsumed(pool - {Claimed(tx.inputs[j])}, tx, j + 1);
      assert ClaimsFrom(tx, j) == {Claimed(tx.inputs[j])} + ClaimsFrom(tx, j + 1);
      r
  }

  /** `u` is the identity of an output of `tx` at position `j` or later. */
  predicate CreatedFrom(tx: Tx, j: nat, u: UTXO)
  {
    u.txHash == tx.hash && j <= u.index < |tx.outputs|
  }

  /** `addAlreadyGeneratedCoinsToPool` from iteration `j`: every later
      output is put under `(hash, index)`, overriding any entry already
      there; every other entry is kept. */
  function AddGenerated(pool: Pool, tx: Tx, j: nat): (r: Pool)
    requires j <= |tx.outputs|
    ensures forall u :: u in r <==> u in pool || CreatedFrom(tx, j, u)
    ensures forall u :: u in r && CreatedFrom(tx, j, u) ==> r[u] == tx.outputs[u.index]
    ensures forall u :: u in r && !CreatedFrom(tx, j, u) ==> r[u] == pool[u]
    decreases |tx.outputs| - j
  {
    if j == |tx.outputs| then pool
    else AddGenerated(pool[UTXO(tx.hash, j) := tx.outputs[j]], tx, j + 1)
  }

  /** Running the loop over every output merges `Generated(tx)` into the
      pool. */
  lemma AddGeneratedMerges(m: Pool, tx: Tx)
    ensures AddGenerated(m, tx, 0) == m + Generated(tx)
  {
    var r, g := AddGenerated(m, tx, 0), Generated(tx);
    forall u
      ensures u in r <==> u in m + g
      ensures u in r ==> r[u] == (m + g)[u]
    {
      if CreatedFrom(tx, 0, u) {
        assert u == UTXO(tx.hash, u.index);
        assert u in g;
      } else {
        assert u !in g;
      }
    }
  }

  /** The effect of accepting `tx`: claimed identities leave the pool, new
      outputs enter it, nothing else changes. */
  function Apply(pool: Pool, tx: Tx): (r: Pool)
    ensures forall j :: 0 <= j < |tx.outputs| ==> UTXO(tx.hash, j) in r && r[UTXO(tx.hash, j)] == tx.outputs[j]
    ensures forall u :: u in ClaimSet(tx) && u !in Generated(tx) ==> u !in r
    ensures forall u :: u !in ClaimSet(tx) && u !in Generated(tx) ==> (u in r <==> u in pool)
    ensures forall u :: u in pool && u !in ClaimSet(tx) && u !in Generated(tx) ==> r[u] == pool[u]
  {
    (pool - ClaimSet(tx)) + Generated(tx)
  }

  /** The two loops, run one after the other as both handlers do, compute
      `Apply`. */
  lemma LoopsComputeApply(pool: Pool, tx: Tx)
    ensures AddGenerated(RemoveConsumed(pool, tx, 0), tx, 0) == Apply(pool, tx)
  {
    assert ClaimsFrom(tx, 0) == ClaimSet(tx);
    AddGeneratedMerges(RemoveConsumed(pool, tx, 0), tx);
  }

  /** Outputs that are out of the pool, or that `tx` spends, stay out once
      `tx` is applied, unless `tx` itself creates them. */
  lemma ApplyKeepsOut(pool: Pool, tx: Tx, s: set<UTXO>)
    requires forall u :: u in s ==> u !in pool || u in ClaimSet(tx)
    requires forall u :: u in s ==> u !in Generated(tx)
    ensures s !! Apply(pool, tx).Keys
  {
  }

  /** An entry `tx` neither spends nor creates keeps its value. */
  lemma ApplyKeeps(pool: Pool, tx: Tx, u: UTXO)
    requires u in pool && u !in ClaimSet(tx) && u.txHash != tx.hash
    ensures u in Apply(pool, tx) && Apply(pool, tx)[u] == pool[u]
  {
  }
}
