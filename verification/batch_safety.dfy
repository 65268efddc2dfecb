/**
 Why first-seen acceptance never double-spends. The argument needs only two
 facts about each iteration of `handleTxs`: an accepted transaction's
 claims were in the pool it met, and accepting it applies it to the pool;
 a rejected one leaves the pool alone. A `Run` records the pool before
 each candidate and whether it was accepted; the lemmas here hold of every
 run whose accepted transactions carry fresh hashes.
 */
module BatchSafety {
  import opened Ledger
  import opened PoolUpdate

  /** Iteration `i` of a run: `pools[i]` is the pool candidate `i` meets,
      `acc[i]` whether it was accepted. */
  predicate StepOk(pools: seq<Pool>, acc: seq<bool>, txs: seq<Tx>, i: nat)
    requires i < |txs| && |pools| == |txs| + 1 && |acc| == |txs|
  {
    if acc[i] then ClaimSet(txs[i]) <= pools[i].Keys && pools[i + 1] == Apply(pools[i], txs[i])
    else pools[i + 1] == pools[i]
  }

  predicate IsRun(pools: seq<Pool>, acc: seq<bool>, txs: seq<Tx>)
  {
    && |pools| == |txs| + 1
    && |acc| == |txs|
    && forall i :: 0 <= i < |txs| ==> StepOk(pools, acc, txs, i)
  }

  function KeyHashes(pool: Pool): set<Bytes>
  {
    set u | u in pool :: u.txHash
  }

  function BatchHashes(txs: seq<Tx>, i: nat): set<Bytes>
    requires i <= |txs|
  {
    set l | 0 <= l < i :: txs[l].hash
  }

  /** Candidate `i`'s hash is new: no output in the start pool and no
      earlier candidate carries it. */
  predicate NewHash(pool: Pool, txs: seq<Tx>, i: nat)
    requires i < |txs|
  {
    txs[i].hash !in KeyHashes(pool) + BatchHashes(txs, i)
  }

  /** `getHash` yields identifiers that are new throughout the batch. */
  predicate FreshHashes(pool: Pool, txs: seq<Tx>)
  {
    forall i :: 0 <= i < |txs| ==> NewHash(pool, txs, i)
  }

  /** The hashes of the candidates accepted before position `i`. */
  function AcceptedHashes(txs: seq<Tx>, acc: seq<bool>, i: nat): set<Bytes>
    requires |acc| == |txs| && i <= |txs|
  {
    set l | 0 <= l < i && acc[l] :: txs[l].hash
  }

  /** Every accepted candidate carries a hash that no output of the start
      pool and no earlier accepted candidate carries. Rejected candidates,
      such as a replayed or repeated transaction whose claims are gone, are
      not constrained. */
  predicate FreshAccepted(pool: Pool, acc: seq<bool>, txs: seq<Tx>)
  {
    && |acc| == |txs|
    && forall i :: 0 <= i < |txs| && acc[i] ==> txs[i].hash !in KeyHashes(pool) + AcceptedHashes(txs, acc, i)
  }

  /** Hashes new throughout the batch are in particular new among the
      accepted candidates, whichever those are. */
  lemma FreshHashesSuffice(pool: Pool, acc: seq<bool>, txs: seq<Tx>)
    requires |acc| == |txs| && FreshHashes(pool, txs)
    ensures FreshAccepted(pool, acc, txs)
  {
    forall i | 0 <= i < |txs| && acc[i]
      ensures txs[i].hash !in KeyHashes(pool) + AcceptedHashes(txs, acc, i)
    {
      assert NewHash(pool, txs, i);
      assert AcceptedHashes(txs, acc, i) <= BatchHashes(txs, i);
    }
  }

  lemma FreshAt(pool: Pool, acc: seq<bool>, txs: seq<Tx>, i: nat, k: nat)
    requires FreshAccepted(pool, acc, txs) && k <= i < |txs| && acc[i]
    ensures txs[i].hash !in KeyHashes(pool) + AcceptedHashes(txs, acc, k)
  {
    assert AcceptedHashes(txs, acc, k) <= AcceptedHashes(txs, acc, i);
  }

  /** Distinct accepted positions carry distinct hashes. */
  lemma FreshDistinct(pool: Pool, acc: seq<bool>, txs: seq<Tx>, k: nat, i: nat)
    requires FreshAccepted(pool, acc, txs) && k < i < |txs| && acc[k] && acc[i]
    ensures txs[k].hash != txs[i].hash
  {
    assert txs[k].hash in AcceptedHashes(txs, acc, i);
  }

  lemma AcceptedHashesStep(txs: seq<Tx>, acc: seq<bool>, i: nat)
    requires |acc| == |txs| && 0 < i <= |txs|
    ensures AcceptedHashes(txs, acc, i) == AcceptedHashes(txs, acc, i - 1) + (if acc[i - 1] then {txs[i - 1].hash} else {})
  {
  }

  /** Applying `tx` to a pool whose keys carry hashes from `origins` yields
      one whose keys carry hashes from `origins` or `tx.hash`. */
  lemma ApplyOrigins(pool: Pool, tx: Tx, origins: set<Bytes>)
    requires forall u :: u in pool ==> u.txHash in origins
    ensures forall u :: u in Apply(pool, tx) ==> u.txHash in origins + {tx.hash}
  {
  }

  /** Every identity in the pool was there at the start or was created by
      an earlier accepted candidate. */
  lemma {:induction false} KeyOrigins(pools: seq<Pool>, acc: seq<bool>, txs: seq<Tx>, i: nat)
    requires IsRun(pools, acc, txs) && i <= |txs|
    ensures forall u :: u in pools[i] ==> u.txHash in KeyHashes(pools[0]) + AcceptedHashes(txs, acc, i)
  {
    if i > 0 {
      KeyOrigins(pools, acc, txs, i - 1);
      AcceptedHashesStep(txs, acc, i);
      assert StepOk(pools, acc, txs, i - 1);
      if acc[i - 1] {
        ApplyOrigins(pools[i - 1], txs[i - 1], KeyHashes(pools[0]) + AcceptedHashes(txs, acc, i - 1));
      }
    }
  }

  /** One iteration keeps spent outputs out of the pool, provided the
      candidate examined, if accepted, cannot recreate them. */
  lemma StepKeepsOut(prev: Pool, next: Pool, tx: Tx, accepted: bool, spent: set<UTXO>, origins: set<Bytes>)
    requires accepted ==> next == Apply(prev, tx)
    requires !accepted ==> next == prev
    requires forall u :: u in spent ==> (u !in prev || u in ClaimSet(tx)) && u.txHash in origins
    requires accepted || spent !! prev.Keys
    requires accepted ==> tx.hash !in origins
    ensures spent !! next.Keys
  {
    if accepted {
      ApplyKeepsOut(prev, tx, spent);
    }
  }

  /** Once an accepted candidate has spent an output, that output stays
      out of the pool for the rest of the run. */
  lemma {:induction false} SpentStaysSpent(pools: seq<Pool>, acc: seq<bool>, txs: seq<Tx>, k: nat, i: nat)
    requires IsRun(pools, acc, txs) && FreshAccepted(pools[0], acc, txs)
    requires k < i <= |txs| && acc[k]
    ensures ClaimSet(txs[k]) !! pools[i].Keys
    decreases i
  {
    var origins := KeyHashes(pools[0]) + AcceptedHashes(txs, acc, k);
    KeyOrigins(pools, acc, txs, k);
    if acc[i - 1] {
      FreshAt(pools[0], acc, txs, i - 1, k);
    }
    if i > k + 1 {
      SpentStaysSpent(pools, acc, txs, k, i - 1);
    }
    SpentStep(pools, acc, txs, k, i, origins);
  }

  /** The step of `SpentStaysSpent` from `pools[i - 1]` to `pools[i]`, for
      any set of hashes that covers the spent outputs and excludes the
      candidate examined if it is accepted. */
  lemma SpentStep(pools: seq<Pool>, acc: seq<bool>, txs: seq<Tx>, k: nat, i: nat, origins: set<Bytes>)
    requires IsRun(pools, acc, txs) && k < i <= |txs| && acc[k]
    requires forall u :: u in pools[k] ==> u.txHash in origins
    requires acc[i - 1] ==> txs[i - 1].hash !in origins
    requires i > k + 1 ==> ClaimSet(txs[k]) !! pools[i - 1].Keys
    ensures ClaimSet(txs[k]) !! pools[i].Keys
  {
    assert StepOk(pools, acc, txs, k);
    assert StepOk(pools, acc, txs, i - 1);
    StepKeepsOut(pools[i - 1], pools[i], txs[i - 1], acc[i - 1], ClaimSet(txs[k]), origins);
  }

  /** Two accepted candidates of a run never claim the same output. */
  lemma NeverShareClaims(pools: seq<Pool>, acc: seq<bool>, txs: seq<Tx>, k: nat, m: nat)
    requires IsRun(pools, acc, txs) && FreshAccepted(pools[0], acc, txs)
    requires k < m < |txs| && acc[k] && acc[m]
    ensures ClaimSet(txs[k]) !! ClaimSet(txs[m])
  {
    SpentStaysSpent(pools, acc, txs, k, m);
    assert StepOk(pools, acc, txs, m);
  }

  /** An accepted candidate's outputs stay in the pool, with their values,
      until a later accepted candidate spends them. */
  lemma {:induction false} OutputsSurvive(pools: seq<Pool>, acc: seq<bool>, txs: seq<Tx>, k: nat, i: nat, j: nat)
    requires IsRun(pools, acc, txs) && FreshAccepted(pools[0], acc, txs)
    requires k < i <= |txs| && acc[k] && j < |txs[k].outputs|
    requires forall m :: k < m < i && acc[m] ==> UTXO(txs[k].hash, j) !in ClaimSet(txs[m])
    ensures UTXO(txs[k].hash, j) in pools[i]
    ensures pools[i][UTXO(txs[k].hash, j)] == txs[k].outputs[j]
    decreases i
  {
    var key := UTXO(txs[k].hash, j);
    assert StepOk(pools, acc, txs, i - 1);
    if i > k + 1 {
      OutputsSurvive(pools, acc, txs, k, i - 1, j);
      if acc[i - 1] {
        FreshDistinct(pools[0], acc, txs, k, i - 1);
        ApplyKeeps(pools[i - 1], txs[i - 1], key);
      }
    }
  }
}
