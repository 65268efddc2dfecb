/**
 `TxHandler.handleTxs`: one pass over the candidates in batch order. Each
 candidate is checked against the pool as it stands at that moment; an
 accepted one is appended to the result and applied to the pool before the
 next candidate is looked at.

 `HandleTxs` is that loop as a fold over the prefixes of the batch, so
 `HandleTxs(pool, txs[..k])` is the state after `k` iterations. The
 constructor's copy of the caller's pool needs no counterpart: a Dafny map
 is a value, and nothing here can reach the caller's.
 */
module TxHandler {
  import opened Ledger
  import opened Validator
  import opened PoolUpdate
  import opened BatchSafety

  /** The accepted list and the current pool. */
  datatype Epoch = Epoch(accepted: seq<Tx>, pool: Pool)

  /** One iteration of the loop: validate, then append and apply. */
  function Step(e: Epoch, tx: Tx, crypto: Crypto): Epoch
  {
    if IsValidTx(tx, e.pool, crypto) then Epoch(e.accepted + [tx], Apply(e.pool, tx)) else e
  }

  /** `handleTxs(possibleTxs)` run on a handler whose pool is `pool`: the
      accepted transactions in batch order, and the pool afterwards. */
  function HandleTxs(pool: Pool, txs: seq<Tx>, crypto: Crypto): (e: Epoch)
    ensures |e.accepted| <= |txs|
    decreases |txs|
  {
    if |txs| == 0 then Epoch([], pool)
    else
      var last := |txs| - 1;
      assert txs == txs[..last] + [txs[last]];
      Step(HandleTxs(pool, txs[..last], crypto), txs[last], crypto)
  }

  /** Appending a candidate to the batch adds one iteration at the end. */
  lemma HandleTxsSnoc(pool: Pool, txs: seq<Tx>, tx: Tx, crypto: Crypto)
    ensures HandleTxs(pool, txs + [tx], crypto) == Step(HandleTxs(pool, txs, crypto), tx, crypto)
  {
    assert (txs + [tx])[..|txs|] == txs;
  }

  /** The pool when candidate `k` is examined. */
  function PoolBefore(pool: Pool, txs: seq<Tx>, crypto: Crypto, k: nat): Pool
    requires k <= |txs|
  {
    HandleTxs(pool, txs[..k], crypto).pool
  }

  /** Candidate `k` is accepted: it is valid against the pool it meets. */
  predicate AcceptedAt(pool: Pool, txs: seq<Tx>, crypto: Crypto, k: nat)
    requires k < |txs|
  {
    IsValidTx(txs[k], PoolBefore(pool, txs, crypto, k), crypto)
  }

  /** Cutting the batch after position `n` changes no pool met before it. */
  lemma PoolBeforePrefix(pool: Pool, txs: seq<Tx>, crypto: Crypto, n: nat)
    requires n <= |txs|
    ensures forall k :: 0 <= k <= n ==> PoolBefore(pool, txs[..n], crypto, k) == PoolBefore(pool, txs, crypto, k)
  {
    forall k | 0 <= k <= n
      ensures PoolBefore(pool, txs[..n], crypto, k) == PoolBefore(pool, txs, crypto, k)
    {
      assert txs[..n][..k] == txs[..k];
    }
  }

  /** Cutting the batch after position `n` changes nothing before it. */
  lemma AcceptedAtPrefix(pool: Pool, txs: seq<Tx>, crypto: Crypto, n: nat)
    requires n <= |txs|
    ensures forall k :: 0 <= k < n ==> txs[..n][k] == txs[k]
    ensures forall k :: 0 <= k <= n ==> PoolBefore(pool, txs[..n], crypto, k) == PoolBefore(pool, txs, crypto, k)
    ensures forall k :: 0 <= k < n ==> AcceptedAt(pool, txs[..n], crypto, k) == AcceptedAt(pool, txs, crypto, k)
  {
    PoolBeforePrefix(pool, txs, crypto, n);
  }

  /** Which candidates were accepted. */
  function Decisions(pool: Pool, txs: seq<Tx>, crypto: Crypto): (d: seq<bool>)
    ensures |d| == |txs|
    ensures forall k :: 0 <= k < |txs| ==> (d[k] <==> AcceptedAt(pool, txs, crypto, k))
  {
    seq(|txs|, i requires 0 <= i < |txs| => AcceptedAt(pool, txs, crypto, i))
  }

  /** Cutting the batch after position `n` keeps the decisions before it. */
  lemma DecisionsPrefix(pool: Pool, txs: seq<Tx>, crypto: Crypto, n: nat)
    requires n <= |txs|
    ensures Decisions(pool, txs[..n], crypto) == Decisions(pool, txs, crypto)[..n]
  {
    AcceptedAtPrefix(pool, txs, crypto, n);
  }

  /** The positions holding `true`, in increasing order. */
  function TruePositions(d: seq<bool>): (pos: seq<nat>)
    ensures forall n :: 0 <= n < |pos| ==> pos[n] < |d|
    ensures forall n, m :: 0 <= n < m < |pos| ==> pos[n] < pos[m]
  {
    if |d| == 0 then []
    else
      var last := |d| - 1;
      TruePositions(d[..last]) + (if d[last] then [last] else [])
  }

  lemma {:induction false} TruePositionsExact(d: seq<bool>)
    ensures forall k :: 0 <= k < |d| ==> (k in TruePositions(d) <==> d[k])
  {
    if |d| > 0 {
      var last := |d| - 1;
      TruePositionsExact(d[..last]);
      assert last !in TruePositions(d[..last]);
    }
  }

  /** Positions of the accepted candidates, in increasing order. */
  function AcceptedPositions(pool: Pool, txs: seq<Tx>, crypto: Crypto): (pos: seq<nat>)
    ensures forall n :: 0 <= n < |pos| ==> pos[n] < |txs|
    ensures forall n, m :: 0 <= n < m < |pos| ==> pos[n] < pos[m]
  {
    TruePositions(Decisions(pool, txs, crypto))
  }

  /** A position is listed exactly when its candidate was accepted. */
  lemma AcceptedPositionsExact(pool: Pool, txs: seq<Tx>, crypto: Crypto)
    ensures forall k :: 0 <= k < |txs| ==> (k in AcceptedPositions(pool, txs, crypto) <==> AcceptedAt(pool, txs, crypto, k))
  {
    TruePositionsExact(Decisions(pool, txs, crypto));
  }

  /** Examining one more candidate lists its position when it is accepted. */
  lemma AcceptedPositionsSnoc(pool: Pool, txs: seq<Tx>, crypto: Crypto)
    requires |txs| > 0
    ensures AcceptedPositions(pool, txs, crypto)
            == AcceptedPositions(pool, txs[..|txs| - 1], crypto) + (if AcceptedAt(pool, txs, crypto, |txs| - 1) then [|txs| - 1] else [])
  {
    var last, d := |txs| - 1, Decisions(pool, txs, crypto);
    DecisionsPrefix(pool, txs, crypto, last);
    assert TruePositions(d) == TruePositions(d[..last]) + (if d[last] then [last] else []);
  }

  // ---------------------------------------------------------------------
  // The pool, iteration by iteration
  // ---------------------------------------------------------------------

  lemma PoolAtStart(pool: Pool, txs: seq<Tx>, crypto: Crypto)
    ensures PoolBefore(pool, txs, crypto, 0) == pool
  {
    assert txs[..0] == [];
  }

  lemma PoolAtEnd(pool: Pool, txs: seq<Tx>, crypto: Crypto)
    ensures PoolBefore(pool, txs, crypto, |txs|) == HandleTxs(pool, txs, crypto).pool
  {
    assert txs[..|txs|] == txs;
  }

  /** A rejected candidate leaves the pool as it was; an accepted one
      removes exactly its claims and adds exactly its outputs. */
  lemma PoolEvolution(pool: Pool, txs: seq<Tx>, crypto: Crypto, k: nat)
    requires k < |txs|
    ensures !AcceptedAt(pool, txs, crypto, k) ==> PoolBefore(pool, txs, crypto, k + 1) == PoolBefore(pool, txs, crypto, k)
    ensures AcceptedAt(pool, txs, crypto, k) ==>
              PoolBefore(pool, txs, crypto, k + 1) == Apply(PoolBefore(pool, txs, crypto, k), txs[k])
  {
    assert txs[..k + 1][..k] == txs[..k];
    assert txs[..k + 1][k] == txs[k];
  }

  /** The result lists exactly the candidates accepted at their turn, in
      batch order. */
  lemma {:induction false} AcceptedIsSelection(pool: Pool, txs: seq<Tx>, crypto: Crypto)
    ensures Selects(HandleTxs(pool, txs, crypto).accepted, AcceptedPositions(pool, txs, crypto), txs)
    decreases |txs|
  {
    if |txs| > 0 {
      var last := |txs| - 1;
      AcceptedIsSelection(pool, txs[..last], crypto);
      SelectionStep(pool, txs, crypto);
    }
  }

  /** One more candidate keeps the result the selection at the accepted
      positions. */
  lemma SelectionStep(pool: Pool, txs: seq<Tx>, crypto: Crypto)
    requires |txs| > 0
    requires Selects(HandleTxs(pool, txs[..|txs| - 1], crypto).accepted, AcceptedPositions(pool, txs[..|txs| - 1], crypto), txs[..|txs| - 1])
    ensures Selects(HandleTxs(pool, txs, crypto).accepted, AcceptedPositions(pool, txs, crypto), txs)
  {
    var last := |txs| - 1;
    var acc, pos, ok := HandleTxs(pool, txs[..last], crypto).accepted, AcceptedPositions(pool, txs[..last], crypto), AcceptedAt(pool, txs, crypto, last);
    HandleTxsLast(pool, txs, crypto);
    AcceptedPositionsSnoc(pool, txs, crypto);
    SelectionSnoc(acc, pos, txs, ok);
  }

  /** `acc` lists the candidates of `txs` at positions `pos`. */
  predicate Selects(acc: seq<Tx>, pos: seq<nat>, txs: seq<Tx>)
  {
    && |acc| == |pos|
    && forall n :: 0 <= n < |pos| ==> pos[n] < |txs| && acc[n] == txs[pos[n]]
  }

  /** The last candidate joins the result exactly when it is accepted. */
  lemma HandleTxsLast(pool: Pool, txs: seq<Tx>, crypto: Crypto)
    requires |txs| > 0
    ensures HandleTxs(pool, txs, crypto).accepted
            == HandleTxs(pool, txs[..|txs| - 1], crypto).accepted + (if AcceptedAt(pool, txs, crypto, |txs| - 1) then [txs[|txs| - 1]] else [])
  {
    var last := |txs| - 1;
    assert PoolBefore(pool, txs, crypto, last) == HandleTxs(pool, txs[..last], crypto).pool;
  }

  /** Listing the last candidate or not keeps a selection of the prefix a
      selection of the whole batch. */
  lemma SelectionSnoc(acc: seq<Tx>, pos: seq<nat>, txs: seq<Tx>, ok: bool)
    requires |txs| > 0 && Selects(acc, pos, txs[..|txs| - 1])
    ensures Selects(acc + (if ok then [txs[|txs| - 1]] else []), pos + (if ok then [|txs| - 1] else []), txs)
  {
    assert forall n :: 0 <= n < |pos| ==> txs[..|txs| - 1][pos[n]] == txs[pos[n]];
  }

  // ---------------------------------------------------------------------
  // No double spending among accepted transactions
  // ---------------------------------------------------------------------

  /** The pools met by the candidates, then the pool after the batch. */
  function Pools(pool: Pool, txs: seq<Tx>, crypto: Crypto): seq<Pool>
  {
    seq(|txs| + 1, i requires 0 <= i <= |txs| => PoolBefore(pool, txs, crypto, i))
  }

  lemma IterationIsStep(pool: Pool, txs: seq<Tx>, crypto: Crypto, i: nat)
    requires i < |txs|
    ensures StepOk(Pools(pool, txs, crypto), Decisions(pool, txs, crypto), txs, i)
  {
    var pools, acc := Pools(pool, txs, crypto), Decisions(pool, txs, crypto);
    assert pools[i] == PoolBefore(pool, txs, crypto, i);
    assert pools[i + 1] == PoolBefore(pool, txs, crypto, i + 1);
    assert acc[i] == AcceptedAt(pool, txs, crypto, i);
    PoolEvolution(pool, txs, crypto, i);
    if acc[i] {
      ClaimSetInPool(txs[i], pools[i]);
    }
  }

  /** `handleTxs` performs a run in the sense of `BatchSafety`: accepted
      claims are in the pool and accepting applies the transaction. */
  lemma HandleTxsIsRun(pool: Pool, txs: seq<Tx>, crypto: Crypto)
    ensures IsRun(Pools(pool, txs, crypto), Decisions(pool, txs, crypto), txs)
    ensures Pools(pool, txs, crypto)[0] == pool
    ensures Pools(pool, txs, crypto)[|txs|] == HandleTxs(pool, txs, crypto).pool
  {
    forall i | 0 <= i < |txs|
      ensures StepOk(Pools(pool, txs, crypto), Decisions(pool, txs, crypto), txs, i)
    {
      IterationIsStep(pool, txs, crypto, i);
    }
    PoolAtStart(pool, txs, crypto);
    PoolAtEnd(pool, txs, crypto);
  }

  /** Every accepted candidate's `getHash()` differs from the hash of every
      output in the starting pool and from every earlier accepted
      candidate's. Rejected candidates are unconstrained. */
  predicate AcceptedHashesFresh(pool: Pool, txs: seq<Tx>, crypto: Crypto)
  {
    FreshAccepted(pool, Decisions(pool, txs, crypto), txs)
  }

  /** Mutual validity: two accepted candidates never claim the same output. */
  lemma AcceptedNeverShareClaims(pool: Pool, txs: seq<Tx>, crypto: Crypto, k: nat, m: nat)
    requires AcceptedHashesFresh(pool, txs, crypto)
    requires k < m < |txs| && AcceptedAt(pool, txs, crypto, k) && AcceptedAt(pool, txs, crypto, m)
    ensures ClaimSet(txs[k]) !! ClaimSet(txs[m])
  {
    HandleTxsIsRun(pool, txs, crypto);
    NeverShareClaims(Pools(pool, txs, crypto), Decisions(pool, txs, crypto), txs, k, m);
  }

  /** Of two candidates claiming one output, the later cannot be accepted
      once the earlier has been, whatever either pays. */
  lemma FirstSeenWins(pool: Pool, txs: seq<Tx>, crypto: Crypto, k: nat, m: nat, u: UTXO)
    requires AcceptedHashesFresh(pool, txs, crypto)
    requires k < m < |txs| && u in ClaimSet(txs[k]) && u in ClaimSet(txs[m])
    requires AcceptedAt(pool, txs, crypto, k)
    ensures !AcceptedAt(pool, txs, crypto, m)
  {
    if AcceptedAt(pool, txs, crypto, m) {
      AcceptedNeverShareClaims(pool, txs, crypto, k, m);
    }
  }

  /** Mutual validity stated on the returned array. */
  lemma ResultIsMutuallyValid(pool: Pool, txs: seq<Tx>, crypto: Crypto, n: nat, n': nat)
    requires AcceptedHashesFresh(pool, txs, crypto)
    requires n < n' < |HandleTxs(pool, txs, crypto).accepted|
    ensures ClaimSet(HandleTxs(pool, txs, crypto).accepted[n]) !! ClaimSet(HandleTxs(pool, txs, crypto).accepted[n'])
  {
    AcceptedIsSelection(pool, txs, crypto);
    AcceptedPositionsExact(pool, txs, crypto);
    var pos := AcceptedPositions(pool, txs, crypto);
    assert pos[n] in pos && pos[n'] in pos;
    AcceptedNeverShareClaims(pool, txs, crypto, pos[n], pos[n']);
  }

  // ---------------------------------------------------------------------
  // The pool after the batch
  // ---------------------------------------------------------------------

  /** After `handleTxs`, nothing an accepted transaction claimed is left in
      the pool. */
  lemma ClaimsGoneAtEnd(pool: Pool, txs: seq<Tx>, crypto: Crypto, k: nat)
    requires AcceptedHashesFresh(pool, txs, crypto)
    requires k < |txs| && AcceptedAt(pool, txs, crypto, k)
    ensures ClaimSet(txs[k]) !! HandleTxs(pool, txs, crypto).pool.Keys
  {
    HandleTxsIsRun(pool, txs, crypto);
    SpentStaysSpent(Pools(pool, txs, crypto), Decisions(pool, txs, crypto), txs, k, |txs|);
  }

  /** After `handleTxs`, every output of an accepted transaction that no
      later accepted transaction spent is in the pool. */
  lemma OutputsPresentAtEnd(pool: Pool, txs: seq<Tx>, crypto: Crypto, k: nat, j: nat)
    requires AcceptedHashesFresh(pool, txs, crypto)
    requires k < |txs| && AcceptedAt(pool, txs, crypto, k) && j < |txs[k].outputs|
    requires forall m :: k < m < |txs| && AcceptedAt(pool, txs, crypto, m) ==> UTXO(txs[k].hash, j) !in ClaimSet(txs[m])
    ensures UTXO(txs[k].hash, j) in HandleTxs(pool, txs, crypto).pool
    ensures HandleTxs(pool, txs, crypto).pool[UTXO(txs[k].hash, j)] == txs[k].outputs[j]
  {
    HandleTxsIsRun(pool, txs, crypto);
    var acc := Decisions(pool, txs, crypto);
    assert forall m :: k < m < |txs| && acc[m] ==> UTXO(txs[k].hash, j) !in ClaimSet(txs[m]);
    OutputsSurvive(Pools(pool, txs, crypto), acc, txs, k, |txs|, j);
  }
}
