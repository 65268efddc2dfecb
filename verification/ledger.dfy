/**
 The shapes both transaction handlers work on: unspent-output identities,
 outputs, inputs, transactions, the UTXO pool, and the two collaborators
 (signature check and signable payload) they call but do not implement.

 Monetary values are Java `double` in the handlers; here they are exact
 integers, so sums never round or overflow.
 */
module Ledger {

  newtype byte = x: int | 0 <= x < 256

  type Bytes = seq<byte>

  /** `getTxOutput` answers null for an identity the pool does not hold. */
  datatype Option<T> = None | Some(value: T)

  /** Identity of an unspent output: the hash of the transaction that
      produced it and the position of the output in that transaction. */
  datatype UTXO = UTXO(txHash: Bytes, index: int)

  /** A coin: its value and the public key (as its encoding) entitled to spend it. */
  datatype Output = Output(value: int, address: Bytes)

  /** A claim on the output `(prevTxHash, outputIndex)`, with the signature
      that authorizes it. */
  datatype Input = Input(prevTxHash: Bytes, outputIndex: int, signature: Bytes)

  /** A transaction; `hash` stands for `getHash()`, an identifier computed
      by the transaction model and treated here as given. */
  datatype Tx = Tx(hash: Bytes, inputs: seq<Input>, outputs: seq<Output>)

  /** The UTXO pool: every unspent output, keyed by its identity. */
  type Pool = map<UTXO, Output>

  /** External primitives: `verify(key, message, signature)` is
      `RSAKey.verifySignature`, and `rawDataToSign(tx, i)` is
      `tx.getRawDataToSign(i)`. Both are left uninterpreted. */
  datatype Crypto = Crypto(verify: (Bytes, Bytes, Bytes) -> bool, rawDataToSign: (Tx, nat) -> Bytes)

  /** The identity an input claims. */
  function Claimed(input: Input): UTXO
  {
    UTXO(input.prevTxHash, input.outputIndex)
  }

  /** Pool lookup that, like `getTxOutput`, yields nothing for an absent key. */
  function GetTxOutput(pool: Pool, u: UTXO): (r: Option<Output>)
    ensures r.Some? <==> u in pool
    ensures r.Some? ==> r.value == pool[u]
  {
    if u in pool then Some(pool[u]) else None
  }

  /** Every identity claimed by the inputs of `tx`. */
  function ClaimSet(tx: Tx): set<UTXO>
  {
    set k | 0 <= k < |tx.inputs| :: Claimed(tx.inputs[k])
  }

  /** The pool entries `tx` creates: `(getHash(), j) -> outputs[j]`. */
  function Generated(tx: Tx): (g: map<UTXO, Output>)
    ensures forall u :: u in g ==> u.txHash == tx.hash && 0 <= u.index < |tx.outputs| && g[u] == tx.outputs[u.index]
    ensures forall j :: 0 <= j < |tx.outputs| ==> UTXO(tx.hash, j) in g
  {
    map j | 0 <= j < |tx.outputs| :: UTXO(tx.hash, j) := tx.outputs[j]
  }

  predicate ClaimsAvailable(ins: seq<Input>, pool: Pool)
  {
    forall k :: 0 <= k < |ins| ==> Claimed(ins[k]) in pool
  }

  lemma ClaimSetInPool(tx: Tx, pool: Pool)
    requires ClaimsAvailable(tx.inputs, pool)
    ensures ClaimSet(tx) <= pool.Keys
  {
  }

  /** Total value of the outputs the inputs claim, looked up in `pool`. */
  function InSum(ins: seq<Input>, pool: Pool): int
    requires ClaimsAvailable(ins, pool)
  {
    if |ins| == 0 then 0 else pool[Claimed(ins[0])].value + InSum(ins[1..], pool)
  }

  /** Total value of a list of outputs. */
  function OutSum(outs: seq<Output>): int
  {
    if |outs| == 0 then 0 else outs[0].value + OutSum(outs[1..])
  }
}
