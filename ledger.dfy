/**
 * The values a Scroogecoin ledger is made of: outputs, inputs, transactions
 * and the (transaction hash, output index) pairs that name unspent outputs,
 * together with the three collaborators the transaction handler calls but
 * does not implement.
 */
module Ledger {

  /** A slot that may be empty; stands for a Java reference that may be null. */
  datatype Option<T> = None | Some(value: T)

  type Bytes = seq<bv8>

  /** A public key, known to the ledger only through its encoding. */
  datatype PublicKey = PublicKey(encoded: Bytes)

  /** A transaction output: an amount paid to the owner of a key. */
  datatype Output = Output(value: int, address: PublicKey)

  /** A transaction input: the output it claims and a signature authorising the claim. */
  datatype Input = Input(prevTxHash: Bytes, outputIndex: int, signature: Bytes)

  datatype Transaction = Transaction(inputs: seq<Input>, outputs: seq<Output>)

  /** The identifier of an unspent output; equality is by value. */
  datatype UTXO = UTXO(txHash: Bytes, index: int)

  /** The contents of a pool of unspent transaction outputs. */
  type Pool = map<UTXO, Output>

  /**
   * The collaborators of the handler: signature verification
   * (Crypto.verifySignature), the bytes an input signs
   * (Transaction.getRawDataToSign) and the transaction hash
   * (Transaction.getHash). The definitions assume nothing about them; the
   * lemmas about double spending and value add a hypothesis that hashes
   * are unique.
   */
  datatype Env = Env(
    verifySignature: (PublicKey, Bytes, Bytes) -> bool,
    rawDataToSign: (Transaction, int) -> Bytes,
    hash: Transaction -> Bytes)

  /** The unspent output an input claims. */
  function Claimed(input: Input): UTXO {
    UTXO(input.prevTxHash, input.outputIndex)
  }

  /** Every unspent output claimed by some input of the sequence. */
  function ClaimedSet(inputs: seq<Input>): set<UTXO> {
    set input | input in inputs :: Claimed(input)
  }

  /** The identifiers a transaction with hash h creates, one per output. */
  function NewUTXOs(h: Bytes, outputs: seq<Output>): Pool {
    map k | 0 <= k < |outputs| :: UTXO(h, k) := outputs[k]
  }
}
