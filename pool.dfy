/**
 * The mutable pool of unspent transaction outputs. Only the operations the
 * transaction handler calls are modelled: the copy constructor, membership,
 * lookup, insertion and removal.
 */
module Pools {
  import opened Ledger

  class UTXOPool {
    /** The current mapping from unspent-output identifier to output. */
    var H: Pool

    /** A new pool holding the same entries as uPool, independent of it. */
    constructor Copy(uPool: UTXOPool)
      ensures H == uPool.H
    {
      H := uPool.H;
    }

    predicate Contains(ut: UTXO)
      reads this
    {
      ut in H
    }

    /** The output named by ut, or None (Java's null) when ut is not in the pool. */
    function GetTxOutput(ut: UTXO): (r: Option<Output>)
      reads this
      ensures r.Some? <==> Contains(ut)
      ensures r.Some? ==> H[ut] == r.value
    {
      if ut in H then Some(H[ut]) else None
    }

    /** Adds ut, replacing any output it already named. */
    method AddUTXO(ut: UTXO, txOut: Output)
      modifies this
      ensures H == old(H)[ut := txOut]
    {
      H := H[ut := txOut];
    }

    /** Removes ut; does nothing when ut is not in the pool. */
    method RemoveUTXO(ut: UTXO)
      modifies this
      ensures H == old(H) - {ut}
    {
      H := H - {ut};
    }
  }
}
