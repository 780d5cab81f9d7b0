/**
 * Conservation of value over a whole batch: the total value held in the
 * pool drops, on each accepted transaction, by exactly that transaction's
 * fee (claimed value minus paid-out value), so processing a batch never
 * creates value. This needs the hashes to be unique, so that a new output
 * never overwrites an existing entry. Amounts are unbounded integers here:
 * with the source's doubles a NaN or infinite amount defeats the value
 * check, so these properties are of the integer model only.
 */
module Conservation {
  import opened Ledger
  import opened Validation
  import opened TxHandling
  import opened BatchProperties

  /** The total value of the outputs in a pool. */
  ghost function PoolValue(pool: Pool): int
    decreases |pool|
  {
    if pool == map[] then 0
    else
      var u :| u in pool;
      pool[u].value + PoolValue(pool - {u})
  }

  /** Removing any one entry lowers the total by that entry's value, whichever entry PoolValue picked. */
  lemma {:induction false} PoolValueRemove(pool: Pool, u: UTXO)
    requires u in pool
    ensures PoolValue(pool) == pool[u].value + PoolValue(pool - {u})
    decreases |pool|
  {
    var v :| v in pool && PoolValue(pool) == pool[v].value + PoolValue(pool - {v});
    if v != u {
      PoolValueRemove(pool - {v}, u);
      PoolValueRemove(pool - {u}, v);
      assert pool - {v} - {u} == pool - {u} - {v};
    }
  }

  /** Adding a new entry raises the total by that entry's value. */
  lemma PoolValueAdd(pool: Pool, u: UTXO, o: Output)
    requires u !in pool
    ensures PoolValue(pool[u := o]) == PoolValue(pool) + o.value
  {
    PoolValueRemove(pool[u := o], u);
    assert pool[u := o] - {u} == pool;
  }

  /** Removing distinct claimed entries lowers the total by their claimed value. */
  lemma {:induction false} PoolValueRemoveClaimed(pool: Pool, inputs: seq<Input>)
    requires AllClaimedInPool(pool, inputs) && NoDoubleClaim(inputs)
    ensures PoolValue(pool - ClaimedSet(inputs)) == PoolValue(pool) - ClaimedValue(pool, inputs)
  {
    if inputs != [] {
      var front := inputs[..|inputs| - 1];
      var last := inputs[|inputs| - 1];
      assert AllClaimedInPool(pool, front) by {
        forall i | 0 <= i < |front| ensures Claimed(front[i]) in pool { assert front[i] == inputs[i]; }
      }
      ClaimsOfFront(inputs);
      PoolValueRemoveClaimed(pool, front);
      var rest := pool - ClaimedSet(front);
      assert pool - ClaimedSet(inputs) == rest - {Claimed(last)};
      PoolValueRemove(rest, Claimed(last));
    } else {
      assert pool - ClaimedSet(inputs) == pool;
    }
  }

  /** Adding the outputs of a transaction under a hash no entry carries raises the total by their sum. */
  lemma {:induction false} PoolValueAddOutputs(pool: Pool, h: Bytes, outputs: seq<Output>)
    requires forall u :: u in pool ==> u.txHash != h
    ensures PoolValue(pool + NewUTXOs(h, outputs)) == PoolValue(pool) + SumValues(outputs)
  {
    if outputs != [] {
      var n := |outputs| - 1;
      var front := outputs[..n];
      PoolValueAddOutputs(pool, h, front);
      var m := pool + NewUTXOs(h, front);
      assert UTXO(h, n) !in m;
      NewUTXOsExtend(pool, h, outputs, n);
      assert outputs[..n + 1] == outputs;
      PoolValueAdd(m, UTXO(h, n), outputs[n]);
    } else {
      assert pool + NewUTXOs(h, outputs) == pool;
    }
  }

  /** Removing keys of pool commutes with adding entries under keys pool does not hold. */
  lemma AddThenRemove(pool: Pool, added: Pool, removed: set<UTXO>)
    requires removed <= pool.Keys && added.Keys !! pool.Keys
    ensures (pool + added) - removed == (pool - removed) + added
  {
  }

  /**
   * Accepting a valid transaction whose hash no pool entry carries lowers
   * the total value by its fee, which is never negative.
   */
  lemma ApplyTxValue(env: Env, pool: Pool, tx: Transaction)
    requires ValidTx(env, pool, tx)
    requires forall u :: u in pool ==> u.txHash != env.hash(tx)
    ensures PoolValue(ApplyTx(env, pool, tx)) == PoolValue(pool) - (ClaimedValue(pool, tx.inputs) - SumValues(tx.outputs))
    ensures PoolValue(ApplyTx(env, pool, tx)) <= PoolValue(pool)
  {
    var h := env.hash(tx);
    var spent := pool - ClaimedSet(tx.inputs);
    PoolValueRemoveClaimed(pool, tx.inputs);
    PoolValueAddOutputs(spent, h, tx.outputs);
    forall u | u in ClaimedSet(tx.inputs) ensures u in pool {
      ClaimedSetMember(tx.inputs, u);
    }
    AddThenRemove(pool, NewUTXOs(h, tx.outputs), ClaimedSet(tx.inputs));
  }

  /** With unique hashes, no entry of the pool reached before candidate m carries the hash of candidate m. */
  lemma HashFreshAtStep(env: Env, pool: Pool, txs: seq<Transaction>, m: int)
    requires UniqueHashes(env, pool, txs)
    requires 0 <= m < |txs|
    ensures forall u :: u in Run(env, pool, txs[..m]).pool ==> u.txHash != env.hash(txs[m])
  {
    NoDoubleSpendUpTo(env, pool, txs, m);
    forall u | u in Run(env, pool, txs[..m]).pool ensures u.txHash != env.hash(txs[m]) {
      if u !in pool {
        var m' :| 0 <= m' < m && u.txHash == env.hash(txs[m']);
      }
    }
  }

  /**
   * Processing a batch whose hashes are unique never increases the total
   * value held in the pool: value is only ever moved or given up as fees.
   */
  lemma {:induction false} BatchNeverCreatesValue(env: Env, pool: Pool, txs: seq<Transaction>, n: int)
    requires UniqueHashes(env, pool, txs)
    requires 0 <= n <= |txs|
    ensures PoolValue(Run(env, pool, txs[..n]).pool) <= PoolValue(pool)
  {
    if n > 0 {
      var m := n - 1;
      BatchNeverCreatesValue(env, pool, txs, m);
      RunStep(env, pool, txs, m);
      var before := Run(env, pool, txs[..m]).pool;
      if ValidTx(env, before, txs[m]) {
        HashFreshAtStep(env, pool, txs, m);
        ApplyTxValue(env, before, txs[m]);
      }
    }
    assert txs[..0] == [];
  }
}
