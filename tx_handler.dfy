/**
 * The Scroogecoin transaction handler: it owns a private pool of unspent
 * outputs, decides whether one transaction is valid against it, and
 * processes a batch of candidates in order, updating the pool as each one
 * is accepted.
 */
module TxHandling {
  import opened Ledger
  import opened Pools
  import opened Validation
  import opened Compaction

  /**
   * The pool after accepting tx: first every output is added under
   * (hash of tx, its index), then every claimed output is removed.
   */
  function ApplyTx(env: Env, pool: Pool, tx: Transaction): (r: Pool)
    ensures forall u :: u in ClaimedSet(tx.inputs) ==> u !in r
    ensures forall k :: 0 <= k < |tx.outputs| && UTXO(env.hash(tx), k) !in ClaimedSet(tx.inputs) ==>
      UTXO(env.hash(tx), k) in r && r[UTXO(env.hash(tx), k)] == tx.outputs[k]
    ensures forall u :: u !in ClaimedSet(tx.inputs) && !(u.txHash == env.hash(tx) && 0 <= u.index < |tx.outputs|) ==>
      (u in r <==> u in pool) && (u in r ==> r[u] == pool[u])
  {
    (pool + NewUTXOs(env.hash(tx), tx.outputs)) - ClaimedSet(tx.inputs)
  }

  /** The pool after processing a batch, and the batch-sized slots of accepted transactions. */
  datatype BatchOutcome = BatchOutcome(pool: Pool, slots: seq<Option<Transaction>>)

  /**
   * The effect of handleTxs on a batch: each candidate, in order, is checked
   * against the pool as left by the candidates before it; an accepted one
   * fills its slot and updates the pool, a rejected one leaves both alone.
   */
  function Run(env: Env, pool: Pool, txs: seq<Transaction>): (r: BatchOutcome)
    ensures |r.slots| == |txs|
    ensures forall j :: 0 <= j < |txs| ==> r.slots[j] == None || r.slots[j] == Some(txs[j])
    decreases |txs|
  {
    if txs == [] then BatchOutcome(pool, [])
    else
      var before := Run(env, pool, txs[..|txs| - 1]);
      var tx := txs[|txs| - 1];
      if ValidTx(env, before.pool, tx) then BatchOutcome(ApplyTx(env, before.pool, tx), before.slots + [Some(tx)])
      else BatchOutcome(before.pool, before.slots + [None])
  }

  /** The accepted transactions of a batch, in batch order. */
  function Accepted(env: Env, pool: Pool, txs: seq<Transaction>): seq<Transaction> {
    Somes(Run(env, pool, txs).slots)
  }

  /** One more candidate: Run on the first i + 1 candidates extends Run on the first i by candidate i. */
  lemma RunStep(env: Env, pool: Pool, txs: seq<Transaction>, i: int)
    requires 0 <= i < |txs|
    ensures var before := Run(env, pool, txs[..i]);
      Run(env, pool, txs[..i + 1]) ==
        if ValidTx(env, before.pool, txs[i]) then BatchOutcome(ApplyTx(env, before.pool, txs[i]), before.slots + [Some(txs[i])])
        else BatchOutcome(before.pool, before.slots + [None])
  {
    assert txs[..i + 1][..i] == txs[..i];
  }

  lemma NewUTXOsExtend(pool: Pool, h: Bytes, outputs: seq<Output>, k: int)
    requires 0 <= k < |outputs|
    ensures (pool + NewUTXOs(h, outputs[..k]))[UTXO(h, k) := outputs[k]] == pool + NewUTXOs(h, outputs[..k + 1])
  {
    var a := NewUTXOs(h, outputs[..k]);
    var b := NewUTXOs(h, outputs[..k + 1]);
    assert b == a[UTXO(h, k) := outputs[k]] by {
      forall u ensures (u in b <==> u in a[UTXO(h, k) := outputs[k]]) {
        assert u in b <==> u.txHash == h && 0 <= u.index < k + 1;
      }
      forall u | u in b ensures b[u] == a[UTXO(h, k) := outputs[k]][u] {
        assert b[u] == outputs[..k + 1][u.index];
      }
    }
  }

  lemma ClaimedSetExtend(inputs: seq<Input>, j: int)
    requires 0 <= j < |inputs|
    ensures ClaimedSet(inputs[..j + 1]) == ClaimedSet(inputs[..j]) + {Claimed(inputs[j])}
  {
    assert inputs[..j + 1] == inputs[..j] + [inputs[j]];
  }

  /** The batch loop of handleTxs keeps its pool and slots equal to Run on the candidates handled so far. */
  lemma LoopStep(env: Env, start: Pool, txs: seq<Transaction>, i: int, before: Pool, slotsBefore: seq<Option<Transaction>>,
                 ok: bool, after: Pool, slotsAfter: seq<Option<Transaction>>)
    requires 0 <= i < |txs|
    requires Run(env, start, txs[..i]) == BatchOutcome(before, slotsBefore)
    requires ok == ValidTx(env, before, txs[i])
    requires ok ==> after == (before + NewUTXOs(env.hash(txs[i]), txs[i].outputs)) - ClaimedSet(txs[i].inputs)
    requires !ok ==> after == before
    requires slotsAfter == slotsBefore + [if ok then Some(txs[i]) else None]
    ensures Run(env, start, txs[..i + 1]) == BatchOutcome(after, slotsAfter)
  {
    RunStep(env, start, txs, i);
  }

  class TxHandler {
    const env: Env
    var utxoPool: UTXOPool

    /** A handler whose pool is a fresh copy of the caller's pool. */
    constructor (env: Env, utxoPool: UTXOPool)
      ensures this.env == env
      ensures fresh(this.utxoPool) && this.utxoPool.H == utxoPool.H
    {
      this.env := env;
      this.utxoPool := new UTXOPool.Copy(utxoPool);
    }

    /**
     * Decides the five rules, outputs first and then input by input, and
     * leaves the pool alone.
     */
    method IsValidTx(tx: Transaction) returns (valid: bool)
      ensures valid == ValidTx(env, utxoPool.H, tx)
    {
      var sum := 0;
      var k := 0;
      while k < |tx.outputs|
        invariant 0 <= k <= |tx.outputs|
        invariant forall m :: 0 <= m < k ==> tx.outputs[m].value >= 0
        invariant sum == SumValues(tx.outputs[..k])
      {
        if tx.outputs[k].value < 0 {
          return false;
        }
        assert tx.outputs[..k + 1][..k] == tx.outputs[..k];
        sum := sum + tx.outputs[k].value;
        k := k + 1;
      }
      assert tx.outputs[..k] == tx.outputs;

      ghost var pool := utxoPool.H;
      var inSum := 0;
      var utxoList: seq<UTXO> := [];
      var currentIndex := 0;
      while currentIndex < |tx.inputs|
        invariant 0 <= currentIndex <= |tx.inputs|
        invariant AllClaimedInPool(pool, tx.inputs[..currentIndex])
        invariant forall i :: 0 <= i < currentIndex ==> InputAuthorized(env, pool, tx, i)
        invariant NoDoubleClaim(tx.inputs[..currentIndex])
        invariant |utxoList| == currentIndex
        invariant forall i :: 0 <= i < currentIndex ==> utxoList[i] == Claimed(tx.inputs[i])
        invariant inSum == ClaimedValue(pool, tx.inputs[..currentIndex])
      {
        var input := tx.inputs[currentIndex];
        var unspentTransactionOutput := UTXO(input.prevTxHash, input.outputIndex);
        if !utxoPool.Contains(unspentTransactionOutput) {
          return false;
        }
        if !env.verifySignature(utxoPool.GetTxOutput(unspentTransactionOutput).value.address,
                                env.rawDataToSign(tx, currentIndex), input.signature) {
          assert !InputAuthorized(env, pool, tx, currentIndex);
          return false;
        }
        if unspentTransactionOutput in utxoList {
          ghost var i :| 0 <= i < currentIndex && utxoList[i] == unspentTransactionOutput;
          RepeatedClaim(tx.inputs, i, currentIndex);
          return false;
        }
        ClaimsExtend(pool, tx.inputs, currentIndex);
        utxoList := utxoList + [unspentTransactionOutput];
        inSum := inSum + utxoPool.GetTxOutput(unspentTransactionOutput).value.value;
        currentIndex := currentIndex + 1;
      }
      assert tx.inputs[..currentIndex] == tx.inputs;

      if inSum < sum {
        return false;
      }
      return true;
    }

    /** Adds every output of tx to the pool under (hash of tx, its index), in output order. */
    method AddOutputs(tx: Transaction)
      modifies utxoPool
      ensures utxoPool.H == old(utxoPool.H) + NewUTXOs(env.hash(tx), tx.outputs)
    {
      var outputIndex := 0;
      while outputIndex < |tx.outputs|
        invariant 0 <= outputIndex <= |tx.outputs|
        invariant utxoPool.H == old(utxoPool.H) + NewUTXOs(env.hash(tx), tx.outputs[..outputIndex])
      {
        NewUTXOsExtend(old(utxoPool.H), env.hash(tx), tx.outputs, outputIndex);
        utxoPool.AddUTXO(UTXO(env.hash(tx), outputIndex), tx.outputs[outputIndex]);
        outputIndex := outputIndex + 1;
      }
      assert tx.outputs[..outputIndex] == tx.outputs;
    }

    /** Removes from the pool every output the inputs of tx claim. */
    method RemoveSpentInputs(tx: Transaction)
      modifies utxoPool
      ensures utxoPool.H == old(utxoPool.H) - ClaimedSet(tx.inputs)
    {
      var inputIndex := 0;
      while inputIndex < |tx.inputs|
        invariant 0 <= inputIndex <= |tx.inputs|
        invariant utxoPool.H == old(utxoPool.H) - ClaimedSet(tx.inputs[..inputIndex])
      {
        var input := tx.inputs[inputIndex];
        ClaimedSetExtend(tx.inputs, inputIndex);
        utxoPool.RemoveUTXO(UTXO(input.prevTxHash, input.outputIndex));
        inputIndex := inputIndex + 1;
      }
      assert tx.inputs[..inputIndex] == tx.inputs;
    }

    /**
     * Processes a batch in order against the live pool and returns the
     * accepted transactions, in batch order and without gaps.
     */
    method HandleTxs(possibleTxs: array<Transaction>) returns (accepted: array<Transaction>)
      modifies utxoPool
      ensures utxoPool.H == Run(env, old(utxoPool.H), possibleTxs[..]).pool
      ensures fresh(accepted)
      ensures accepted[..] == Accepted(env, old(utxoPool.H), possibleTxs[..])
    {
      ghost var start := utxoPool.H;
      ghost var txs := possibleTxs[..];
      var validTransactions := new Option<Transaction>[possibleTxs.Length](_ => None);
      var i := 0;
      while i < possibleTxs.Length
        invariant 0 <= i <= possibleTxs.Length
        invariant Run(env, start, txs[..i]) == BatchOutcome(utxoPool.H, validTransactions[..i])
        invariant forall j :: i <= j < possibleTxs.Length ==> validTransactions[j] == None
      {
        ghost var before := utxoPool.H;
        ghost var done := validTransactions[..i];
        var ok := IsValidTx(possibleTxs[i]);
        if ok {
          var valid := possibleTxs[i];
          validTransactions[i] := Some(valid);
          AddOutputs(valid);
          RemoveSpentInputs(valid);
        }
        assert validTransactions[..i + 1] == done + [if ok then Some(txs[i]) else None];
        LoopStep(env, start, txs, i, before, done, ok, utxoPool.H, validTransactions[..i + 1]);
        i := i + 1;
      }
      assert txs[..i] == txs;
      assert validTransactions[..] == validTransactions[..i];
      accepted := Compact(validTransactions);
    }
  }
}

/**
 * Properties of a processed batch, stated over the specification Run that
 * TxHandling.TxHandler.HandleTxs is proved to follow.
 */
module BatchProperties {
  import opened Ledger
  import opened Pools
  import opened Validation
  import opened Compaction
  import opened TxHandling

  /** Run on a prefix of the batch decides the same slots as Run on the whole batch. */
  lemma {:induction false} RunPrefix(env: Env, pool: Pool, txs: seq<Transaction>, n: int)
    requires 0 <= n <= |txs|
    ensures Run(env, pool, txs[..n]).slots == Run(env, pool, txs).slots[..n]
    decreases |txs|
  {
    if n < |txs| {
      var front := txs[..|txs| - 1];
      assert front[..n] == txs[..n];
      RunPrefix(env, pool, front, n);
    } else {
      assert txs[..n] == txs;
    }
  }

  /**
   * Candidate j is accepted exactly when it is valid against the pool left
   * by candidates 0 .. j - 1; acceptance applies it to that pool, rejection
   * leaves that pool as it was.
   */
  lemma SlotDecision(env: Env, pool: Pool, txs: seq<Transaction>, j: int)
    requires 0 <= j < |txs|
    ensures var before := Run(env, pool, txs[..j]).pool;
      && (Run(env, pool, txs).slots[j] == Some(txs[j]) <==> ValidTx(env, before, txs[j]))
      && (Run(env, pool, txs).slots[j] == None <==> !ValidTx(env, before, txs[j]))
      && Run(env, pool, txs[..j + 1]).pool == (if ValidTx(env, before, txs[j]) then ApplyTx(env, before, txs[j]) else before)
  {
    RunPrefix(env, pool, txs, j + 1);
    RunStep(env, pool, txs, j);
  }

  /**
   * Every accepted transaction was valid when it was reached, so it paid
   * out no more than the outputs it claimed were worth at that moment.
   */
  lemma AcceptedConserveValue(env: Env, pool: Pool, txs: seq<Transaction>, j: int)
    requires 0 <= j < |txs| && Run(env, pool, txs).slots[j].Some?
    ensures var before := Run(env, pool, txs[..j]).pool;
      && ValidTx(env, before, txs[j])
      && SumValues(txs[j].outputs) <= ClaimedValue(before, txs[j].inputs)
  {
    SlotDecision(env, pool, txs, j);
  }

  /**
   * The accepted transactions are candidates of the batch taken in batch
   * order: the a-th accepted one is candidate FilledIndices(..)[a], these
   * indices increase, and every accepted candidate is listed.
   */
  lemma AcceptedIsOrderedSelection(env: Env, pool: Pool, txs: seq<Transaction>)
    ensures var slots := Run(env, pool, txs).slots;
      && |Accepted(env, pool, txs)| == |FilledIndices(slots)| <= |txs|
      && (forall a :: 0 <= a < |FilledIndices(slots)| ==>
            && 0 <= FilledIndices(slots)[a] < |txs|
            && slots[FilledIndices(slots)[a]] == Some(txs[FilledIndices(slots)[a]])
            && Accepted(env, pool, txs)[a] == txs[FilledIndices(slots)[a]])
      && (forall a, b :: 0 <= a < b < |FilledIndices(slots)| ==> FilledIndices(slots)[a] < FilledIndices(slots)[b])
      && (forall j :: 0 <= j < |txs| && slots[j].Some? ==> j in FilledIndices(slots))
  {
    var slots := Run(env, pool, txs).slots;
    SomesIsOrderedSelection(slots);
    SomesLength(slots);
  }

  /**
   * The accepted transactions are mutually valid: replaying them alone, in
   * order, against the same initial pool accepts every one of them and
   * leaves the same pool as the whole batch.
   */
  lemma {:induction false} RerunAccepted(env: Env, pool: Pool, txs: seq<Transaction>)
    ensures var acc := Accepted(env, pool, txs);
      && Run(env, pool, acc).pool == Run(env, pool, txs).pool
      && forall a :: 0 <= a < |acc| ==> Run(env, pool, acc).slots[a] == Some(acc[a])
    decreases |txs|
  {
    if txs != [] {
      var front := txs[..|txs| - 1];
      RerunAccepted(env, pool, front);
      AcceptedStep(env, pool, txs);
      var r0 := Run(env, pool, front);
      var t := txs[|txs| - 1];
      var acc0 := Accepted(env, pool, front);
      var acc := Accepted(env, pool, txs);
      if ValidTx(env, r0.pool, t) {
        assert acc == acc0 + [t];
        assert acc[..|acc0|] == acc0;
        RunStep(env, pool, acc, |acc0|);
        assert acc[..|acc0| + 1] == acc;
        assert Run(env, pool, acc0).pool == r0.pool;
        assert acc[|acc0|] == t;
        assert Run(env, pool, acc).pool == ApplyTx(env, r0.pool, t);
        assert Run(env, pool, acc).pool == Run(env, pool, txs).pool;
        assert Run(env, pool, acc).slots == Run(env, pool, acc0).slots + [Some(t)];
        forall a | 0 <= a < |acc| ensures Run(env, pool, acc).slots[a] == Some(acc[a]) {
          if a < |acc0| {
            assert Run(env, pool, acc).slots[a] == Run(env, pool, acc0).slots[a];
            assert acc[a] == acc0[a];
          }
        }
      } else {
        assert acc == acc0;
        assert Run(env, pool, acc).pool == Run(env, pool, txs).pool;
      }
    } else {
      assert Accepted(env, pool, txs) == [];
    }
  }

  /** The accepted transactions of a batch are those of all but its last candidate, plus that one if it is valid there. */
  lemma AcceptedStep(env: Env, pool: Pool, txs: seq<Transaction>)
    requires txs != []
    ensures var r0 := Run(env, pool, txs[..|txs| - 1]);
      var t := txs[|txs| - 1];
      && Accepted(env, pool, txs) == Accepted(env, pool, txs[..|txs| - 1]) + (if ValidTx(env, r0.pool, t) then [t] else [])
      && Run(env, pool, txs).pool == (if ValidTx(env, r0.pool, t) then ApplyTx(env, r0.pool, t) else r0.pool)
  {
    var slots := Run(env, pool, txs).slots;
    assert slots[..|slots| - 1] == Run(env, pool, txs[..|txs| - 1]).slots;
  }

  /**
   * The hashes of the candidates are distinct from each other and from the
   * transaction hash of every identifier already in the pool, as a
   * collision-free hash makes them for distinct transactions none of which
   * was applied before. A batch that repeats a transaction, or resubmits one
   * whose outputs are still in the pool, does not have unique hashes.
   */
  predicate UniqueHashes(env: Env, pool: Pool, txs: seq<Transaction>) {
    && (forall j, u :: 0 <= j < |txs| && u in pool ==> u.txHash != env.hash(txs[j]))
    && (forall j, k :: 0 <= j < k < |txs| ==> env.hash(txs[j]) != env.hash(txs[k]))
  }

  /** The hashes of the first n candidates. */
  function Hashes(env: Env, txs: seq<Transaction>, n: int): (hs: set<Bytes>)
    requires 0 <= n <= |txs|
    ensures forall m :: 0 <= m < n ==> env.hash(txs[m]) in hs
  {
    set m | 0 <= m < n :: env.hash(txs[m])
  }

  lemma HashesStep(env: Env, txs: seq<Transaction>, n: int)
    requires 0 <= n < |txs|
    ensures Hashes(env, txs, n + 1) == Hashes(env, txs, n) + {env.hash(txs[n])}
  {
  }

  lemma ClaimedSetMember(inputs: seq<Input>, u: UTXO)
    requires u in ClaimedSet(inputs)
    ensures exists i :: 0 <= i < |inputs| && Claimed(inputs[i]) == u
  {
    var input :| input in inputs && Claimed(input) == u;
    var i :| 0 <= i < |inputs| && inputs[i] == input;
  }

  /**
   * After the candidates done, with outcome r: every pool entry was in the
   * initial pool or carries one of the hashes hs, and every output an
   * accepted candidate claimed is such an identifier, is gone from the pool
   * and is claimed by no other accepted candidate.
   */
  predicate SpendInvariant(pool: Pool, hs: set<Bytes>, done: seq<Transaction>, r: BatchOutcome) {
    && |r.slots| == |done|
    && (forall u :: u in r.pool ==> u in pool || u.txHash in hs)
    && (forall j, u :: 0 <= j < |done| && r.slots[j].Some? && u in ClaimedSet(done[j].inputs) ==>
          (u in pool || u.txHash in hs) && u !in r.pool)
    && (forall j, k :: 0 <= j < k < |done| && r.slots[j].Some? && r.slots[k].Some? ==>
          ClaimedSet(done[j].inputs) !! ClaimedSet(done[k].inputs))
  }

  /** Accepting a valid tx whose hash is new keeps SpendInvariant. */
  lemma SpendInvariantAccept(env: Env, pool: Pool, hs: set<Bytes>, done: seq<Transaction>, r0: BatchOutcome, tx: Transaction,
                             hs': set<Bytes>, done': seq<Transaction>, r: BatchOutcome)
    requires SpendInvariant(pool, hs, done, r0)
    requires ValidTx(env, r0.pool, tx)
    requires env.hash(tx) !in hs && forall u :: u in pool ==> u.txHash != env.hash(tx)
    requires hs' == hs + {env.hash(tx)} && done' == done + [tx]
    requires r == BatchOutcome(ApplyTx(env, r0.pool, tx), r0.slots + [Some(tx)])
    ensures SpendInvariant(pool, hs', done', r)
  {
    var h := env.hash(tx);
    var m := |done|;
    assert forall j :: 0 <= j < m ==> r.slots[j] == r0.slots[j] && done'[j] == done[j];
    forall u | u in ClaimedSet(tx.inputs) ensures u in r0.pool {
      ClaimedSetMember(tx.inputs, u);
    }
    forall u | u in r.pool ensures u in pool || u.txHash in hs' {
    }
    forall j, u | 0 <= j < |done'| && r.slots[j].Some? && u in ClaimedSet(done'[j].inputs)
      ensures (u in pool || u.txHash in hs') && u !in r.pool
    {
      if j < m {
        assert u !in r0.pool;
        assert u.txHash != h;
      }
    }
    forall j, k | 0 <= j < k < |done'| && r.slots[j].Some? && r.slots[k].Some?
      ensures ClaimedSet(done'[j].inputs) !! ClaimedSet(done'[k].inputs)
    {
      if k == m {
        forall u | u in ClaimedSet(done[j].inputs) ensures u !in ClaimedSet(tx.inputs) {
          assert u !in r0.pool;
        }
      }
    }
  }

  /** Rejecting tx keeps SpendInvariant. */
  lemma SpendInvariantReject(pool: Pool, hs: set<Bytes>, done: seq<Transaction>, r0: BatchOutcome, tx: Transaction,
                             hs': set<Bytes>, done': seq<Transaction>, r: BatchOutcome)
    requires SpendInvariant(pool, hs, done, r0)
    requires hs <= hs' && done' == done + [tx] && r == BatchOutcome(r0.pool, r0.slots + [None])
    ensures SpendInvariant(pool, hs', done', r)
  {
    assert forall j :: 0 <= j < |done| ==> r.slots[j] == r0.slots[j] && done'[j] == done[j];
  }

  /** With unique hashes, candidate m's hash is carried by no initial identifier and no earlier candidate. */
  lemma HashFresh(env: Env, pool: Pool, txs: seq<Transaction>, m: int)
    requires UniqueHashes(env, pool, txs)
    requires 0 <= m < |txs|
    ensures env.hash(txs[m]) !in Hashes(env, txs, m)
    ensures forall u :: u in pool ==> u.txHash != env.hash(txs[m])
  {
  }

  /** Candidate m, accepted or rejected, keeps SpendInvariant. */
  lemma SpendStep(env: Env, pool: Pool, txs: seq<Transaction>, m: int)
    requires UniqueHashes(env, pool, txs)
    requires 0 <= m < |txs|
    requires SpendInvariant(pool, Hashes(env, txs, m), txs[..m], Run(env, pool, txs[..m]))
    ensures SpendInvariant(pool, Hashes(env, txs, m + 1), txs[..m + 1], Run(env, pool, txs[..m + 1]))
  {
    var n := m + 1;
    RunStep(env, pool, txs, m);
    HashesStep(env, txs, m);
    assert txs[..n] == txs[..m] + [txs[m]];
    var r0 := Run(env, pool, txs[..m]);
    if ValidTx(env, r0.pool, txs[m]) {
      HashFresh(env, pool, txs, m);
      SpendInvariantAccept(env, pool, Hashes(env, txs, m), txs[..m], r0, txs[m],
                           Hashes(env, txs, n), txs[..n], Run(env, pool, txs[..n]));
    } else {
      SpendInvariantReject(pool, Hashes(env, txs, m), txs[..m], r0, txs[m],
                           Hashes(env, txs, n), txs[..n], Run(env, pool, txs[..n]));
    }
  }

  /** The inductive core of NoDoubleSpend, over the first n candidates. */
  lemma {:induction false} NoDoubleSpendUpTo(env: Env, pool: Pool, txs: seq<Transaction>, n: int)
    requires UniqueHashes(env, pool, txs)
    requires 0 <= n <= |txs|
    ensures SpendInvariant(pool, Hashes(env, txs, n), txs[..n], Run(env, pool, txs[..n]))
  {
    if n == 0 {
      assert txs[..0] == [];
    } else {
      NoDoubleSpendUpTo(env, pool, txs, n - 1);
      SpendStep(env, pool, txs, n - 1);
    }
  }

  /**
   * No double spend across a batch, when hashes are unique: no two accepted
   * transactions claim the same output, and no output an accepted
   * transaction claimed is left in the final pool.
   */
  lemma NoDoubleSpend(env: Env, pool: Pool, txs: seq<Transaction>)
    requires UniqueHashes(env, pool, txs)
    ensures var r := Run(env, pool, txs);
      && (forall j, k :: 0 <= j < k < |txs| && r.slots[j].Some? && r.slots[k].Some? ==>
            ClaimedSet(txs[j].inputs) !! ClaimedSet(txs[k].inputs))
      && (forall j, u :: 0 <= j < |txs| && r.slots[j].Some? && u in ClaimedSet(txs[j].inputs) ==> u !in r.pool)
  {
    NoDoubleSpendUpTo(env, pool, txs, |txs|);
    assert txs[..|txs|] == txs;
  }

  /**
   * Where the final pool's entries come from, with no hypothesis on hashes:
   * each was in the initial pool or carries the hash of an accepted
   * candidate, since only accepted candidates add outputs.
   */
  lemma {:induction false} EntryOrigin(env: Env, pool: Pool, txs: seq<Transaction>)
    ensures var r := Run(env, pool, txs);
      forall u :: u in r.pool ==>
        u in pool || exists j :: 0 <= j < |txs| && r.slots[j] == Some(txs[j]) && u.txHash == env.hash(txs[j])
  {
    if txs != [] {
      var n := |txs| - 1;
      var front := txs[..n];
      EntryOrigin(env, pool, front);
      var before := Run(env, pool, front);
      var r := Run(env, pool, txs);
      assert forall j :: 0 <= j < n ==> r.slots[j] == before.slots[j] && front[j] == txs[j];
      forall u | u in r.pool && u !in pool
        ensures exists j :: 0 <= j < |txs| && r.slots[j] == Some(txs[j]) && u.txHash == env.hash(txs[j])
      {
        if u in before.pool {
          var j :| 0 <= j < n && before.slots[j] == Some(front[j]) && u.txHash == env.hash(front[j]);
          assert r.slots[j] == Some(txs[j]);
        } else {
          assert r.slots[n] == Some(txs[n]) && u.txHash == env.hash(txs[n]);
        }
      }
    }
  }

  /** Run on a batch of two candidates, spelled out. */
  lemma RunPair(env: Env, pool: Pool, a: Transaction, b: Transaction)
    ensures var first := if ValidTx(env, pool, a) then ApplyTx(env, pool, a) else pool;
      var slotA := if ValidTx(env, pool, a) then Some(a) else None;
      Run(env, pool, [a, b]) ==
        if ValidTx(env, first, b) then BatchOutcome(ApplyTx(env, first, b), [slotA, Some(b)])
        else BatchOutcome(first, [slotA, None])
  {
    var txs := [a, b];
    assert txs[..0] == [];
    RunStep(env, pool, txs, 0);
    var slotA := if ValidTx(env, pool, a) then Some(a) else None;
    assert Run(env, pool, txs[..1]).slots == [slotA];
    RunStep(env, pool, txs, 1);
    assert txs[..2] == txs;
  }

  /**
   * Order matters, first half: if a is valid and b is valid once a is
   * applied, the batch [a, b] accepts both.
   */
  lemma SpendAfterCreate(env: Env, pool: Pool, a: Transaction, b: Transaction)
    requires ValidTx(env, pool, a)
    requires ValidTx(env, ApplyTx(env, pool, a), b)
    ensures Run(env, pool, [a, b]).slots == [Some(a), Some(b)]
    ensures Accepted(env, pool, [a, b]) == [a, b]
  {
    RunPair(env, pool, a, b);
    var s: seq<Option<Transaction>> := [Some(a), Some(b)];
    assert s[..1] == [Some(a)];
    assert s[..1][..0] == [];
    assert Somes(s[..1]) == [a];
  }

  /**
   * Order matters, second half: if a is valid and some input i of b claims
   * an output k of a, which is not yet in the pool, the batch [b, a]
   * rejects b, whatever its other inputs, accepts a, and the compaction as
   * written fails on it.
   */
  lemma SpendBeforeCreate(env: Env, pool: Pool, a: Transaction, b: Transaction, i: int, k: int)
    requires ValidTx(env, pool, a)
    requires 0 <= i < |b.inputs| && Claimed(b.inputs[i]) == UTXO(env.hash(a), k) && UTXO(env.hash(a), k) !in pool
    ensures Run(env, pool, [b, a]).slots == [None, Some(a)]
    ensures Accepted(env, pool, [b, a]) == [a]
    ensures CompactAsWritten(Run(env, pool, [b, a]).slots).IndexOutOfBounds?
  {
    assert !AllClaimedInPool(pool, b.inputs);
    RunPair(env, pool, b, a);
    RejectedThenAcceptedFails(a);
  }

  /**
   * The handler works on its own copy of the pool: handling a batch
   * changes the handler's pool as Run says and leaves the caller's pool
   * object untouched.
   */
  method HandleOnCopy(env: Env, callerPool: UTXOPool, possibleTxs: array<Transaction>) returns (accepted: array<Transaction>)
    ensures callerPool.H == old(callerPool.H)
    ensures accepted[..] == Accepted(env, callerPool.H, possibleTxs[..])
  {
    var handler := new TxHandler(env, callerPool);
    accepted := handler.HandleTxs(possibleTxs);
  }

  /** isValidTx reads the pool and leaves it alone, so asking twice gives the same answer. */
  method RepeatedValidation(handler: TxHandler, tx: Transaction) returns (first: bool, second: bool)
    ensures first == second == ValidTx(handler.env, handler.utxoPool.H, tx)
  {
    first := handler.IsValidTx(tx);
    second := handler.IsValidTx(tx);
  }
}
