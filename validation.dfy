/**
 * The five validity rules for one transaction against a pool, stated as
 * predicates. TxHandling.TxHandler.IsValidTx is proved to decide exactly
 * ValidTx.
 */
module Validation {
  import opened Ledger

  /** The total of the output values, summed from the front. */
  function SumValues(outputs: seq<Output>): int {
    if outputs == [] then 0
    else SumValues(outputs[..|outputs| - 1]) + outputs[|outputs| - 1].value
  }

  /** Rule 4: no output pays a negative amount. */
  predicate NoNegativeOutputs(tx: Transaction) {
    forall k :: 0 <= k < |tx.outputs| ==> tx.outputs[k].value >= 0
  }

  /** Rule 1: every output claimed by the inputs is in the pool. */
  predicate AllClaimedInPool(pool: Pool, inputs: seq<Input>) {
    forall i :: 0 <= i < |inputs| ==> Claimed(inputs[i]) in pool
  }

  /** Rule 2 for input i: its signature verifies under the claimed output's owner. */
  predicate InputAuthorized(env: Env, pool: Pool, tx: Transaction, i: int)
    requires 0 <= i < |tx.inputs| && Claimed(tx.inputs[i]) in pool
  {
    env.verifySignature(pool[Claimed(tx.inputs[i])].address, env.rawDataToSign(tx, i), tx.inputs[i].signature)
  }

  predicate AllAuthorized(env: Env, pool: Pool, tx: Transaction)
    requires AllClaimedInPool(pool, tx.inputs)
  {
    forall i :: 0 <= i < |tx.inputs| ==> InputAuthorized(env, pool, tx, i)
  }

  /** Rule 3: no two inputs claim the same output. */
  predicate NoDoubleClaim(inputs: seq<Input>) {
    forall i, j :: 0 <= i < j < |inputs| ==> Claimed(inputs[i]) != Claimed(inputs[j])
  }

  /** The total value of the outputs the inputs claim, as recorded in the pool. */
  function ClaimedValue(pool: Pool, inputs: seq<Input>): int
    requires AllClaimedInPool(pool, inputs)
  {
    if inputs == [] then 0
    else ClaimedValue(pool, inputs[..|inputs| - 1]) + pool[Claimed(inputs[|inputs| - 1])].value
  }

  /** All five rules: tx may be accepted against pool. */
  predicate ValidTx(env: Env, pool: Pool, tx: Transaction) {
    && NoNegativeOutputs(tx)
    && AllClaimedInPool(pool, tx.inputs)
    && AllAuthorized(env, pool, tx)
    && NoDoubleClaim(tx.inputs)
    && SumValues(tx.outputs) <= ClaimedValue(pool, tx.inputs)
  }

  /** Input j, claiming an output in the pool that no earlier input claims, extends rules 1 and 3 and the claimed total. */
  lemma ClaimsExtend(pool: Pool, inputs: seq<Input>, j: int)
    requires 0 <= j < |inputs|
    requires AllClaimedInPool(pool, inputs[..j]) && NoDoubleClaim(inputs[..j])
    requires Claimed(inputs[j]) in pool
    requires forall i :: 0 <= i < j ==> Claimed(inputs[i]) != Claimed(inputs[j])
    ensures AllClaimedInPool(pool, inputs[..j + 1]) && NoDoubleClaim(inputs[..j + 1])
    ensures ClaimedValue(pool, inputs[..j + 1]) == ClaimedValue(pool, inputs[..j]) + pool[Claimed(inputs[j])].value
  {
    var front := inputs[..j];
    var next := inputs[..j + 1];
    assert next[..j] == front;
    assert forall i :: 0 <= i < j ==> next[i] == front[i] == inputs[i];
  }

  /** Two inputs up to j claiming the same output break rule 3 on the first j + 1 inputs. */
  lemma RepeatedClaim(inputs: seq<Input>, i: int, j: int)
    requires 0 <= i < j < |inputs| && Claimed(inputs[i]) == Claimed(inputs[j])
    ensures !NoDoubleClaim(inputs[..j + 1])
  {
    assert inputs[..j + 1][i] == inputs[i] && inputs[..j + 1][j] == inputs[j];
  }

  /**
   * Each rule on its own rejects: a negative output, an input whose claimed
   * output is not in the pool, an input whose signature does not verify,
   * or two inputs claiming the same output make tx invalid, and a valid tx
   * pays out no more than its inputs claim (equality allowed).
   */
  lemma RuleViolationsReject(env: Env, pool: Pool, tx: Transaction)
    ensures (exists k :: 0 <= k < |tx.outputs| && tx.outputs[k].value < 0) ==> !ValidTx(env, pool, tx)
    ensures (exists i :: 0 <= i < |tx.inputs| && Claimed(tx.inputs[i]) !in pool) ==> !ValidTx(env, pool, tx)
    ensures (exists i :: 0 <= i < |tx.inputs| && Claimed(tx.inputs[i]) in pool && !InputAuthorized(env, pool, tx, i)) ==>
      !ValidTx(env, pool, tx)
    ensures (exists i, j :: 0 <= i < j < |tx.inputs| && Claimed(tx.inputs[i]) == Claimed(tx.inputs[j])) ==>
      !ValidTx(env, pool, tx)
    ensures ValidTx(env, pool, tx) ==> SumValues(tx.outputs) <= ClaimedValue(pool, tx.inputs)
  {
  }

  /** Inputs claim at most one output each, and strictly fewer distinct outputs when two claim the same. */
  lemma {:induction false} ClaimedSetBound(inputs: seq<Input>)
    ensures |ClaimedSet(inputs)| <= |inputs|
    ensures !NoDoubleClaim(inputs) ==> |ClaimedSet(inputs)| < |inputs|
  {
    if inputs != [] {
      var front := inputs[..|inputs| - 1];
      ClaimedSetBound(front);
      ClaimsOfFront(inputs);
      var c := Claimed(inputs[|inputs| - 1]);
      AddOne(ClaimedSet(front), c);
      if !NoDoubleClaim(inputs) {
        var i, j :| 0 <= i < j < |inputs| && Claimed(inputs[i]) == Claimed(inputs[j]);
        if j < |front| {
          // The repeated claim is already among the other inputs.
          assert front[i] == inputs[i] && front[j] == inputs[j];
          assert !NoDoubleClaim(front);
        } else {
          // The last input repeats an earlier claim, so it adds no new output.
          ClaimOfFront(inputs, i);
          assert ClaimedSet(inputs) == ClaimedSet(front);
        }
      }
    }
  }

  /** Adding one element to a set adds at most one to its size, and nothing when it is already there. */
  lemma AddOne<T>(s: set<T>, x: T)
    ensures |s + {x}| <= |s| + 1
    ensures x in s ==> s + {x} == s
  {
    if x !in s {
      assert |s + {x}| == |s| + 1;
    }
  }

  /** The claim of an input other than the last is among the claims of all but the last input. */
  lemma ClaimOfFront(inputs: seq<Input>, i: int)
    requires 0 <= i < |inputs| - 1
    ensures Claimed(inputs[i]) in ClaimedSet(inputs[..|inputs| - 1])
  {
    assert inputs[..|inputs| - 1][i] == inputs[i];
  }

  /** Splitting off the last input: its claim joins the claims of the others, and distinct claims stay distinct. */
  lemma ClaimsOfFront(inputs: seq<Input>)
    requires inputs != []
    ensures var front := inputs[..|inputs| - 1];
      && ClaimedSet(inputs) == ClaimedSet(front) + {Claimed(inputs[|inputs| - 1])}
      && (NoDoubleClaim(inputs) ==> NoDoubleClaim(front) && Claimed(inputs[|inputs| - 1]) !in ClaimedSet(front))
  {
    var front := inputs[..|inputs| - 1];
    var last := inputs[|inputs| - 1];
    assert inputs == front + [last];
    if NoDoubleClaim(inputs) {
      assert NoDoubleClaim(front) by {
        forall i, j | 0 <= i < j < |front| ensures Claimed(front[i]) != Claimed(front[j]) {
          assert front[i] == inputs[i] && front[j] == inputs[j];
        }
      }
      assert Claimed(last) !in ClaimedSet(front) by {
        forall input | input in front ensures Claimed(input) != Claimed(last) {
          var i :| 0 <= i < |front| && front[i] == input;
          assert inputs[i] == input;
        }
      }
    }
  }

  /** Inputs that claim pairwise distinct outputs claim exactly as many outputs as there are inputs. */
  lemma {:induction false} DistinctClaimsCount(inputs: seq<Input>)
    requires NoDoubleClaim(inputs)
    ensures |ClaimedSet(inputs)| == |inputs|
  {
    if inputs != [] {
      ClaimsOfFront(inputs);
      DistinctClaimsCount(inputs[..|inputs| - 1]);
    }
  }

  /**
   * "No output is claimed twice" is the same as "the inputs claim as many
   * distinct outputs as there are inputs", so a valid transaction consumes
   * exactly one pool entry per input.
   */
  lemma NoDoubleClaimIffDistinctCount(inputs: seq<Input>)
    ensures |ClaimedSet(inputs)| <= |inputs|
    ensures NoDoubleClaim(inputs) <==> |ClaimedSet(inputs)| == |inputs|
  {
    ClaimedSetBound(inputs);
    if NoDoubleClaim(inputs) {
      DistinctClaimsCount(inputs);
    }
  }
}
