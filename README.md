# Scroogecoin transaction handler, modelled in Dafny

This project models the ledger-update engine of Scroogecoin, a simplified
UTXO currency: the class `TxHandler` of `asn1/src/TxHandler.java`.

- **Constructor.** A handler takes a private copy of the caller's pool of
  unspent transaction outputs (UTXOs).
- **`isValidTx`.** Decides one transaction against that pool by five rules:
  - every claimed output is in the pool;
  - every input's signature verifies against the owner of the output it claims;
  - no output is claimed twice;
  - no output value is negative;
  - the outputs pay out no more than the claimed inputs are worth.
- **`handleTxs`.** Walks a batch in order. It checks each candidate
  against the pool as already changed by the candidates accepted before
  it. For each accepted candidate it adds the new outputs under
  (transaction hash, output index) and then removes the outputs its inputs
  spent. Finally it copies the accepted candidates into a new result array
  sized to their number. As written, that copy succeeds only when the accepted
  candidates form a prefix of the batch and throws otherwise (see "## Findings").

Layout:

- `ledger.dfy` (`Ledger`): the values.
  - Outputs, inputs, transactions and UTXO identifiers.
  - The pool contents as a `map<UTXO, Output>`.
  - The three collaborators as the fields of `Env`.
- `pool.dfy` (`Pools`): the mutable pool, a class `UTXOPool` with a map field.
- `validation.dfy` (`Validation`): the five rules as predicates, and `ValidTx`, their conjunction.
- `compaction.dfy` (`Compaction`): the end of `handleTxs`.
  - The slot array becomes the result array.
  - Both the compaction as written and the intended one are modelled.
- `tx_handler.dfy`:
  - `TxHandling` has the class `TxHandler`, its methods, and `Run`, the
    specification of the batch loop.
  - `BatchProperties` has the properties of whole batches.
- `conservation.dfy` (`Conservation`): the total value in the pool never grows over a batch.

The handler's methods are imperative. `IsValidTx` and `HandleTxs` are
loops with invariants. `HandleTxs` fills an `array<Option<Transaction>>`
slot by slot, and `Compact` fills the result array. Each method is proved
against a pure specification:

- `IsValidTx` decides exactly `ValidTx`.
- `HandleTxs` leaves the pool as `Run` says and returns `Accepted`.

The properties are then proved about those functions.

## Model

| member | source | states |
|---|---|---|
| Pools.UTXOPool.Copy | asn1/src/TxHandler.java:16 | the new pool holds exactly the entries of the pool it copies |
| Pools.UTXOPool.Contains | asn1/src/TxHandler.java:46 | membership: whether the identifier names an output of the current pool |
| Pools.UTXOPool.GetTxOutput | asn1/src/TxHandler.java:53 | lookup yields an output exactly when the identifier is in the pool, and then the output stored under it |
| Pools.UTXOPool.AddUTXO | asn1/src/TxHandler.java:97 | the pool gains (or has replaced) the entry for the identifier and is otherwise unchanged |
| Pools.UTXOPool.RemoveUTXO | asn1/src/TxHandler.java:105 | the pool loses the identifier, if present, and is otherwise unchanged |
| TxHandling.TxHandler.constructor | asn1/src/TxHandler.java:12-17 | the handler's pool is a freshly allocated object with the caller's entries |
| TxHandling.TxHandler.IsValidTx | asn1/src/TxHandler.java:28-78 | the loops over outputs and inputs return true exactly when all five rules hold against the current pool |
| Validation.ValidTx | asn1/src/TxHandler.java:19-27 | defines the five rules: no negative output, every claim in the pool, every signature verifies, no claim repeated, outputs at most the claimed value |
| Validation.RuleViolationsReject | asn1/src/TxHandler.java:28-78 | each rule on its own forces rejection, and acceptance implies the outputs sum to at most the claimed value (equality accepted) |
| Validation.NoDoubleClaimIffDistinctCount | asn1/src/TxHandler.java:61-65 | no output is claimed twice exactly when the inputs claim as many distinct outputs as there are inputs |
| Validation.ClaimedSetBound | asn1/src/TxHandler.java:61-65 | the inputs claim at most one output each, and strictly fewer outputs than inputs when one is claimed twice |
| TxHandling.ApplyTx | asn1/src/TxHandler.java:93-107 | after acceptance every claimed output is gone, every new (hash, k) not also claimed maps to output k, and every other entry is unchanged |
| TxHandling.TxHandler.AddOutputs | asn1/src/TxHandler.java:93-99 | the loop leaves the pool as before plus one entry (hash of tx, k) for each output k |
| TxHandling.TxHandler.RemoveSpentInputs | asn1/src/TxHandler.java:101-107 | the loop leaves the pool as before minus every output the inputs claim |
| TxHandling.Run | asn1/src/TxHandler.java:87-109 | processing a batch yields one slot per candidate, each empty or holding that same candidate |
| TxHandling.Accepted | asn1/src/TxHandler.java:80-84 | defines the result of a batch: the candidates whose slots Run fills, in batch order |
| TxHandling.RunStep | asn1/src/TxHandler.java:89-109 | the batch loop's step: candidate i is judged against the pool left by candidates before it, and applied only if valid |
| TxHandling.TxHandler.HandleTxs | asn1/src/TxHandler.java:85-126 | the handler's pool ends as the batch specification says, and the result is a newly allocated array holding exactly the accepted candidates in batch order |
| BatchProperties.SlotDecision | asn1/src/TxHandler.java:89-109 | a slot is filled iff its candidate was valid against the pool reached so far; a rejected one leaves the pool unchanged and its slot empty |
| BatchProperties.AcceptedConserveValue | asn1/src/TxHandler.java:73-77 | every accepted candidate paid out no more than its claimed outputs were worth when it was judged |
| BatchProperties.AcceptedIsOrderedSelection | asn1/src/TxHandler.java:80-84 | the a-th result is the candidate at the a-th filled slot, which holds that candidate; these positions strictly increase, and no filled slot is missed |
| BatchProperties.RerunAccepted | asn1/src/TxHandler.java:80-84 | the accepted transactions are mutually valid: replayed alone, in order, on the initial pool, every one is accepted and the final pool is the same |
| BatchProperties.NoDoubleSpendUpTo | asn1/src/TxHandler.java:89-107 | after any prefix of the batch, each pool entry is initial or carries the hash of some candidate of that prefix (accepted or not), and the outputs accepted candidates claimed are such entries, gone from the pool and pairwise disjoint |
| BatchProperties.EntryOrigin | asn1/src/TxHandler.java:89-107 | with no hypothesis on hashes, every entry of the final pool was in the initial pool or carries the hash of an accepted candidate, since rejected ones add nothing |
| BatchProperties.NoDoubleSpend | asn1/src/TxHandler.java:89-107 | no two accepted candidates claim the same output, and no claimed output is left in the final pool |
| BatchProperties.SpendAfterCreate | asn1/src/TxHandler.java:89-109 | a candidate spending the output of the candidate before it is accepted when both are valid in that order |
| BatchProperties.SpendBeforeCreate | asn1/src/TxHandler.java:89-123 | a candidate with any input claiming an output created later in the batch is rejected whatever its other inputs, and not retried; the copy as written then fails |
| BatchProperties.HandleOnCopy | asn1/src/TxHandler.java:7-17 | handling a batch on a handler built from a caller's pool leaves the caller's pool unchanged |
| BatchProperties.RepeatedValidation | asn1/src/TxHandler.java:28-78 | validating twice against an unchanged pool gives the same verdict |
| Conservation.ApplyTxValue | asn1/src/TxHandler.java:93-107 | accepting a valid candidate with a fresh hash lowers the pool's total value by exactly its fee, never raising it |
| Conservation.BatchNeverCreatesValue | asn1/src/TxHandler.java:85-109 | with unique hashes, the pool's total value after any prefix of the batch is at most its value before |
| Compaction.Compact | asn1/src/TxHandler.java:111-125 | the result is a newly allocated array holding the values of the filled slots, in slot order, with no gaps |
| Compaction.SomesIsOrderedSelection | asn1/src/TxHandler.java:111-125 | the k-th compacted value is the k-th filled slot, filled positions strictly increase, and every filled slot is listed |
| Compaction.SomesLength | asn1/src/TxHandler.java:111-118 | the result has at most one entry per slot, and fewer when some slot is empty |
| Compaction.CopyToSameIndex | asn1/src/TxHandler.java:119-123 | the copy loop as written: each filled slot i goes to position i, and the copy stops with an index-out-of-bounds error at the first filled slot past the end |
| Compaction.CompactAsWritten | asn1/src/TxHandler.java:111-123 | the compaction as written: count the filled slots, allocate that many, then copy each filled slot to its own index |
| Compaction.AsWrittenSucceedsIffPrefix | asn1/src/TxHandler.java:111-123 | the copy at the source index succeeds exactly when the filled slots form a prefix, and then it yields the compacted values |
| Compaction.GapMakesCopyFail | asn1/src/TxHandler.java:118-122 | an empty slot before a filled one makes the copy at the source index go out of bounds |
| Compaction.RejectedThenAcceptedFails | asn1/src/TxHandler.java:119-122 | a rejected candidate followed by an accepted one makes the copy fail at index 1 |

## Left out

- Amounts are `double` in the source; the model uses unbounded integers, so floating-point rounding of `sum` and `in_sum` is not modelled.
- NaN and infinite amounts are not modelled either. A NaN output value passes the check at line 31 (`value < 0` is false) and makes `sum` NaN, so the comparison at line 73 is false and the source accepts the transaction whatever its inputs are worth; that output then enters the pool, and a transaction spending it gets a NaN `in_sum` and may pay out any amount. An infinite `in_sum` has the same effect. The value properties (the last ensures of `Validation.RuleViolationsReject`, `BatchProperties.AcceptedConserveValue`, `Conservation.ApplyTxValue`, `Conservation.BatchNeverCreatesValue`) hold of the integer model only, not of the source's `double` arithmetic.
- Signature verification, the raw data an input signs and the transaction hash are fields of `Env`. They are arbitrary total functions, and the definitions assume nothing about them. The lemmas listed below about double spending and value add a hypothesis that hashes are unique or fresh.
- `UTXOPool.java`, `UTXO.java`, `Transaction.java` and `Crypto.java` are not part of this model.
  - The pool is a map with the five operations the handler calls: the copy constructor, `contains`, `getTxOutput`, `addUTXO` and `removeUTXO`.
  - `UTXO` is a value pair compared structurally, as `utxoList.contains` and the pool's hashing rely on.
- Null references are not modelled: a null batch, a null candidate or a null field of a transaction, each of which makes the source throw a null-pointer exception.
- TxHandling.TxHandler.HandleTxs: uses the intended compaction. The copy as written is modelled as `Compaction.CompactAsWritten`, which returns `IndexOutOfBounds` instead of throwing. It is not wired into the method because that would propagate the exception (see Findings).
- BatchProperties.NoDoubleSpend: proved only under `UniqueHashes`. The batch's hashes must be distinct and differ from every hash already in the pool. Otherwise a later output may overwrite an entry under the same key, which the source does not prevent.
- BatchProperties.NoDoubleSpendUpTo: carries the same `UniqueHashes` hypothesis.
- Conservation.BatchNeverCreatesValue: carries the same `UniqueHashes` hypothesis. Without it a new output may overwrite an existing entry; that raises the total only when the replaced entry has a negative value. A pool whose entries are all non-negative may be an alternative hypothesis, since accepted outputs are never negative; that variant is not proved here.
- Conservation.ApplyTxValue: carries the matching per-step hypothesis.

## Findings

| source | as written | input that shows it | evidently intended | confidence | as-written member | corrected member |
|---|---|---|---|---|---|---|
| asn1/src/TxHandler.java:121 | each accepted slot i is copied to position i of a result array whose length is the number of accepted candidates | a batch whose first candidate is rejected and whose second is accepted (for example B then A, where B spends an output of A): the result has length 1 and the copy writes index 1, which throws an index-out-of-bounds exception. By then the loop at lines 89-109 has already updated the handler's pool, so the caller loses the accepted list while the pool has moved on | copy the k-th accepted candidate to position k with a separate write index, giving a gap-free, order-preserving array of the accepted candidates | high; not executed | Compaction.RejectedThenAcceptedFails | Compaction.Compact |
