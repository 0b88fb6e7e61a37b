# TxHandler: the transaction handler of a UTXO ledger

This project models the transaction handler of a small coin ledger
(`src/TxHandler.java`). The handler keeps a pool of unspent transaction
outputs (UTXOs). A UTXO is a (transaction hash, output index) pair, and the
pool maps it to the output it stands for (value, owner address). The handler
does three things:

- **`isValidTx`** decides whether one transaction is valid against the
  current pool. It is valid when all five of these hold:
  1. every output it claims is in the pool;
  2. every input's signature verifies against the address of the output the
     input claims;
  3. no output is claimed twice;
  4. no output value is negative;
  5. the inputs' values cover the outputs' values.
- **`updateUTXOPool`** commits an accepted transaction. It removes every UTXO
  the inputs spend. It then binds `(hash, i)` to output `i`.
- **`handleTxs`** takes a batch of candidate transactions. It makes passes
  over the pending list. Each pass accepts and commits at once every
  transaction valid against the pool as it stands at that moment, so later
  entries in the same pass see the new outputs. The accepted entries are
  then dropped from pending. Passes stop when one accepts nothing or nothing
  is pending. The result is the accepted transactions in acceptance order.

The files:

- `ledger.dfy` (module `Ledger`): the values (UTXO, Input, Output,
  Transaction, Pool, the cryptographic collaborators) and `Commit`, the pool
  after a transaction is accepted.
- `validator.dfy` (module `Validator`): the five conditions as predicates,
  `IsValid`, and lemmas about them.
- `batch.dfy` (module `Batch`): the batch semantics as functions. `Scan` is
  one pass. `Without` drops the accepted positions. `Epochs` repeats passes
  to the fixed point. `Replay` re-applies transactions one by one and gives
  an independent reference for the result. The lemmas relate them.
- `handler.dfy` (module `Handler`): the class `TxHandler`. Its field
  `utxoPool` is updated in place by loops that follow the Java code. Each
  method is proved against the functions above.
- `conservation.dfy` (module `Conservation`): the pool's total value never
  grows when valid transactions are committed, provided no hash collision
  occurs.
- `scenarios.dfy` (module `Scenarios`): small batches worked through the
  semantics.

A Java `null` transaction is `Option.None`. The cryptographic collaborators
(`Crypto.verifySignature`, `Transaction.getRawDataToSign`) are function
values held in a `Crypto` datatype. A transaction's hash is a field of the
transaction.

## Model

| member | source | states |
|---|---|---|
| Handler.TxHandler.constructor | src/TxHandler.java:15-17 | The handler starts with the given pool. The pool is a map value, so the handler holds its own copy. |
| Validator.IsValid | src/TxHandler.java:19-27 | The definition of validity: the conjunction of the five conditions, one predicate each, with condition (5) comparing the input sum taken from the pool against the output sum. |
| Validator.IsValidRef | src/TxHandler.java:28-29 | A null reference is never valid; a non-null one is valid exactly when `IsValid` holds. |
| Handler.TxHandler.IsValidTx | src/TxHandler.java:28-80 | Returns true exactly when the reference is non-null and all five conditions hold against the current pool. The method has no `modifies` clause, so the pool is unchanged. Each early return is matched by a proof that the transaction is invalid. |
| Validator.MissingInputInvalid | src/TxHandler.java:38-43 | A transaction with an input whose UTXO is not in the pool is invalid. |
| Validator.DoubleClaimInvalid | src/TxHandler.java:54-60 | Two inputs that claim the same UTXO make a transaction invalid, whatever the signatures and the pool. |
| Validator.ValueViolationInvalid | src/TxHandler.java:66-77 | A negative output, or input values that sum below the output values, make a transaction invalid. |
| Validator.NoDoubleClaimIffDistinct | src/TxHandler.java:31-60 | The inputs claim at most as many distinct UTXOs as there are inputs. Condition (3) holds exactly when the claimed set, which the source builds as a `HashSet`, has one element per input. |
| Validator.InputStep | src/TxHandler.java:35-64 | One more input that passes checks (1) and (3) grows the claimed set by its UTXO. It keeps conditions (1) and (3) on the prefix and adds its pool value to the input sum. |
| Validator.OutputStep | src/TxHandler.java:66-72 | One more non-negative output keeps condition (4) on the prefix and adds its value to the output sum. |
| Ledger.Commit | src/TxHandler.java:115-129 | The definition of a commit: the pool minus every identifier the inputs claim, then `(hash, i)` bound to output `i` for every output. Its effects are stated by `CommitEffect`. |
| Ledger.CommitEffect | src/TxHandler.java:115-129 | After a commit, each `(hash, i)` maps to output `i`. Each spent UTXO that is not one of those new keys is absent. Every other key keeps its entry, and no other key appears. |
| Handler.TxHandler.UpdateUTXOPool | src/TxHandler.java:115-129 | The two loops leave the field equal to `Commit` of the old pool: the spent UTXOs are removed, then every output is bound. |
| Batch.Scan | src/TxHandler.java:94-104 | One pass records positions and accepted transactions of the same length. Each recorded position holds the transaction accepted there. The positions strictly increase, so acceptance follows list order. |
| Handler.TxHandler.AcceptPass | src/TxHandler.java:94-104 | The scan loop of one pass leaves the pool, the accepted list and the taken positions exactly as `Scan` gives them from the pool at the start of the pass. |
| Batch.Without | src/TxHandler.java:105-107 | The definition of the removal loop: the pending entries whose positions the pass did not take, in their original order. |
| Batch.ScanShrinks | src/TxHandler.java:105-108 | Dropping what a pass took shortens pending by exactly the number of transactions it accepted. |
| Batch.ScanPartition | src/TxHandler.java:94-107 | After a pass, the accepted transactions plus the entries left pending are, as a multiset, the pending list before it. |
| Batch.ScanAcceptsNone | src/TxHandler.java:96-104 | A pass that accepts nothing leaves the pool unchanged. Every entry it saw is invalid against that pool. |
| Batch.ScanReplay | src/TxHandler.java:96-104 | Re-applying what a pass accepted, in acceptance order, finds each one valid just before its own commit and ends in the pass's pool. |
| Batch.Replay | src/TxHandler.java:99-102 | Not a source function: the independent reference for a batch's result. It re-applies a list of transactions one by one, each checked against the pool its predecessors built, and fails on the first invalid one. |
| Batch.ReplayConcat | src/TxHandler.java:99-102 | Re-applying two lists one after the other is the same as re-applying their concatenation. |
| Batch.ReplaySplit | src/TxHandler.java:99-102 | In a successful re-application, the k-th transaction is valid against the pool built from the ones before it. Continuing from its commit reaches the same final pool. |
| Batch.AbsentStaysAbsent | src/TxHandler.java:115-129 | A UTXO absent from the pool stays absent through any sequence of commits that never creates it. |
| Batch.PresentStaysPresent | src/TxHandler.java:115-129 | A UTXO in the pool stays present through any sequence of commits that never spends it. |
| Batch.SpentAbsentAtEnd | src/TxHandler.java:117-121 | After a batch, a UTXO spent by an accepted transaction is absent from the final pool, unless a hash collision re-creates it. |
| Batch.CreatedPresentAtEnd | src/TxHandler.java:123-128 | After a batch, every output created by an accepted transaction is in the final pool, unless a later accepted transaction spends it. |
| Batch.Epochs | src/TxHandler.java:93-110 | The definition of the do-while: one pass (`Scan`), then removal of what it took (`Without`). It stops when the pass accepted nothing or nothing is left pending. Otherwise it continues from the new pool with the shorter pending list, and the passes' acceptances are appended in order. The one-pass unfolding is the lemma `EpochsUnfold`. |
| Batch.EpochsPass | src/TxHandler.java:93-110 | The same step as `EpochsUnfold`, after transactions accepted in earlier passes. |
| Batch.PassCompletes | src/TxHandler.java:105-110 | After the removal loop, the outer loop either exits with the outcome `Epochs` promises, or it continues with strictly fewer pending entries. This is the termination measure. |
| Batch.EpochsPartition | src/TxHandler.java:89-110 | The candidates are, as a multiset, the accepted transactions plus the entries still pending at the end. |
| Batch.EpochsReplay | src/TxHandler.java:96-112 | Re-applying the accepted transactions in acceptance order succeeds step by step. Each one is valid against the pool just before its own commit, and the result is the final pool. |
| Batch.EpochsFixedPoint | src/TxHandler.java:108-110 | At the end, every entry still pending is invalid against the final pool. |
| Batch.EpochsSound | src/TxHandler.java:87-112 | The accepted transactions form a sub-multiset of the candidates. Re-applying them in order yields the final pool. Every candidate occurrence left unaccepted is invalid against the final pool. |
| Handler.TxHandler.HandleTxs | src/TxHandler.java:87-113 | The loops terminate. The result and the new pool are those of `Epochs`. The result is a sub-multiset of the candidates. Re-applying it in acceptance order yields the new pool. Every unaccepted candidate is invalid against the new pool. |
| Conservation.TotalSpend | src/TxHandler.java:117-121 | Removing the UTXOs a valid transaction spends lowers the pool's total value by exactly the input sum. |
| Conservation.TotalCreate | src/TxHandler.java:123-128 | Binding a transaction's outputs under fresh identifiers raises the total by exactly the output sum. |
| Conservation.CommitConservesValue | src/TxHandler.java:115-129 | Committing a valid transaction whose output identifiers are new to the pool changes the total by output sum minus input sum, which is never positive. |
| Conservation.ReplayConservesValue | src/TxHandler.java:87-112 | A batch of accepted transactions without hash collisions never raises the pool's total value. |
| Scenarios.DependentPairAccepted | src/TxHandler.java:93-110 | Suppose b spends an output of a, and b is listed first. The first pass accepts only a, and the second pass accepts b, so the result is [a, b]. |
| Scenarios.FirstPassDefers | src/TxHandler.java:94-107 | For the list [b, a], the first pass skips b, accepts a, and leaves b pending. |
| Scenarios.ConflictFirstWins | src/TxHandler.java:93-110 | Of two transactions that spend the same output, the first listed is accepted. The second stays pending, and the loop ends. |
| Scenarios.FirstPassConflict | src/TxHandler.java:94-107 | For the list [a, b], where a and b spend the same output, the pass accepts a and skips b. |
| Scenarios.ScanOne | src/TxHandler.java:96-104 | A pass over one entry accepts and commits it exactly when it is valid. |
| Scenarios.EpochsOne | src/TxHandler.java:93-110 | A batch of one entry accepts it and ends with its commit exactly when it is valid. Otherwise the pool is unchanged and the entry stays pending. |
| Scenarios.PaymentAccepted | src/TxHandler.java:28-80 | A correctly signed spend of a 10-unit output into one 10-unit output is valid and accepted. The spent output leaves the pool and the new one holds 10. |
| Scenarios.OverspendRejected | src/TxHandler.java:75-77 | Declaring 15 against an input of 10 is invalid. The batch accepts nothing and leaves the pool unchanged. |

## Left out

- Cryptography: `Crypto.verifySignature` and `Transaction.getRawDataToSign` are not part of this model. They are function values passed to the constructor, and nothing is assumed about them. The source's constructor takes only the pool, because `Crypto` is a static class there.
- `Transaction.getHash`: the hash is a field of the transaction. Computing it is not part of this model.
- Floating point: the source sums values as `double`. The model uses unbounded integers, so the sum comparison in condition (5) is exact and no rounding is modelled.
- Removal from pending: the source calls `pendingTxs.remove(tx)` once per accepted transaction. That call removes the first element equal to it, under an `equals` that is not part of this model. The model removes the accepted entries by position, building a new list (`Without`). The two differ only when a batch holds equal entries: then the source may keep a different copy in a different place, which can change the order of later passes.
- `toRemove`: the source records the accepted transactions, and the model records their positions.
- `UTXOPool` and `UTXO` internals: they are taken as a map keyed by value. The copy made by the `UTXOPool` copy constructor is the map value itself.
- Hash collisions: the model does not exclude a transaction whose output identifier is already a pool key, so a commit may overwrite that entry. Properties that need "no collision" state it as a precondition. These are `SpentAbsentAtEnd`, `TotalCreate`, `CommitConservesValue`, `ReplayConservesValue` (`FreshHashes`), `ConflictFirstWins` and `FirstPassConflict`.
- Java arrays: the input array and the result array are sequences. A `null` array is not modelled, and the source does not handle one either.
