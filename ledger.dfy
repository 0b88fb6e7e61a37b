/** The values the transaction handler works on: output identifiers, outputs,
    inputs, transactions, the pool of unspent outputs, and the pool update
    that commits an accepted transaction. */
module Ledger {

  type Bytes = seq<bv8>

  /** A Java reference that may be null. */
  datatype Option<+T> = None | Some(value: T)

  /** Identifier of an unspent output: the hash of the transaction that
      created it and the output's index in that transaction. */
  datatype UTXO = UTXO(txHash: Bytes, index: int)

  /** An output: the amount it carries and the (encoded) public key that may
      spend it. */
  datatype Output = Output(value: int, address: Bytes)

  /** An input: the output it spends and the signature that authorises it. */
  datatype Input = Input(prevTxHash: Bytes, outputIndex: int, signature: Bytes)

  /** A finalized transaction. `hash` is the content hash the transaction
      reports for itself; computing it is outside this model. */
  datatype Transaction = Transaction(hash: Bytes, inputs: seq<Input>, outputs: seq<Output>)

  /** The pool of unspent outputs: a map keyed by value. */
  type Pool = map<UTXO, Output>

  /** The cryptographic collaborators: signature verification
      (address, message, signature) and the message an input signs
      (transaction, input index). Both are opaque to the handler. */
  datatype Crypto = Crypto(
    verifySignature: (Bytes, Bytes, Bytes) -> bool,
    rawDataToSign: (Transaction, int) -> Bytes)

  /** The identifier of the output an input spends. */
  function Claimed(input: Input): UTXO {
    UTXO(input.prevTxHash, input.outputIndex)
  }

  /** Identifiers spent by a sequence of inputs. */
  function ClaimedIds(inputs: seq<Input>): set<UTXO> {
    set i | 0 <= i < |inputs| :: Claimed(inputs[i])
  }

  /** The entries the first `n` outputs of `tx` add to the pool. */
  function NewOutputs(tx: Transaction, n: nat): map<UTXO, Output>
    requires n <= |tx.outputs|
  {
    map i | 0 <= i < n :: UTXO(tx.hash, i) := tx.outputs[i]
  }

  /** The entries all outputs of `tx` add to the pool. */
  function Created(tx: Transaction): map<UTXO, Output> {
    NewOutputs(tx, |tx.outputs|)
  }

  /** The pool after `tx` is accepted: every identifier its inputs spend is
      removed, then (tx.hash, i) is bound to output i for every output. */
  function Commit(pool: Pool, tx: Transaction): Pool {
    (pool - ClaimedIds(tx.inputs)) + Created(tx)
  }

  /** What committing does to each identifier: every new output is present
      with its value; every spent identifier that the transaction does not
      re-create is gone; every other identifier keeps its entry; nothing else
      appears. */
  lemma CommitEffect(pool: Pool, tx: Transaction)
    ensures forall i :: 0 <= i < |tx.outputs| ==>
              UTXO(tx.hash, i) in Commit(pool, tx) && Commit(pool, tx)[UTXO(tx.hash, i)] == tx.outputs[i]
    ensures forall i :: 0 <= i < |tx.inputs| && Claimed(tx.inputs[i]) !in Created(tx) ==>
              Claimed(tx.inputs[i]) !in Commit(pool, tx)
    ensures forall u :: u !in ClaimedIds(tx.inputs) && u !in Created(tx) ==>
              (u in Commit(pool, tx) <==> u in pool) && (u in Commit(pool, tx) ==> Commit(pool, tx)[u] == pool[u])
    ensures Commit(pool, tx).Keys <= pool.Keys + Created(tx).Keys
  {
  }

  /** Spending one more input removes one more identifier. */
  lemma SpendStep(pool: Pool, inputs: seq<Input>, i: nat)
    requires i < |inputs|
    ensures pool - ClaimedIds(inputs[..i + 1]) == (pool - ClaimedIds(inputs[..i])) - {Claimed(inputs[i])}
  {
    ClaimedIdsSnoc(inputs, i);
  }

  /** The ends of the two steps of a commit: nothing spent yet, all spent
      and nothing created yet, everything created. */
  lemma CommitEnds(pool: Pool, tx: Transaction)
    ensures pool - ClaimedIds(tx.inputs[..0]) == pool
    ensures NewOutputs(tx, 0) == map[]
    ensures pool - ClaimedIds(tx.inputs[..|tx.inputs|]) + NewOutputs(tx, 0) == pool - ClaimedIds(tx.inputs)
    ensures pool - ClaimedIds(tx.inputs) + NewOutputs(tx, |tx.outputs|) == Commit(pool, tx)
  {
    assert ClaimedIds(tx.inputs[..0]) == {};
    assert tx.inputs[..|tx.inputs|] == tx.inputs;
    assert NewOutputs(tx, 0) == map[];
  }

  /** Creating one more output adds one more entry. */
  lemma CreateStep(base: Pool, tx: Transaction, n: nat)
    requires n < |tx.outputs|
    ensures base + NewOutputs(tx, n + 1) == (base + NewOutputs(tx, n))[UTXO(tx.hash, n) := tx.outputs[n]]
  {
    NewOutputsSnoc(tx, n);
  }

  lemma ClaimedIdsSnoc(inputs: seq<Input>, i: nat)
    requires i < |inputs|
    ensures ClaimedIds(inputs[..i + 1]) == ClaimedIds(inputs[..i]) + {Claimed(inputs[i])}
  {
    var a, b := ClaimedIds(inputs[..i + 1]), ClaimedIds(inputs[..i]) + {Claimed(inputs[i])};
    forall u | u in a ensures u in b {
      var k :| 0 <= k < i + 1 && u == Claimed(inputs[..i + 1][k]);
      if k < i { assert u == Claimed(inputs[..i][k]); }
    }
    forall u | u in b ensures u in a {
      if u == Claimed(inputs[i]) {
        assert u == Claimed(inputs[..i + 1][i]);
      } else {
        var k :| 0 <= k < i && u == Claimed(inputs[..i][k]);
        assert u == Claimed(inputs[..i + 1][k]);
      }
    }
  }

  lemma NewOutputsSnoc(tx: Transaction, n: nat)
    requires n < |tx.outputs|
    ensures NewOutputs(tx, n + 1) == NewOutputs(tx, n)[UTXO(tx.hash, n) := tx.outputs[n]]
  {
    var a, b := NewOutputs(tx, n + 1), NewOutputs(tx, n)[UTXO(tx.hash, n) := tx.outputs[n]];
    forall u | u in a ensures u in b && a[u] == b[u] {
      var k :| 0 <= k < n + 1 && u == UTXO(tx.hash, k);
      if k < n { assert u in NewOutputs(tx, n); }
    }
    forall u | u in b ensures u in a {
      if u != UTXO(tx.hash, n) {
        var k :| 0 <= k < n && u == UTXO(tx.hash, k);
      }
    }
  }
}
