/** Money is not created: the total value held in the pool never grows when a
    valid transaction is committed, provided the transaction's own output
    identifiers are new to the pool (no hash collision). The same holds for
    a whole accepted batch. */
module Conservation {
  import opened Ledger
  import opened Validator
  import opened Batch

  /** Total value of the outputs in a pool. */
  ghost function Total(pool: Pool): int
    decreases |pool|
  {
    if pool == map[] then 0
    else
      var u :| u in pool;
      assert (pool - {u}).Keys == pool.Keys - {u};
      pool[u].value + Total(pool - {u})
  }

  /** Total does not depend on which entry is taken out first. */
  lemma {:induction false} TotalRemove(pool: Pool, u: UTXO)
    requires u in pool
    ensures Total(pool) == pool[u].value + Total(pool - {u})
    decreases |pool|
  {
    var w :| w in pool && Total(pool) == pool[w].value + Total(pool - {w});
    if w != u {
      assert (pool - {w}).Keys == pool.Keys - {w};
      assert (pool - {u}).Keys == pool.Keys - {u};
      TotalRemove(pool - {w}, u);
      TotalRemove(pool - {u}, w);
      assert pool - {w} - {u} == pool - {u} - {w};
    }
  }

  /** Removing the outputs a transaction's inputs spend lowers the total by
      exactly the sum of their values. */
  lemma {:induction false} TotalSpend(pool: Pool, inputs: seq<Input>)
    requires AllClaimedInPool(pool, inputs) && NoDoubleClaim(inputs)
    ensures Total(pool - ClaimedIds(inputs)) == Total(pool) - InputSum(pool, inputs)
  {
    if inputs == [] {
      assert pool - ClaimedIds(inputs) == pool;
    } else {
      var n := |inputs| - 1;
      var prefix := inputs[..n];
      var x := Claimed(inputs[n]);
      assert AllClaimedInPool(pool, prefix);
      assert NoDoubleClaim(prefix) by {
        forall i, j | 0 <= i < j < n ensures Claimed(prefix[i]) != Claimed(prefix[j]) {
          assert Claimed(inputs[i]) != Claimed(inputs[j]);
        }
      }
      TotalSpend(pool, prefix);
      ClaimedIdsSnoc(inputs, n);
      assert inputs[..n + 1] == inputs;
      var rest := pool - ClaimedIds(prefix);
      assert x !in ClaimedIds(prefix) by {
        forall k | 0 <= k < n ensures Claimed(prefix[k]) != x {
          assert Claimed(inputs[k]) != Claimed(inputs[n]);
        }
      }
      TotalRemove(rest, x);
      assert pool - ClaimedIds(inputs) == rest - {x};
    }
  }

  /** Binding a fresh identifier raises the total by the value bound. */
  lemma TotalInsert(pool: Pool, u: UTXO, o: Output)
    requires u !in pool
    ensures Total(pool[u := o]) == o.value + Total(pool)
  {
    TotalRemove(pool[u := o], u);
    assert pool[u := o] - {u} == pool;
  }

  /** One more output adds its value to the output sum. */
  lemma OutputSumSnoc(outputs: seq<Output>, k: nat)
    requires k < |outputs|
    ensures OutputSum(outputs[..k + 1]) == OutputSum(outputs[..k]) + outputs[k].value
  {
    assert outputs[..k + 1][..k] == outputs[..k];
  }

  /** The identifier of output `k` is not yet bound before it is added. */
  lemma FreshKey(base: Pool, tx: Transaction, k: nat)
    requires k < |tx.outputs| && UTXO(tx.hash, k) !in base
    ensures UTXO(tx.hash, k) !in base + NewOutputs(tx, k)
  {
  }

  /** Adding the first `n` outputs of a transaction under fresh identifiers
      raises the total by exactly the sum of their values. */
  lemma {:induction false} TotalCreate(base: Pool, tx: Transaction, n: nat)
    requires n <= |tx.outputs|
    requires forall i :: 0 <= i < |tx.outputs| ==> UTXO(tx.hash, i) !in base
    ensures Total(base + NewOutputs(tx, n)) == Total(base) + OutputSum(tx.outputs[..n])
  {
    if n == 0 {
      CommitEnds(base, tx);
      assert base + map[] == base;
      assert tx.outputs[..0] == [];
    } else {
      var k := n - 1;
      TotalCreate(base, tx, k);
      FreshKey(base, tx, k);
      CreateStep(base, tx, k);
      TotalInsert(base + NewOutputs(tx, k), UTXO(tx.hash, k), tx.outputs[k]);
      OutputSumSnoc(tx.outputs, k);
    }
  }

  /** Committing a valid transaction whose output identifiers are new to the
      pool changes the total by (outputs - inputs), which is never positive:
      the difference is the unclaimed fee. */
  lemma CommitConservesValue(c: Crypto, pool: Pool, tx: Transaction)
    requires IsValid(c, pool, tx)
    requires forall i :: 0 <= i < |tx.outputs| ==> UTXO(tx.hash, i) !in pool
    ensures Total(Commit(pool, tx)) == Total(pool) - InputSum(pool, tx.inputs) + OutputSum(tx.outputs)
    ensures Total(Commit(pool, tx)) <= Total(pool)
  {
    TotalSpend(pool, tx.inputs);
    TotalCreate(pool - ClaimedIds(tx.inputs), tx, |tx.outputs|);
    assert tx.outputs[..|tx.outputs|] == tx.outputs;
  }

  /** No hash collision along a batch: no transaction's output identifier is
      already in the starting pool, and the transactions' hashes differ. */
  ghost predicate FreshHashes(pool: Pool, txs: seq<Transaction>) {
    && (forall m, i :: 0 <= m < |txs| && 0 <= i < |txs[m].outputs| ==> UTXO(txs[m].hash, i) !in pool)
    && (forall k, m :: 0 <= k < m < |txs| ==> txs[k].hash != txs[m].hash)
  }

  /** Re-applying an accepted batch never raises the pool's total value. */
  lemma {:induction false} ReplayConservesValue(c: Crypto, pool: Pool, txs: seq<Transaction>)
    requires Replay(c, pool, txs).Some?
    requires FreshHashes(pool, txs)
    ensures Total(Replay(c, pool, txs).value) <= Total(pool)
    decreases |txs|
  {
    if txs != [] {
      var t := txs[0];
      var next := Commit(pool, t);
      CommitConservesValue(c, pool, t);
      assert FreshHashes(next, txs[1..]) by {
        forall m, i | 0 <= m < |txs| - 1 && 0 <= i < |txs[1..][m].outputs|
          ensures UTXO(txs[1..][m].hash, i) !in next
        {
          var u := UTXO(txs[m + 1].hash, i);
          assert u !in pool;
          assert txs[0].hash != txs[m + 1].hash;
          assert u !in Created(t);
        }
      }
      ReplayConservesValue(c, next, txs[1..]);
    }
  }
}
