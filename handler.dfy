/** The transaction handler: a ledger whose current pool of unspent outputs
    is a field, a validator that checks one transaction against it, and the
    batch processor that accepts transactions greedily and updates the pool. */
module Handler {
  import opened Ledger
  import opened Validator
  import opened Batch

  class TxHandler {
    var utxoPool: Pool
    const crypto: Crypto

    /** The handler starts from its own copy of the given pool; maps are
        values, so later updates never reach the caller's pool. */
    constructor (utxoPool: Pool, crypto: Crypto)
      ensures this.utxoPool == utxoPool && this.crypto == crypto
    {
      this.utxoPool := utxoPool;
      this.crypto := crypto;
    }

    /** True exactly when `tx` is non-null and satisfies the five conditions
        against the current pool; the pool is not changed. */
    method IsValidTx(tx: Option<Transaction>) returns (valid: bool)
      ensures valid <==> IsValidRef(crypto, utxoPool, tx)
    {
      if tx.None? {
        return false;
      }
      var t := tx.value;
      var validatedAndClaimedUTXO: set<UTXO> := {};
      var inputValueSum := 0;
      var outputValueSum := 0;

      for i := 0 to |t.inputs|
        invariant validatedAndClaimedUTXO == ClaimedIds(t.inputs[..i])
        invariant AllClaimedInPool(utxoPool, t.inputs[..i])
        invariant forall k :: 0 <= k < i ==> SignatureOk(crypto, utxoPool, t, k)
        invariant NoDoubleClaim(t.inputs[..i])
        invariant inputValueSum == InputSum(utxoPool, t.inputs[..i])
      {
        var input := t.inputs[i];
        var utxo := UTXO(input.prevTxHash, input.outputIndex);
        assert utxo == Claimed(t.inputs[i]);

        // (1) the claimed output is in the pool
        if utxo !in utxoPool {
          MissingInputInvalid(crypto, utxoPool, t, i);
          return false;
        }
        var utxoOutput := utxoPool[utxo];

        // (2) the input's signature is valid
        if !crypto.verifySignature(utxoOutput.address, crypto.rawDataToSign(t, i), input.signature) {
          assert !SignatureOk(crypto, utxoPool, t, i);
          return false;
        }

        // (3) no output is claimed twice
        if utxo in validatedAndClaimedUTXO {
          var k :| 0 <= k < i && utxo == Claimed(t.inputs[..i][k]);
          DoubleClaimInvalid(crypto, utxoPool, t, k, i);
          return false;
        }
        InputStep(utxoPool, t.inputs, i);
        validatedAndClaimedUTXO := validatedAndClaimedUTXO + {utxo};
        inputValueSum := inputValueSum + utxoOutput.value;
      }
      assert t.inputs[..|t.inputs|] == t.inputs;

      for j := 0 to |t.outputs|
        invariant OutputsNonNegative(t.outputs[..j])
        invariant outputValueSum == OutputSum(t.outputs[..j])
      {
        // (4) output values are non-negative
        if t.outputs[j].value < 0 {
          return false;
        }
        OutputStep(t.outputs, j);
        outputValueSum := outputValueSum + t.outputs[j].value;
      }
      assert t.outputs[..|t.outputs|] == t.outputs;

      // (5) the inputs cover the outputs
      if inputValueSum < outputValueSum {
        return false;
      }
      return true;
    }

    /** Commit an accepted transaction: remove the outputs its inputs spend,
        then add its own outputs under (tx.hash, index). */
    method UpdateUTXOPool(tx: Transaction)
      modifies this
      ensures utxoPool == Commit(old(utxoPool), tx)
    {
      ghost var start := utxoPool;
      CommitEnds(start, tx);
      for i := 0 to |tx.inputs|
        invariant utxoPool == start - ClaimedIds(tx.inputs[..i])
      {
        var input := tx.inputs[i];
        SpendStep(start, tx.inputs, i);
        utxoPool := utxoPool - {UTXO(input.prevTxHash, input.outputIndex)};
      }

      for i := 0 to |tx.outputs|
        invariant utxoPool == (start - ClaimedIds(tx.inputs)) + NewOutputs(tx, i)
      {
        CreateStep(start - ClaimedIds(tx.inputs), tx, i);
        utxoPool := utxoPool[UTXO(tx.hash, i) := tx.outputs[i]];
      }
    }

    /** One pass of the batch loop: scan the pending entries in order, and
        accept and commit at once every one valid against the pool as it
        stands at that point. Returns the accepted transactions and their
        positions in `pendingTxs`. */
    method AcceptPass(pendingTxs: seq<Option<Transaction>>) returns (accepted: seq<Transaction>, toRemove: seq<nat>)
      modifies this
      ensures Scan(crypto, old(utxoPool), pendingTxs) == PassState(utxoPool, accepted, toRemove)
    {
      ghost var start := utxoPool;
      accepted, toRemove := [], [];
      for i := 0 to |pendingTxs|
        invariant Scan(crypto, start, pendingTxs[..i]) == PassState(utxoPool, accepted, toRemove)
      {
        ScanSnoc(crypto, start, pendingTxs, i);
        var tx := pendingTxs[i];
        var ok := IsValidTx(tx);
        if ok {
          accepted := accepted + [tx.value];
          toRemove := toRemove + [i];
          UpdateUTXOPool(tx.value);
        }
      }
      ScanWhole(crypto, start, pendingTxs, toRemove);
    }

    /** Greedy fixed point over the candidates: passes (AcceptPass) run until
        one accepts nothing or nothing is pending; after each pass the
        accepted entries are dropped from pending. Returns the accepted
        transactions in acceptance order. */
    method HandleTxs(possibleTxs: seq<Option<Transaction>>) returns (validTxs: seq<Transaction>)
      modifies this
      ensures validTxs == Epochs(crypto, old(utxoPool), possibleTxs).accepted
      ensures utxoPool == Epochs(crypto, old(utxoPool), possibleTxs).pool
      ensures multiset(Refs(validTxs)) <= multiset(possibleTxs)
      ensures Replay(crypto, old(utxoPool), validTxs) == Some(utxoPool)
      ensures forall t :: multiset(Refs(validTxs))[t] < multiset(possibleTxs)[t] ==> !IsValidRef(crypto, utxoPool, t)
    {
      var pendingTxs := possibleTxs;
      validTxs := [];
      var count := 0;
      ghost var outcome := Epochs(crypto, utxoPool, possibleTxs);
      while true
        invariant outcome == Then(validTxs, Epochs(crypto, utxoPool, pendingTxs))
        decreases |pendingTxs|
      {
        ghost var passPool, passValid := utxoPool, validTxs;
        var accepted, toRemove := AcceptPass(pendingTxs);
        validTxs := validTxs + accepted;
        ghost var pass := PassState(utxoPool, accepted, toRemove);

        var remaining: seq<Option<Transaction>> := [];
        for j := 0 to |pendingTxs|
          invariant remaining == Without(pendingTxs[..j], toRemove)
          invariant utxoPool == pass.pool
        {
          WithoutSnoc(pendingTxs, toRemove, j);
          if j !in toRemove {
            remaining := remaining + [pendingTxs[j]];
          }
        }

        PassCompletes(crypto, passPool, pendingTxs, passValid, pass, remaining);
        pendingTxs := remaining;
        count := |toRemove|;
        if count == 0 || |pendingTxs| == 0 {
          break;
        }
      }
      EpochsSound(crypto, old(utxoPool), possibleTxs, outcome);
    }
  }
}
