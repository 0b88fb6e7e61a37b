/** What it means for one transaction to be valid against a pool: the five
    conditions of TxHandler.isValidTx, stated declaratively. The class
    TxHandler (module Handler) checks them with a loop and is proved to
    agree with IsValid. */
module Validator {
  import opened Ledger

  /** Condition (1): every output an input claims is in the pool. */
  ghost predicate AllClaimedInPool(pool: Pool, inputs: seq<Input>) {
    forall i :: 0 <= i < |inputs| ==> Claimed(inputs[i]) in pool
  }

  /** The signature of input `i` verifies against the address of the output
      it claims, over the message the transaction gives for that input. */
  ghost predicate SignatureOk(c: Crypto, pool: Pool, tx: Transaction, i: int)
    requires 0 <= i < |tx.inputs| && Claimed(tx.inputs[i]) in pool
  {
    c.verifySignature(pool[Claimed(tx.inputs[i])].address, c.rawDataToSign(tx, i), tx.inputs[i].signature)
  }

  /** Condition (2): the signature on every input is valid. */
  ghost predicate SignaturesValid(c: Crypto, pool: Pool, tx: Transaction)
    requires AllClaimedInPool(pool, tx.inputs)
  {
    forall i :: 0 <= i < |tx.inputs| ==> SignatureOk(c, pool, tx, i)
  }

  /** Condition (3): no output is claimed by two inputs. */
  ghost predicate NoDoubleClaim(inputs: seq<Input>) {
    forall i, j :: 0 <= i < j < |inputs| ==> Claimed(inputs[i]) != Claimed(inputs[j])
  }

  /** Condition (4): every output value is non-negative. */
  ghost predicate OutputsNonNegative(outputs: seq<Output>) {
    forall j :: 0 <= j < |outputs| ==> outputs[j].value >= 0
  }

  /** Sum of the pool values of the outputs the inputs claim. */
  ghost function InputSum(pool: Pool, inputs: seq<Input>): int
    requires AllClaimedInPool(pool, inputs)
  {
    if inputs == [] then 0
    else InputSum(pool, inputs[..|inputs| - 1]) + pool[Claimed(inputs[|inputs| - 1])].value
  }

  /** Sum of the output values. */
  ghost function OutputSum(outputs: seq<Output>): int {
    if outputs == [] then 0
    else OutputSum(outputs[..|outputs| - 1]) + outputs[|outputs| - 1].value
  }

  /** A transaction is valid against `pool` when all five conditions hold;
      condition (5) is that the inputs' values cover the outputs' values. */
  ghost predicate IsValid(c: Crypto, pool: Pool, tx: Transaction) {
    && AllClaimedInPool(pool, tx.inputs)
    && SignaturesValid(c, pool, tx)
    && NoDoubleClaim(tx.inputs)
    && OutputsNonNegative(tx.outputs)
    && InputSum(pool, tx.inputs) >= OutputSum(tx.outputs)
  }

  /** Validity of a possibly-null transaction reference: null is never valid. */
  ghost predicate IsValidRef(c: Crypto, pool: Pool, t: Option<Transaction>) {
    t.Some? && IsValid(c, pool, t.value)
  }

  /** One more input that passes conditions (1)-(3) extends the checked
      prefix: the claimed identifiers, conditions (1) and (3), and the input
      sum all grow by that input. */
  lemma InputStep(pool: Pool, inputs: seq<Input>, i: nat)
    requires i < |inputs|
    requires AllClaimedInPool(pool, inputs[..i]) && NoDoubleClaim(inputs[..i])
    requires Claimed(inputs[i]) in pool && Claimed(inputs[i]) !in ClaimedIds(inputs[..i])
    ensures ClaimedIds(inputs[..i + 1]) == ClaimedIds(inputs[..i]) + {Claimed(inputs[i])}
    ensures AllClaimedInPool(pool, inputs[..i + 1]) && NoDoubleClaim(inputs[..i + 1])
    ensures InputSum(pool, inputs[..i + 1]) == InputSum(pool, inputs[..i]) + pool[Claimed(inputs[i])].value
  {
    ClaimedIdsSnoc(inputs, i);
    var prefix, next := inputs[..i], inputs[..i + 1];
    assert next[..i] == prefix;
    forall k, l | 0 <= k < l < |next| ensures Claimed(next[k]) != Claimed(next[l]) {
      if l == i {
        assert Claimed(next[k]) == Claimed(prefix[k]);
      } else {
        assert Claimed(prefix[k]) != Claimed(prefix[l]);
      }
    }
  }

  /** One more non-negative output extends the checked prefix of outputs. */
  lemma OutputStep(outputs: seq<Output>, j: nat)
    requires j < |outputs| && OutputsNonNegative(outputs[..j]) && outputs[j].value >= 0
    ensures OutputsNonNegative(outputs[..j + 1])
    ensures OutputSum(outputs[..j + 1]) == OutputSum(outputs[..j]) + outputs[j].value
  {
    assert outputs[..j + 1][..j] == outputs[..j];
  }

  /** An input whose output is not in the pool makes the transaction invalid. */
  lemma MissingInputInvalid(c: Crypto, pool: Pool, tx: Transaction, i: int)
    requires 0 <= i < |tx.inputs| && Claimed(tx.inputs[i]) !in pool
    ensures !IsValid(c, pool, tx)
  {
  }

  /** Two inputs claiming the same output make the transaction invalid,
      whatever the signatures and whatever the pool. */
  lemma DoubleClaimInvalid(c: Crypto, pool: Pool, tx: Transaction, i: int, j: int)
    requires 0 <= i < j < |tx.inputs| && Claimed(tx.inputs[i]) == Claimed(tx.inputs[j])
    ensures !IsValid(c, pool, tx)
  {
  }

  /** A negative output, or outputs worth more than the inputs, make the
      transaction invalid. */
  lemma ValueViolationInvalid(c: Crypto, pool: Pool, tx: Transaction)
    requires !OutputsNonNegative(tx.outputs)
          || (AllClaimedInPool(pool, tx.inputs) && InputSum(pool, tx.inputs) < OutputSum(tx.outputs))
    ensures !IsValid(c, pool, tx)
  {
  }

  /** Condition (3) has an equivalent counting form: the inputs claim as many
      distinct outputs as there are inputs. */
  lemma {:induction false} NoDoubleClaimIffDistinct(inputs: seq<Input>)
    ensures |ClaimedIds(inputs)| <= |inputs|
    ensures NoDoubleClaim(inputs) <==> |ClaimedIds(inputs)| == |inputs|
  {
    if inputs == [] {
      assert ClaimedIds(inputs) == {};
    } else {
      var n := |inputs| - 1;
      var prefix := inputs[..n];
      NoDoubleClaimIffDistinct(prefix);
      ClaimedIdsSnoc(inputs, n);
      assert inputs[..n + 1] == inputs;
      var x := Claimed(inputs[n]);
      if x in ClaimedIds(prefix) {
        var k :| 0 <= k < n && x == Claimed(prefix[k]);
        assert Claimed(inputs[k]) == Claimed(inputs[n]);
        assert !NoDoubleClaim(inputs);
      } else {
        assert NoDoubleClaim(inputs) <==> NoDoubleClaim(prefix) by {
          if NoDoubleClaim(prefix) {
            forall i, j | 0 <= i < j < |inputs| ensures Claimed(inputs[i]) != Claimed(inputs[j]) {
              if j == n {
                assert Claimed(inputs[i]) in ClaimedIds(prefix) by {
                  assert Claimed(inputs[i]) == Claimed(prefix[i]);
                }
              } else {
                assert Claimed(prefix[i]) != Claimed(prefix[j]);
              }
            }
          }
          if NoDoubleClaim(inputs) {
            forall i, j | 0 <= i < j < |prefix| ensures Claimed(prefix[i]) != Claimed(prefix[j]) {
              assert Claimed(inputs[i]) != Claimed(inputs[j]);
            }
          }
        }
      }
    }
  }
}
