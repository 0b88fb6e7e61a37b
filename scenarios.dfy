/** Batches worked through the batch semantics: a transaction that depends on
    another listed after it, two transactions that spend the same output,
    and a single payment that is accepted or, when it overspends, rejected. */
module Scenarios {
  import opened Ledger
  import opened Validator
  import opened Batch

  /** A pass over a single entry. */
  lemma ScanOne(c: Crypto, pool: Pool, t: Option<Transaction>)
    ensures Scan(c, pool, [t]) ==
              if IsValidRef(c, pool, t) then PassState(Commit(pool, t.value), [t.value], [0])
              else PassState(pool, [], [])
  {
    assert [t][..0] == [];
    assert Scan(c, pool, []) == PassState(pool, [], []);
    assert [] + [0] == [0];
    if t.Some? {
      assert [] + [t.value] == [t.value];
    }
  }

  /** The whole batch semantics on a single entry. */
  lemma EpochsOne(c: Crypto, pool: Pool, t: Option<Transaction>)
    ensures Epochs(c, pool, [t]) ==
              if IsValidRef(c, pool, t) then Outcome(Commit(pool, t.value), [t.value], [])
              else Outcome(pool, [], [t])
  {
    ScanOne(c, pool, t);
    var s := Scan(c, pool, [t]);
    assert [t][..0] == [];
    assert Without([t], s.taken) == if IsValidRef(c, pool, t) then [] else [t];
    EpochsPass(c, pool, [t], [], s, Without([t], s.taken));
    assert [] + s.accepted == s.accepted;
  }

  /** A transaction listed after the one whose output it spends is still
      accepted, in a second pass: [b, a] yields both, a first. */
  lemma DependentPairAccepted(c: Crypto, pool: Pool, a: Transaction, b: Transaction, i: nat)
    requires IsValid(c, pool, a)
    requires i < |b.inputs| && Claimed(b.inputs[i]) !in pool
    requires IsValid(c, Commit(pool, a), b)
    ensures Epochs(c, pool, [Some(b), Some(a)]) == Outcome(Commit(Commit(pool, a), b), [a, b], [])
  {
    var pending := [Some(b), Some(a)];
    var p1 := Commit(pool, a);
    FirstPassDefers(c, pool, a, b, i);
    EpochsPass(c, pool, pending, [], PassState(p1, [a], [1]), [Some(b)]);
    EpochsOne(c, p1, Some(b));
    assert [a] + [b] == [a, b];
  }

  /** The first pass over [b, a] skips b, whose input is not yet in the pool,
      accepts a, and leaves b pending. */
  lemma FirstPassDefers(c: Crypto, pool: Pool, a: Transaction, b: Transaction, i: nat)
    requires IsValid(c, pool, a)
    requires i < |b.inputs| && Claimed(b.inputs[i]) !in pool
    ensures Scan(c, pool, [Some(b), Some(a)]) == PassState(Commit(pool, a), [a], [1])
    ensures Without([Some(b), Some(a)], [1]) == [Some(b)]
  {
    var pending := [Some(b), Some(a)];
    assert !IsValid(c, pool, b);
    ScanOne(c, pool, Some(b));
    assert pending[..1] == [Some(b)];
    assert Scan(c, pool, pending) == PassState(Commit(pool, a), [] + [a], [] + [1]);
    assert [] + [a] == [a];
    assert [] + [1] == [1];
    assert [Some(b)][..0] == [];
    assert Without([Some(b)], [1]) == [Some(b)];
  }

  /** Of two transactions spending the same output, the first in the list is
      accepted and the second stays pending, provided the first does not
      re-create that output under its own hash. */
  lemma ConflictFirstWins(c: Crypto, pool: Pool, a: Transaction, b: Transaction, i: nat, j: nat)
    requires IsValid(c, pool, a)
    requires i < |a.inputs| && j < |b.inputs| && Claimed(a.inputs[i]) == Claimed(b.inputs[j])
    requires Claimed(a.inputs[i]) !in Created(a)
    ensures Epochs(c, pool, [Some(a), Some(b)]) == Outcome(Commit(pool, a), [a], [Some(b)])
  {
    var p1 := Commit(pool, a);
    FirstPassConflict(c, pool, a, b, i, j);
    EpochsPass(c, pool, [Some(a), Some(b)], [], PassState(p1, [a], [0]), [Some(b)]);
    EpochsOne(c, p1, Some(b));
    assert [] + [a] == [a];
  }

  /** The first pass over [a, b] accepts a, after which b's input is gone,
      so b is skipped and stays pending. */
  lemma FirstPassConflict(c: Crypto, pool: Pool, a: Transaction, b: Transaction, i: nat, j: nat)
    requires IsValid(c, pool, a)
    requires i < |a.inputs| && j < |b.inputs| && Claimed(a.inputs[i]) == Claimed(b.inputs[j])
    requires Claimed(a.inputs[i]) !in Created(a)
    ensures Scan(c, pool, [Some(a), Some(b)]) == PassState(Commit(pool, a), [a], [0])
    ensures Without([Some(a), Some(b)], [0]) == [Some(b)]
  {
    var pending := [Some(a), Some(b)];
    var p1 := Commit(pool, a);
    CommitEffect(pool, a);
    MissingInputInvalid(c, p1, b, j);
    ScanOne(c, pool, Some(a));
    assert pending[..1] == [Some(a)] && [Some(a)][..0] == [];
    assert Without([Some(a)], [0]) == [];
  }

  /** The output O1 the single-payment scenario starts from. */
  function O1(): UTXO {
    UTXO([0], 0)
  }

  /** A pool holding only O1: value 10, owned by key `owner`. */
  function StartPool(owner: Bytes): Pool {
    map[O1() := Output(10, owner)]
  }

  /** A transaction spending O1 with signature `sig` and paying `amount`
      to key `payee`. */
  function Pay(payee: Bytes, amount: int, sig: Bytes): Transaction {
    Transaction([1], [Input([0], 0, sig)], [Output(amount, payee)])
  }

  /** Spending O1 correctly signed into one output of 10 is valid; the batch
      accepts it, O1 leaves the pool, and (hash, 0) holds 10 for the payee. */
  lemma PaymentAccepted(c: Crypto, owner: Bytes, payee: Bytes, sig: Bytes)
    requires c.verifySignature(owner, c.rawDataToSign(Pay(payee, 10, sig), 0), sig)
    ensures IsValid(c, StartPool(owner), Pay(payee, 10, sig))
    ensures Epochs(c, StartPool(owner), [Some(Pay(payee, 10, sig))])
              == Outcome(map[UTXO([1], 0) := Output(10, payee)], [Pay(payee, 10, sig)], [])
    ensures O1() !in Epochs(c, StartPool(owner), [Some(Pay(payee, 10, sig))]).pool
  {
    var t := Pay(payee, 10, sig);
    var pool := StartPool(owner);
    assert Claimed(t.inputs[0]) == O1();
    assert [t.inputs[0]][..0] == [];
    assert InputSum(pool, t.inputs) == 10;
    assert [t.outputs[0]][..0] == [];
    assert OutputSum(t.outputs) == 10;
    assert IsValid(c, pool, t);
    assert ClaimedIds(t.inputs) == {O1()};
    assert Created(t) == map[UTXO([1], 0) := Output(10, payee)];
    var after := Commit(pool, t);
    assert after == map[UTXO([1], 0) := Output(10, payee)];
    EpochsOne(c, pool, Some(t));
  }

  /** Declaring an output of 15 against an input of 10 is invalid; the batch
      accepts nothing and leaves the pool as it was. */
  lemma OverspendRejected(c: Crypto, owner: Bytes, payee: Bytes, sig: Bytes)
    ensures !IsValid(c, StartPool(owner), Pay(payee, 15, sig))
    ensures Epochs(c, StartPool(owner), [Some(Pay(payee, 15, sig))])
              == Outcome(StartPool(owner), [], [Some(Pay(payee, 15, sig))])
  {
    var t := Pay(payee, 15, sig);
    var pool := StartPool(owner);
    assert Claimed(t.inputs[0]) == O1();
    assert [t.inputs[0]][..0] == [];
    assert InputSum(pool, t.inputs) == 10;
    assert [t.outputs[0]][..0] == [];
    assert OutputSum(t.outputs) == 15;
    EpochsOne(c, pool, Some(t));
  }
}
