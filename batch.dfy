/** The batch semantics of TxHandler.handleTxs as functions: one pass over the
    pending list (Scan), the removal of the accepted entries (Without), the
    repetition of passes up to a fixed point (Epochs), and the sequential
    re-application of accepted transactions (Replay) that characterises the
    result. */
module Batch {
  import opened Ledger
  import opened Validator

  /** The state of a pass after it has scanned a prefix of the pending list:
      the current pool, the transactions accepted in this pass in order, and
      their positions in the pending list. */
  datatype PassState = PassState(pool: Pool, accepted: seq<Transaction>, taken: seq<nat>)

  /** One pass: scan `pending` left to right; accept every entry valid
      against the pool as it stands at that point, and commit it at once. */
  ghost function Scan(c: Crypto, pool: Pool, pending: seq<Option<Transaction>>): (s: PassState)
    ensures |s.taken| == |s.accepted|
    ensures forall k :: 0 <= k < |s.taken| ==>
              s.taken[k] < |pending| && pending[s.taken[k]] == Some(s.accepted[k])
    ensures forall k, l :: 0 <= k < l < |s.taken| ==> s.taken[k] < s.taken[l]
    decreases |pending|
  {
    if pending == [] then PassState(pool, [], [])
    else
      var n := |pending| - 1;
      var s := Scan(c, pool, pending[..n]);
      if IsValidRef(c, s.pool, pending[n]) then
        PassState(Commit(s.pool, pending[n].value), s.accepted + [pending[n].value], s.taken + [n])
      else s
  }

  /** The entries of `s` whose positions are not listed in `taken`, in order. */
  function Without<T>(s: seq<T>, taken: seq<nat>): seq<T> {
    if s == [] then []
    else Without(s[..|s| - 1], taken) + (if |s| - 1 in taken then [] else [s[|s| - 1]])
  }

  /** Transactions seen as (non-null) references. */
  function Refs(txs: seq<Transaction>): seq<Option<Transaction>> {
    if txs == [] then [] else Refs(txs[..|txs| - 1]) + [Some(txs[|txs| - 1])]
  }

  /** Refs distributes over concatenation. */
  lemma {:induction false} RefsConcat(a: seq<Transaction>, b: seq<Transaction>)
    ensures Refs(a + b) == Refs(a) + Refs(b)
  {
    if b == [] {
      assert a + b == a;
    } else {
      var n := |b| - 1;
      assert (a + b)[..|a + b| - 1] == a + b[..n];
      RefsConcat(a, b[..n]);
    }
  }

  /** Marking a position past the end as taken removes nothing more. */
  lemma {:induction false} WithoutBeyond<T>(s: seq<T>, taken: seq<nat>, n: nat)
    requires n >= |s|
    ensures Without(s, taken + [n]) == Without(s, taken)
  {
    if s != [] {
      WithoutBeyond(s[..|s| - 1], taken, n);
    }
  }

  /** With nothing taken, nothing is removed. */
  lemma {:induction false} WithoutNothing<T>(s: seq<T>)
    ensures Without(s, []) == s
  {
    if s != [] {
      WithoutNothing(s[..|s| - 1]);
    }
  }

  /** A pass over the whole list is the pass over its full prefix. */
  lemma ScanWhole(c: Crypto, pool: Pool, pending: seq<Option<Transaction>>, taken: seq<nat>)
    ensures Scan(c, pool, pending[..|pending|]) == Scan(c, pool, pending)
    ensures Without(pending[..|pending|], taken) == Without(pending, taken)
  {
    assert pending[..|pending|] == pending;
  }

  /** One more step of a pass. */
  lemma ScanSnoc(c: Crypto, pool: Pool, pending: seq<Option<Transaction>>, i: nat)
    requires i < |pending|
    ensures var s := Scan(c, pool, pending[..i]);
            Scan(c, pool, pending[..i + 1]) ==
              if IsValidRef(c, s.pool, pending[i])
              then PassState(Commit(s.pool, pending[i].value), s.accepted + [pending[i].value], s.taken + [i])
              else s
  {
    assert pending[..i + 1][..i] == pending[..i];
  }

  /** One more step of the removal of the accepted entries. */
  lemma WithoutSnoc<T>(s: seq<T>, taken: seq<nat>, j: nat)
    requires j < |s|
    ensures Without(s[..j + 1], taken) == Without(s[..j], taken) + (if j in taken then [] else [s[j]])
  {
    assert s[..j + 1][..j] == s[..j];
  }

  /** A pass shrinks the pending list by exactly the number it accepts. */
  lemma {:induction false} ScanShrinks(c: Crypto, pool: Pool, pending: seq<Option<Transaction>>)
    ensures var s := Scan(c, pool, pending);
            |Without(pending, s.taken)| == |pending| - |s.accepted|
  {
    if pending != [] {
      var n := |pending| - 1;
      var prefix := pending[..n];
      var s', s := Scan(c, pool, prefix), Scan(c, pool, pending);
      ScanShrinks(c, pool, prefix);
      if IsValidRef(c, s'.pool, pending[n]) {
        WithoutBeyond(prefix, s'.taken, n);
      } else {
        assert n !in s'.taken;
      }
    }
  }

  /** A non-empty list is its prefix followed by its last entry. */
  lemma LastSplit<T>(s: seq<T>)
    requires s != []
    ensures s == s[..|s| - 1] + [s[|s| - 1]]
    ensures multiset(s) == multiset(s[..|s| - 1]) + multiset{s[|s| - 1]}
  {
    assert s == s[..|s| - 1] + [s[|s| - 1]];
  }

  /** Extending a split list by an entry that is accepted. */
  lemma SplitAccept(pending: seq<Option<Transaction>>, accepted: seq<Transaction>, taken: seq<nat>)
    requires pending != [] && pending[|pending| - 1].Some?
    requires var prefix := pending[..|pending| - 1];
             multiset(prefix) == multiset(Refs(accepted)) + multiset(Without(prefix, taken))
    ensures var n := |pending| - 1;
            multiset(pending) == multiset(Refs(accepted + [pending[n].value])) + multiset(Without(pending, taken + [n]))
  {
    var n := |pending| - 1;
    LastSplit(pending);
    WithoutLast(pending, taken);
    RefsSnoc(accepted, pending[n].value);
  }

  /** One more accepted transaction adds one reference to it. */
  lemma RefsSnoc(txs: seq<Transaction>, t: Transaction)
    ensures multiset(Refs(txs + [t])) == multiset(Refs(txs)) + multiset{Some(t)}
  {
    assert (txs + [t])[..|txs|] == txs;
    assert Refs(txs + [t]) == Refs(txs) + [Some(t)];
  }

  /** Taking the last position drops the last entry. */
  lemma WithoutLast<T>(s: seq<T>, taken: seq<nat>)
    requires s != []
    ensures Without(s, taken + [|s| - 1]) == Without(s[..|s| - 1], taken)
  {
    WithoutBeyond(s[..|s| - 1], taken, |s| - 1);
  }

  /** Extending a split list by an entry that stays pending. */
  lemma SplitReject(pending: seq<Option<Transaction>>, accepted: seq<Transaction>, taken: seq<nat>)
    requires pending != [] && |pending| - 1 !in taken
    requires var prefix := pending[..|pending| - 1];
             multiset(prefix) == multiset(Refs(accepted)) + multiset(Without(prefix, taken))
    ensures multiset(pending) == multiset(Refs(accepted)) + multiset(Without(pending, taken))
  {
    var n := |pending| - 1;
    LastSplit(pending);
    assert Without(pending, taken) == Without(pending[..n], taken) + [pending[n]];
  }

  /** A pass splits the pending list: the transactions it accepts and the
      entries it leaves pending together make up the list. */
  lemma {:induction false} ScanPartition(c: Crypto, pool: Pool, pending: seq<Option<Transaction>>)
    ensures var s := Scan(c, pool, pending);
            multiset(pending) == multiset(Refs(s.accepted)) + multiset(Without(pending, s.taken))
  {
    if pending == [] {
      assert Refs([]) == [];
    } else {
      var n := |pending| - 1;
      var s' := Scan(c, pool, pending[..n]);
      ScanPartition(c, pool, pending[..n]);
      if IsValidRef(c, s'.pool, pending[n]) {
        SplitAccept(pending, s'.accepted, s'.taken);
      } else {
        assert n !in s'.taken;
        SplitReject(pending, s'.accepted, s'.taken);
      }
    }
  }

  /** A pass that accepts nothing leaves the pool unchanged and found every
      entry invalid against it. */
  lemma {:induction false} ScanAcceptsNone(c: Crypto, pool: Pool, pending: seq<Option<Transaction>>)
    requires Scan(c, pool, pending).accepted == []
    ensures Scan(c, pool, pending).pool == pool
    ensures forall k :: 0 <= k < |pending| ==> !IsValidRef(c, pool, pending[k])
  {
    if pending != [] {
      var n := |pending| - 1;
      ScanAcceptsNone(c, pool, pending[..n]);
      forall k | 0 <= k < n ensures !IsValidRef(c, pool, pending[k]) {
        assert pending[k] == pending[..n][k];
      }
    }
  }

  /** Re-apply `txs` in order to `pool`: None when one of them is invalid
      against the pool as it stands just before it. */
  ghost function Replay(c: Crypto, pool: Pool, txs: seq<Transaction>): Option<Pool>
    decreases |txs|
  {
    if txs == [] then Some(pool)
    else if IsValid(c, pool, txs[0]) then Replay(c, Commit(pool, txs[0]), txs[1..])
    else None
  }

  lemma {:induction false} ReplayConcat(c: Crypto, pool: Pool, a: seq<Transaction>, b: seq<Transaction>)
    ensures Replay(c, pool, a + b) ==
              if Replay(c, pool, a).None? then None else Replay(c, Replay(c, pool, a).value, b)
    decreases |a|
  {
    if a == [] {
      assert a + b == b;
    } else {
      assert (a + b)[0] == a[0];
      assert (a + b)[1..] == a[1..] + b;
      if IsValid(c, pool, a[0]) {
        ReplayConcat(c, Commit(pool, a[0]), a[1..], b);
      }
    }
  }

  /** The transactions a pass accepts, re-applied in acceptance order, are
      each valid just before their own commit and yield the pass's pool. */
  lemma {:induction false} ScanReplay(c: Crypto, pool: Pool, pending: seq<Option<Transaction>>)
    ensures Replay(c, pool, Scan(c, pool, pending).accepted) == Some(Scan(c, pool, pending).pool)
  {
    if pending != [] {
      var n := |pending| - 1;
      var s' := Scan(c, pool, pending[..n]);
      ScanReplay(c, pool, pending[..n]);
      if IsValidRef(c, s'.pool, pending[n]) {
        var t := pending[n].value;
        ReplayConcat(c, pool, s'.accepted, [t]);
        assert Replay(c, Commit(s'.pool, t), []) == Some(Commit(s'.pool, t));
      }
    }
  }

  /** An identifier absent from the pool stays absent while no transaction
      re-applied after it creates it. */
  lemma {:induction false} AbsentStaysAbsent(c: Crypto, pool: Pool, txs: seq<Transaction>, u: UTXO)
    requires Replay(c, pool, txs).Some?
    requires u !in pool
    requires forall m :: 0 <= m < |txs| ==> u !in Created(txs[m])
    ensures u !in Replay(c, pool, txs).value
    decreases |txs|
  {
    if txs != [] {
      assert u !in Created(txs[0]);
      AbsentStaysAbsent(c, Commit(pool, txs[0]), txs[1..], u);
    }
  }

  /** An identifier in the pool stays present while no transaction re-applied
      after it spends it. */
  lemma {:induction false} PresentStaysPresent(c: Crypto, pool: Pool, txs: seq<Transaction>, u: UTXO)
    requires Replay(c, pool, txs).Some?
    requires u in pool
    requires forall m :: 0 <= m < |txs| ==> u !in ClaimedIds(txs[m].inputs)
    ensures u in Replay(c, pool, txs).value
    decreases |txs|
  {
    if txs != [] {
      assert u !in ClaimedIds(txs[0].inputs);
      assert u in Commit(pool, txs[0]);
      PresentStaysPresent(c, Commit(pool, txs[0]), txs[1..], u);
    }
  }

  /** Re-applying `txs` up to position k leaves a pool against which txs[k]
      is valid, and re-applying the rest from the commit of txs[k] gives the
      same final pool. */
  lemma ReplaySplit(c: Crypto, pool: Pool, txs: seq<Transaction>, k: nat)
    requires Replay(c, pool, txs).Some? && k < |txs|
    ensures Replay(c, pool, txs[..k]).Some?
    ensures IsValid(c, Replay(c, pool, txs[..k]).value, txs[k])
    ensures Replay(c, Commit(Replay(c, pool, txs[..k]).value, txs[k]), txs[k + 1..]) == Replay(c, pool, txs)
  {
    ReplayConcat(c, pool, txs[..k], txs[k..]);
    assert txs[..k] + txs[k..] == txs;
    assert txs[k..][0] == txs[k] && txs[k..][1..] == txs[k + 1..];
  }

  /** After a batch, an identifier spent by an accepted transaction is absent
      from the final pool, unless that or a later accepted transaction
      creates the same identifier again (a hash collision). */
  lemma SpentAbsentAtEnd(c: Crypto, pool: Pool, txs: seq<Transaction>, k: nat, i: nat)
    requires Replay(c, pool, txs).Some?
    requires k < |txs| && i < |txs[k].inputs|
    requires forall m :: k <= m < |txs| ==> Claimed(txs[k].inputs[i]) !in Created(txs[m])
    ensures Claimed(txs[k].inputs[i]) !in Replay(c, pool, txs).value
  {
    ReplaySplit(c, pool, txs, k);
    var u := Claimed(txs[k].inputs[i]);
    var next := Commit(Replay(c, pool, txs[..k]).value, txs[k]);
    assert u !in next;
    AbsentStaysAbsent(c, next, txs[k + 1..], u);
  }

  /** After a batch, every output created by an accepted transaction is in the
      final pool, unless a later accepted transaction spends it. */
  lemma CreatedPresentAtEnd(c: Crypto, pool: Pool, txs: seq<Transaction>, k: nat, j: nat)
    requires Replay(c, pool, txs).Some?
    requires k < |txs| && j < |txs[k].outputs|
    requires forall m :: k < m < |txs| ==> UTXO(txs[k].hash, j) !in ClaimedIds(txs[m].inputs)
    ensures UTXO(txs[k].hash, j) in Replay(c, pool, txs).value
  {
    ReplaySplit(c, pool, txs, k);
    var u := UTXO(txs[k].hash, j);
    var next := Commit(Replay(c, pool, txs[..k]).value, txs[k]);
    assert u in next;
    PresentStaysPresent(c, next, txs[k + 1..], u);
  }

  /** The result of a batch: the final pool, the accepted transactions in
      acceptance order, and the entries still pending at the end. */
  datatype Outcome = Outcome(pool: Pool, accepted: seq<Transaction>, pending: seq<Option<Transaction>>)

  /** An outcome preceded by transactions accepted earlier. */
  function Then(earlier: seq<Transaction>, o: Outcome): Outcome {
    Outcome(o.pool, earlier + o.accepted, o.pending)
  }

  /** Passes repeated until one accepts nothing or nothing is pending. */
  ghost function Epochs(c: Crypto, pool: Pool, pending: seq<Option<Transaction>>): Outcome
    decreases |pending|
  {
    var s := Scan(c, pool, pending);
    var rest := Without(pending, s.taken);
    ScanShrinks(c, pool, pending);
    if |s.taken| == 0 || |rest| == 0 then Outcome(s.pool, s.accepted, rest)
    else Then(s.accepted, Epochs(c, s.pool, rest))
  }

  /** One pass of Epochs, on its own. */
  lemma EpochsUnfold(c: Crypto, pool: Pool, pending: seq<Option<Transaction>>, s: PassState, rest: seq<Option<Transaction>>)
    requires s == Scan(c, pool, pending) && rest == Without(pending, s.taken)
    ensures |s.taken| == 0 || |rest| == 0 ==> Epochs(c, pool, pending) == Outcome(s.pool, s.accepted, rest)
    ensures |s.taken| != 0 && |rest| != 0 ==> Epochs(c, pool, pending) == Then(s.accepted, Epochs(c, s.pool, rest))
  {
  }

  /** Acceptances put one after another compose. */
  lemma ThenThen(earlier: seq<Transaction>, accepted: seq<Transaction>, o: Outcome)
    ensures Then(earlier, Then(accepted, o)) == Then(earlier + accepted, o)
  {
    assert earlier + (accepted + o.accepted) == (earlier + accepted) + o.accepted;
  }

  /** One pass of Epochs, after transactions accepted earlier. */
  lemma EpochsPass(c: Crypto, pool: Pool, pending: seq<Option<Transaction>>, earlier: seq<Transaction>,
                   s: PassState, rest: seq<Option<Transaction>>)
    requires s == Scan(c, pool, pending) && rest == Without(pending, s.taken)
    ensures |s.taken| == 0 || |rest| == 0 ==>
              Then(earlier, Epochs(c, pool, pending)) == Outcome(s.pool, earlier + s.accepted, rest)
    ensures |s.taken| != 0 && |rest| != 0 ==>
              Then(earlier, Epochs(c, pool, pending)) == Then(earlier + s.accepted, Epochs(c, s.pool, rest))
  {
    EpochsUnfold(c, pool, pending, s, rest);
    if |s.taken| != 0 && |rest| != 0 {
      ThenThen(earlier, s.accepted, Epochs(c, s.pool, rest));
    }
  }

  /** A pass over `pending` followed by the removal of what it took (as the
      removal loop leaves it: over the full prefix) either ends the batch or
      leaves a strictly shorter pending list for the next pass. */
  lemma PassCompletes(c: Crypto, pool: Pool, pending: seq<Option<Transaction>>, earlier: seq<Transaction>,
                      s: PassState, rest: seq<Option<Transaction>>)
    requires s == Scan(c, pool, pending)
    requires rest == Without(pending[..|pending|], s.taken)
    ensures |rest| == |pending| - |s.taken|
    ensures |s.taken| == 0 || |rest| == 0 ==>
              Then(earlier, Epochs(c, pool, pending)) == Outcome(s.pool, earlier + s.accepted, rest)
    ensures |s.taken| != 0 && |rest| != 0 ==>
              Then(earlier, Epochs(c, pool, pending)) == Then(earlier + s.accepted, Epochs(c, s.pool, rest))
  {
    ScanWhole(c, pool, pending, s.taken);
    ScanShrinks(c, pool, pending);
    EpochsPass(c, pool, pending, earlier, s, rest);
  }

  /** Every candidate is either accepted or still pending at the end: the
      accepted transactions form a sub-multiset of the candidates. */
  lemma {:induction false} EpochsPartition(c: Crypto, pool: Pool, pending: seq<Option<Transaction>>)
    ensures var r := Epochs(c, pool, pending);
            multiset(pending) == multiset(Refs(r.accepted)) + multiset(r.pending)
    decreases |pending|
  {
    var s := Scan(c, pool, pending);
    var rest := Without(pending, s.taken);
    ScanShrinks(c, pool, pending);
    ScanPartition(c, pool, pending);
    if |s.taken| != 0 && |rest| != 0 {
      var r := Epochs(c, s.pool, rest);
      EpochsPartition(c, s.pool, rest);
      RefsConcat(s.accepted, r.accepted);
    }
  }

  /** The accepted transactions, re-applied in acceptance order, are each
      valid against the pool just before their own commit, and yield the
      final pool. */
  lemma {:induction false} EpochsReplay(c: Crypto, pool: Pool, pending: seq<Option<Transaction>>)
    ensures Replay(c, pool, Epochs(c, pool, pending).accepted) == Some(Epochs(c, pool, pending).pool)
    decreases |pending|
  {
    var s := Scan(c, pool, pending);
    var rest := Without(pending, s.taken);
    ScanShrinks(c, pool, pending);
    ScanReplay(c, pool, pending);
    if |s.taken| != 0 && |rest| != 0 {
      var r := Epochs(c, s.pool, rest);
      EpochsReplay(c, s.pool, rest);
      ReplayConcat(c, pool, s.accepted, r.accepted);
    }
  }

  /** At the end every entry still pending is invalid against the final pool. */
  lemma {:induction false} EpochsFixedPoint(c: Crypto, pool: Pool, pending: seq<Option<Transaction>>)
    ensures forall t :: t in Epochs(c, pool, pending).pending ==> !IsValidRef(c, Epochs(c, pool, pending).pool, t)
    decreases |pending|
  {
    var s := Scan(c, pool, pending);
    var rest := Without(pending, s.taken);
    ScanShrinks(c, pool, pending);
    if |s.taken| == 0 {
      ScanAcceptsNone(c, pool, pending);
      WithoutNothing(pending);
    } else if |rest| != 0 {
      var r := Epochs(c, s.pool, rest);
      assert Epochs(c, pool, pending) == Then(s.accepted, r);
      EpochsFixedPoint(c, s.pool, rest);
    }
  }

  /** What a batch promises, in terms of the candidates alone: the accepted
      transactions are a sub-multiset of the candidates, re-applying them in
      acceptance order succeeds step by step and yields the final pool, and
      every candidate occurrence left unaccepted is invalid against it. */
  lemma EpochsSound(c: Crypto, pool: Pool, pending: seq<Option<Transaction>>, r: Outcome)
    requires r == Epochs(c, pool, pending)
    ensures multiset(Refs(r.accepted)) <= multiset(pending)
    ensures Replay(c, pool, r.accepted) == Some(r.pool)
    ensures forall t :: multiset(Refs(r.accepted))[t] < multiset(pending)[t] ==> !IsValidRef(c, r.pool, t)
  {
    EpochsPartition(c, pool, pending);
    EpochsReplay(c, pool, pending);
    EpochsFixedPoint(c, pool, pending);
    forall t | multiset(Refs(r.accepted))[t] < multiset(pending)[t] ensures !IsValidRef(c, r.pool, t) {
      assert t in r.pending;
    }
  }
}
