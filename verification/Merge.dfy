/**
 * Folding the results of a batch into the ledger (batchMerge in core/parallel_context.go, Merge in
 * core/state/statedb.go), compared with running the decided transfers one after the other.
 */
module Merge {
  import opened Types
  import opened TxDependencies
  import opened Rules
  import opened Workers
  import IntrinsicGas

  /** Installs the objects of a finished transfer in the ledger. */
  function MergeObjects(from: StateObject, to: StateObject, st: State): State {
    var paid := if from.addr != to.addr then Put(st, from.addr, Read(from, st)) else st;
    Put(paid, to.addr, Read(to, st))
  }

  function FateOf(fates: map<nat, Result>, i: nat): Option<Result> {
    if i in fates then Some(fates[i]) else None
  }

  /** The rules, not the clock or an empty gas pool, settled what became of the transaction. */
  predicate DecidedFate(fate: Option<Result>) {
    fate.Some? && (fate.value.Failure? ==> fate.value.err != GasLimitReached)
  }

  /** The decided members of the first `k` of a batch, in batch order. */
  function Decided(batch: seq<nat>, fates: map<nat, Result>, k: nat): seq<nat>
    requires k <= |batch|
  {
    if k == 0 then []
    else Decided(batch, fates, k - 1) + if DecidedFate(FateOf(fates, batch[k - 1])) then [batch[k - 1]] else []
  }

  /**
   * What is known of a batch member before it is merged. `gas` has the intrinsic gas of the members
   * that were handed to a worker.
   */
  ghost predicate Settled(tx: Tx, i: nat, gas: map<nat, nat>, cached: set<Address>, s0: State, st: State, fate: Option<Result>)
    requires tx.to.Some?
  {
    match fate
    case None => SameOn(s0, st, Accounts(tx))
    case Some(Failure(err, false)) =>
      && SameOn(s0, st, Accounts(tx)) && i !in gas
      && (err == GasLimitReached || (err == OutOfGas && IntrinsicGas.OfTransfer(tx.data).None?))
    case _ =>
      i in gas && IntrinsicGas.OfTransfer(tx.data) == Some(gas[i]) && Tracks(tx, gas[i], cached, s0, st, Finished(fate))
  }

  ghost predicate Distinct(batch: seq<nat>) {
    forall p, q :: 0 <= p < q < |batch| ==> batch[p] != batch[q]
  }

  /** The members are transfers of the block, no two of which touch the same account. */
  ghost predicate Transfers(b: Block, batch: seq<nat>) {
    && (forall m :: 0 <= m < |batch| ==> batch[m] < |b.txs| && b.txs[batch[m]].to.Some?)
    && forall m, n :: 0 <= m < n < |batch| ==> b.Touches(batch[m]) !! b.Touches(batch[n])
  }

  /** Some member from the `k`-th on has still to be merged into account `a`. */
  ghost predicate Waits(b: Block, batch: seq<nat>, k: nat, a: Address)
    requires k <= |batch| && Transfers(b, batch)
  {
    exists m :: k <= m < |batch| && a in b.Touches(batch[m])
  }

  /** A member not merged yet stands as it did, and the one-by-one run has not touched its accounts. */
  ghost predicate Unmerged(b: Block, batch: seq<nat>, m: nat, gas: map<nat, nat>, cached: set<Address>,
                           s0: State, st: State, ideal: State, fates: map<nat, Result>)
    requires m < |batch| && Transfers(b, batch)
  {
    && Settled(b.txs[batch[m]], batch[m], gas, cached, s0, st, FateOf(fates, batch[m]))
    && SameOn(s0, ideal, b.Touches(batch[m]))
  }

  /**
   * The first `k` members have been merged into `st`; running the decided ones of them one by one
   * on the ledger `s0` at the start of the batch gives `ideal`.
   */
  ghost predicate Merging(b: Block, batch: seq<nat>, k: nat, gas: map<nat, nat>, cached: set<Address>,
                          s0: State, st: State, ideal: State, fates: map<nat, Result>)
    requires k <= |batch| && Transfers(b, batch)
  {
    && Canonical(st) && Canonical(ideal)
    && (forall m: nat {:trigger Unmerged(b, batch, m, gas, cached, s0, st, ideal, fates)} :: k <= m < |batch| ==>
      Unmerged(b, batch, m, gas, cached, s0, st, ideal, fates))
    && (forall a: Address :: Get(st, a) == Get(ideal, a) || Waits(b, batch, k, a))
  }

  /** Merging a finished transfer brings its accounts to what running it on `ideal` gives. */
  lemma MergedTransfer(tx: Tx, gas: nat, cached: set<Address>, s0: State, st: State, ideal: State,
                       from: StateObject, to: StateObject, a: Address)
    requires tx.to.Some? && HoldsTransfer(tx, gas, from, to, cached, s0, st)
    requires SameOn(s0, ideal, Accounts(tx))
    ensures CheckTransfer(tx, gas, Get(ideal, tx.from)).None?
    ensures if a in Accounts(tx) then Get(MergeObjects(from, to, st), a) == Get(Transfer(tx, gas, ideal), a)
            else Get(MergeObjects(from, to, st), a) == Get(st, a) && Get(Transfer(tx, gas, ideal), a) == Get(ideal, a)
  {
    assert tx.from in Accounts(tx) && tx.to.value in Accounts(tx);
    TransferAccounts(tx, gas, s0);
    TransferAccounts(tx, gas, ideal);
    TransferFrame(tx, gas, ideal, a);
  }

  lemma SettledFrame(tx: Tx, i: nat, gas: map<nat, nat>, cached: set<Address>, s0: State, st: State, st': State, fate: Option<Result>)
    requires tx.to.Some? && Settled(tx, i, gas, cached, s0, st, fate) && SameOn(st, st', Accounts(tx))
    ensures Settled(tx, i, gas, cached, s0, st', fate)
  {
    if fate.Some? && (fate.value.Done? || fate.value.refund) {
      TracksFrame(tx, gas[i], cached, s0, st, st', Finished(fate));
    }
  }

  /** The outcome the rules give to the next member, judged on the one-by-one ledger. */
  lemma SettledOutcome(tx: Tx, i: nat, gas: map<nat, nat>, cached: set<Address>, s0: State, st: State, ideal: State, fate: Option<Result>)
    requires tx.to.Some? && Settled(tx, i, gas, cached, s0, st, fate) && SameOn(s0, ideal, Accounts(tx))
    requires DecidedFate(fate)
    ensures TransferOutcome(tx, ideal) ==
            match fate.value case Failure(err, _) => Failed(err) case Done(_, _, gasUsed, _) => Success(gasUsed)
    ensures fate.value.Done? ==> fate.value.earnings == fate.value.gasUsed * tx.price
  {
    assert tx.from in Accounts(tx);
  }

  /** Both ledgers after the next member of a batch. */
  function MergeNext(fate: Option<Result>, st: State): State {
    if fate.Some? && fate.value.Done? then MergeObjects(fate.value.from, fate.value.to, st) else st
  }

  ghost function IdealNext(tx: Tx, fate: Option<Result>, ideal: State): State
    requires tx.to.Some?
  {
    if fate.Some? && fate.value.Done? && CheckTransfer(tx, fate.value.gasUsed, Get(ideal, tx.from)).None?
    then Transfer(tx, fate.value.gasUsed, ideal) else ideal
  }

  lemma NextAccount(tx: Tx, i: nat, gas: map<nat, nat>, cached: set<Address>, s0: State, st: State, ideal: State,
                    fate: Option<Result>, a: Address)
    requires tx.to.Some? && Settled(tx, i, gas, cached, s0, st, fate) && SameOn(s0, ideal, Accounts(tx))
    ensures a in Accounts(tx) ==> Get(MergeNext(fate, st), a) == Get(IdealNext(tx, fate, ideal), a)
    ensures a !in Accounts(tx) ==>
              Get(MergeNext(fate, st), a) == Get(st, a) && Get(IdealNext(tx, fate, ideal), a) == Get(ideal, a)
  {
    if fate.Some? && fate.value.Done? {
      MergedTransfer(tx, gas[i], cached, s0, st, ideal, fate.value.from, fate.value.to, a);
    }
  }

  lemma NextCanonical(tx: Tx, fate: Option<Result>, st: State, ideal: State)
    requires tx.to.Some? && Canonical(st) && Canonical(ideal)
    ensures Canonical(MergeNext(fate, st)) && Canonical(IdealNext(tx, fate, ideal))
  {
  }

  /** Merging keeps step with the one-by-one run. */
  lemma MergeStep(b: Block, batch: seq<nat>, k: nat, gas: map<nat, nat>, cached: set<Address>,
                  s0: State, st: State, ideal: State, fates: map<nat, Result>)
    requires k < |batch| && Transfers(b, batch)
    requires Merging(b, batch, k, gas, cached, s0, st, ideal, fates)
    ensures var tx, fate := b.txs[batch[k]], FateOf(fates, batch[k]);
            Merging(b, batch, k + 1, gas, cached, s0, MergeNext(fate, st), IdealNext(tx, fate, ideal), fates)
  {
    var i := batch[k];
    var tx, fate := b.txs[i], FateOf(fates, i);
    var st', ideal' := MergeNext(fate, st), IdealNext(tx, fate, ideal);
    NextCanonical(tx, fate, st, ideal);
    assert b.Touches(i) == Accounts(tx);
    assert Unmerged(b, batch, k, gas, cached, s0, st, ideal, fates);
    forall a: Address
      ensures a in Accounts(tx) ==> Get(st', a) == Get(ideal', a)
      ensures a !in Accounts(tx) ==> Get(st', a) == Get(st, a) && Get(ideal', a) == Get(ideal, a)
    {
      NextAccount(tx, i, gas, cached, s0, st, ideal, fate, a);
    }
    forall m: nat | k < m < |batch| ensures Unmerged(b, batch, m, gas, cached, s0, st', ideal', fates) {
      assert Unmerged(b, batch, m, gas, cached, s0, st, ideal, fates);
      assert b.Touches(batch[m]) !! b.Touches(i);
      assert b.Touches(batch[m]) == Accounts(b.txs[batch[m]]);
      SettledFrame(b.txs[batch[m]], batch[m], gas, cached, s0, st, st', FateOf(fates, batch[m]));
    }
  }
}
