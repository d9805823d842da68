/**
 * One batch on values: what merging its results makes of the executor's context, and the one-by-one
 * run of the decided transactions that the context is shown to agree with.
 */
module Batch {
  import opened Types
  import opened TxDependencies
  import opened Rules
  import opened Workers
  import opened Merge
  import opened Receipts
  import IntrinsicGas

  /** The intrinsic gas reserved for the first `k` of a batch; `gas` has the members given to workers. */
  ghost function Held(batch: seq<nat>, gas: map<nat, nat>, k: nat): nat
    requires k <= |batch|
  {
    if k == 0 then 0
    else Held(batch, gas, k - 1) + if batch[k - 1] in gas then gas[batch[k - 1]] else 0
  }

  lemma {:induction false} HeldFrame(batch: seq<nat>, gas: map<nat, nat>, x: nat, g: nat, k: nat)
    requires k <= |batch| && forall m :: 0 <= m < k ==> batch[m] != x
    ensures Held(batch, gas[x := g], k) == Held(batch, gas, k)
  {
    if k > 0 {
      HeldFrame(batch, gas, x, g, k - 1);
    }
  }

  /** Members that were not given to workers hold nothing. */
  lemma {:induction false} HeldTail(batch: seq<nat>, gas: map<nat, nat>, j: nat, k: nat)
    requires j <= k <= |batch| && forall m :: j <= m < k ==> batch[m] !in gas
    ensures Held(batch, gas, j) == Held(batch, gas, k)
  {
    if j < k {
      HeldTail(batch, gas, j, k - 1);
    }
  }

  /** The intrinsic gas of the first `k` of a batch, whether or not they are given to workers. */
  ghost function Wanted(b: Block, batch: seq<nat>, k: nat): nat
    requires k <= |batch| && Indices(b, batch)
  {
    if k == 0 then 0
    else
      var g := IntrinsicGas.OfTransfer(b.txs[batch[k - 1]].data);
      Wanted(b, batch, k - 1) + if g.Some? then g.value else 0
  }

  lemma {:induction false} WantedGrows(b: Block, batch: seq<nat>, j: nat, k: nat)
    requires j <= k <= |batch| && Indices(b, batch)
    ensures Wanted(b, batch, j) <= Wanted(b, batch, k)
  {
    if j < k {
      WantedGrows(b, batch, j, k - 1);
    }
  }

  /** A member of a batch has a worker, or failed at the door, or neither; never both. */
  ghost predicate Placed(tx: Tx, i: nat, gas: map<nat, nat>, fates: map<nat, Result>) {
    && (i in gas ==> i !in fates && IntrinsicGas.OfTransfer(tx.data) == Some(gas[i]))
    && (i in fates ==>
      || fates[i] == Failure(GasLimitReached, false)
      || (fates[i] == Failure(OutOfGas, false) && IntrinsicGas.OfTransfer(tx.data).None?))
  }

  /** What is known of a batch after the first `n` members have been handed out. */
  ghost predicate Dispatched(b: Block, batch: seq<nat>, n: nat, gas: map<nat, nat>, fates: map<nat, Result>)
    requires n <= |batch| && Indices(b, batch)
  {
    && (forall i :: i in gas ==> i in batch)
    && (forall m :: 0 <= m < n ==> Placed(b.txs[batch[m]], batch[m], gas, fates))
    && (forall m :: n <= m < |batch| ==> batch[m] !in gas && batch[m] !in fates)
  }

  /** The gas held with what was reserved for `i`, if anything was. */
  function With(gas: map<nat, nat>, i: nat, g: Option<nat>): map<nat, nat> {
    if g.Some? then gas[i := g.value] else gas
  }

  lemma HeldNext(b: Block, batch: seq<nat>, n: nat, gas: map<nat, nat>, g: Option<nat>)
    requires n < |batch| && Indices(b, batch) && Distinct(batch) && batch[n] !in gas
    requires g.Some? ==> IntrinsicGas.OfTransfer(b.txs[batch[n]].data) == g
    ensures Held(batch, With(gas, batch[n], g), n + 1) == Held(batch, gas, n) + (if g.Some? then g.value else 0)
    ensures Held(batch, gas, n) <= Wanted(b, batch, n) ==> Held(batch, With(gas, batch[n], g), n + 1) <= Wanted(b, batch, n + 1)
    ensures With(gas, batch[n], g) - {batch[n]} == gas
  {
    if g.Some? {
      HeldFrame(batch, gas, batch[n], g.value, n);
    }
  }

  /** The first `n` members have a worker or a fate. */
  ghost predicate Handled(batch: seq<nat>, n: nat, gas: map<nat, nat>, fates: map<nat, Result>)
    requires n <= |batch|
  {
    forall m :: 0 <= m < n ==> batch[m] in gas || batch[m] in fates
  }

  lemma HandledNext(batch: seq<nat>, n: nat, gas: map<nat, nat>, fates: map<nat, Result>, gas': map<nat, nat>, fates': map<nat, Result>)
    requires n < |batch| && Handled(batch, n, gas, fates) && (batch[n] in gas' || batch[n] in fates')
    requires gas' - {batch[n]} == gas && fates' - {batch[n]} == fates
    ensures Handled(batch, n + 1, gas', fates')
  {
    assert forall x :: x in gas ==> x in gas';
    assert forall x :: x in fates ==> x in fates';
  }

  /** Handing out the next member changes nothing for the others. */
  lemma DispatchedNext(b: Block, batch: seq<nat>, n: nat, gas: map<nat, nat>, fates: map<nat, Result>,
                       gas': map<nat, nat>, fates': map<nat, Result>)
    requires n < |batch| && Indices(b, batch) && Distinct(batch) && Dispatched(b, batch, n, gas, fates)
    requires Placed(b.txs[batch[n]], batch[n], gas', fates')
    requires gas' - {batch[n]} == gas && fates' - {batch[n]} == fates
    ensures Dispatched(b, batch, n + 1, gas', fates')
    ensures forall m :: 0 <= m < |batch| && m != n ==> FateOf(fates', batch[m]) == FateOf(fates, batch[m])
  {
    var i := batch[n];
    assert forall x :: x != i ==> (x in gas' <==> x in gas) && (x in fates' <==> x in fates);
    assert forall m :: 0 <= m < |batch| && m != n ==> batch[m] != i;
    forall m | 0 <= m < n ensures Placed(b.txs[batch[m]], batch[m], gas', fates') {
      assert Placed(b.txs[batch[m]], batch[m], gas, fates);
    }
  }

  /** Members that were never reached have neither a worker nor a failure. */
  lemma DispatchedRest(b: Block, batch: seq<nat>, n: nat, gas: map<nat, nat>, fates: map<nat, Result>)
    requires n <= |batch| && Indices(b, batch) && Dispatched(b, batch, n, gas, fates)
    ensures Dispatched(b, batch, |batch|, gas, fates)
  {
    forall m | 0 <= m < |batch| ensures Placed(b.txs[batch[m]], batch[m], gas, fates) {
    }
  }

  /** The fields of the executor's context that a run changes. */
  datatype Context = Context(
    st: State,
    cached: set<Address>,
    pool: nat,
    results: map<nat, Result>,
    packedTxs: seq<Tx>,
    receipts: seq<Receipt>,
    popped: set<Address>,
    used: nat,
    earnings: nat,
    txIdx: nat)

  /** The context after one member of a batch is merged; `gas` has the reserved intrinsic gas. */
  function MergeOne(b: Block, gas: map<nat, nat>, i: nat, v: Context): Context
    requires i < |b.txs|
  {
    if i !in v.results then v
    else match v.results[i]
      case Done(from, to, gasUsed, earnings) =>
        v.(st := MergeObjects(from, to, v.st), cached := v.cached + {from.addr, to.addr},
           used := v.used + gasUsed, earnings := v.earnings + earnings, txIdx := v.txIdx + 1,
           receipts := v.receipts + [Receipt(b.txs[i].hash, gasUsed, v.used + gasUsed)],
           packedTxs := v.packedTxs + [b.txs[i]])
      case Failure(err, refund) =>
        v.(pool := if refund && i in gas then v.pool + gas[i] else v.pool,
           popped := if err == GasLimitReached || err == NonceTooHigh then v.popped + {b.txs[i].from} else v.popped)
  }

  /** The context after the first `k` members of a batch are merged. */
  function MergeAll(b: Block, gas: map<nat, nat>, batch: seq<nat>, k: nat, v: Context): Context
    requires k <= |batch| && Indices(b, batch)
  {
    if k == 0 then v else MergeOne(b, gas, batch[k - 1], MergeAll(b, gas, batch, k - 1, v))
  }

  /**
   * The one-by-one run a context is compared with: the transactions decided so far in the order
   * they were merged, those of them that succeeded, the totals of running them, and the gas that
   * was reserved for workers which then gave up.
   */
  datatype Shadow = Shadow(order: seq<nat>, winners: seq<nat>, ideal: Totals, lost: nat)

  /** The run after member `i`; if its fate was decided, the totals become `c`. */
  ghost function ShadowWith(gas: map<nat, nat>, fate: Option<Result>, i: nat, s: Shadow, c: Totals): Shadow {
    if DecidedFate(fate) then
      Shadow(s.order + [i], s.winners + (if fate.value.Done? then [i] else []), c, s.lost)
    else if fate.None? && i in gas then s.(lost := s.lost + gas[i])
    else s
  }

  ghost function ShadowOne(vm: Machine, b: Block, gas: map<nat, nat>, fate: Option<Result>, i: nat, s: Shadow): Shadow
    requires i < |b.txs|
  {
    ShadowWith(gas, fate, i, s, Step(false, vm, b, i, s.ideal))
  }

  ghost function ShadowAll(vm: Machine, b: Block, gas: map<nat, nat>, fates: map<nat, Result>, batch: seq<nat>, k: nat, s: Shadow): Shadow
    requires k <= |batch| && Indices(b, batch)
  {
    if k == 0 then s
    else ShadowOne(vm, b, gas, FateOf(fates, batch[k - 1]), batch[k - 1], ShadowAll(vm, b, gas, fates, batch, k - 1, s))
  }

  /** The context's running totals and records are those of the one-by-one run. */
  ghost predicate InStep(b: Block, start: Totals, v: Context, s: Shadow) {
    && Recorded(b, s.winners, s.ideal, start.used, v.packedTxs, v.receipts)
    && v.used == s.ideal.used && v.earnings == s.ideal.earnings && v.txIdx == s.ideal.packed
  }

  /** As `InStep`, for the ledger and the gas pool too. */
  ghost predicate Agrees(vm: Machine, b: Block, start: Totals, v: Context, s: Shadow) {
    && RanTo(vm, b, s.order, start, s.ideal, s.winners) && InStep(b, start, v, s)
    && v.st == s.ideal.st && Canonical(v.st) && v.pool + s.lost == s.ideal.pool
  }

  /** The outcome that a decided fate stands for. */
  function OutcomeOf(fate: Result): Outcome {
    match fate
    case Failure(err, _) => Failed(err)
    case Done(_, _, gasUsed, _) => Success(gasUsed)
  }

  /** `c'` books `fate` for transfer `i` on top of `c`. */
  ghost predicate Booked(tx: Tx, i: nat, fate: Result, c: Totals, c': Totals) {
    && c'.log == c.log[i := OutcomeOf(fate)]
    && if fate.Done? then
      && c'.pool == c.pool - fate.gasUsed && c'.used == c.used + fate.gasUsed && c'.packed == c.packed + 1
      && c'.earnings == c.earnings + fate.earnings
    else c'.pool == c.pool && c'.used == c.used && c'.packed == c.packed && c'.earnings == c.earnings
  }

  /** The one-by-one rules give a decided member exactly what its fate stands for. */
  lemma DecidedStep(vm: Machine, b: Block, i: nat, gas: map<nat, nat>, cached: set<Address>, s0: State, st: State,
                    c: Totals, fate: Option<Result>)
    requires i < |b.txs| && !b.Calls(i) && DecidedFate(fate)
    requires Settled(b.txs[i], i, gas, cached, s0, st, fate) && SameOn(s0, c.st, b.Touches(i))
    ensures Step(false, vm, b, i, c).st == IdealNext(b.txs[i], fate, c.st)
    ensures Booked(b.txs[i], i, fate.value, c, Step(false, vm, b, i, c))
  {
    assert b.Touches(i) == Accounts(b.txs[i]);
    SettledOutcome(b.txs[i], i, gas, cached, s0, st, c.st, fate);
  }

  lemma InStepNext(b: Block, start: Totals, gas: map<nat, nat>, i: nat, v: Context, s: Shadow, c: Totals)
    requires i < |b.txs| && InStep(b, start, v, s) && i !in s.winners
    requires DecidedFate(FateOf(v.results, i)) ==> Booked(b.txs[i], i, v.results[i], s.ideal, c)
    ensures InStep(b, start, MergeOne(b, gas, i, v), ShadowWith(gas, FateOf(v.results, i), i, s, c))
  {
    if DecidedFate(FateOf(v.results, i)) {
      RecordNext(b, s.winners, s.ideal, c, start.used, v.packedTxs, v.receipts, i, OutcomeOf(v.results[i]));
    }
  }

  lemma RanToShadow(vm: Machine, b: Block, start: Totals, gas: map<nat, nat>, fate: Option<Result>, i: nat, s: Shadow)
    requires i < |b.txs| && RanTo(vm, b, s.order, start, s.ideal, s.winners)
    requires DecidedFate(fate) ==> Booked(b.txs[i], i, fate.value, s.ideal, Step(false, vm, b, i, s.ideal))
    ensures var s' := ShadowOne(vm, b, gas, fate, i, s); RanTo(vm, b, s'.order, start, s'.ideal, s'.winners)
  {
    if DecidedFate(fate) {
      RanToNext(vm, b, s.order, start, s.ideal, s.winners, i);
    }
  }

  /** What holds while a batch is merged: `v` and `s` have taken in the first `k` members. */
  ghost predicate MergingTo(b: Block, start: Totals, batch: seq<nat>, k: nat, gas: map<nat, nat>,
                            cached: set<Address>, s0: State, order0: seq<nat>, v: Context, s: Shadow)
    requires k <= |batch| && Transfers(b, batch)
  {
    && Merging(b, batch, k, gas, cached, s0, v.st, s.ideal.st, v.results) && InStep(b, start, v, s)
    && v.pool + s.lost + Held(batch, gas, |batch|) == s.ideal.pool + Held(batch, gas, k)
    && s.order == order0 + Decided(batch, v.results, k)
  }

  /** The members of a batch are transfers that have not been run yet. */
  ghost predicate NewTransfers(b: Block, batch: seq<nat>, order0: seq<nat>) {
    && Distinct(batch) && Transfers(b, batch)
    && forall m :: 0 <= m < |batch| ==> !b.Calls(batch[m]) && batch[m] !in order0
  }

  /** Members not reached yet are not among the decided ones. */
  lemma {:induction false} DecidedFresh(batch: seq<nat>, fates: map<nat, Result>, j: nat, k: nat)
    requires j <= k < |batch| && Distinct(batch)
    ensures batch[k] !in Decided(batch, fates, j)
  {
    if j > 0 {
      DecidedFresh(batch, fates, j - 1, k);
    }
  }

  lemma MergingNext(b: Block, start: Totals, batch: seq<nat>, k: nat, gas: map<nat, nat>,
                    cached: set<Address>, s0: State, order0: seq<nat>, v: Context, s: Shadow, c: Totals)
    requires k < |batch| && NewTransfers(b, batch, order0) && batch[k] !in s.winners
    requires MergingTo(b, start, batch, k, gas, cached, s0, order0, v, s)
    requires var fate := FateOf(v.results, batch[k]);
             if DecidedFate(fate) then
               c.st == IdealNext(b.txs[batch[k]], fate, s.ideal.st) && Booked(b.txs[batch[k]], batch[k], fate.value, s.ideal, c)
             else c == s.ideal
    ensures MergingTo(b, start, batch, k + 1, gas, cached, s0, order0, MergeOne(b, gas, batch[k], v),
                      ShadowWith(gas, FateOf(v.results, batch[k]), batch[k], s, c))
  {
    assert Unmerged(b, batch, k, gas, cached, s0, v.st, s.ideal.st, v.results);
    InStepNext(b, start, gas, batch[k], v, s, c);
    PoolNext(b, batch, k, gas, cached, s0, v, s, c);
    LedgersNext(b, gas, batch[k], v, s, c);
    MergeStep(b, batch, k, gas, cached, s0, v.st, s.ideal.st, v.results);
    OrderNext(gas, batch, k, order0, v.results, s, c);
  }

  lemma LedgersNext(b: Block, gas: map<nat, nat>, i: nat, v: Context, s: Shadow, c: Totals)
    requires i < |b.txs| && b.txs[i].to.Some?
    requires var fate := FateOf(v.results, i);
             if DecidedFate(fate) then c.st == IdealNext(b.txs[i], fate, s.ideal.st) else c == s.ideal
    ensures var fate, v' := FateOf(v.results, i), MergeOne(b, gas, i, v);
            && v'.st == MergeNext(fate, v.st) && v'.results == v.results
            && ShadowWith(gas, fate, i, s, c).ideal.st == IdealNext(b.txs[i], fate, s.ideal.st)
  {
  }

  lemma OrderNext(gas: map<nat, nat>, batch: seq<nat>, k: nat, order0: seq<nat>, fates: map<nat, Result>, s: Shadow, c: Totals)
    requires k < |batch| && s.order == order0 + Decided(batch, fates, k)
    ensures ShadowWith(gas, FateOf(fates, batch[k]), batch[k], s, c).order == order0 + Decided(batch, fates, k + 1)
  {
  }

  /** The gas reserved for a merged member went to the run, back to the pool, or was lost. */
  lemma PoolNext(b: Block, batch: seq<nat>, k: nat, gas: map<nat, nat>, cached: set<Address>, s0: State,
                 v: Context, s: Shadow, c: Totals)
    requires k < |batch| && Transfers(b, batch)
    requires var fate := FateOf(v.results, batch[k]);
             && Settled(b.txs[batch[k]], batch[k], gas, cached, s0, v.st, fate)
             && if DecidedFate(fate) then Booked(b.txs[batch[k]], batch[k], fate.value, s.ideal, c) else c == s.ideal
    requires v.pool + s.lost + Held(batch, gas, |batch|) == s.ideal.pool + Held(batch, gas, k)
    ensures var v', s' := MergeOne(b, gas, batch[k], v), ShadowWith(gas, FateOf(v.results, batch[k]), batch[k], s, c);
            v'.pool + s'.lost + Held(batch, gas, |batch|) == s'.ideal.pool + Held(batch, gas, k + 1)
  {
  }

  /** A member whose turn has not come has not won. */
  lemma NotWonYet(vm: Machine, b: Block, start: Totals, batch: seq<nat>, j: nat, order0: seq<nat>, fates: map<nat, Result>, s: Shadow)
    requires j < |batch| && NewTransfers(b, batch, order0) && RanTo(vm, b, s.order, start, s.ideal, s.winners)
    requires s.order == order0 + Decided(batch, fates, j)
    ensures batch[j] !in s.winners
  {
    DecidedFresh(batch, fates, j, j);
    NotYet(vm, b, start, s, batch[j]);
  }

  /** One more member merged, and run on the side of the one-by-one run if it is decided. */
  lemma MergingOne(vm: Machine, b: Block, start: Totals, batch: seq<nat>, j: nat, gas: map<nat, nat>,
                   cached: set<Address>, s0: State, order0: seq<nat>, v: Context, s: Shadow)
    requires j < |batch| && NewTransfers(b, batch, order0) && RanTo(vm, b, s.order, start, s.ideal, s.winners)
    requires MergingTo(b, start, batch, j, gas, cached, s0, order0, v, s) && batch[j] !in s.winners
    ensures var fate := FateOf(v.results, batch[j]);
            var c := if DecidedFate(fate) then Step(false, vm, b, batch[j], s.ideal) else s.ideal;
            var v', s' := MergeOne(b, gas, batch[j], v), ShadowWith(gas, fate, batch[j], s, c);
            RanTo(vm, b, s'.order, start, s'.ideal, s'.winners) && MergingTo(b, start, batch, j + 1, gas, cached, s0, order0, v', s')
  {
    var i, fate := batch[j], FateOf(v.results, batch[j]);
    var c := if DecidedFate(fate) then Step(false, vm, b, i, s.ideal) else s.ideal;
    assert Unmerged(b, batch, j, gas, cached, s0, v.st, s.ideal.st, v.results);
    if DecidedFate(fate) {
      DecidedStep(vm, b, i, gas, cached, s0, v.st, s.ideal, fate);
    }
    RanToShadow(vm, b, start, gas, fate, i, s);
    MergingNext(b, start, batch, j, gas, cached, s0, order0, v, s, c);
  }

  lemma {:induction false} MergingAll(vm: Machine, b: Block, start: Totals, batch: seq<nat>, k: nat, gas: map<nat, nat>,
                                      cached: set<Address>, s0: State, v: Context, s: Shadow)
    requires k <= |batch| && NewTransfers(b, batch, s.order) && RanTo(vm, b, s.order, start, s.ideal, s.winners)
    requires MergingTo(b, start, batch, 0, gas, cached, s0, s.order, v, s)
    ensures var v', s' := MergeAll(b, gas, batch, k, v), ShadowAll(vm, b, gas, v.results, batch, k, s);
            && v'.results == v.results && RanTo(vm, b, s'.order, start, s'.ideal, s'.winners)
            && MergingTo(b, start, batch, k, gas, cached, s0, s.order, v', s')
  {
    if k > 0 {
      var j := k - 1;
      MergingAll(vm, b, start, batch, j, gas, cached, s0, v, s);
      var v', s' := MergeAll(b, gas, batch, j, v), ShadowAll(vm, b, gas, v.results, batch, j, s);
      NotWonYet(vm, b, start, batch, j, s.order, v.results, s');
      MergingOne(vm, b, start, batch, j, gas, cached, s0, s.order, v', s');
    }
  }

  lemma NotYet(vm: Machine, b: Block, start: Totals, s: Shadow, i: nat)
    requires RanTo(vm, b, s.order, start, s.ideal, s.winners) && i !in s.order
    ensures i !in s.winners
  {
  }

  /**
   * Merging a whole batch brings the context to where running its decided members one by one, in
   * batch order, brings the totals.
   */
  lemma MergedBatch(vm: Machine, b: Block, start: Totals, batch: seq<nat>, gas: map<nat, nat>,
                    cached: set<Address>, s0: State, v: Context, s: Shadow)
    requires NewTransfers(b, batch, s.order) && RanTo(vm, b, s.order, start, s.ideal, s.winners)
    requires MergingTo(b, start, batch, 0, gas, cached, s0, s.order, v, s)
    ensures var v', s' := MergeAll(b, gas, batch, |batch|, v), ShadowAll(vm, b, gas, v.results, batch, |batch|, s);
            Agrees(vm, b, start, v', s') && s'.order == s.order + Decided(batch, v.results, |batch|)
  {
    MergingAll(vm, b, start, batch, |batch|, gas, cached, s0, v, s);
    var v', s' := MergeAll(b, gas, batch, |batch|, v), ShadowAll(vm, b, gas, v.results, batch, |batch|, s);
    forall a: Address ensures Get(v'.st, a) == Get(s'.ideal.st, a) {
      assert !Waits(b, batch, |batch|, a);
    }
    Extensional(v'.st, s'.ideal.st);
  }

  /** The results after the workers of a batch have finished. */
  function WithResults(fates: map<nat, Result>, phases: map<nat, Phase>): map<nat, Result> {
    fates + map i | i in phases && phases[i].Finished? && phases[i].result.Some? :: phases[i].result.value
  }

  lemma SettledMember(b: Block, batch: seq<nat>, m: nat, gas: map<nat, nat>, cached: set<Address>, s0: State, st: State,
                      phases: map<nat, Phase>, fates: map<nat, Result>)
    requires m < |batch| && Distinct(batch) && Transfers(b, batch) && Indices(b, batch)
    requires Dispatched(b, batch, |batch|, gas, fates) && phases.Keys == gas.Keys && Independent(b, phases.Keys)
    requires AllTrack(b, gas, cached, s0, st, phases) && forall i :: i in phases ==> phases[i].Finished?
    ensures Settled(b.txs[batch[m]], batch[m], gas, cached, s0, st, FateOf(WithResults(fates, phases), batch[m]))
  {
    var i := batch[m];
    assert Placed(b.txs[i], i, gas, fates);
    assert b.Touches(i) == Accounts(b.txs[i]);
    if i in gas {
      assert i in phases.Keys;
      assert Tracks(b.txs[i], gas[i], cached, s0, st, phases[i]);
    } else {
      forall a | a in Accounts(b.txs[i]) ensures a !in Owned(b, phases.Keys) {
        forall j | j in phases ensures a !in b.Touches(j) {
          assert j in batch;
          var n :| 0 <= n < |batch| && batch[n] == j;
          assert b.Touches(batch[if m < n then m else n]) !! b.Touches(batch[if m < n then n else m]);
        }
      }
    }
  }

  /** Once the workers are done, the batch is ready to be merged. */
  lemma ReadyToMerge(vm: Machine, b: Block, start: Totals, batch: seq<nat>, gas: map<nat, nat>,
                     v: Context, s: Shadow, v': Context, phases: map<nat, Phase>)
    requires NewTransfers(b, batch, s.order) && Indices(b, batch) && Agrees(vm, b, start, v, s)
    requires Dispatched(b, batch, |batch|, gas, v'.results) && phases.Keys == gas.Keys && Independent(b, phases.Keys)
    requires AllTrack(b, gas, v.cached, v.st, v'.st, phases) && forall i :: i in phases ==> phases[i].Finished?
    requires v'.pool + Held(batch, gas, |batch|) == v.pool
    requires v' == v.(st := v'.st, pool := v'.pool, results := v'.results)
    ensures MergingTo(b, start, batch, 0, gas, v.cached, v.st, s.order, v'.(results := WithResults(v'.results, phases)), s)
  {
    ReadyStates(b, batch, gas, v.cached, v.st, v'.st, phases, v'.results);
  }

  /** The ledger is ready: every member's fate is settled, and nothing but what members touch has changed. */
  lemma ReadyStates(b: Block, batch: seq<nat>, gas: map<nat, nat>, cached: set<Address>, s0: State, st: State,
                    phases: map<nat, Phase>, fates: map<nat, Result>)
    requires Distinct(batch) && Transfers(b, batch) && Indices(b, batch) && Canonical(s0)
    requires Dispatched(b, batch, |batch|, gas, fates) && phases.Keys == gas.Keys && Independent(b, phases.Keys)
    requires AllTrack(b, gas, cached, s0, st, phases) && forall i :: i in phases ==> phases[i].Finished?
    ensures Merging(b, batch, 0, gas, cached, s0, st, s0, WithResults(fates, phases))
  {
    forall m: nat | m < |batch| ensures Unmerged(b, batch, m, gas, cached, s0, st, s0, WithResults(fates, phases)) {
      SettledMember(b, batch, m, gas, cached, s0, st, phases, fates);
    }
    forall a: Address ensures Get(st, a) == Get(s0, a) || Waits(b, batch, 0, a) {
      OthersUntouched(b, batch, gas, cached, s0, st, phases, a);
    }
  }

  /** Before the merge only accounts that members touch can differ from what they were. */
  lemma OthersUntouched(b: Block, batch: seq<nat>, gas: map<nat, nat>, cached: set<Address>, s0: State, st: State,
                        phases: map<nat, Phase>, a: Address)
    requires Transfers(b, batch) && phases.Keys == gas.Keys && Independent(b, phases.Keys)
    requires (forall i :: i in gas ==> i in batch) && AllTrack(b, gas, cached, s0, st, phases)
    ensures Get(st, a) == Get(s0, a) || Waits(b, batch, 0, a)
  {
    if a in Owned(b, phases.Keys) {
      var i :| i in phases && a in b.Touches(i);
      assert i in gas.Keys;
      var m :| 0 <= m < |batch| && batch[m] == i;
    }
  }

  /** Members given to workers touch different accounts, as all members do. */
  lemma WorkersIndependent(b: Block, batch: seq<nat>, gas: map<nat, nat>)
    requires Transfers(b, batch) && forall i :: i in gas ==> i in batch
    ensures Independent(b, gas.Keys)
  {
    forall i, j | i in gas && j in gas && i != j
      ensures i < |b.txs| && j < |b.txs| && b.Touches(i) !! b.Touches(j)
    {
      assert i in batch && j in batch;
      var m, n :| 0 <= m < |batch| && batch[m] == i && 0 <= n < |batch| && batch[n] == j;
      assert b.Touches(batch[if m < n then m else n]) !! b.Touches(batch[if m < n then n else m]);
    }
  }

  /** When every member's fate was decided, the decided members are the whole batch. */
  lemma {:induction false} DecidedAll(batch: seq<nat>, fates: map<nat, Result>, k: nat)
    requires k <= |batch| && forall m :: 0 <= m < k ==> DecidedFate(FateOf(fates, batch[m]))
    ensures Decided(batch, fates, k) == batch[..k]
  {
    if k > 0 {
      DecidedAll(batch, fates, k - 1);
      assert batch[..k] == batch[..k - 1] + [batch[k - 1]];
    }
  }

  /** When no worker gives up, no reserved gas is lost. */
  lemma {:induction false} NothingLost(vm: Machine, b: Block, gas: map<nat, nat>, fates: map<nat, Result>, batch: seq<nat>, k: nat, s: Shadow)
    requires k <= |batch| && Indices(b, batch) && forall i :: i in gas ==> i in fates
    ensures ShadowAll(vm, b, gas, fates, batch, k, s).lost == s.lost
  {
    if k > 0 {
      NothingLost(vm, b, gas, fates, batch, k - 1, s);
    }
  }

  ghost predicate AllRan(phases: map<nat, Phase>) {
    forall i :: i in phases ==> phases[i].Finished? && phases[i].result.Some?
  }

  /** Every member got a worker or a failure, and none failed for want of gas in the pool. */
  ghost predicate NoneTurnedAway(batch: seq<nat>, gas: map<nat, nat>, fates: map<nat, Result>) {
    forall m :: 0 <= m < |batch| ==>
      (batch[m] in gas || batch[m] in fates) && FateOf(fates, batch[m]) != Some(Failure(GasLimitReached, false))
  }

  /** A member has a worker's result, or failed at the door for another reason than gas. */
  lemma FateDecided(b: Block, i: nat, gas: map<nat, nat>, cached: set<Address>, s0: State, st: State,
                    fates: map<nat, Result>, phases: map<nat, Phase>)
    requires i < |b.txs| && phases.Keys == gas.Keys && Placed(b.txs[i], i, gas, fates)
    requires (i in gas || i in fates) && FateOf(fates, i) != Some(Failure(GasLimitReached, false))
    requires i in gas ==> phases[i].Finished? && phases[i].result.Some? && b.txs[i].to.Some?
    requires i in gas ==> Tracks(b.txs[i], gas[i], cached, s0, st, phases[i])
    ensures DecidedFate(FateOf(WithResults(fates, phases), i))
  {
  }

  lemma MemberDecided(b: Block, batch: seq<nat>, m: nat, gas: map<nat, nat>, cached: set<Address>, s0: State, st: State,
                      fates: map<nat, Result>, phases: map<nat, Phase>)
    requires Indices(b, batch) && m < |batch| && phases.Keys == gas.Keys && Independent(b, phases.Keys)
    requires AllTrack(b, gas, cached, s0, st, phases)
    requires AllRan(phases) && NoneTurnedAway(batch, gas, fates) && Dispatched(b, batch, |batch|, gas, fates)
    ensures DecidedFate(FateOf(WithResults(fates, phases), batch[m]))
  {
    var i := batch[m];
    assert Placed(b.txs[i], i, gas, fates);
    assert i in gas ==> i in phases.Keys;
    FateDecided(b, i, gas, cached, s0, st, fates, phases);
  }

  lemma AllDecided(b: Block, batch: seq<nat>, gas: map<nat, nat>, cached: set<Address>, s0: State, st: State,
                   fates: map<nat, Result>, phases: map<nat, Phase>)
    requires Indices(b, batch) && Transfers(b, batch) && phases.Keys == gas.Keys && Independent(b, phases.Keys)
    requires AllTrack(b, gas, cached, s0, st, phases)
    requires AllRan(phases) && NoneTurnedAway(batch, gas, fates) && Dispatched(b, batch, |batch|, gas, fates)
    ensures Decided(batch, WithResults(fates, phases), |batch|) == batch
  {
    var all := WithResults(fates, phases);
    forall m | 0 <= m < |batch| ensures DecidedFate(FateOf(all, batch[m])) {
      MemberDecided(b, batch, m, gas, cached, s0, st, fates, phases);
    }
    DecidedAll(batch, all, |batch|);
    assert batch[..|batch|] == batch;
  }

  /** What a batch leaves in the context, from the moment its workers are done. */
  lemma BatchDone(vm: Machine, b: Block, start: Totals, batch: seq<nat>, gas: map<nat, nat>,
                  v: Context, s: Shadow, mid: Context, phases: map<nat, Phase>)
    requires NewTransfers(b, batch, s.order) && Indices(b, batch) && Agrees(vm, b, start, v, s)
    requires Dispatched(b, batch, |batch|, gas, mid.results) && phases.Keys == gas.Keys && Independent(b, phases.Keys)
    requires AllTrack(b, gas, v.cached, v.st, mid.st, phases) && forall i :: i in phases ==> phases[i].Finished?
    requires mid.pool + Held(batch, gas, |batch|) == v.pool
    requires mid == v.(st := mid.st, pool := mid.pool, results := mid.results)
    ensures var fates := WithResults(mid.results, phases);
            var v', s' := MergeAll(b, gas, batch, |batch|, mid.(results := fates)), ShadowAll(vm, b, gas, fates, batch, |batch|, s);
            && Agrees(vm, b, start, v', s') && s'.order == s.order + Decided(batch, fates, |batch|) && v'.results == fates
            && (forall i :: i in fates ==> i in mid.results || i in batch)
            && (AllRan(phases) ==> s'.lost == s.lost)
            && (AllRan(phases) && NoneTurnedAway(batch, gas, mid.results) ==> s'.order == s.order + batch)
  {
    var fates := WithResults(mid.results, phases);
    ReadyToMerge(vm, b, start, batch, gas, v, s, mid, phases);
    MergedBatch(vm, b, start, batch, gas, v.cached, v.st, mid.(results := fates), s);
    MergingAll(vm, b, start, batch, |batch|, gas, v.cached, v.st, mid.(results := fates), s);
    if AllRan(phases) {
      assert forall i :: i in gas ==> i in phases.Keys;
      NothingLost(vm, b, gas, fates, batch, |batch|, s);
      if NoneTurnedAway(batch, gas, mid.results) {
        AllDecided(b, batch, gas, v.cached, v.st, mid.st, mid.results, phases);
      }
    }
  }

  /** The decided members are distinct members of the batch. */
  lemma {:induction false} DecidedMembers(batch: seq<nat>, fates: map<nat, Result>, k: nat)
    requires k <= |batch| && Distinct(batch)
    ensures var d := Decided(batch, fates, k);
            Distinct(d) && (forall p :: 0 <= p < |d| ==> d[p] in batch) && forall i :: i in d ==> i in batch
  {
    if k > 0 {
      DecidedMembers(batch, fates, k - 1);
      DecidedFresh(batch, fates, k - 1, k - 1);
    }
  }

  // ----- Contract calls -----

  /** The context after a contract call that found its gas limit in the pool. */
  function CallOne(b: Block, i: nat, outcome: CallResult, cached: set<Address>, v: Context): Context
    requires i < |b.txs|
  {
    match outcome
    case Refused => v
    case Aborted => v.(pool := if b.txs[i].gas <= v.pool then v.pool - b.txs[i].gas else 0)
    case Applied(st, _) =>
      var gas := outcome.GasUsed(b.txs[i].gas);
      v.(st := Finalised(st), cached := cached, pool := if gas <= v.pool then v.pool - gas else 0, used := v.used + gas,
         txIdx := v.txIdx + 1, receipts := v.receipts + [Receipt(b.txs[i].hash, gas, v.used + gas)],
         packedTxs := v.packedTxs + [b.txs[i]])
  }

  ghost function ShadowCall(vm: Machine, b: Block, i: nat, s: Shadow): Shadow
    requires i < |b.txs|
  {
    var c := Step(false, vm, b, i, s.ideal);
    Shadow(s.order + [i], s.winners + (if c.log[i].Success? then [i] else []), c, s.lost)
  }

  /** A call keeps the context in step with the one-by-one run. */
  lemma CallDone(vm: Machine, b: Block, start: Totals, i: nat, outcome: CallResult, cached: set<Address>, v: Context, s: Shadow)
    requires Agrees(vm, b, start, v, s) && i < |b.txs| && b.Calls(i) && i !in s.order
    requires b.txs[i].gas <= v.pool && outcome == vm.call(b.txs[i], v.st, v.txIdx)
    ensures Agrees(vm, b, start, CallOne(b, i, outcome, cached, v), ShadowCall(vm, b, i, s))
  {
    var c := Step(false, vm, b, i, s.ideal);
    NotYet(vm, b, start, s, i);
    StepLog(false, vm, b, i, s.ideal);
    RanToNext(vm, b, s.order, start, s.ideal, s.winners, i);
    RecordNext(b, s.winners, s.ideal, c, start.used, v.packedTxs, v.receipts, i, c.log[i]);
  }
}
