/**
 * Executing a block in batches (core/parallel_executor.go, core/parallel_context.go). The context
 * is the object the source mutates; its ghost part names the one-by-one run it must agree with.
 */
module Executor {
  import opened Types
  import opened DagGraph
  import opened TxDependencies
  import opened Rules
  import opened Workers
  import opened Merge
  import opened Receipts
  import opened Batch
  import opened GasCoverage
  import opened Conservation
  import IntrinsicGas

  /** What was emitted includes everything its members conflict with and that comes earlier. */
  lemma EmittedDownward(b: Block, out: Edges, emitted: set<nat>, i: nat, j: nat)
    requires |out| == |b.txs| && b.Ordered(out, |b.txs|) && PredClosed(out, emitted)
    requires j in emitted && i < j < |b.txs| && b.Conflict(i, j)
    ensures i in emitted
  {
    AncestorEmitted(out, emitted, i, j);
  }

  /** Appending transactions of the next layer keeps conflicting transactions in block order. */
  lemma KeepsAppend(b: Block, out: Edges, emitted: set<nat>, layer: seq<nat>, order: seq<nat>, d: seq<nat>)
    requires |out| == |b.txs| && b.Ordered(out, |b.txs|)
    requires PredClosed(out, emitted) && IsLayer(out, emitted, layer)
    requires KeepsOrder(b, order) && (forall i :: i in order ==> i in emitted)
    requires Distinct(d) && forall p :: 0 <= p < |d| ==> d[p] in layer
    ensures KeepsOrder(b, order + d)
  {
    LayerIndependent(b, out, emitted, layer);
    var all := order + d;
    forall k | 0 <= k < |all| ensures all[k] < |b.txs| {
      assert k >= |order| ==> all[k] in layer;
    }
    forall p, q | 0 <= p < q < |all|
      ensures all[p] != all[q] && (b.Conflict(all[p], all[q]) ==> all[p] < all[q])
    {
      if p >= |order| {
        assert all[p] in layer && all[q] in layer;
      } else if q >= |order| {
        assert all[p] in order && all[q] in layer;
        if b.Conflict(all[p], all[q]) && all[q] < all[p] {
          assert b.Conflict(all[q], all[p]);
          EmittedDownward(b, out, emitted, all[q], all[p]);
        }
      }
    }
  }

  /** What appending a contract call to the transactions run so far, or leaving it out, keeps. */
  lemma CallAppended(vm: Machine, b: Block, start: Totals, out: Edges, emitted: set<nat>, layer: seq<nat>,
                     order: seq<nat>, order': seq<nat>, ideal: Totals)
    requires |out| == |b.txs| && b.Ordered(out, |b.txs|) && PredClosed(out, emitted) && IsLayer(out, emitted, layer)
    requires |layer| == 1 && layer[0] < |b.txs| && KeepsOrder(b, order) && (forall i :: i in order ==> i in emitted)
    requires CallsFit(vm, b, order, start) && ideal == Run(false, vm, b, order, start)
    requires order' == order || (order' == order + [layer[0]] && b.txs[layer[0]].gas <= ideal.pool)
    ensures KeepsOrder(b, order') && CallsFit(vm, b, order', start)
    ensures forall i :: i in order' ==> i in emitted + Elems(layer)
  {
    assert layer[0] in layer;
    KeepsAppend(b, out, emitted, layer, order, [layer[0]]);
    if order' != order {
      CallsFitNext(vm, b, order, layer[0], start);
    }
  }

  lemma LayerKinds(b: Block, out: Edges, emitted: set<nat>, layer: seq<nat>, order: seq<nat>)
    requires |out| == |b.txs| && b.Ordered(out, |b.txs|)
    requires PredClosed(out, emitted) && IsLayer(out, emitted, layer) && layer != []
    requires forall i :: i in order ==> i in emitted
    ensures Indices(b, layer) && layer[0] !in order
    ensures if |layer| == 1 && b.Calls(layer[0]) then layer == [layer[0]] else NewTransfers(b, layer, order)
  {
    LayerIndependent(b, out, emitted, layer);
    forall k | 0 <= k < |layer| ensures layer[k] < |b.txs| && layer[k] !in order {
      assert layer[k] in layer;
    }
    if !(|layer| == 1 && b.Calls(layer[0])) {
      forall m | 0 <= m < |layer| ensures !b.Calls(layer[m]) {
        assert layer[m] in layer;
      }
      forall m, n | 0 <= m < n < |layer| ensures b.Touches(layer[m]) !! b.Touches(layer[n]) {
        assert layer[m] in layer && layer[n] in layer;
      }
    }
  }

  /** Before a call everything earlier in the block, and nothing later, was emitted. */
  lemma CallFollowsAll(b: Block, out: Edges, emitted: set<nat>, i: nat, j: nat)
    requires |out| == |b.txs| && b.Ordered(out, |b.txs|) && PredClosed(out, emitted)
    requires i < |b.txs| && b.Calls(i) && i !in emitted && PredsIn(out, i, emitted) && j < |b.txs|
    ensures j in emitted <==> j < i
  {
    if j < i {
      assert b.Conflict(j, i);
      AncestorEmitted(out, emitted, j, i);
    } else if i < j && j in emitted {
      assert b.Conflict(i, j);
      EmittedDownward(b, out, emitted, i, j);
    }
  }

  /** With an ample pool, the next layer finds its gas once everything emitted has been decided. */
  lemma LayerCovered(vm: Machine, b: Block, start: Totals, out: Edges, emitted: set<nat>, layer: seq<nat>, order: seq<nat>)
    requires |out| == |b.txs| && b.Ordered(out, |b.txs|) && Enough(vm, b, start)
    requires PredClosed(out, emitted) && IsLayer(out, emitted, layer) && layer != [] && Indices(b, layer)
    requires KeepsOrder(b, order) && forall i :: i in order <==> i in emitted
    ensures if |layer| == 1 && b.Calls(layer[0]) then Run(false, vm, b, order, start).pool >= b.txs[layer[0]].gas
            else Run(false, vm, b, order, start).pool >= Wanted(b, layer, |layer|)
  {
    LayerKinds(b, out, emitted, layer, order);
    if |layer| == 1 && b.Calls(layer[0]) {
      var i := layer[0];
      assert i in layer;
      forall j: nat ensures j < i <==> j in order {
        if j < |b.txs| {
          CallFollowsAll(b, out, emitted, i, j);
        }
      }
      DistinctSize(order);
      assert Elems(order) == Below(i);
      CallCovered(vm, b, start, order, i);
    } else {
      forall i: nat, j: nat | j in order && j < |b.txs| && i < j && b.Conflict(i, j) ensures i in order {
        EmittedDownward(b, out, emitted, i, j);
      }
      BatchCovered(vm, b, start, order, layer);
    }
  }

  /** The transfers of a batch do not disturb the calls that were run before. */
  lemma DecidedFit(vm: Machine, b: Block, start: Totals, batch: seq<nat>, fates: map<nat, Result>, order: seq<nat>)
    requires NewTransfers(b, batch, order) && Indices(b, order) && CallsFit(vm, b, order, start)
    ensures Indices(b, order + Decided(batch, fates, |batch|)) && CallsFit(vm, b, order + Decided(batch, fates, |batch|), start)
  {
    var d := Decided(batch, fates, |batch|);
    DecidedMembers(batch, fates, |batch|);
    forall m | 0 <= m < |d| ensures d[m] < |b.txs| && !b.Calls(d[m]) {
      assert d[m] in batch;
      var k :| 0 <= k < |batch| && batch[k] == d[m];
    }
    CallsFitTransfers(vm, b, order, d, start);
  }

  lemma WalkedClosed(out: Edges, done: set<nat>, emitted: set<nat>)
    requires done <= emitted && (emitted == {} || Closed(out, done, emitted))
    ensures PredClosed(out, emitted)
  {
    forall j | j in emitted ensures PredsIn(out, j, emitted) {
      assert PredsIn(out, j, done);
    }
  }

  /** Once every transaction was emitted and decided, the run is that of block order. */
  lemma WholeBlock(vm: Machine, b: Block, start: Totals, order: seq<nat>, emitted: set<nat>)
    requires KeepsOrder(b, order) && |order| == |emitted| >= |b.txs|
    requires forall i :: i in order <==> i in emitted
    requires forall i :: i in emitted ==> i < |b.txs|
    ensures Run(false, vm, b, order, start) == Serial(false, vm, b, |b.txs|, start)
  {
    SubsetSize(emitted, Below(|b.txs|));
    OrderIrrelevant(vm, b, order, |b.txs|, start);
  }

  class ParallelContext {
    const b: Block
    const vm: Machine
    const packNewBlock: bool

    var st: State
    var cached: set<Address>
    var pool: nat
    var results: map<nat, Result>
    var packedTxs: seq<Tx>
    var receipts: seq<Receipt>
    var popped: set<Address>
    var used: nat
    var earnings: nat
    var txIdx: nat

    ghost const start: Totals
    ghost var shadow: Shadow
    ghost var starved: bool   // a transaction did not find its gas in the pool

    function View(): Context
      reads this
    {
      Context(st, cached, pool, results, packedTxs, receipts, popped, used, earnings, txIdx)
    }

    /** The context is where running the decided transactions one by one leads. */
    ghost predicate Valid()
      reads this
    {
      Agrees(vm, b, start, View(), shadow)
    }

    /**
     * Between batches no gas is unaccounted for: what is not in the pool was used, was bought by calls
     * that were given up, or was reserved for workers that gave up.
     */
    lemma GasAccounted()
      requires Valid()
      ensures pool + used + Burnt(vm, b, shadow.order, start) + shadow.lost == start.pool + start.used
    {
      GasConserved(vm, b, shadow.order, start);
    }

    constructor (b: Block, vm: Machine, st: State, pool: nat, packNewBlock: bool)
      requires Canonical(st)
      ensures this.b == b && this.vm == vm && this.packNewBlock == packNewBlock
      ensures start == Totals(st, pool, 0, 0, 0, map[]) && shadow == Shadow([], [], start, 0) && !starved
      ensures Valid() && results == map[] && this.pool == pool
    {
      this.b, this.vm, this.st, this.pool, this.packNewBlock := b, vm, st, pool, packNewBlock;
      cached, popped, results, packedTxs, receipts := {}, {}, map[], [], [];
      used, earnings, txIdx := 0, 0, 0;
      start := Totals(st, pool, 0, 0, 0, map[]);
      shadow, starved := Shadow([], [], Totals(st, pool, 0, 0, 0, map[]), 0), false;
    }

    /** The block deadline: it may pass at any moment, but only while a new block is packed. */
    method IsTimeout() returns (t: bool)
      ensures t ==> packNewBlock
    {
      t := *;
      t := t && packNewBlock;
    }

    /** The share of one transfer in `Dispatch`: the gas reserved for it, if it gets a worker. */
    method Reserve(i: nat) returns (g: Option<nat>)
      requires i < |b.txs| && i !in results
      modifies this`pool, this`results, this`starved
      ensures g.Some? ==>
                && IntrinsicGas.OfTransfer(b.txs[i].data) == g && pool + g.value == old(pool)
                && results == old(results) && starved == old(starved)
      ensures g.None? && i !in results ==>
                packNewBlock && pool == old(pool) && results == old(results) && starved == old(starved)
      ensures g.None? && i in results ==>
                && pool == old(pool)
                && if IntrinsicGas.OfTransfer(b.txs[i].data).None?
                   then results == old(results)[i := Failure(OutOfGas, false)] && starved == old(starved)
                   else results == old(results)[i := Failure(GasLimitReached, false)] && starved &&
                        pool < IntrinsicGas.OfTransfer(b.txs[i].data).value
    {
      if packNewBlock && b.txs[i].from in popped {
        return None;
      }
      g := IntrinsicGas.Compute(b.txs[i].data, false, false);
      if g.None? {
        results := results[i := Failure(OutOfGas, false)];
      } else if pool < g.value {
        results := results[i := Failure(GasLimitReached, false)];
        starved := true;
        g := None;
      } else {
        pool := pool - g.value;
      }
    }

    /** The state of `Dispatch` after the first `n` members, given what it started from. */
    ghost predicate Dispatching(batch: seq<nat>, n: nat, gas: map<nat, nat>, pool0: nat, fates0: map<nat, Result>, starved0: bool)
      requires n <= |batch| && Indices(b, batch)
      reads this
    {
      && Dispatched(b, batch, n, gas, results)
      && (forall i :: i !in batch ==> FateOf(results, i) == FateOf(fates0, i))
      && pool + Held(batch, gas, n) == pool0 && Held(batch, gas, n) <= Wanted(b, batch, n)
      && (starved0 ==> starved)
      && (!starved ==> forall m :: 0 <= m < n ==> FateOf(results, batch[m]) != Some(Failure(GasLimitReached, false)))
      && (pool0 >= Wanted(b, batch, |batch|) ==> starved == starved0)
    }

    method DispatchNext(batch: seq<nat>, n: nat, gas: map<nat, nat>, ghost pool0: nat, ghost fates0: map<nat, Result>, ghost starved0: bool)
      returns (gas': map<nat, nat>)
      requires n < |batch| && Indices(b, batch) && Distinct(batch)
      requires Dispatching(batch, n, gas, pool0, fates0, starved0)
      modifies this`pool, this`results, this`starved
      ensures Dispatching(batch, n + 1, gas', pool0, fates0, starved0)
      ensures !packNewBlock ==> batch[n] in gas' || batch[n] in results
      ensures gas' - {batch[n]} == gas && results - {batch[n]} == old(results)
    {
      var i := batch[n];
      WantedGrows(b, batch, n + 1, |batch|);
      var g := Reserve(i);
      HeldNext(b, batch, n, gas, g);
      gas' := With(gas, i, g);
      assert gas' - {i} == gas && results - {i} == old(results);
      DispatchedNext(b, batch, n, gas, old(results), gas', results);
    }

    /**
     * Reserves gas for the members of a batch and decides which of them get a worker. Outside of
     * packing every member gets one or a failure, and if the pool holds the gas of the whole batch
     * no member is turned away for want of gas.
     */
    method Dispatch(batch: seq<nat>) returns (gas: map<nat, nat>)
      requires Indices(b, batch) && Distinct(batch)
      requires forall m :: 0 <= m < |batch| ==> batch[m] !in results
      modifies this`pool, this`results, this`starved
      ensures Dispatched(b, batch, |batch|, gas, results)
      ensures forall i :: i !in batch ==> FateOf(results, i) == FateOf(old(results), i)
      ensures pool + Held(batch, gas, |batch|) == old(pool)
      ensures (old(starved) ==> starved) && (!packNewBlock && !starved ==> NoneTurnedAway(batch, gas, results))
      ensures old(pool) >= Wanted(b, batch, |batch|) ==> starved == old(starved)
    {
      ghost var n;
      gas, n := DispatchEach(batch);
      DispatchedRest(b, batch, n, gas, results);
      HeldTail(batch, gas, n, |batch|);
    }

    /** Places the members one by one, until the deadline. */
    method DispatchEach(batch: seq<nat>) returns (gas: map<nat, nat>, ghost placed: nat)
      requires Indices(b, batch) && Distinct(batch)
      requires forall m :: 0 <= m < |batch| ==> batch[m] !in results
      modifies this`pool, this`results, this`starved
      ensures placed <= |batch| && Dispatching(batch, placed, gas, old(pool), old(results), old(starved))
      ensures !packNewBlock ==> placed == |batch| && Handled(batch, |batch|, gas, results)
    {
      gas := map[];
      var n := 0;
      while n < |batch|
        invariant 0 <= n <= |batch| && Dispatching(batch, n, gas, old(pool), old(results), old(starved))
        invariant !packNewBlock ==> Handled(batch, n, gas, results)
      {
        var late := IsTimeout();
        if late {
          break;
        }
        ghost var gas0, fates0 := gas, results;
        gas := DispatchNext(batch, n, gas, old(pool), old(results), old(starved));
        if !packNewBlock {
          HandledNext(batch, n, gas0, fates0, gas, results);
        }
        n := n + 1;
      }
      placed := n;
    }

    /** Folds one result into the context. */
    method MergeNext(i: nat, gas: map<nat, nat>)
      requires i < |b.txs|
      modifies this`st, this`cached, this`pool, this`packedTxs, this`receipts, this`popped, this`used, this`earnings, this`txIdx
      ensures View() == MergeOne(b, gas, i, old(View()))
    {
      if i in results {
        match results[i]
        case Done(from, to, gasUsed, fee) =>
          st := MergeObjects(from, to, st);
          cached := cached + {from.addr, to.addr};
          used := used + gasUsed;
          receipts := receipts + [Receipt(b.txs[i].hash, gasUsed, used)];
          packedTxs := packedTxs + [b.txs[i]];
          txIdx := txIdx + 1;
          earnings := earnings + fee;
        case Failure(err, refund) =>
          if refund && i in gas {
            pool := pool + gas[i];
          }
          if err == GasLimitReached || err == NonceTooHigh {
            popped := popped + {b.txs[i].from};
          }
      }
    }

    /** Folds the results of a batch into the context, member by member. */
    method BatchMerge(batch: seq<nat>, gas: map<nat, nat>)
      requires Indices(b, batch)
      modifies this`st, this`cached, this`pool, this`packedTxs, this`receipts, this`popped, this`used, this`earnings, this`txIdx
      ensures View() == MergeAll(b, gas, batch, |batch|, old(View()))
    {
      var k := 0;
      while k < |batch|
        invariant 0 <= k <= |batch|
        invariant View() == MergeAll(b, gas, batch, k, old(View()))
      {
        MergeNext(batch[k], gas);
        k := k + 1;
      }
    }

    /** Hands out a batch and runs its workers; nothing is merged yet. */
    method RunConcurrently(batch: seq<nat>) returns (gas: map<nat, nat>, phases: map<nat, Phase>)
      requires Indices(b, batch) && Distinct(batch) && Transfers(b, batch)
      requires forall m :: 0 <= m < |batch| ==> batch[m] !in results
      modifies this`st, this`pool, this`results, this`starved
      ensures Dispatched(b, batch, |batch|, gas, results) && phases.Keys == gas.Keys && Independent(b, phases.Keys)
      ensures AllTrack(b, gas, cached, old(st), st, phases) && forall i :: i in phases ==> phases[i].Finished?
      ensures pool + Held(batch, gas, |batch|) == old(pool)
      ensures forall i :: i in results ==> i in old(results) || i in batch
      ensures (old(starved) ==> starved) && (!packNewBlock ==> AllRan(phases))
      ensures !packNewBlock && !starved ==> NoneTurnedAway(batch, gas, results)
      ensures old(pool) >= Wanted(b, batch, |batch|) ==> starved == old(starved)
    {
      gas := Dispatch(batch);
      WorkersIndependent(b, batch, gas);
      st, phases := RunWorkers(b, gas.Keys, gas, cached, st, packNewBlock);
    }

    /** Takes in the workers' results and merges the batch. */
    method FinishBatch(batch: seq<nat>, gas: map<nat, nat>, phases: map<nat, Phase>)
      requires Indices(b, batch)
      modifies this
      ensures starved == old(starved) && View() ==
              MergeAll(b, gas, batch, |batch|, old(View()).(results := WithResults(old(results), phases)))
      ensures shadow == ShadowAll(vm, b, gas, WithResults(old(results), phases), batch, |batch|, old(shadow))
    {
      results := WithResults(results, phases);
      BatchMerge(batch, gas);
      shadow := ShadowAll(vm, b, gas, WithResults(old(results), phases), batch, |batch|, shadow);
    }

    /**
     * Runs one batch of transfers: the context stays in step with the one-by-one run, which is
     * extended by the members whose fate was decided. Outside of packing, and with enough gas in the
     * pool, that is the whole batch in its order.
     */
    method ExecuteBatch(batch: seq<nat>)
      requires Valid() && Indices(b, batch) && NewTransfers(b, batch, shadow.order)
      requires forall m :: 0 <= m < |batch| ==> batch[m] !in results
      modifies this
      ensures Valid() && (old(starved) ==> starved)
      ensures shadow.order == old(shadow).order + Decided(batch, results, |batch|)
      ensures forall i :: i in results ==> i in old(results) || i in batch
      ensures !packNewBlock && !starved ==> shadow.order == old(shadow).order + batch
      ensures !packNewBlock ==> shadow.lost == old(shadow).lost
      ensures old(pool) >= Wanted(b, batch, |batch|) ==> starved == old(starved)
    {
      ghost var v, s := View(), shadow;
      var gas, phases := RunConcurrently(batch);
      ghost var mid := View();
      BatchDone(vm, b, start, batch, gas, v, s, mid, phases);
      FinishBatch(batch, gas, phases);
    }

    /** Books what the machine made of a call whose gas limit is in the pool. */
    method ApplyCall(i: nat, outcome: CallResult, touched: set<Address>)
      requires i < |b.txs| && b.txs[i].gas <= pool
      modifies this`st, this`cached, this`pool, this`packedTxs, this`receipts, this`used, this`txIdx
      ensures View() == CallOne(b, i, outcome, touched, old(View()))
    {
      var tx := b.txs[i];
      match outcome {
        case Refused =>
        case Aborted =>
          pool := pool - tx.gas;
        case Applied(st', _) =>
          var gas := outcome.GasUsed(tx.gas);
          st, cached, pool, used := Finalised(st'), touched, pool - gas, used + gas;
          packedTxs := packedTxs + [tx];
          txIdx := txIdx + 1;
          receipts := receipts + [Receipt(tx.hash, gas, used)];
      }
    }

    /** Runs one contract call, alone. */
    method ExecuteContract(i: nat)
      requires Valid() && i < |b.txs| && b.Calls(i) && i !in shadow.order
      modifies this
      ensures Valid() && (old(starved) ==> starved) && results == old(results)
      ensures shadow.lost == old(shadow).lost
      ensures shadow.order == old(shadow).order ||
              (shadow.order == old(shadow).order + [i] && b.txs[i].gas <= old(shadow).ideal.pool)
      ensures !packNewBlock && !starved ==> shadow.order == old(shadow).order + [i]
      ensures old(pool) >= b.txs[i].gas ==> starved == old(starved)
    {
      var late := IsTimeout();
      if late {
        return;
      }
      if pool < b.txs[i].gas {
        starved := true;
        return;
      }
      var touched: set<Address> := *;
      var outcome := vm.call(b.txs[i], st, txIdx);
      CallDone(vm, b, start, i, outcome, touched, View(), shadow);
      ApplyCall(i, outcome, touched);
      shadow := ShadowCall(vm, b, i, shadow);
    }

    /** What holds between two batches, `emitted` being the indices handed out so far. */
    ghost predicate InBlock(emitted: set<nat>)
      reads this
    {
      && Valid() && KeepsOrder(b, shadow.order) && CallsFit(vm, b, shadow.order, start)
      && (forall i :: i in shadow.order ==> i in emitted) && (forall i :: i in results ==> i in emitted)
      && (!packNewBlock ==> shadow.lost == 0)
      && (!packNewBlock && !starved ==> |shadow.order| == |emitted| && forall i :: i in emitted ==> i in shadow.order)
    }

    /** Runs a layer that is a contract call. */
    method ExecuteCallLayer(layer: seq<nat>, ghost out: Edges, ghost emitted: set<nat>)
      requires |out| == |b.txs| && b.Ordered(out, |b.txs|) && InBlock(emitted)
      requires PredClosed(out, emitted) && IsLayer(out, emitted, layer) && |layer| == 1
      requires layer[0] < |b.txs| && b.Calls(layer[0])
      requires |emitted + Elems(layer)| == |emitted| + |layer|
      modifies this
      ensures InBlock(emitted + Elems(layer))
      ensures !packNewBlock && Enough(vm, b, start) && !old(starved) ==> !starved
    {
      ghost var order := shadow.order;
      LayerKinds(b, out, emitted, layer, order);
      if !packNewBlock && Enough(vm, b, start) && !starved {
        LayerCovered(vm, b, start, out, emitted, layer, order);
      }
      ghost var ideal := shadow.ideal;
      ExecuteContract(layer[0]);
      CallAppended(vm, b, start, out, emitted, layer, order, shadow.order, ideal);
    }

    /** Runs a layer of transfers. */
    method ExecuteTransferLayer(layer: seq<nat>, ghost out: Edges, ghost emitted: set<nat>)
      requires |out| == |b.txs| && b.Ordered(out, |b.txs|) && InBlock(emitted)
      requires PredClosed(out, emitted) && IsLayer(out, emitted, layer) && layer != []
      requires forall i: nat :: i in layer && i < |b.txs| ==> !(b.Calls(i) && |layer| == 1)
      requires |emitted + Elems(layer)| == |emitted| + |layer|
      modifies this
      ensures InBlock(emitted + Elems(layer))
      ensures !packNewBlock && Enough(vm, b, start) && !old(starved) ==> !starved
    {
      ghost var order := shadow.order;
      LayerKinds(b, out, emitted, layer, order);
      if !packNewBlock && Enough(vm, b, start) && !starved {
        LayerCovered(vm, b, start, out, emitted, layer, order);
      }
      ExecuteBatch(layer);
      DecidedMembers(layer, results, |layer|);
      KeepsAppend(b, out, emitted, layer, order, Decided(layer, results, |layer|));
      DecidedFit(vm, b, start, layer, results, order);
    }

    /** Runs the next layer, as a contract call or as a batch of transfers. */
    method ExecuteLayer(layer: seq<nat>, contracts: set<nat>, ghost out: Edges, ghost emitted: set<nat>)
      requires |out| == |b.txs| && b.Ordered(out, |b.txs|) && InBlock(emitted)
      requires PredClosed(out, emitted) && IsLayer(out, emitted, layer) && layer != []
      requires forall i: nat :: i < |b.txs| ==> (i in contracts <==> b.Calls(i))
      requires |emitted + Elems(layer)| == |emitted| + |layer|
      modifies this
      ensures InBlock(emitted + Elems(layer))
      ensures !packNewBlock && Enough(vm, b, start) && !old(starved) ==> !starved
    {
      assert layer[0] in layer;
      if |layer| == 1 && layer[0] in contracts {
        ExecuteCallLayer(layer, out, emitted);
      } else {
        ExecuteTransferLayer(layer, out, emitted);
      }
    }

    /** Takes the next layer from the graph and runs it. */
    method ExecuteNext(dag: Dag, contracts: set<nat>)
      requires dag.Walking() && dag.HasNext() && dag.v == |b.txs| && b.Ordered(dag.outEdges, |b.txs|)
      requires forall i: nat :: i < |b.txs| ==> (i in contracts <==> b.Calls(i))
      requires InBlock(dag.emitted)
      modifies this, dag
      ensures dag.Walking() && dag.v == old(dag.v) && dag.outEdges == old(dag.outEdges)
      ensures InBlock(dag.emitted) && dag.consumed > old(dag.consumed)
      ensures !packNewBlock && Enough(vm, b, start) && !old(starved) ==> !starved
    {
      ghost var emitted := dag.emitted;
      WalkedClosed(dag.outEdges, dag.done, emitted);
      var layer := dag.Next();
      ExecuteLayer(layer, contracts, dag.outEdges, emitted);
    }

    /**
     * Runs the whole block, layer by layer. The context ends in step with a one-by-one run that
     * keeps conflicting transactions in block order. Outside of packing, if no transaction was
     * turned away for want of gas, that is the run of the whole block in block order; and with an
     * ample pool none is turned away.
     */
    method RunBlock()
      requires b.Resolved() && InBlock({}) && shadow == Shadow([], [], start, 0) && !starved
      modifies this
      ensures Valid() && KeepsOrder(b, shadow.order) && (!packNewBlock ==> shadow.lost == 0)
      ensures CallsFit(vm, b, shadow.order, start)
      ensures !packNewBlock && !starved ==> shadow.ideal == Serial(false, vm, b, |b.txs|, start)
      ensures !packNewBlock && Enough(vm, b, start) ==> !starved
    {
      var txDag := new TxDag();
      var cache := txDag.MakeDagGraph(b);
      RunLayers(txDag.dag, txDag.contracts);
    }

    /** Runs the layers of the graph until none is left, or until the deadline. */
    method RunLayers(dag: Dag, contracts: set<nat>)
      requires dag.Walking() && dag.v == |b.txs| && b.Ordered(dag.outEdges, |b.txs|) && InBlock(dag.emitted) && !starved
      requires forall i: nat :: i < |b.txs| ==> (i in contracts <==> b.Calls(i))
      modifies this, dag
      ensures Valid() && KeepsOrder(b, shadow.order) && (!packNewBlock ==> shadow.lost == 0)
      ensures CallsFit(vm, b, shadow.order, start)
      ensures !packNewBlock && !starved ==> shadow.ideal == Serial(false, vm, b, |b.txs|, start)
      ensures !packNewBlock && Enough(vm, b, start) ==> !starved
    {
      var late := IsTimeout();
      while !late && dag.HasNext()
        invariant dag.Walking() && dag.v == |b.txs| && b.Ordered(dag.outEdges, |b.txs|)
        invariant InBlock(dag.emitted) && (late ==> packNewBlock)
        invariant !packNewBlock && Enough(vm, b, start) ==> !starved
        decreases dag.v - dag.consumed
      {
        ExecuteNext(dag, contracts);
        late := IsTimeout();
      }
      if !packNewBlock && !starved {
        WholeBlock(vm, b, start, shadow.order, dag.emitted);
      }
    }

    /** Credits the producer with the fees collected. */
    method PayEarnings(coinbase: Address)
      modifies this`st
      ensures st == PayProducer(old(st), coinbase, earnings)
    {
      if earnings > 0 {
        st := Put(st, coinbase, Account(Get(st, coinbase).balance + earnings, Get(st, coinbase).nonce));
      }
    }

    /** Runs the block and then credits the producer with the fees of all its transfers at once. */
    method ExecuteTransactions(coinbase: Address)
      requires b.Resolved() && InBlock({}) && shadow == Shadow([], [], start, 0) && !starved
      modifies this
      ensures RanTo(vm, b, shadow.order, start, shadow.ideal, shadow.winners) && KeepsOrder(b, shadow.order)
      ensures CallsFit(vm, b, shadow.order, start)
      ensures InStep(b, start, View(), shadow) && st == PayProducer(shadow.ideal.st, coinbase, shadow.ideal.earnings)
      ensures pool + shadow.lost == shadow.ideal.pool && (!packNewBlock ==> shadow.lost == 0)
      ensures !packNewBlock && !starved ==> shadow.ideal == Serial(false, vm, b, |b.txs|, start)
      ensures !packNewBlock && Enough(vm, b, start) ==> !starved
    {
      if |b.txs| > 0 {
        RunBlock();
      }
      PayEarnings(coinbase);
    }
  }
}
