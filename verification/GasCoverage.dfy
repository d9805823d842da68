/**
 * When the block's gas pool is large enough for the batched run: no transaction is turned away,
 * although a batch reserves the gas of all its members before the first one is refunded.
 */
module GasCoverage {
  import opened Types
  import opened DagGraph
  import opened TxDependencies
  import opened Rules
  import opened Receipts
  import opened Batch
  import opened Merge
  import IntrinsicGas

  /** Whatever a transaction in `order` conflicts with and comes earlier is in `order` too. */
  ghost predicate DownClosed(b: Block, order: seq<nat>) {
    forall i: nat, j: nat :: j in order && j < |b.txs| && i < j && b.Conflict(i, j) ==> i in order
  }

  /** The transactions below `n` that are not in `order`, in block order. */
  ghost function Rest(order: seq<nat>, n: nat): (r: seq<nat>)
    ensures forall i: nat :: i in r <==> i < n && i !in order
    ensures forall p, q :: 0 <= p < q < |r| ==> r[p] < r[q]
  {
    if n == 0 then []
    else
      var r := Rest(order, n - 1);
      assert forall p :: 0 <= p < |r| ==> r[p] in r;
      r + if n - 1 in order then [] else [n - 1]
  }

  /** In a list followed by what it leaves out, conflicting transactions keep the order of their indices. */
  lemma PairKept(b: Block, order: seq<nat>, r: seq<nat>, p: nat, q: nat)
    requires KeepsOrder(b, order) && DownClosed(b, order) && r == Rest(order, |b.txs|) && p < q < |order| + |r|
    ensures var all := order + r;
            all[p] < |b.txs| && all[q] < |b.txs| && all[p] != all[q] && (b.Conflict(all[p], all[q]) ==> all[p] < all[q])
  {
    if p < |order| {
      assert order[p] in order;
      if q >= |order| {
        assert r[q - |order|] in r;
        assert b.Conflict(order[p], r[q - |order|]) == b.Conflict(r[q - |order|], order[p]);
      }
    } else {
      assert r[p - |order|] in r && r[q - |order|] in r;
    }
  }

  lemma ExtendsToBlock(b: Block, order: seq<nat>)
    requires KeepsOrder(b, order) && DownClosed(b, order)
    ensures Respects(b, order + Rest(order, |b.txs|), |b.txs|)
  {
    var r := Rest(order, |b.txs|);
    var all := order + r;
    forall p, q | 0 <= p < q < |all|
      ensures all[p] < |b.txs| && all[q] < |b.txs| && all[p] != all[q]
      ensures b.Conflict(all[p], all[q]) ==> all[p] < all[q]
    {
      PairKept(b, order, r, p, q);
    }
    WholeBlockListed(b, order, r);
    AsManyAsListed(all, |b.txs|);
  }

  lemma AsManyAsListed(all: seq<nat>, n: nat)
    requires (forall p, q :: 0 <= p < q < |all| ==> all[p] != all[q]) && forall i: nat :: i < n <==> i in all
    ensures |all| == n
  {
    DistinctSize(all);
    assert Elems(all) == Below(n);
  }

  lemma WholeBlockListed(b: Block, order: seq<nat>, r: seq<nat>)
    requires Indices(b, order) && r == Rest(order, |b.txs|)
    ensures (forall i: nat :: i < |b.txs| <==> i in order + r) && Indices(b, order + r)
  {
    assert forall k :: 0 <= k < |r| ==> r[k] in r;
    forall i: nat ensures i < |b.txs| <==> i in order + r {
      if i in order {
        var k :| 0 <= k < |order| && order[k] == i;
      }
    }
  }

  lemma {:induction false} LogKept(vm: Machine, b: Block, order: seq<nat>, c: Totals, i: nat)
    requires Indices(b, order) && i !in order && i in c.log
    ensures i in Run(false, vm, b, order, c).log && Run(false, vm, b, order, c).log[i] == c.log[i]
  {
    if order != [] {
      var rest := order[..|order| - 1];
      LogKept(vm, b, rest, c, i);
      StepLog(false, vm, b, order[|order| - 1], Run(false, vm, b, rest, c));
      assert order[|order| - 1] in order;
    }
  }

  /** Any part of the block that is closed under conflicts has the outcomes of the whole. */
  lemma PartAgrees(vm: Machine, b: Block, order: seq<nat>, c: Totals, i: nat)
    requires KeepsOrder(b, order) && DownClosed(b, order) && i in Run(false, vm, b, order, c).log && i in order
    ensures var all := Serial(false, vm, b, |b.txs|, c).log;
            i in all && all[i] == Run(false, vm, b, order, c).log[i]
  {
    var r := Rest(order, |b.txs|);
    ExtendsToBlock(b, order);
    assert Indices(b, r) by {
      forall k | 0 <= k < |r| ensures r[k] < |b.txs| { assert r[k] in r; }
    }
    RunConcat(false, vm, b, order, r, c);
    OrderIrrelevant(vm, b, order + r, |b.txs|, c);
    LogKept(vm, b, r, Run(false, vm, b, order, c), i);
  }

  /** The gas a transaction is sure to ask of the pool, given what became of it. */
  ghost function Share(b: Block, i: nat, o: Outcome): nat
    requires i < |b.txs|
  {
    if b.Calls(i) then
      match o
      case Success(gas) => gas
      case CallAborted => b.txs[i].gas
      case _ => 0
    else
      var gas := IntrinsicGas.OfTransfer(b.txs[i].data);
      if gas.Some? then gas.value else 0
  }

  /** The shares of the transactions below `n` that are in `s`. */
  ghost function Shares(b: Block, log: map<nat, Outcome>, s: set<nat>, n: nat): nat
    requires n <= |b.txs| && forall i: nat :: i < n ==> i in log
  {
    if n == 0 then 0
    else Shares(b, log, s, n - 1) + if n - 1 in s then Share(b, n - 1, log[n - 1]) else 0
  }

  lemma {:induction false} SharesAdd(b: Block, log: map<nat, Outcome>, s: set<nat>, x: nat, n: nat)
    requires n <= |b.txs| && (forall i: nat :: i < n ==> i in log) && x !in s
    ensures Shares(b, log, s + {x}, n) == Shares(b, log, s, n) + if x < n then Share(b, x, log[x]) else 0
  {
    if n > 0 {
      SharesAdd(b, log, s, x, n - 1);
    }
  }

  lemma {:induction false} SharesGrow(b: Block, log: map<nat, Outcome>, s: set<nat>, t: set<nat>, n: nat)
    requires n <= |b.txs| && (forall i: nat :: i < n ==> i in log) && s <= t
    ensures Shares(b, log, s, n) <= Shares(b, log, t, n)
  {
    if n > 0 {
      SharesGrow(b, log, s, t, n - 1);
    }
  }

  lemma {:induction false} SerialLogs(bounded: bool, vm: Machine, b: Block, n: nat, c: Totals)
    requires n <= |b.txs|
    ensures forall i: nat :: i < n ==> i in Serial(bounded, vm, b, n, c).log
  {
    if n > 0 {
      SerialLogs(bounded, vm, b, n - 1, c);
      StepLog(bounded, vm, b, n - 1, Serial(bounded, vm, b, n - 1, c));
    }
  }

  /**
   * The pool is large enough, judged on the block-order run: it has the gas of every transfer, even
   * of those that fail, and what the calls consume; and each call finds its gas limit in it.
   */
  ghost predicate Enough(vm: Machine, b: Block, c: Totals) {
    var n := |b.txs|;
    SerialLogs(false, vm, b, n, c);
    && Shares(b, Serial(false, vm, b, n, c).log, Below(n), n) <= c.pool
    && forall i: nat :: i < n && b.Calls(i) ==> b.txs[i].gas <= Serial(false, vm, b, i, c).pool
  }

  lemma StepShare(vm: Machine, b: Block, i: nat, c: Totals)
    requires i < |b.txs|
    ensures var c' := Step(false, vm, b, i, c);
            i in c'.log && c'.pool >= c.pool - Share(b, i, c'.log[i])
  {
  }

  /** A run takes no more from the pool than the shares of its transactions. */
  lemma {:induction false} RunShares(vm: Machine, b: Block, order: seq<nat>, c: Totals, log: map<nat, Outcome>)
    requires Indices(b, order) && Distinct(order) && forall i: nat :: i < |b.txs| ==> i in log
    requires forall i :: i in order ==> i in Run(false, vm, b, order, c).log && log[i] == Run(false, vm, b, order, c).log[i]
    ensures Run(false, vm, b, order, c).pool >= c.pool - Shares(b, log, Elems(order), |b.txs|)
  {
    if order == [] {
      assert Elems(order) == {};
      NoShares(b, log, |b.txs|);
    } else {
      var rest, x := order[..|order| - 1], order[|order| - 1];
      var before := Run(false, vm, b, rest, c);
      assert x !in rest;
      assert order == rest + [x];
      StepLog(false, vm, b, x, before);
      RunLogs(vm, b, rest, c);
      forall i | i in rest ensures log[i] == before.log[i] {
        assert i in order && i != x;
      }
      RunShares(vm, b, rest, c, log);
      StepShare(vm, b, x, before);
      assert x in order;
      SharesAdd(b, log, Elems(rest), x, |b.txs|);
      assert Elems(order) == Elems(rest) + {x};
    }
  }

  lemma {:induction false} NoShares(b: Block, log: map<nat, Outcome>, n: nat)
    requires n <= |b.txs| && forall i: nat :: i < n ==> i in log
    ensures Shares(b, log, {}, n) == 0
  {
    if n > 0 {
      NoShares(b, log, n - 1);
    }
  }

  lemma {:induction false} RunLogs(vm: Machine, b: Block, order: seq<nat>, c: Totals)
    requires Indices(b, order)
    ensures forall i :: i in order ==> i in Run(false, vm, b, order, c).log
  {
    if order != [] {
      var rest, x := order[..|order| - 1], order[|order| - 1];
      RunLogs(vm, b, rest, c);
      StepLog(false, vm, b, x, Run(false, vm, b, rest, c));
      assert order == rest + [x];
    }
  }

  /** The transfers of a batch ask for exactly their shares. */
  lemma {:induction false} WantedShares(b: Block, batch: seq<nat>, k: nat, log: map<nat, Outcome>, s: set<nat>)
    requires k <= |batch| && Indices(b, batch) && Distinct(batch)
    requires (forall i: nat :: i < |b.txs| ==> i in log) && forall m :: 0 <= m < |batch| ==> !b.Calls(batch[m]) && batch[m] !in s
    ensures Shares(b, log, s + Elems(batch[..k]), |b.txs|) == Shares(b, log, s, |b.txs|) + Wanted(b, batch, k)
  {
    if k == 0 {
      assert s + Elems(batch[..k]) == s;
    } else {
      var x, t := batch[k - 1], s + Elems(batch[..k - 1]);
      WantedShares(b, batch, k - 1, log, s);
      assert s + Elems(batch[..k]) == t + {x} && x !in t by {
        ElemsSnoc(batch, k - 1);
      }
      SharesAdd(b, log, t, x, |b.txs|);
    }
  }

  /** Before any batch of transfers, an ample pool holds the gas of the whole batch. */
  lemma BatchCovered(vm: Machine, b: Block, c: Totals, order: seq<nat>, batch: seq<nat>)
    requires Enough(vm, b, c) && KeepsOrder(b, order) && DownClosed(b, order)
    requires Indices(b, batch) && Distinct(batch)
    requires forall m :: 0 <= m < |batch| ==> !b.Calls(batch[m]) && batch[m] !in order
    ensures Run(false, vm, b, order, c).pool >= Wanted(b, batch, |batch|)
  {
    var n := |b.txs|;
    var log := Serial(false, vm, b, n, c).log;
    SerialLogs(false, vm, b, n, c);
    RunLogs(vm, b, order, c);
    forall i | i in order ensures log[i] == Run(false, vm, b, order, c).log[i] {
      PartAgrees(vm, b, order, c, i);
    }
    RunShares(vm, b, order, c, log);
    WantedShares(b, batch, |batch|, log, Elems(order));
    assert batch[..|batch|] == batch;
    forall i | i in Elems(order) + Elems(batch) ensures i in Below(n) {
      if i in order {
        var k :| 0 <= k < |order| && order[k] == i;
      } else {
        var k :| 0 <= k < |batch| && batch[k] == i;
      }
    }
    SharesGrow(b, log, Elems(order) + Elems(batch), Below(n), n);
  }

  /** Before a call, everything earlier has been run, so the call finds its gas as in block order. */
  lemma CallCovered(vm: Machine, b: Block, c: Totals, order: seq<nat>, i: nat)
    requires Enough(vm, b, c) && i < |b.txs| && b.Calls(i) && Respects(b, order, i)
    ensures Run(false, vm, b, order, c).pool >= b.txs[i].gas
  {
    OrderIrrelevant(vm, b, order, i, c);
  }

  /** A transaction that finds its gas in the pool does not notice that the pool is bounded. */
  lemma StepUnbounded(vm: Machine, b: Block, i: nat, c: Totals)
    requires i < |b.txs| && GasAsked(b, i) <= c.pool
    ensures Step(true, vm, b, i, c) == Step(false, vm, b, i, c)
  {
  }

  /** In an ample pool the gas checks of the block-order run never bite. */
  lemma {:induction false} BoundedAgrees(vm: Machine, b: Block, c: Totals, n: nat)
    requires n <= |b.txs| && Enough(vm, b, c)
    ensures Serial(true, vm, b, n, c) == Serial(false, vm, b, n, c)
  {
    if n > 0 {
      var i := n - 1;
      BoundedAgrees(vm, b, c, i);
      if !b.Calls(i) {
        SerialCovered(vm, b, c, i);
        WantedOne(b, i);
      }
      StepUnbounded(vm, b, i, Serial(false, vm, b, i, c));
    }
  }

  /** Block order is a run in the sense of `Run`. */
  lemma {:induction false} SerialIsRun(vm: Machine, b: Block, c: Totals, n: nat)
    requires n <= |b.txs|
    ensures Run(false, vm, b, UpTo(n), c) == Serial(false, vm, b, n, c)
  {
    if n > 0 {
      assert UpTo(n)[..n - 1] == UpTo(n - 1);
      SerialIsRun(vm, b, c, n - 1);
    }
  }

  lemma UpToKeeps(b: Block, i: nat)
    requires i <= |b.txs|
    ensures KeepsOrder(b, UpTo(i)) && DownClosed(b, UpTo(i)) && i !in UpTo(i)
  {
    forall j: nat | j < i ensures j in UpTo(i) {
      assert UpTo(i)[j] == j;
    }
  }

  lemma WantedOne(b: Block, i: nat)
    requires i < |b.txs|
    ensures var gas := IntrinsicGas.OfTransfer(b.txs[i].data);
            Wanted(b, [i], 1) == if gas.Some? then gas.value else 0
  {
    assert Wanted(b, [i], 0) == 0;
  }

  lemma SerialCovered(vm: Machine, b: Block, c: Totals, i: nat)
    requires i < |b.txs| && !b.Calls(i) && Enough(vm, b, c)
    ensures Wanted(b, [i], 1) <= Serial(false, vm, b, i, c).pool
  {
    SerialIsRun(vm, b, c, i);
    UpToKeeps(b, i);
    BatchCovered(vm, b, c, UpTo(i), [i]);
  }

  // ----- The plain condition: the pool has the gas of all transactions -----

  /** The most a transaction can ask of the pool. */
  ghost function GasAsked(b: Block, i: nat): nat
    requires i < |b.txs|
  {
    if b.Calls(i) then b.txs[i].gas
    else
      var gas := IntrinsicGas.OfTransfer(b.txs[i].data);
      if gas.Some? then gas.value else 0
  }

  ghost function TotalAsked(b: Block, n: nat): nat
    requires n <= |b.txs|
  {
    if n == 0 then 0 else TotalAsked(b, n - 1) + GasAsked(b, n - 1)
  }

  lemma StepAsks(vm: Machine, b: Block, i: nat, c: Totals)
    requires i < |b.txs|
    ensures var c' := Step(false, vm, b, i, c);
            i in c'.log && c'.pool >= c.pool - GasAsked(b, i) && Share(b, i, c'.log[i]) <= GasAsked(b, i)
  {
  }

  lemma {:induction false} SerialAsks(vm: Machine, b: Block, c: Totals, n: nat)
    requires n <= |b.txs|
    ensures Serial(false, vm, b, n, c).pool >= c.pool - TotalAsked(b, n)
  {
    if n > 0 {
      SerialAsks(vm, b, c, n - 1);
      StepAsks(vm, b, n - 1, Serial(false, vm, b, n - 1, c));
    }
  }

  lemma {:induction false} SerialShares(vm: Machine, b: Block, c: Totals, n: nat, i: nat)
    requires i < n <= |b.txs|
    ensures i in Serial(false, vm, b, n, c).log && Share(b, i, Serial(false, vm, b, n, c).log[i]) <= GasAsked(b, i)
  {
    StepAsks(vm, b, n - 1, Serial(false, vm, b, n - 1, c));
    StepLog(false, vm, b, n - 1, Serial(false, vm, b, n - 1, c));
    if i < n - 1 {
      SerialShares(vm, b, c, n - 1, i);
    }
  }

  lemma {:induction false} SharesAsked(b: Block, log: map<nat, Outcome>, s: set<nat>, n: nat)
    requires n <= |b.txs| && forall i: nat :: i < n ==> i in log && Share(b, i, log[i]) <= GasAsked(b, i)
    ensures Shares(b, log, s, n) <= TotalAsked(b, n)
  {
    if n > 0 {
      SharesAsked(b, log, s, n - 1);
    }
  }

  lemma {:induction false} AskedGrows(b: Block, j: nat, n: nat)
    requires j < n <= |b.txs|
    ensures TotalAsked(b, j) + GasAsked(b, j) <= TotalAsked(b, n)
  {
    if j < n - 1 {
      AskedGrows(b, j, n - 1);
    }
  }

  /** A pool that covers the gas of all transactions is ample. */
  lemma CoveringPoolIsEnough(vm: Machine, b: Block, c: Totals)
    requires TotalAsked(b, |b.txs|) <= c.pool
    ensures Enough(vm, b, c)
  {
    var n := |b.txs|;
    SerialAsks(vm, b, c, n);
    forall i: nat | i < n
      ensures i in Serial(false, vm, b, n, c).log && Share(b, i, Serial(false, vm, b, n, c).log[i]) <= GasAsked(b, i)
    {
      SerialShares(vm, b, c, n, i);
    }
    SharesAsked(b, Serial(false, vm, b, n, c).log, Below(n), n);
    forall i: nat | i < n && b.Calls(i) ensures b.txs[i].gas <= Serial(false, vm, b, i, c).pool {
      SerialAsks(vm, b, c, i);
      AskedGrows(b, i, n);
    }
  }

  // ----- Calls that were run found their gas limit in the pool -----

  ghost predicate CallsFit(vm: Machine, b: Block, order: seq<nat>, c: Totals)
    requires Indices(b, order)
  {
    order == [] ||
    var x, rest := order[|order| - 1], order[..|order| - 1];
    CallsFit(vm, b, rest, c) && (b.Calls(x) ==> b.txs[x].gas <= Run(false, vm, b, rest, c).pool)
  }

  lemma CallsFitNext(vm: Machine, b: Block, order: seq<nat>, x: nat, c: Totals)
    requires Indices(b, order) && x < |b.txs| && CallsFit(vm, b, order, c)
    requires b.Calls(x) ==> b.txs[x].gas <= Run(false, vm, b, order, c).pool
    ensures Indices(b, order + [x]) && CallsFit(vm, b, order + [x], c)
  {
    assert (order + [x])[..|order|] == order;
  }

  lemma {:induction false} CallsFitTransfers(vm: Machine, b: Block, order: seq<nat>, d: seq<nat>, c: Totals)
    requires Indices(b, order) && Indices(b, d) && CallsFit(vm, b, order, c)
    requires forall m :: 0 <= m < |d| ==> !b.Calls(d[m])
    ensures Indices(b, order + d) && CallsFit(vm, b, order + d, c)
  {
    if d == [] {
      assert order + d == order;
    } else {
      var x, rest := d[|d| - 1], d[..|d| - 1];
      assert order + d == (order + rest) + [x];
      assert forall m :: 0 <= m < |rest| ==> rest[m] == d[m];
      CallsFitTransfers(vm, b, order, rest, c);
      CallsFitNext(vm, b, order + rest, x, c);
    }
  }
}
