/** Validating a block (core/parallel_state_processor.go): the theorem that batching is invisible. */
module Processor {
  import opened Types
  import opened TxDependencies
  import opened Rules
  import opened Receipts
  import opened Batch
  import opened GasCoverage
  import opened Executor

  /** The receipts of a run in block order, with running totals of the gas. */
  ghost function BlockReceipts(b: Block, log: map<nat, Outcome>, n: nat): seq<Receipt>
    requires n <= |b.txs|
  {
    if n == 0 then []
    else
      var before := BlockReceipts(b, log, n - 1);
      if n - 1 in log && log[n - 1].Success? then
        before + [Receipt(b.txs[n - 1].hash, log[n - 1].gasUsed, LastCumulative(before, 0) + log[n - 1].gasUsed)]
      else before
  }

  ghost predicate DistinctHashes(txs: seq<Tx>) {
    forall i, j :: 0 <= i < j < |txs| ==> txs[i].hash != txs[j].hash
  }

  /** `gas` has the gas of exactly the successful transactions, by hash. */
  ghost predicate GasMatches(b: Block, log: map<nat, Outcome>, gas: map<Hash, nat>, n: nat)
    requires n <= |b.txs|
  {
    forall i: nat :: i < n ==>
      && i in log && (b.txs[i].hash in gas <==> log[i].Success?)
      && (log[i].Success? ==> gas[b.txs[i].hash] == log[i].gasUsed)
  }

  lemma {:induction false} KnownHashes(txs: seq<Tx>, hashes: set<Hash>)
    ensures forall k :: 0 <= k < |Known(txs, hashes)| ==>
              Known(txs, hashes)[k] in hashes && exists i :: 0 <= i < |txs| && txs[i].hash == Known(txs, hashes)[k]
    ensures DistinctHashes(txs) ==> forall j, k :: 0 <= j < k < |Known(txs, hashes)| ==> Known(txs, hashes)[j] != Known(txs, hashes)[k]
  {
    if txs != [] {
      var rest, tx := txs[..|txs| - 1], txs[|txs| - 1];
      KnownHashes(rest, hashes);
      assert forall i :: 0 <= i < |rest| ==> rest[i] == txs[i];
    }
  }

  /** The receipts listed by `refs`, with their prefix sums, are the receipts in block order. */
  lemma {:induction false} KnownIsBlockOrder(b: Block, log: map<nat, Outcome>, gas: map<Hash, nat>, n: nat)
    requires n <= |b.txs| && GasMatches(b, log, gas, n)
    ensures var refs, rs := Known(b.txs[..n], gas.Keys), BlockReceipts(b, log, n);
            && |rs| == |refs| && LastCumulative(rs, 0) == GasOf(refs, gas, |refs|)
            && forall k: nat :: k < |rs| ==> refs[k] in gas && rs[k] == Receipt(refs[k], gas[refs[k]], GasThrough(refs, gas, k))
  {
    if n > 0 {
      KnownIsBlockOrder(b, log, gas, n - 1);
      assert b.txs[..n][..n - 1] == b.txs[..n - 1];
      var refs := Known(b.txs[..n - 1], gas.Keys);
      assert b.txs[..n][n - 1] == b.txs[n - 1] && refs + [] == refs;
      if log[n - 1].Success? {
        var h := b.txs[n - 1].hash;
        assert Known(b.txs[..n], gas.Keys) == refs + [h];
        GasOfPrefix(refs, [h], gas, |refs|);
        assert GasThrough(refs + [h], gas, |refs|) == GasOf(refs, gas, |refs|) + gas[h];
        forall k: nat | k < |refs| ensures GasThrough(refs + [h], gas, k) == GasThrough(refs, gas, k) {
          GasOfPrefix(refs, [h], gas, k + 1);
        }
      }
    }
  }

  lemma {:induction false} GasByHashOf(receipts: seq<Receipt>, h: Hash)
    ensures h in GasByHash(receipts) <==> exists k :: 0 <= k < |receipts| && receipts[k].hash == h
    ensures (forall j, k :: 0 <= j < k < |receipts| ==> receipts[j].hash != receipts[k].hash) ==>
              forall k :: 0 <= k < |receipts| && receipts[k].hash == h ==> GasByHash(receipts)[h] == receipts[k].gasUsed
  {
    if receipts != [] {
      GasByHashOf(receipts[..|receipts| - 1], h);
    }
  }

  /** `w` lists, once each, the transactions that the log of a whole block calls successful. */
  ghost predicate AllWinners(b: Block, w: seq<nat>, log: map<nat, Outcome>) {
    && (forall i: nat :: i < |b.txs| ==> i in log && (i in w <==> log[i].Success?))
    && forall j, k :: 0 <= j < k < |w| ==> w[j] != w[k]
  }

  lemma RecordsGas(b: Block, w: seq<nat>, log: map<nat, Outcome>, packed: seq<Tx>, receipts: seq<Receipt>)
    requires DistinctHashes(b.txs) && Records(b, w, log, packed, receipts) && AllWinners(b, w, log)
    ensures GasMatches(b, log, GasByHash(receipts), |b.txs|)
  {
    var gas := GasByHash(receipts);
    assert forall k :: 0 <= k < |w| ==> receipts[k].hash == b.txs[w[k]].hash;
    forall i: nat | i < |b.txs|
      ensures b.txs[i].hash in gas <==> log[i].Success?
      ensures log[i].Success? ==> gas[b.txs[i].hash] == log[i].gasUsed
    {
      GasByHashOf(receipts, b.txs[i].hash);
      if log[i].Success? {
        assert i in w;
        var k :| 0 <= k < |w| && w[k] == i;
        assert receipts[k].hash == b.txs[i].hash;
      }
      if b.txs[i].hash in gas {
        var k :| 0 <= k < |receipts| && receipts[k].hash == b.txs[i].hash;
        assert w[k] in w && w[k] == i;
      }
    }
  }

  /** Where no hash is listed twice, an entry shows its receipt with its own running total. */
  lemma SortedEntry(sorted: seq<Receipt>, refs: seq<Hash>, gas: map<Hash, nat>, k: nat)
    requires SortedBy(sorted, refs, gas) && k < |refs| && forall i, j :: 0 <= i < j < |refs| ==> refs[i] != refs[j]
    ensures sorted[k] == Receipt(refs[k], gas[refs[k]], GasThrough(refs, gas, k))
  {
    assert LastUse(refs, k);
  }

  /** Sorting the records of a block gives its receipts in block order, with prefix sums. */
  lemma SortedIsBlockOrder(b: Block, w: seq<nat>, log: map<nat, Outcome>, packed: seq<Tx>, receipts: seq<Receipt>, sorted: seq<Receipt>)
    requires DistinctHashes(b.txs) && Records(b, w, log, packed, receipts) && AllWinners(b, w, log)
    requires SortedBy(sorted, Known(b.txs, GasByHash(receipts).Keys), GasByHash(receipts))
    ensures sorted == BlockReceipts(b, log, |b.txs|)
  {
    RecordsGas(b, w, log, packed, receipts);
    SortedMatches(b, log, GasByHash(receipts), sorted);
  }

  lemma SortedMatches(b: Block, log: map<nat, Outcome>, gas: map<Hash, nat>, sorted: seq<Receipt>)
    requires DistinctHashes(b.txs) && GasMatches(b, log, gas, |b.txs|) && SortedBy(sorted, Known(b.txs, gas.Keys), gas)
    ensures sorted == BlockReceipts(b, log, |b.txs|)
  {
    KnownIsBlockOrder(b, log, gas, |b.txs|);
    assert b.txs[..|b.txs|] == b.txs;
    KnownHashes(b.txs, gas.Keys);
    forall k | 0 <= k < |sorted| ensures sorted[k] == BlockReceipts(b, log, |b.txs|)[k] {
      SortedEntry(sorted, Known(b.txs, gas.Keys), gas, k);
    }
  }

  /** The winners of a run over the whole block are its successful transactions. */
  lemma {:induction false} WinnersComplete(vm: Machine, b: Block, order: seq<nat>, c: Totals)
    requires Indices(b, order) && forall p, q :: 0 <= p < q < |order| ==> order[p] != order[q]
    ensures var w, log := Winners(vm, b, order, c), Run(false, vm, b, order, c).log;
            && (forall i :: i in order ==> i in log && (i in w <==> log[i].Success?))
            && forall j, k :: 0 <= j < k < |w| ==> w[j] != w[k]
  {
    if order != [] {
      var x, rest := order[|order| - 1], order[..|order| - 1];
      WinnersComplete(vm, b, rest, c);
      assert order == rest + [x];
      StepLog(false, vm, b, x, Run(false, vm, b, rest, c));
      assert x !in rest;
    }
  }

  /**
   * Validates a block: runs it in batches and sorts its receipts. For a pool that is ample, ledger
   * and gas are exactly those of running the same rules transaction by transaction in block order,
   * whatever the interleaving of the workers; and so are the receipts if no hash is listed twice.
   */
  method Process(b: Block, vm: Machine, st: State, gasLimit: nat, coinbase: Address)
    returns (st': State, receipts: seq<Receipt>, used: nat)
    requires b.Resolved() && Canonical(st)
    ensures var start := Totals(st, gasLimit, 0, 0, 0, map[]);
            var serial := Serial(true, vm, b, |b.txs|, start);
            Enough(vm, b, start) ==>
              && st' == PayProducer(serial.st, coinbase, serial.earnings) && used == serial.used
              && (DistinctHashes(b.txs) ==> receipts == BlockReceipts(b, serial.log, |b.txs|))
  {
    var ctx := new ParallelContext(b, vm, st, gasLimit, false);
    ctx.ExecuteTransactions(coinbase);
    receipts := SortReceipts(b.txs, ctx.receipts);
    st', used := ctx.st, ctx.used;
    ghost var start := ctx.start;
    if Enough(vm, b, start) {
      BoundedAgrees(vm, b, start, |b.txs|);
      if DistinctHashes(b.txs) {
        ProcessedAll(vm, b, start, ctx.shadow, ctx.View(), receipts);
      }
    }
  }

  lemma ProcessedAll(vm: Machine, b: Block, start: Totals, s: Shadow, v: Context, sorted: seq<Receipt>)
    requires DistinctHashes(b.txs) && RanTo(vm, b, s.order, start, s.ideal, s.winners) && KeepsOrder(b, s.order)
    requires InStep(b, start, v, s) && s.ideal == Serial(false, vm, b, |b.txs|, start) && start.log == map[]
    requires SortedBy(sorted, Known(b.txs, GasByHash(v.receipts).Keys), GasByHash(v.receipts))
    ensures sorted == BlockReceipts(b, s.ideal.log, |b.txs|)
  {
    WinnersComplete(vm, b, s.order, start);
    SerialLogs(false, vm, b, |b.txs|, start);
    forall i: nat | i < |b.txs| ensures i in s.ideal.log && (i in s.winners <==> s.ideal.log[i].Success?) {
      LoggedOnly(vm, b, s.order, start, i);
      assert i in s.order;
    }
    assert AllWinners(b, s.winners, s.ideal.log);
    SortedIsBlockOrder(b, s.winners, s.ideal.log, v.packedTxs, v.receipts, sorted);
  }

  /** Only transactions that ran are logged. */
  lemma {:induction false} LoggedOnly(vm: Machine, b: Block, order: seq<nat>, c: Totals, i: nat)
    requires Indices(b, order) && i in Run(false, vm, b, order, c).log && i !in c.log
    ensures i in order
  {
    if order != [] {
      var x, rest := order[|order| - 1], order[..|order| - 1];
      StepLog(false, vm, b, x, Run(false, vm, b, rest, c));
      if i != x {
        LoggedOnly(vm, b, rest, c, i);
      }
    }
  }
}
