/** The records of a block run: packed transactions and receipts, and their final order. */
module Receipts {
  import opened Types
  import opened TxDependencies
  import opened Rules

  datatype Receipt = Receipt(hash: Hash, gasUsed: nat, cumulative: nat)

  /** The transactions of `order` that succeed, in the order they run. */
  ghost function Winners(vm: Machine, b: Block, order: seq<nat>, c: Totals): (w: seq<nat>)
    requires Indices(b, order)
    ensures forall k :: 0 <= k < |w| ==> w[k] in order
  {
    if order == [] then []
    else
      var x, rest := order[|order| - 1], order[..|order| - 1];
      var before := Winners(vm, b, rest, c);
      assert forall k :: 0 <= k < |before| ==> before[k] in order;
      if Run(false, vm, b, order, c).log[x].Success? then before + [x] else before
  }

  /** Each receipt adds its own gas to the total before it. */
  ghost predicate Cumulative(receipts: seq<Receipt>, start: nat) {
    forall k {:trigger Before(receipts, k, start)} :: 0 <= k < |receipts| ==>
      receipts[k].cumulative == receipts[k].gasUsed + Before(receipts, k, start)
  }

  function Before(receipts: seq<Receipt>, k: nat, start: nat): nat
    requires k <= |receipts|
  {
    if k == 0 then start else receipts[k - 1].cumulative
  }

  function LastCumulative(receipts: seq<Receipt>, start: nat): nat {
    Before(receipts, |receipts|, start)
  }

  /** The packed list and the receipts are those of the transactions `w`, as logged. */
  ghost predicate Records(b: Block, w: seq<nat>, log: map<nat, Outcome>, packed: seq<Tx>, receipts: seq<Receipt>) {
    && |packed| == |w| && |receipts| == |w|
    && forall k :: 0 <= k < |w| ==>
      && w[k] < |b.txs| && packed[k] == b.txs[w[k]] && receipts[k].hash == packed[k].hash
      && w[k] in log && log[w[k]] == Success(receipts[k].gasUsed)
  }

  /** The records of a run that ended in `c`, with `w` its successful transactions. */
  ghost predicate Recorded(b: Block, w: seq<nat>, c: Totals, start: nat, packed: seq<Tx>, receipts: seq<Receipt>) {
    Records(b, w, c.log, packed, receipts) && Cumulative(receipts, start) && LastCumulative(receipts, start) == c.used
  }

  /** `c` and `w` are what running `order` from `start` comes to. */
  ghost predicate RanTo(vm: Machine, b: Block, order: seq<nat>, start: Totals, c: Totals, w: seq<nat>) {
    Indices(b, order) && c == Run(false, vm, b, order, start) && w == Winners(vm, b, order, start)
  }

  /** A step touches the log at its own transaction only. */
  lemma StepLog(bounded: bool, vm: Machine, b: Block, x: nat, c: Totals)
    requires x < |b.txs|
    ensures var c' := Step(bounded, vm, b, x, c);
            x in c'.log && c'.log == c.log[x := c'.log[x]]
  {
  }

  /** Running one more transaction. */
  lemma RanToNext(vm: Machine, b: Block, order: seq<nat>, start: Totals, c: Totals, w: seq<nat>, x: nat)
    requires RanTo(vm, b, order, start, c, w) && x < |b.txs|
    ensures x in Step(false, vm, b, x, c).log
    ensures RanTo(vm, b, order + [x], start, Step(false, vm, b, x, c),
                  w + if Step(false, vm, b, x, c).log[x].Success? then [x] else [])
  {
    assert (order + [x])[..|order|] == order;
  }

  lemma CumulativeNext(receipts: seq<Receipt>, start: nat, r: Receipt)
    requires Cumulative(receipts, start) && r.cumulative == LastCumulative(receipts, start) + r.gasUsed
    ensures Cumulative(receipts + [r], start)
  {
    var rs := receipts + [r];
    forall k | 0 <= k < |rs|
      ensures rs[k].cumulative == rs[k].gasUsed + Before(rs, k, start)
    {
      assert Before(rs, k, start) == Before(receipts, k, start);
      if k < |receipts| {
        assert rs[k] == receipts[k];
      }
    }
  }

  /** Recording one more transaction, with outcome `o`, keeps the records in line with the run. */
  lemma RecordNext(b: Block, w: seq<nat>, c: Totals, c': Totals, start: nat, packed: seq<Tx>, receipts: seq<Receipt>, x: nat, o: Outcome)
    requires Recorded(b, w, c, start, packed, receipts) && x !in w && x < |b.txs|
    requires c'.log == c.log[x := o] && c'.used == c.used + if o.Success? then o.gasUsed else 0
    ensures if o.Success? then
              Recorded(b, w + [x], c', start, packed + [b.txs[x]],
                       receipts + [Receipt(b.txs[x].hash, o.gasUsed, c'.used)])
            else Recorded(b, w, c', start, packed, receipts)
  {
    if o.Success? {
      CumulativeNext(receipts, start, Receipt(b.txs[x].hash, o.gasUsed, c'.used));
    }
  }

  // ----- Receipts in block order -----

  /** The hashes of `txs` that have a receipt, in the order of `txs`. */
  function Known(txs: seq<Tx>, hashes: set<Hash>): seq<Hash> {
    if txs == [] then []
    else
      var tx := txs[|txs| - 1];
      Known(txs[..|txs| - 1], hashes) + if tx.hash in hashes then [tx.hash] else []
  }

  /** The gas of the first `k` of `refs`. */
  function GasOf(refs: seq<Hash>, gas: map<Hash, nat>, k: nat): nat
    requires k <= |refs|
  {
    if k == 0 then 0 else GasOf(refs, gas, k - 1) + if refs[k - 1] in gas then gas[refs[k - 1]] else 0
  }

  lemma {:induction false} GasOfPrefix(refs: seq<Hash>, more: seq<Hash>, gas: map<Hash, nat>, k: nat)
    requires k <= |refs|
    ensures GasOf(refs + more, gas, k) == GasOf(refs, gas, k)
  {
    if k > 0 {
      GasOfPrefix(refs, more, gas, k - 1);
    }
  }

  /** The gas used by the receipt of each hash; of two receipts with one hash the later counts. */
  function GasByHash(receipts: seq<Receipt>): map<Hash, nat> {
    if receipts == [] then map[]
    else
      var r := receipts[|receipts| - 1];
      GasByHash(receipts[..|receipts| - 1])[r.hash := r.gasUsed]
  }

  /** No later entry of `refs` is the same receipt. */
  ghost predicate LastUse(refs: seq<Hash>, k: nat)
    requires k < |refs|
  {
    forall j :: k < j < |refs| ==> refs[j] != refs[k]
  }

  /**
   * `sorted` names the receipts `refs`, each entry showing its receipt as it is in the end: with
   * the running total of the last place where it was listed.
   */
  ghost predicate SortedBy(sorted: seq<Receipt>, refs: seq<Hash>, gas: map<Hash, nat>) {
    && |sorted| == |refs|
    && (forall k :: 0 <= k < |refs| ==> refs[k] in gas && sorted[k].hash == refs[k] && sorted[k].gasUsed == gas[refs[k]])
    && (forall k :: 0 <= k < |refs| && LastUse(refs, k) ==> sorted[k].cumulative == GasThrough(refs, gas, k))
    && (forall j, k :: 0 <= j < k < |refs| && refs[j] == refs[k] ==> sorted[j] == sorted[k])
  }

  /** `store` has each receipt once, under its hash. */
  ghost predicate Stores(store: map<Hash, Receipt>, gas: map<Hash, nat>) {
    store.Keys == gas.Keys && forall h :: h in store ==> store[h].hash == h && store[h].gasUsed == gas[h]
  }

  /** The receipt of each entry of `refs` has the running total of its last entry. */
  ghost predicate Totalled(store: map<Hash, Receipt>, refs: seq<Hash>, gas: map<Hash, nat>) {
    && (forall k :: 0 <= k < |refs| ==> refs[k] in store)
    && forall k: nat :: k < |refs| && LastUse(refs, k) ==> store[refs[k]].cumulative == GasThrough(refs, gas, k)
  }

  function GasThrough(refs: seq<Hash>, gas: map<Hash, nat>, k: nat): nat
    requires k < |refs|
  {
    GasOf(refs, gas, k + 1)
  }

  method StoreReceipts(receipts: seq<Receipt>) returns (store: map<Hash, Receipt>)
    ensures Stores(store, GasByHash(receipts))
  {
    store := map[];
    for i := 0 to |receipts|
      invariant Stores(store, GasByHash(receipts[..i]))
    {
      assert receipts[..i + 1][..i] == receipts[..i];
      store := store[receipts[i].hash := receipts[i]];
    }
    assert receipts[..|receipts|] == receipts;
  }

  /**
   * Puts receipts in block order and rewrites their running totals. Receipts are shared objects: a
   * hash listed twice is one receipt in two places, so `store` holds each receipt once and the
   * result is read off it at the end.
   */
  method SortReceipts(txs: seq<Tx>, receipts: seq<Receipt>) returns (sorted: seq<Receipt>)
    ensures var gas := GasByHash(receipts);
            SortedBy(sorted, Known(txs, gas.Keys), gas)
  {
    ghost var gas := GasByHash(receipts);
    var store := StoreReceipts(receipts);
    var refs: seq<Hash> := [];
    var total := 0;
    for i := 0 to |txs|
      invariant refs == Known(txs[..i], gas.Keys) && Stores(store, gas) && Totalled(store, refs, gas)
      invariant total == GasOf(refs, gas, |refs|)
    {
      assert txs[..i + 1][..i] == txs[..i];
      var h := txs[i].hash;
      if h in store {
        total := total + store[h].gasUsed;
        AppendRef(store, refs, h, gas);
        store := store[h := store[h].(cumulative := total)];
        refs := refs + [h];
      }
    }
    assert txs[..|txs|] == txs;
    sorted := seq(|refs|, k requires 0 <= k < |refs| && refs[k] in store => store[refs[k]]);
  }

  lemma AppendRef(store: map<Hash, Receipt>, refs: seq<Hash>, h: Hash, gas: map<Hash, nat>)
    requires h in gas && h in store && Totalled(store, refs, gas)
    ensures GasOf(refs + [h], gas, |refs| + 1) == GasOf(refs, gas, |refs|) + gas[h]
    ensures Totalled(store[h := store[h].(cumulative := GasOf(refs, gas, |refs|) + gas[h])], refs + [h], gas)
  {
    GasOfPrefix(refs, [h], gas, |refs|);
    var store' := store[h := store[h].(cumulative := GasOf(refs, gas, |refs|) + gas[h])];
    forall k: nat | k < |refs + [h]| && LastUse(refs + [h], k)
      ensures store'[(refs + [h])[k]].cumulative == GasThrough(refs + [h], gas, k)
    {
      if k < |refs| {
        GasOfPrefix(refs, [h], gas, k + 1);
        assert (refs + [h])[|refs|] == h && (refs + [h])[k] == refs[k];
        forall j | k < j < |refs| ensures refs[j] != refs[k] {
          assert (refs + [h])[j] == refs[j];
        }
        assert LastUse(refs, k);
      }
    }
  }

  /**
   * The rewritten totals are the prefix sums in block order exactly when no transaction that has a
   * receipt is listed twice (every receipt has used some gas).
   */
  lemma PrefixSumsIffDistinct(sorted: seq<Receipt>, refs: seq<Hash>, gas: map<Hash, nat>)
    requires SortedBy(sorted, refs, gas) && forall h :: h in gas ==> gas[h] > 0
    ensures Cumulative(sorted, 0) <==> forall j, k :: 0 <= j < k < |refs| ==> refs[j] != refs[k]
  {
    if forall j, k :: 0 <= j < k < |refs| ==> refs[j] != refs[k] {
      forall k | 0 <= k < |sorted|
        ensures sorted[k].cumulative == sorted[k].gasUsed + Before(sorted, k, 0)
      {
        assert LastUse(refs, k) && GasThrough(refs, gas, k) == GasOf(refs, gas, k) + gas[refs[k]];
        assert k > 0 ==> LastUse(refs, k - 1) && GasThrough(refs, gas, k - 1) == GasOf(refs, gas, k);
      }
    }
    if Cumulative(sorted, 0) {
      forall j, k | 0 <= j < k < |refs| ensures refs[j] != refs[k] {
        CumulativeGrows(sorted, j, k);
      }
    }
  }

  /** A hash listed twice: its one receipt shows the total of its second place in both. */
  lemma RepeatedReceipt(h: Hash)
    ensures var r := Receipt(h, 21000, 42000);
            SortedBy([r, r], [h, h], map[h := 21000]) && !Cumulative([r, r], 0)
  {
    var r, refs, gas := Receipt(h, 21000, 42000), [h, h], map[h := 21000];
    assert GasOf(refs, gas, 0) == 0 && GasOf(refs, gas, 1) == 21000 && GasOf(refs, gas, 2) == 42000;
    assert refs[0] == refs[1] && !LastUse(refs, 0);
    assert Before([r, r], 0, 0) == 0;
  }

  lemma {:induction false} CumulativeGrows(sorted: seq<Receipt>, j: nat, k: nat)
    requires j < k < |sorted| && Cumulative(sorted, 0) && forall i :: 0 <= i < |sorted| ==> sorted[i].gasUsed > 0
    ensures sorted[j].cumulative < sorted[k].cumulative
  {
    assert sorted[k].cumulative == sorted[k].gasUsed + Before(sorted, k, 0);
    if j < k - 1 {
      CumulativeGrows(sorted, j, k - 1);
    }
  }
}
