/**
 * The account list of the pool (txList in core/tx_list.go): a sorted map with a cap on the cost and
 * on the gas of its transactions, which lets a filter that would remove nothing be skipped.
 */
module AccountList {
  import opened Types
  import opened NonceOrder
  import opened SortedMap

  /** A list as a value. A strict list holds consecutive nonces only. */
  datatype List = List(strict: bool, items: Items, costcap: nat, gascap: nat)

  /** What the caps promise: no transaction costs more or may use more gas. */
  ghost predicate WithinCaps(l: List) {
    Keyed(l.items) && forall n :: n in l.items ==> l.items[n].Cost() <= l.costcap && l.items[n].gas <= l.gascap
  }

  predicate Outbids(tx: Tx, other: Tx, priceBump: nat) {
    tx.price > other.price && tx.price >= (100 + priceBump) * other.price / 100
  }

  function Max(a: nat, b: nat): nat {
    if a < b then b else a
  }

  predicate Accepts(l: List, tx: Tx, priceBump: nat) {
    tx.nonce in l.items ==> Outbids(tx, l.items[tx.nonce], priceBump)
  }

  function Insert(l: List, tx: Tx): List {
    l.(items := l.items[tx.nonce := tx], costcap := Max(l.costcap, tx.Cost()), gascap := Max(l.gascap, tx.gas))
  }

  function Unpayable(costLimit: nat, gasLimit: nat): Tx -> bool {
    (tx: Tx) => tx.gas > gasLimit || tx.Cost() > costLimit
  }

  function AboveNonce(nonce: nat): Tx -> bool {
    (tx: Tx) => tx.nonce > nonce
  }

  function Unaffordable(l: List, costLimit: nat, gasLimit: nat): Items {
    Dropped(l.items, Unpayable(costLimit, gasLimit))
  }

  /** What a strict list loses besides: the transactions after the first unaffordable one. */
  function Invalidated(l: List, costLimit: nat, gasLimit: nat): Items {
    var gone := Unaffordable(l, costLimit, gasLimit);
    if l.strict && gone != map[]
    then Dropped(Kept(l.items, Unpayable(costLimit, gasLimit)), AboveNonce(Least(gone.Keys)))
    else map[]
  }

  /** What a full filter leaves. */
  function Affordable(l: List, costLimit: nat, gasLimit: nat): Items {
    Kept(l.items, Unpayable(costLimit, gasLimit)) - Invalidated(l, costLimit, gasLimit).Keys
  }

  /** The list after a filter; if its caps already meet the limits it is skipped. */
  function Filtered(l: List, costLimit: nat, gasLimit: nat): List {
    if l.costcap <= costLimit && l.gascap <= gasLimit then l
    else List(l.strict, Affordable(l, costLimit, gasLimit), costLimit, gasLimit)
  }

  /** A filter that is skipped would have removed nothing. */
  lemma SkippingIsExact(l: List, costLimit: nat, gasLimit: nat)
    requires WithinCaps(l)
    ensures Filtered(l, costLimit, gasLimit).items == Affordable(l, costLimit, gasLimit)
    ensures WithinCaps(Filtered(l, costLimit, gasLimit))
    ensures l.costcap <= costLimit && l.gascap <= gasLimit ==>
      Unaffordable(l, costLimit, gasLimit) == map[] && Invalidated(l, costLimit, gasLimit) == map[]
  {
  }

  /** A strict list keeps exactly the nonces below the lowest it cannot afford. */
  lemma StrictKeepsBelow(l: List, costLimit: nat, gasLimit: nat)
    requires Keyed(l.items) && l.strict && Unaffordable(l, costLimit, gasLimit) != map[]
    ensures Affordable(l, costLimit, gasLimit) == Below(l.items, Least(Unaffordable(l, costLimit, gasLimit).Keys))
  {
    var gone := Unaffordable(l, costLimit, gasLimit);
    var lowest := Least(gone.Keys);
    var left := Affordable(l, costLimit, gasLimit);
    forall n | n in l.items ensures n in left <==> n < lowest {
      assert n in gone <==> Unpayable(costLimit, gasLimit)(l.items[n]);
    }
  }

  class TxList {
    const strict: bool
    const txs: TxSortedMap
    var costcap: nat
    var gascap: nat

    ghost function View(): List
      reads this, txs
    {
      List(strict, txs.items, costcap, gascap)
    }

    ghost predicate Valid()
      reads this, txs
    {
      txs.Valid() && WithinCaps(View())
    }

    constructor (strict: bool)
      ensures Valid() && View() == List(strict, map[], 0, 0) && fresh(txs)
    {
      this.strict, costcap, gascap := strict, 0, 0;
      txs := new TxSortedMap();
    }

    /** Inserts a transaction unless one with its nonce is not outbid, and returns the one replaced. */
    method Add(tx: Tx, priceBump: nat) returns (inserted: bool, replaced: Option<Tx>)
      requires Valid()
      modifies this, txs
      ensures Valid() && inserted == Accepts(old(View()), tx, priceBump)
      ensures View() == if inserted then Insert(old(View()), tx) else old(View())
      ensures replaced == if inserted && tx.nonce in old(txs.items) then Some(old(txs.items)[tx.nonce]) else None
    {
      replaced := None;
      if tx.nonce in txs.items {
        var other := txs.items[tx.nonce];
        var threshold := (100 + priceBump) * other.price / 100;
        if other.price >= tx.price || tx.price < threshold {
          return false, None;
        }
        replaced := Some(other);
      }
      txs.Put(tx);
      if costcap < tx.Cost() {
        costcap := tx.Cost();
      }
      if gascap < tx.gas {
        gascap := tx.gas;
      }
      inserted := true;
    }

    method Forward(threshold: nat) returns (removed: seq<Tx>)
      requires Valid()
      modifies txs
      ensures Valid() && View() == old(View()).(items := From(old(txs.items), threshold))
      ensures removed == Flat(Below(old(txs.items), threshold))
    {
      removed := txs.Forward(threshold);
    }

    /** The lowest nonce among some transactions. */
    method LowestNonce(txs: seq<Tx>, ghost items: Items) returns (lowest: nat)
      requires Lists(txs, items) && items != map[] && forall n :: n in items ==> n <= MAX_UINT64
      ensures lowest == Least(items.Keys)
    {
      lowest := MAX_UINT64;
      for i := 0 to |txs|
        invariant lowest <= MAX_UINT64 && forall k :: 0 <= k < i ==> lowest <= txs[k].nonce
        invariant lowest == MAX_UINT64 || exists k :: 0 <= k < i && lowest == txs[k].nonce
      {
        if lowest > txs[i].nonce {
          lowest := txs[i].nonce;
        }
      }
      ListsAll(txs, items, Least(items.Keys));
    }

    /**
     * Removes what costs more, or may use more gas, than the limits, and from a strict list whatever
     * comes after. The result is that of a full filter, also when the caps let it be skipped.
     */
    method Filter(costLimit: nat, gasLimit: nat) returns (removed: seq<Tx>, invalids: seq<Tx>)
      requires Valid() && forall n :: n in txs.items ==> n <= MAX_UINT64
      modifies this, txs
      ensures Valid() && View() == Filtered(old(View()), costLimit, gasLimit)
      ensures txs.items == Affordable(old(View()), costLimit, gasLimit)
      ensures Lists(removed, Unaffordable(old(View()), costLimit, gasLimit))
      ensures Lists(invalids, Invalidated(old(View()), costLimit, gasLimit))
    {
      SkippingIsExact(View(), costLimit, gasLimit);
      if costcap <= costLimit && gascap <= gasLimit {
        return [], [];
      }
      removed, invalids := FilterAll(costLimit, gasLimit);
      costcap, gascap := costLimit, gasLimit;
    }

    /** The filter itself. */
    method FilterAll(costLimit: nat, gasLimit: nat) returns (removed: seq<Tx>, invalids: seq<Tx>)
      requires txs.Valid() && forall n :: n in txs.items ==> n <= MAX_UINT64
      modifies txs
      ensures txs.Valid() && txs.items == Affordable(old(View()), costLimit, gasLimit)
      ensures Lists(removed, Unaffordable(old(View()), costLimit, gasLimit))
      ensures Lists(invalids, Invalidated(old(View()), costLimit, gasLimit))
    {
      ghost var gone := Unaffordable(View(), costLimit, gasLimit);
      KeptRest(View(), costLimit, gasLimit);
      removed := txs.Filter(Unpayable(costLimit, gasLimit));
      invalids := [];
      assert |removed| == 0 <==> gone == map[];
      if |removed| > 0 {
        if strict {
          var lowest := LowestNonce(removed, gone);
          invalids := txs.FilterItems(AboveNonce(lowest));
        }
        txs.Reheap();
      }
    }

    method Cap(threshold: nat) returns (drops: seq<Tx>)
      requires Valid()
      modifies txs
      ensures Valid() && View() == old(View()).(items := Lowest(old(txs.items), threshold))
      ensures drops ==
        if |Flat(old(txs.items))| <= threshold then [] else Reversed(Flat(old(txs.items))[threshold..])
    {
      drops := txs.Cap(threshold);
    }

    /** Removes a transaction's nonce, and from a strict list whatever comes after. */
    method Remove(tx: Tx) returns (found: bool, invalids: seq<Tx>)
      requires Valid()
      modifies txs
      ensures Valid() && found == (tx.nonce in old(txs.items))
      ensures View() == old(View()).(items := Without(old(View()), tx.nonce))
      ensures found && strict ==> Lists(invalids, From(old(txs.items), tx.nonce + 1))
      ensures !found || !strict ==> invalids == []
    {
      WithoutNonce(View(), tx.nonce);
      found := txs.Remove(tx.nonce);
      invalids := [];
      if found && strict {
        invalids := txs.Filter(AboveNonce(tx.nonce));
      }
    }

    method Ready(start: nat) returns (ready: seq<Tx>)
      requires Valid()
      modifies txs
      ensures Valid() && View() == old(View()).(items := From(old(txs.items), ReadyEnd(old(txs.items), start)))
      ensures ready == Flat(Below(old(txs.items), ReadyEnd(old(txs.items), start)))
    {
      ready := txs.Ready(start);
    }
  }

  /** What removing a nonce leaves. */
  function Without(l: List, nonce: nat): Items {
    if nonce !in l.items then l.items
    else if l.strict then Below(l.items, nonce)
    else l.items - {nonce}
  }

  lemma WithoutNonce(l: List, nonce: nat)
    requires WithinCaps(l)
    ensures WithinCaps(l.(items := Without(l, nonce)))
    ensures nonce !in l.items ==> l.items - {nonce} == l.items
    ensures Kept(l.items - {nonce}, AboveNonce(nonce)) == Below(l.items, nonce)
    ensures Dropped(l.items - {nonce}, AboveNonce(nonce)) == From(l.items, nonce + 1)
  {
  }

  lemma KeptRest(l: List, costLimit: nat, gasLimit: nat)
    ensures var gone, kept := Unaffordable(l, costLimit, gasLimit), Kept(l.items, Unpayable(costLimit, gasLimit));
            Affordable(l, costLimit, gasLimit) ==
              if l.strict && gone != map[] then Kept(kept, AboveNonce(Least(gone.Keys))) else kept
  {
  }
}
