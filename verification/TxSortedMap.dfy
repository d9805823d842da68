/**
 * One account's transactions as txSortedMap keeps them (core/tx_list.go): a map by nonce, a heap of
 * the nonces, and a cache of the sorted order. Every operation acts as on the plain sorted sequence.
 */
module SortedMap {
  import opened Types
  import opened NonceOrder
  import Heap

  function Nonce(n: nat): int {
    n
  }

  function NonceOf(tx: Tx): int {
    tx.nonce
  }

  /** The index is a heap of exactly the nonces in the map. */
  ghost predicate Indexed(items: Items, index: seq<nat>) {
    Heap.IsHeap(index, Nonce) && multiset(index) == multiset(items.Keys)
  }

  lemma IndexLists(items: Items, index: seq<nat>)
    requires Indexed(items, index)
    ensures |index| == |items| && (forall n :: n in index <==> n in items)
  {
    Heap.NoRepeats(index, items.Keys);
  }

  /** The top of the index is the first of the sorted sequence. */
  lemma TopIsFirst(items: Items, index: seq<nat>)
    requires Keyed(items) && Indexed(items, index) && |index| > 0
    ensures index[0] in items && (forall n :: n in items ==> index[0] <= n)
    ensures Flat(items) == [items[index[0]]] + Flat(items - {index[0]})
  {
    IndexLists(items, index);
    assert index[0] in index;
    forall n | n in items ensures index[0] <= n {
      var i :| 0 <= i < |index| && index[i] == n;
      Heap.RootIsLeast(index, Nonce, i);
    }
  }

  lemma Unkeyed(items: Items, n: nat)
    requires n in items
    ensures multiset(items.Keys) - multiset{n} == multiset((items - {n}).Keys)
  {
    assert (items - {n}).Keys == items.Keys - {n};
  }

  /** The end of the run of consecutive nonces that begins at `n`. */
  function RunEnd(items: Items, n: nat): (end: nat)
    ensures n <= end && end !in items && forall k :: n <= k < end ==> k in items
    decreases |items|
  {
    if n !in items then n
    else
      assert items.Keys == (items - {n}).Keys + {n};
      RunEnd(items - {n}, n + 1)
  }

  function Dropped(items: Items, drop: Tx -> bool): Items {
    map n | n in items && drop(items[n]) :: items[n]
  }

  function Kept(items: Items, drop: Tx -> bool): Items {
    map n | n in items && !drop(items[n]) :: items[n]
  }

  ghost function Reversed(txs: seq<Tx>): seq<Tx> {
    if txs == [] then [] else Reversed(txs[1..]) + [txs[0]]
  }

  class TxSortedMap {
    var items: Items
    var index: seq<nat>
    var cache: Option<seq<Tx>>

    ghost predicate Valid()
      reads this
    {
      Keyed(items) && Indexed(items, index) && CacheValid()
    }

    /** A cache that is there is the sorted sequence. */
    ghost predicate CacheValid()
      reads this
    {
      cache.Some? ==> cache.value == Flat(items)
    }

    constructor ()
      ensures Valid() && items == map[]
    {
      items, index, cache := map[], [], None;
    }

    /** Inserts a transaction, over one with the same nonce if there is one. */
    method Put(tx: Tx)
      requires Valid()
      modifies this
      ensures Valid() && items == old(items)[tx.nonce := tx]
    {
      var nonce := tx.nonce;
      if nonce !in items {
        index := Heap.Push(index, Nonce, nonce);
        assert items[nonce := tx].Keys == items.Keys + {nonce};
      } else {
        assert items[nonce := tx].Keys == items.Keys;
      }
      items, cache := items[nonce := tx], None;
    }

    /** The transactions of `before` up to the nonce `at` have been moved, in order, from the map to `out`. */
    ghost predicate TakenTo(before: Items, at: nat, out: seq<Tx>)
      reads this
    {
      Keyed(before) && Indexed(items, index) && items == From(before, at) && out == Flat(Below(before, at))
    }

    /** Takes the transaction with the least nonce out of the map and the index. */
    method PopFirst(ghost before: Items, ghost at: nat, out: seq<Tx>) returns (more: seq<Tx>)
      requires TakenTo(before, at, out) && |index| > 0
      modifies `items, `index
      ensures TakenTo(before, old(index[0]) + 1, more) && |index| == old(|index|) - 1
    {
      TopIsFirst(items, index);
      var nonce;
      index, nonce := Heap.Pop(index, Nonce);
      more := out + [items[nonce]];
      Unkeyed(items, nonce);
      Advance(before, at, nonce);
      items := items - {nonce};
    }

    /** Removes the transactions with a lower nonce and returns them in order: the front of the sorted sequence. */
    method Forward(threshold: nat) returns (removed: seq<Tx>)
      requires Valid()
      modifies this
      ensures Valid() && items == From(old(items), threshold) && removed == Flat(Below(old(items), threshold))
      ensures cache.Some? <==> old(cache.Some?)
    {
      removed := [];
      ghost var at: nat := 0;
      FromStart(items);
      while |index| > 0 && index[0] < threshold
        invariant TakenTo(old(items), at, removed) && cache == old(cache) && at <= threshold
        decreases |index|
      {
        ghost var n := index[0];
        removed := PopFirst(old(items), at, removed);
        at := n + 1;
      }
      NoneBetween(old(items), index, at, threshold);
      if cache.Some? {
        FrontCut(old(items), threshold);
        cache := Some(cache.value[|removed|..]);
      }
    }

    /**
     * Takes out, in order, the consecutive transactions from the first on, if the first has a nonce
     * of at most `start`.
     */
    method Ready(start: nat) returns (ready: seq<Tx>)
      requires Valid()
      modifies this
      ensures Valid() && items == From(old(items), ReadyEnd(old(items), start))
      ensures ready == Flat(Below(old(items), ReadyEnd(old(items), start)))
    {
      ready := [];
      NotReady(items, index, start);
      if |index| == 0 || index[0] > start {
        return;
      }
      ghost var first := index[0];
      var next := index[0];
      while |index| > 0 && index[0] == next
        invariant TakenTo(old(items), next, ready) && RunEnd(old(items), first) == RunEnd(old(items), next)
        decreases |index|
      {
        InIndex(old(items), index, next);
        RunEndNext(old(items), next);
        ready := PopFirst(old(items), next, ready);
        next := next + 1;
      }
      RunOver(old(items), index, next);
      cache := None;
    }

    /** Deletes what `drop` selects, in the order of the map's iteration; the index is left as it was. */
    method FilterItems(drop: Tx -> bool) returns (removed: seq<Tx>)
      requires Keyed(items) && CacheValid()
      modifies `items, `cache
      ensures Keyed(items) && items == Kept(old(items), drop) && Lists(removed, Dropped(old(items), drop)) && CacheValid()
    {
      removed := [];
      var todo := items.Keys;
      FilterEnds(items, drop, removed);
      while todo != {}
        invariant todo <= items.Keys && items == Remaining(old(items), todo, drop) && cache == old(cache)
        invariant Lists(removed, Gone(old(items), todo, drop))
        decreases |todo|
      {
        var n :| n in todo;
        var tx := items[n];
        FilterStep(old(items), todo, drop, n, removed);
        if drop(tx) {
          removed := removed + [tx];
          items := items - {n};
        }
        todo := todo - {n};
      }
      FilterEnds(old(items), drop, removed);
      if |removed| > 0 {
        cache := None;
      }
    }

    /** Builds the index afresh from the map. */
    method Reheap()
      requires Keyed(items)
      modifies `index, `cache
      ensures Valid() && cache == None
    {
      var nonces, todo := [], items.Keys;
      while todo != {}
        invariant todo <= items.Keys && multiset(nonces) + multiset(todo) == multiset(items.Keys)
        decreases |todo|
      {
        var n :| n in todo;
        nonces, todo := nonces + [n], todo - {n};
      }
      index := Heap.Init(nonces, Nonce);
      cache := None;
    }

    /** Removes what `drop` selects. */
    method Filter(drop: Tx -> bool) returns (removed: seq<Tx>)
      requires Valid()
      modifies this
      ensures Valid() && items == Kept(old(items), drop) && Lists(removed, Dropped(old(items), drop))
    {
      removed := FilterItems(drop);
      FilterEnds(old(items), drop, removed);
      if |removed| > 0 {
        Reheap();
      }
    }

    /** Removes the transaction with a nonce, if there is one. */
    method Remove(nonce: nat) returns (found: bool)
      requires Valid()
      modifies this
      ensures Valid() && found == (nonce in old(items)) && items == old(items) - {nonce}
    {
      if nonce !in items {
        return false;
      }
      IndexLists(items, index);
      var i := 0;
      while index[i] != nonce
        invariant 0 <= i < |index| && nonce in index[i..]
        decreases |index| - i
      {
        assert index[i..] == [index[i]] + index[i + 1..];
        i := i + 1;
      }
      index := Heap.Remove(index, Nonce, i);
      Unkeyed(items, nonce);
      items, cache := items - {nonce}, None;
      return true;
    }

    /** The contents in the order of the map's iteration. */
    method Collect() returns (txs: seq<Tx>)
      requires Keyed(items)
      ensures Lists(txs, items)
    {
      txs := [];
      var todo := items.Keys;
      assert items - todo == map[];
      while todo != {}
        invariant todo <= items.Keys && Lists(txs, items - todo)
        decreases |todo|
      {
        var n :| n in todo;
        CollectStep(items, todo, n, txs);
        txs, todo := txs + [items[n]], todo - {n};
      }
      assert items - {} == items;
    }

    /** The sorted sequence, cached for the next time. */
    method Flatten() returns (txs: seq<Tx>)
      requires Valid()
      modifies `cache
      ensures Valid() && txs == Flat(items) && cache == Some(txs)
    {
      if cache.None? {
        var unsorted := Collect();
        var sorted := Heap.Sort(unsorted, NonceOf);
        SortedLists(items, unsorted, sorted);
        cache := Some(sorted);
      }
      return cache.value;
    }

    /**
     * Keeps the `threshold` lowest nonces and returns the rest, the highest first: the sorted
     * sequence is cut at its end.
     */
    method Cap(threshold: nat) returns (drops: seq<Tx>)
      requires Valid()
      modifies this
      ensures Valid() && items == Lowest(old(items), threshold)
      ensures Flat(items) == if |Flat(old(items))| <= threshold then Flat(old(items)) else Flat(old(items))[..threshold]
      ensures drops == if |Flat(old(items))| <= threshold then [] else Reversed(Flat(old(items))[threshold..])
    {
      FlatLists(items);
      if |items| <= threshold {
        return [];
      }
      var sorted := Heap.Sort(index, Nonce);
      SortedNonces(items, sorted);
      drops := DropHighest(sorted, threshold);
      LowestIndex(old(items), sorted, threshold);
      index := Heap.Init(sorted[..threshold], Nonce);
      FlatCut(old(items), threshold);
      if cache.Some? {
        ReversedLength(Flat(old(items))[threshold..]);
        cache := Some(cache.value[..|cache.value| - |drops|]);
      }
    }

    /** Deletes the highest nonces until `threshold` are left. */
    method DropHighest(sorted: seq<nat>, threshold: nat) returns (drops: seq<Tx>)
      requires Keyed(items) && NoncesOf(sorted, Flat(items)) && threshold <= |items|
      modifies `items
      ensures items == Lowest(old(items), threshold) && |Flat(old(items))| == |old(items)|
      ensures drops == Reversed(Flat(old(items))[threshold..])
    {
      drops := [];
      var size := |items|;
      LowestAll(items);
      while size > threshold
        invariant threshold <= size <= |Flat(old(items))|
        invariant items == Lowest(old(items), size) && drops == Reversed(Flat(old(items))[size..])
      {
        LowestDrop(old(items), size);
        drops := drops + [items[sorted[size - 1]]];
        items := items - {sorted[size - 1]};
        size := size - 1;
      }
    }

    /** The transaction with the highest nonce. */
    method LastElement() returns (tx: Tx)
      requires Valid() && items != map[]
      modifies `cache
      ensures Valid() && tx.nonce in items && items[tx.nonce] == tx && forall n :: n in items ==> n <= tx.nonce
    {
      FlatLists(items);
      var txs := Flatten();
      tx := txs[|txs| - 1];
      forall n | n in items ensures n <= tx.nonce {
        ListsAll(txs, items, n);
      }
    }
  }

  /** Up to which nonce the transactions are ready: the end of the run of the first, unless that is past `start`. */
  function ReadyEnd(items: Items, start: nat): nat {
    if items == map[] || Least(items.Keys) > start then 0 else RunEnd(items, Least(items.Keys))
  }

  lemma NotReady(items: Items, index: seq<nat>, start: nat)
    requires Keyed(items) && Indexed(items, index)
    ensures if |index| == 0 || index[0] > start
            then ReadyEnd(items, start) == 0 && From(items, 0) == items && Below(items, 0) == map[]
            else IsFirst(items, index[0]) && ReadyEnd(items, start) == RunEnd(items, index[0])
                 && From(items, index[0]) == items && Below(items, index[0]) == map[]
  {
    IndexLists(items, index);
    if |index| > 0 {
      TopIsFirst(items, index);
      assert Least(items.Keys) == index[0];
    }
  }

  lemma InIndex(items: Items, index: seq<nat>, at: nat)
    requires Indexed(From(items, at), index) && |index| > 0
    ensures index[0] in items
  {
    IndexLists(From(items, at), index);
    assert index[0] in index;
  }

  lemma RunOver(items: Items, index: seq<nat>, at: nat)
    requires Keyed(items) && Indexed(From(items, at), index) && !(|index| > 0 && index[0] == at)
    ensures at !in items && RunEnd(items, at) == at
  {
    IndexLists(From(items, at), index);
    if |index| > 0 {
      TopIsFirst(From(items, at), index);
    }
    assert at in items ==> at in From(items, at);
  }

  ghost predicate IsFirst(items: Items, n: nat) {
    n in items && forall m :: m in items ==> n <= m
  }

  lemma FromStart(items: Items)
    ensures From(items, 0) == items && Below(items, 0) == map[]
  {
  }

  lemma Cancelled<T>(a: seq<T>, b: seq<T>, x: T, rest: seq<T>)
    requires a + ([x] + rest) == b + rest
    ensures b == a + [x]
  {
    var s := a + ([x] + rest);
    assert |b| == |a| + 1 && s[..|a|] == a && s[|a|] == x;
    assert b == s[..|b|];
  }

  lemma FlatFirst(items: Items, n: nat)
    requires IsFirst(items, n)
    ensures Flat(items) == [items[n]] + Flat(items - {n})
  {
    assert Least(items.Keys) == n;
  }

  lemma AdvanceMap(items: Items, at: nat, n: nat)
    requires IsFirst(From(items, at), n)
    ensures From(items, at) - {n} == From(items, n + 1)
  {
    forall m | m in items && m >= at ensures n <= m {
      assert m in From(items, at);
    }
  }

  /** Taking the first of what is left past `at` moves on to the nonce after it. */
  lemma Advance(items: Items, at: nat, n: nat)
    requires Keyed(items) && IsFirst(From(items, at), n)
    ensures From(items, at) - {n} == From(items, n + 1)
    ensures Flat(Below(items, n + 1)) == Flat(Below(items, at)) + [items[n]]
  {
    FlatFirst(From(items, at), n);
    AdvanceMap(items, at, n);
    FlatSplit(items, at);
    FlatSplit(items, n + 1);
    Cancelled(Flat(Below(items, at)), Flat(Below(items, n + 1)), items[n], Flat(From(items, n + 1)));
  }

  lemma NoneBetween(items: Items, index: seq<nat>, at: nat, threshold: nat)
    requires Keyed(items) && Indexed(From(items, at), index) && at <= threshold
    requires !(|index| > 0 && index[0] < threshold)
    ensures From(items, at) == From(items, threshold) && Below(items, at) == Below(items, threshold)
  {
    IndexLists(From(items, at), index);
    if |index| > 0 {
      TopIsFirst(From(items, at), index);
    }
    assert forall n :: n in items && n >= at ==> n in From(items, at);
  }

  lemma FrontCut(items: Items, threshold: nat)
    requires Keyed(items)
    ensures var k := |Flat(Below(items, threshold))|;
            k <= |Flat(items)| && Flat(items)[k..] == Flat(From(items, threshold))
  {
    FlatSplit(items, threshold);
  }

  lemma RunEndNext(items: Items, n: nat)
    requires n in items
    ensures RunEnd(items, n) == RunEnd(items, n + 1)
  {
    var e, f := RunEnd(items, n), RunEnd(items, n + 1);
    assert e < f ==> e in items;
    assert f < e ==> f in items;
  }

  /** What a filter leaves, and what it has taken out, when it has yet to look at `todo`. */
  ghost function Remaining(before: Items, todo: set<nat>, drop: Tx -> bool): Items {
    map n | n in before && (n in todo || !drop(before[n])) :: before[n]
  }

  ghost function Gone(before: Items, todo: set<nat>, drop: Tx -> bool): Items {
    map n | n in before && n !in todo && drop(before[n]) :: before[n]
  }

  lemma FilterStep(before: Items, todo: set<nat>, drop: Tx -> bool, n: nat, removed: seq<Tx>)
    requires Keyed(before) && n in todo && n in before && Lists(removed, Gone(before, todo, drop))
    ensures drop(before[n]) ==> Lists(removed + [before[n]], Gone(before, todo - {n}, drop))
    ensures drop(before[n]) ==> Remaining(before, todo - {n}, drop) == Remaining(before, todo, drop) - {n}
    ensures !drop(before[n]) ==> Lists(removed, Gone(before, todo - {n}, drop))
    ensures !drop(before[n]) ==> Remaining(before, todo - {n}, drop) == Remaining(before, todo, drop)
  {
    if drop(before[n]) {
      Appended(removed, Gone(before, todo, drop), before[n]);
      assert Gone(before, todo - {n}, drop) == Gone(before, todo, drop)[n := before[n]];
    } else {
      assert Gone(before, todo - {n}, drop) == Gone(before, todo, drop);
    }
  }

  lemma FilterEnds(before: Items, drop: Tx -> bool, removed: seq<Tx>)
    ensures Remaining(before, before.Keys, drop) == before && Gone(before, before.Keys, drop) == map[]
    ensures Remaining(before, {}, drop) == Kept(before, drop) && Gone(before, {}, drop) == Dropped(before, drop)
    ensures Lists(removed, Dropped(before, drop)) && |removed| == 0 ==> Kept(before, drop) == before
  {
    assert Gone(before, {}, drop) == Dropped(before, drop);
    if |Dropped(before, drop)| == 0 {
      assert Dropped(before, drop) == map[];
      forall n | n in before ensures n in Kept(before, drop) {
        assert n !in Dropped(before, drop);
      }
    }
  }

  lemma Appended(txs: seq<Tx>, items: Items, tx: Tx)
    requires Lists(txs, items) && tx.nonce !in items
    ensures Lists(txs + [tx], items[tx.nonce := tx])
  {
    assert items[tx.nonce := tx].Keys == items.Keys + {tx.nonce};
  }

  lemma CollectStep(items: Items, todo: set<nat>, n: nat, txs: seq<Tx>)
    requires Keyed(items) && n in todo && n in items && Lists(txs, items - todo)
    ensures Lists(txs + [items[n]], items - (todo - {n}))
  {
    Appended(txs, items - todo, items[n]);
    assert items - (todo - {n}) == (items - todo)[n := items[n]];
  }

  /** Sorting a listing by nonce gives the sorted sequence. */
  lemma SortedLists(items: Items, unsorted: seq<Tx>, sorted: seq<Tx>)
    requires Keyed(items) && Lists(unsorted, items)
    requires multiset(sorted) == multiset(unsorted) && Heap.Sorted(sorted, NonceOf) && |sorted| == |unsorted|
    ensures sorted == Flat(items)
  {
    var txs := set tx | tx in unsorted;
    Heap.HoldsOnce(unsorted, txs);
    Heap.NoRepeats(sorted, txs);
    forall i | 0 <= i < |sorted| ensures sorted[i].nonce in items && items[sorted[i].nonce] == sorted[i] {
      assert sorted[i] in sorted;
    }
    forall i, j | 0 <= i < j < |sorted| ensures sorted[i].nonce < sorted[j].nonce {
      assert NonceOf(sorted[i]) <= NonceOf(sorted[j]);
      assert items[sorted[i].nonce] == sorted[i] != sorted[j] == items[sorted[j].nonce];
    }
    FlatUnique(items, sorted);
  }

  /** The transactions with the `k` lowest nonces. */
  function Lowest(items: Items, k: nat): Items {
    if k < |Flat(items)| then Below(items, Flat(items)[k].nonce) else items
  }

  lemma LowestAll(items: Items)
    requires Keyed(items)
    ensures Lowest(items, |items|) == items && Flat(items)[|Flat(items)|..] == [] && |Flat(items)| == |items|
  {
    FlatLists(items);
  }

  /** No nonce lies between two neighbours of the sorted sequence. */
  lemma Neighbours(items: Items, k: nat, n: nat)
    requires Keyed(items) && k < |Flat(items)| && n in items
    ensures n <= Flat(items)[k].nonce || (k + 1 < |Flat(items)| && n >= Flat(items)[k + 1].nonce)
  {
    var flat := Flat(items);
    FlatLists(items);
    ListsAll(flat, items, n);
    var i :| 0 <= i < |flat| && flat[i].nonce == n;
    assert i < k ==> flat[i].nonce < flat[k].nonce;
    assert k + 1 < i ==> flat[k + 1].nonce < flat[i].nonce;
  }

  lemma ReversedTail(txs: seq<Tx>, k: nat)
    requires k < |txs|
    ensures Reversed(txs[k..]) == Reversed(txs[k + 1..]) + [txs[k]]
  {
    assert txs[k..][0] == txs[k] && txs[k..][1..] == txs[k + 1..];
  }

  lemma LowestDrop(items: Items, size: nat)
    requires Keyed(items) && 0 < size <= |Flat(items)|
    ensures var last := Flat(items)[size - 1];
            && last.nonce in Lowest(items, size) && Lowest(items, size)[last.nonce] == last
            && Lowest(items, size - 1) == Lowest(items, size) - {last.nonce}
            && Reversed(Flat(items)[size - 1..]) == Reversed(Flat(items)[size..]) + [last]
  {
    ReversedTail(Flat(items), size - 1);
    FlatLists(items);
    LowestKeys(items, size);
  }

  lemma LowestKeys(items: Items, size: nat)
    requires Keyed(items) && 0 < size <= |Flat(items)|
    ensures var last := Flat(items)[size - 1].nonce;
            forall n :: n in Lowest(items, size) <==> n in items && n <= last
  {
    var last := Flat(items)[size - 1].nonce;
    FlatLists(items);
    assert size < |Flat(items)| ==> last < Flat(items)[size].nonce;
    forall n | n in items ensures n in Lowest(items, size) <==> n <= last {
      Neighbours(items, size - 1, n);
    }
  }

  ghost predicate NoncesOf(nonces: seq<nat>, txs: seq<Tx>) {
    |nonces| == |txs| && forall i :: 0 <= i < |txs| ==> nonces[i] == txs[i].nonce
  }

  lemma Strictly(sorted: seq<nat>, nonces: set<nat>)
    requires multiset(sorted) == multiset(nonces) && Heap.Sorted(sorted, Nonce)
    ensures |sorted| == |nonces| && (forall i :: 0 <= i < |sorted| ==> sorted[i] in nonces)
    ensures forall i, j :: 0 <= i < j < |sorted| ==> sorted[i] < sorted[j]
  {
    Heap.NoRepeats(sorted, nonces);
    assert forall i :: 0 <= i < |sorted| ==> sorted[i] in sorted;
    assert forall i, j :: 0 <= i < j < |sorted| ==> Nonce(sorted[i]) <= Nonce(sorted[j]);
  }

  /** The nonces in order are those of the sorted sequence. */
  lemma SortedNonces(items: Items, sorted: seq<nat>)
    requires Keyed(items) && multiset(sorted) == multiset(items.Keys) && Heap.Sorted(sorted, Nonce)
    ensures NoncesOf(sorted, Flat(items))
  {
    Strictly(sorted, items.Keys);
    var txs := seq(|sorted|, i requires 0 <= i < |sorted| => items[sorted[i]]);
    FlatUnique(items, txs);
  }

  lemma LowestIndex(items: Items, sorted: seq<nat>, k: nat)
    requires Keyed(items) && k < |sorted| && NoncesOf(sorted, Flat(items))
    ensures multiset(sorted[..k]) == multiset(Lowest(items, k).Keys)
  {
    var low := Lowest(items, k);
    FlatLists(items);
    FlatCut(items, k);
    FlatLists(low);
    assert NoncesOf(sorted[..k], Flat(low));
    NoncesAreKeys(sorted[..k], low);
  }

  lemma NoncesAreKeys(nonces: seq<nat>, items: Items)
    requires Keyed(items) && NoncesOf(nonces, Flat(items))
    ensures multiset(nonces) == multiset(items.Keys)
  {
    FlatLists(items);
    forall n ensures n in nonces <==> n in items.Keys {
      if n in items.Keys {
        ListsAll(Flat(items), items, n);
        var i :| 0 <= i < |Flat(items)| && Flat(items)[i].nonce == n;
        assert nonces[i] == n;
      }
    }
    Heap.HoldsOnce(nonces, items.Keys);
  }

  lemma {:induction false} ReversedLength(txs: seq<Tx>)
    ensures |Reversed(txs)| == |txs|
  {
    if txs != [] {
      ReversedLength(txs[1..]);
    }
  }

  /** What is ready runs through consecutive nonces. */
  lemma ReadyRun(items: Items, start: nat)
    requires Keyed(items)
    ensures var ready := Flat(Below(items, ReadyEnd(items, start)));
            && (|ready| > 0 ==> ready[0].nonce in items && ready[0].nonce <= start)
            && (forall i :: 0 <= i < |ready| ==> ready[i].nonce == ready[0].nonce + i)
  {
    if items != map[] && Least(items.Keys) <= start {
      var first := Least(items.Keys);
      RunInOrder(Below(items, RunEnd(items, first)), first, RunEnd(items, first));
    } else {
      assert Below(items, 0) == map[];
    }
  }

  lemma {:induction false} RunInOrder(items: Items, first: nat, end: nat)
    requires Keyed(items) && first <= end && forall k :: k in items <==> first <= k < end
    ensures |Flat(items)| == end - first && forall i :: 0 <= i < |Flat(items)| ==> Flat(items)[i].nonce == first + i
    decreases end - first
  {
    if first < end {
      assert IsFirst(items, first);
      FlatFirst(items, first);
      RunInOrder(items - {first}, first + 1, end);
    } else {
      assert items == map[];
    }
  }

  lemma LowestSize(items: Items, k: nat)
    requires Keyed(items) && k <= |items|
    ensures |Lowest(items, k)| == k
  {
    FlatLists(items);
    if k < |items| {
      FlatCut(items, k);
    }
  }
}
