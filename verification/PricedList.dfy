/**
 * The pool's price index (txPricedList in core/tx_list.go): a heap of transactions by price in which
 * removed ones may linger. `all` is the table of the transactions in the pool.
 */
module PricedList {
  import opened Types
  import Heap

  const TX_SLOT_SIZE := 32 * 1024

  /** How many slots a transaction takes up. */
  function NumSlots(tx: Tx): nat {
    (tx.size + TX_SLOT_SIZE - 1) / TX_SLOT_SIZE
  }

  /** Cheaper first; of the same price, the higher nonce first. */
  predicate Worse(a: Tx, b: Tx) {
    a.price < b.price || (a.price == b.price && a.nonce > b.nonce)
  }

  /** The order as a number; nonces have 64 bits. */
  function PriceRank(tx: Tx): int {
    tx.price * (MAX_UINT64 + 1) - tx.nonce % (MAX_UINT64 + 1)
  }

  lemma RankIsPrice(a: Tx, b: Tx)
    requires PriceRank(a) <= PriceRank(b)
    ensures a.price <= b.price
    ensures a.nonce <= MAX_UINT64 && b.nonce <= MAX_UINT64 ==> !Worse(b, a)
  {
  }

  ghost predicate Covers(items: seq<Tx>, all: set<Tx>) {
    forall tx :: tx in all ==> tx in items
  }

  /** The heap holds every transaction in the pool once and nothing else. */
  ghost predicate HoldsJust(items: seq<Tx>, all: set<Tx>) {
    |items| == |all| && forall tx :: tx in items <==> tx in all
  }

  /** Whatever is at the top is at least as cheap as anything in the heap. */
  lemma TopIsCheapest(items: seq<Tx>, tx: Tx)
    requires Heap.IsHeap(items, PriceRank) && tx in items
    ensures PriceRank(items[0]) <= PriceRank(tx)
  {
    var i :| 0 <= i < |items| && items[i] == tx;
    Heap.RootIsLeast(items, PriceRank, i);
  }

  lemma SameMembers(s: seq<Tx>, t: seq<Tx>, m: multiset<Tx>)
    requires multiset(s) == multiset(t) + m
    ensures forall tx :: tx in s <==> tx in t || tx in m
  {
    forall tx ensures tx in s <==> tx in t || tx in m {
      assert tx in s <==> tx in multiset(s);
      assert tx in t <==> tx in multiset(t);
    }
  }

  class TxPricedList {
    var items: seq<Tx>
    var stales: int

    /** Every transaction in the pool is in the heap. */
    ghost predicate Valid(all: set<Tx>)
      reads this
    {
      Heap.IsHeap(items, PriceRank) && Covers(items, all)
    }

    constructor ()
      ensures Valid({})
    {
      items, stales := [], 0;
    }

    method Put(tx: Tx)
      requires Heap.IsHeap(items, PriceRank)
      modifies this
      ensures Heap.IsHeap(items, PriceRank) && forall t :: t in items <==> t in old(items) || t == tx
      ensures multiset(items) == multiset(old(items)) + multiset{tx}
      ensures |items| == old(|items|) + 1 && stales == old(stales)
    {
      var h := Heap.Push(items, PriceRank, tx);
      SameMembers(h, items, multiset{tx});
      assert |multiset(h)| == |multiset(items)| + 1;
      items := h;
    }

    /** Takes the first off the heap: nothing left is worse. */
    method Pop() returns (tx: Tx)
      requires Heap.IsHeap(items, PriceRank) && |items| > 0
      modifies `items
      ensures Heap.IsHeap(items, PriceRank) && |items| == old(|items|) - 1
      ensures tx in old(items) && tx == old(items[0]) && forall t :: t in old(items) <==> t in items || t == tx
      ensures multiset(old(items)) == multiset(items) + multiset{tx}
      ensures forall t :: t in items ==> PriceRank(tx) <= PriceRank(t)
    {
      forall t | t in items ensures PriceRank(items[0]) <= PriceRank(t) {
        TopIsCheapest(items, t);
      }
      var h;
      h, tx := Heap.Pop(items, PriceRank);
      assert multiset(items) == multiset(h) + multiset{tx};
      SameMembers(items, h, multiset{tx});
      items := h;
    }

    /**
     * Takes note of removals; once more than a quarter of the heap counts as stale it is built afresh
     * from the table. `owed` are transactions taken out of the heap but still in the table.
     */
    method Removed(all: set<Tx>, ghost owed: set<Tx>, count: nat)
      requires Valid(all - owed)
      modifies this
      ensures Valid(all - owed)
      ensures if old(stales) + count <= old(|items|) / 4
              then items == old(items) && stales == old(stales) + count
              else stales == 0 && HoldsJust(items, all)
    {
      stales := stales + count;
      if stales <= |items| / 4 {
        return;
      }
      stales := 0;
      var live, todo := [], all;
      while todo != {}
        invariant todo <= all && |live| == |all| - |todo| && forall tx :: tx in live <==> tx in all && tx !in todo
        decreases |todo|
      {
        var tx :| tx in todo;
        live, todo := live + [tx], todo - {tx};
      }
      var h := Heap.Init(live, PriceRank);
      SameMembers(h, live, multiset{});
      items := h;
    }

    /**
     * Whether a remote transaction is no dearer than the cheapest in the pool: the same as looking
     * through the whole pool for the minimum price. What is taken off the heap counts as stale no more.
     */
    method Underpriced(tx: Tx, local: set<Address>, all: set<Tx>) returns (b: bool)
      requires Valid(all)
      modifies this
      ensures Valid(all)
      ensures b <==> tx.from !in local && all != {} && forall t :: t in all ==> tx.price <= t.price
      ensures |items| - stales == old(|items| - stales) && SameLive(items, old(items), all)
    {
      if tx.from in local {
        return false;
      }
      while |items| > 0 && items[0] !in all
        invariant Valid(all) && |items| - stales == old(|items| - stales) && SameLive(items, old(items), all)
        decreases |items|
      {
        stales := stales - 1;
        var _ := Pop();
      }
      if |items| == 0 {
        return false;
      }
      forall t | t in all ensures items[0].price <= t.price {
        TopIsCheapest(items, t);
        RankIsPrice(items[0], t);
      }
      return items[0].price >= tx.price;
    }

    /** A transaction that is removed and comes back soon has two entries. */
    method Relist(tx: Tx, all: set<Tx>)
      requires Valid(all) && tx in all && stales + 1 <= |items| / 4
      modifies this
      ensures Valid(all) && multiset(items) == multiset(old(items)) + multiset{tx} && multiset(items)[tx] >= 2 && stales == old(stales) + 1
    {
      Removed(all - {tx}, {}, 1);
      assert tx in multiset(items);
      Put(tx);
    }

    /** Puts transactions back. */
    method PutAll(txs: seq<Tx>)
      requires Heap.IsHeap(items, PriceRank)
      modifies this
      ensures Heap.IsHeap(items, PriceRank) && forall t :: t in items <==> t in old(items) || t in txs
      ensures |items| == old(|items|) + |txs| && stales == old(stales)
    {
      for i := 0 to |txs|
        invariant Heap.IsHeap(items, PriceRank) && forall t :: t in items <==> t in old(items) || t in txs[..i]
        invariant |items| == old(|items|) + i && stales == old(stales)
      {
        Put(txs[i]);
        assert txs[..i + 1] == txs[..i] + [txs[i]];
      }
      assert txs[..|txs|] == txs;
    }

    /**
     * Takes out the remote transactions below a price; they are returned for removal from the pool.
     * Local ones stay.
     */
    method Cap(threshold: nat, local: set<Address>, all: set<Tx>) returns (drop: seq<Tx>)
      requires Valid(all)
      modifies this
      ensures forall t :: t in drop <==> t in all && t.from !in local && t.price < threshold
      ensures Valid(all - Elements(drop)) && |items| + |drop| - stales == old(|items| - stales)
    {
      drop := [];
      var save: seq<Tx> := [];
      var done := false;
      while |items| > 0 && !done
        invariant Sifted(items, save, drop, local, all) && |items| + |save| + |drop| - stales == old(|items| - stales)
        invariant forall t :: t in drop ==> t.price < threshold
        invariant forall t :: t in save ==> t.from in local || t.price >= threshold
        invariant done ==> forall t :: t in all && t !in save && t !in drop ==> t.price >= threshold
        decreases |items|, !done
      {
        var tx := Pop();
        if tx !in all {
          stales := stales - 1;
        } else if tx.price >= threshold {
          save, done := save + [tx], true;
          forall t | t in items ensures t.price >= threshold {
            RankIsPrice(tx, t);
          }
        } else if tx.from in local {
          save := save + [tx];
        } else {
          drop := drop + [tx];
        }
      }
      PutAll(save);
    }

    /** The number of remote entries in the heap, or `slots` if there are more. */
    method Discardable(slots: nat, local: set<Address>) returns (n: nat)
      ensures n == if Remotes(items, local) < slots then Remotes(items, local) else slots
    {
      n := 0;
      var i := 0;
      while i < |items| && n < slots
        invariant 0 <= i <= |items| && n == Remotes(items[..i], local) <= slots
      {
        OneMoreRemote(items, local, i);
        if items[i].from !in local {
          n := n + 1;
        }
        i := i + 1;
      }
      assert items[..|items|] == items;
      RemotesGrow(items, local, i);
    }

    /** Pops one entry, which is dead, to be saved or to be dropped. */
    method PopNext(ghost first: seq<Tx>, ghost save: seq<Tx>, ghost drop: seq<Tx>, ghost dead: multiset<Tx>,
                   ghost local: set<Address>, ghost all: set<Tx>, ghost wanted: nat, ghost left: int) returns (tx: Tx)
      requires |items| > 0 && left > 0 && TakingOut(first, items, save, drop, dead, PriceRank, local, all, wanted, left)
      modifies `items
      ensures |items| == old(|items|) - 1
      ensures tx !in all ==> TakingOut(first, items, save, drop, dead + multiset{tx}, PriceRank, local, all, wanted, left)
      ensures tx.from in local ==> TakingOut(first, items, save + [tx], drop, dead, PriceRank, local, all, wanted, left)
      ensures Exposed(tx, local, all) ==> TakingOut(first, items, save, drop + [tx], dead, PriceRank, local, all, wanted, left - NumSlots(tx))
    {
      tx := Pop();
      TakeNext(first, old(items), items, save, drop, dead, PriceRank, local, all, wanted, left, tx);
    }

    /** Pops entries until the exposed ones make up `wanted` slots or none is left; `save` are local ones. */
    method PopWorst(wanted: nat, local: set<Address>, all: set<Tx>)
      returns (drop: seq<Tx>, save: seq<Tx>, ghost dead: multiset<Tx>, ghost left: int)
      requires Valid(all)
      modifies this
      ensures |items| + |save| + |drop| - stales == old(|items| - stales) && (items == [] || left <= 0)
      ensures TakingOut(old(items), items, save, drop, dead, PriceRank, local, all, wanted, left)
    {
      drop, save, dead := [], [], multiset{};
      var slots: int := wanted;
      TakeBegins(items, PriceRank, local, all, wanted);
      while |items| > 0 && slots > 0
        invariant |items| + |save| + |drop| - stales == old(|items| - stales)
        invariant TakingOut(old(items), items, save, drop, dead, PriceRank, local, all, wanted, slots)
        decreases |items|
      {
        var tx := PopNext(old(items), save, drop, dead, local, all, wanted, slots);
        if tx !in all {
          stales, dead := stales - 1, dead + multiset{tx};
        } else if tx.from in local {
          save := save + [tx];
        } else {
          drop := drop + [tx];
          slots := slots - NumSlots(tx);
        }
      }
      left := slots;
    }

    /** Takes out the worst remote entries until they make up `wanted` slots or none is left. */
    method TakeOut(wanted: nat, local: set<Address>, all: set<Tx>) returns (drop: seq<Tx>)
      requires Valid(all)
      modifies this
      ensures Valid(all - Elements(drop)) && |items| + |drop| - stales == old(|items| - stales)
      ensures TakenOut(old(items), PriceRank, local, all, wanted, drop)
    {
      var save;
      ghost var dead, left;
      drop, save, dead, left := PopWorst(wanted, local, all);
      TakeEnds(old(items), items, save, drop, dead, PriceRank, local, all, wanted, left);
      PutAll(save);
    }

    /**
     * Takes out the worst remote entries until they make up `slots`, or as many slots as there are
     * remote entries if there are locals; they are returned for removal from the pool. No remote
     * transaction that stays is worse than one that goes, and no more go than needed. Their removal frees
     * these slots if no entry that matters is doubled.
     */
    method Discard(slots: nat, local: set<Address>, all: set<Tx>) returns (drop: seq<Tx>, ok: bool)
      requires Valid(all)
      modifies this
      ensures Valid(all - Elements(drop)) && |items| + |drop| - stales == old(|items| - stales)
      ensures ok <==> Wanted(slots, old(items), local) > 0
      ensures TakenOut(old(items), PriceRank, local, all, Wanted(slots, old(items), local), drop)
      ensures !Doubled(old(items), PriceRank, local, all) && (forall tx :: tx in all ==> tx.size > 0) ==>
        Frees(drop, Wanted(slots, old(items), local), local, all)
    {
      var left := slots;
      if local != {} {
        left := Discardable(slots, local);
      }
      if left == 0 {
        return [], false;
      }
      ok := true;
      drop := TakeOut(left, local, all);
      if !Doubled(old(items), PriceRank, local, all) && forall tx :: tx in all ==> tx.size > 0 {
        OnceFrees(old(items), PriceRank, local, all, left, drop);
      }
    }
  }

  // ----- What discarding frees -----

  /** A transaction of the pool that may be discarded. */
  predicate Exposed(tx: Tx, local: set<Address>, all: set<Tx>) {
    tx in all && tx.from !in local
  }

  ghost predicate Ascending(txs: seq<Tx>, rank: Tx -> int) {
    forall i, j :: 0 <= i < j < |txs| ==> rank(txs[i]) <= rank(txs[j])
  }

  /**
   * `drop` can be what is popped off the heap to make up `wanted` slots: exposed entries in the order of
   * their rank, none of which is better than one that is left; enough of them, or all; and the last is
   * needed.
   */
  ghost predicate TakenOut(items: seq<Tx>, rank: Tx -> int, local: set<Address>, all: set<Tx>, wanted: nat, drop: seq<Tx>) {
    && multiset(drop) <= multiset(items) && Ascending(drop, rank) && (forall t :: t in drop ==> Exposed(t, local, all))
    && (forall d, t :: d in drop && t in multiset(items) - multiset(drop) && Exposed(t, local, all) ==> rank(d) <= rank(t))
    && (SlotsOf(drop) >= wanted || forall t :: t in multiset(items) - multiset(drop) ==> !Exposed(t, local, all))
    && NoneIdle(drop, wanted)
  }

  /** While entries are popped off `first`: `dead` were not in the pool any more, and `left` slots are wanted. */
  ghost predicate TakingOut(first: seq<Tx>, items: seq<Tx>, save: seq<Tx>, drop: seq<Tx>, dead: multiset<Tx>,
                            rank: Tx -> int, local: set<Address>, all: set<Tx>, wanted: nat, left: int) {
    && Heap.IsHeap(items, rank) && multiset(first) == multiset(items) + multiset(save) + multiset(drop) + dead
    && (forall t :: t in save ==> t.from in local) && (forall t :: t in dead ==> t !in all) && (forall t :: t in drop ==> Exposed(t, local, all))
    && Ascending(drop, rank) && (forall d, t :: d in drop && t in items ==> rank(d) <= rank(t))
    && left == wanted - SlotsOf(drop) && NoneIdle(drop, wanted)
  }

  lemma TakeBegins(items: seq<Tx>, rank: Tx -> int, local: set<Address>, all: set<Tx>, wanted: nat)
    requires Heap.IsHeap(items, rank)
    ensures TakingOut(items, items, [], [], multiset{}, rank, local, all, wanted, wanted)
  {
  }

  lemma TakeNext(first: seq<Tx>, was: seq<Tx>, items: seq<Tx>, save: seq<Tx>, drop: seq<Tx>, dead: multiset<Tx>,
                 rank: Tx -> int, local: set<Address>, all: set<Tx>, wanted: nat, left: int, tx: Tx)
    requires TakingOut(first, was, save, drop, dead, rank, local, all, wanted, left) && left > 0
    requires Heap.IsHeap(items, rank) && multiset(was) == multiset(items) + multiset{tx}
    requires forall t :: t in was <==> t in items || t == tx
    requires forall t :: t in items ==> rank(tx) <= rank(t)
    ensures tx !in all ==> TakingOut(first, items, save, drop, dead + multiset{tx}, rank, local, all, wanted, left)
    ensures tx.from in local ==> TakingOut(first, items, save + [tx], drop, dead, rank, local, all, wanted, left)
    ensures Exposed(tx, local, all) ==> TakingOut(first, items, save, drop + [tx], dead, rank, local, all, wanted, left - NumSlots(tx))
  {
    assert tx in was;
    assert multiset(save + [tx]) == multiset(save) + multiset{tx} && multiset(drop + [tx]) == multiset(drop) + multiset{tx};
    AscendingNext(drop, rank, tx);
    MoreSlots(drop, tx);
  }

  lemma TakeEnds(first: seq<Tx>, items: seq<Tx>, save: seq<Tx>, drop: seq<Tx>, dead: multiset<Tx>,
                 rank: Tx -> int, local: set<Address>, all: set<Tx>, wanted: nat, left: int)
    requires TakingOut(first, items, save, drop, dead, rank, local, all, wanted, left) && (items == [] || left <= 0) && Covers(first, all)
    ensures TakenOut(first, rank, local, all, wanted, drop)
    ensures forall t :: t in all && t !in drop ==> t in items || t in save
  {
    var rest := multiset(first) - multiset(drop);
    forall t | t in rest && Exposed(t, local, all) ensures t in items {
      assert rest[t] == multiset(items)[t] + multiset(save)[t] + dead[t];
      assert t !in save && t !in multiset(save);
    }
    forall t | t in all && t !in drop ensures t in items || t in save {
      assert t in multiset(first) && t !in multiset(drop);
      assert t in multiset(items) <==> t in items;
      assert t in multiset(save) <==> t in save;
    }
  }

  lemma AscendingNext(txs: seq<Tx>, rank: Tx -> int, tx: Tx)
    requires Ascending(txs, rank) && forall t :: t in txs ==> rank(t) <= rank(tx)
    ensures Ascending(txs + [tx], rank)
  {
  }

  ghost predicate NoRepeats(txs: seq<Tx>) {
    txs == [] || (NoRepeats(txs[..|txs| - 1]) && txs[|txs| - 1] !in txs[..|txs| - 1])
  }

  ghost function SlotSum(txs: set<Tx>): nat {
    if txs == {} then 0
    else
      var tx :| tx in txs;
      NumSlots(tx) + SlotSum(txs - {tx})
  }

  lemma {:induction false} SlotSumAdd(txs: set<Tx>, tx: Tx)
    requires tx !in txs
    ensures SlotSum(txs + {tx}) == SlotSum(txs) + NumSlots(tx)
    decreases txs
  {
    var more := txs + {tx};
    var pick :| pick in more && SlotSum(more) == NumSlots(pick) + SlotSum(more - {pick});
    if pick == tx {
      assert more - {pick} == txs;
    } else {
      assert more - {pick} == (txs - {pick}) + {tx};
      SlotSumAdd(txs - {pick}, tx);
      SlotSumAdd(txs - {pick}, pick);
      assert (txs - {pick}) + {pick} == txs;
    }
  }

  /** Taking transactions out frees the slots counted if and only if none of them is counted twice. */
  lemma {:induction false} CountedOnceIff(txs: seq<Tx>)
    requires forall tx :: tx in txs ==> tx.size > 0
    ensures SlotSum(Elements(txs)) <= SlotsOf(txs)
    ensures SlotSum(Elements(txs)) == SlotsOf(txs) <==> NoRepeats(txs)
    decreases |txs|
  {
    if txs == [] {
      assert Elements(txs) == {};
    } else {
      var rest, last := txs[..|txs| - 1], txs[|txs| - 1];
      assert txs == rest + [last];
      CountedOnceIff(rest);
      ElementsNext(rest, last);
      MoreSlots(rest, last);
      var sum, slots, more := SlotSum(Elements(rest)), SlotsOf(rest), NumSlots(last);
      assert more > 0 by {
        SomeSlots(last);
      }
      assert SlotSum(Elements(txs)) == sum + (if last in rest then 0 else more) && SlotsOf(txs) == slots + more;
    }
  }

  lemma SomeSlots(tx: Tx)
    requires tx.size > 0
    ensures NumSlots(tx) > 0
  {
  }

  lemma ElementsNext(txs: seq<Tx>, tx: Tx)
    ensures SlotSum(Elements(txs + [tx])) == SlotSum(Elements(txs)) + if tx in txs then 0 else NumSlots(tx)
  {
    assert Elements(txs + [tx]) == Elements(txs) + {tx};
    if tx in txs {
      assert Elements(txs + [tx]) == Elements(txs);
    } else {
      SlotSumAdd(Elements(txs), tx);
    }
  }

  /** The slots wanted become free, or nothing is left to discard. */
  ghost predicate Frees(drop: seq<Tx>, wanted: nat, local: set<Address>, all: set<Tx>) {
    SlotSum(Elements(drop)) >= wanted || forall t :: Exposed(t, local, all) ==> t in drop
  }

  /** An exposed transaction is in the heap twice, and another one is no worse. */
  ghost predicate Doubled(items: seq<Tx>, rank: Tx -> int, local: set<Address>, all: set<Tx>) {
    exists t, u :: t != u && Exposed(t, local, all) && Exposed(u, local, all) && multiset(items)[t] >= 2 && rank(t) <= rank(u)
  }

  /** The entries of the pool's transactions are the same. */
  ghost predicate SameLive(items: seq<Tx>, before: seq<Tx>, all: set<Tx>) {
    forall t :: t in all ==> multiset(items)[t] == multiset(before)[t]
  }

  /** Discarding frees the slots wanted, whatever their number, if and only if no entry that matters is doubled. */
  lemma FreesIff(items: seq<Tx>, rank: Tx -> int, local: set<Address>, all: set<Tx>)
    requires Covers(items, all) && forall tx :: tx in all ==> tx.size > 0
    ensures (forall wanted: nat, drop :: TakenOut(items, rank, local, all, wanted, drop) ==> Frees(drop, wanted, local, all))
       <==> !Doubled(items, rank, local, all)
  {
    if Doubled(items, rank, local, all) {
      var t, u :| t != u && Exposed(t, local, all) && Exposed(u, local, all) && multiset(items)[t] >= 2 && rank(t) <= rank(u);
      var drop := DoubleDrop(items, rank, local, all, t, u);
      assert TakenOut(items, rank, local, all, SlotsOf(drop), drop);
    } else {
      forall wanted: nat, drop | TakenOut(items, rank, local, all, wanted, drop) ensures Frees(drop, wanted, local, all) {
        OnceFrees(items, rank, local, all, wanted, drop);
      }
    }
  }

  lemma SameDoubled(items: seq<Tx>, before: seq<Tx>, rank: Tx -> int, local: set<Address>, all: set<Tx>)
    requires SameLive(items, before, all)
    ensures Doubled(items, rank, local, all) <==> Doubled(before, rank, local, all)
  {
  }

  lemma OnceFrees(items: seq<Tx>, rank: Tx -> int, local: set<Address>, all: set<Tx>, wanted: nat, drop: seq<Tx>)
    requires Covers(items, all) && (forall tx :: tx in all ==> tx.size > 0) && !Doubled(items, rank, local, all)
    requires TakenOut(items, rank, local, all, wanted, drop)
    ensures Frees(drop, wanted, local, all)
  {
    if u :| Exposed(u, local, all) && u !in drop {
      LeftOver(items, drop, u);
      forall t | t in drop ensures multiset(drop)[t] <= 1 {
        assert rank(t) <= rank(u) && multiset(items)[t] < 2;
      }
      OnceEach(drop);
      CountedOnceIff(drop);
    }
  }

  lemma LeftOver(items: seq<Tx>, drop: seq<Tx>, u: Tx)
    requires u in items && u !in drop
    ensures u in multiset(items) - multiset(drop)
  {
    assert u in multiset(items) && u !in multiset(drop);
  }

  lemma {:induction false} OnceEach(txs: seq<Tx>)
    requires forall t :: t in txs ==> multiset(txs)[t] <= 1
    ensures NoRepeats(txs)
  {
    if txs != [] {
      var rest, last := txs[..|txs| - 1], txs[|txs| - 1];
      assert txs == rest + [last];
      assert multiset(txs) == multiset(rest) + multiset{last};
      assert last in txs && (last in rest ==> last in multiset(rest));
      forall t | t in rest ensures multiset(rest)[t] <= 1 {
        assert t in txs;
      }
      OnceEach(rest);
    }
  }

  /** What is popped if a transaction with two entries is the last: its slots are counted twice. */
  lemma DoubleDrop(items: seq<Tx>, rank: Tx -> int, local: set<Address>, all: set<Tx>, t: Tx, u: Tx) returns (drop: seq<Tx>)
    requires forall tx :: tx in all ==> tx.size > 0
    requires t != u && Exposed(t, local, all) && Exposed(u, local, all) && multiset(items)[t] >= 2 && rank(t) <= rank(u)
    ensures TakenOut(items, rank, local, all, SlotsOf(drop), drop) && !Frees(drop, SlotsOf(drop), local, all)
  {
    var first := WorseThenOnce(items, rank, local, all, t);
    drop := first + [t];
    WorseThenTwice(items, rank, local, all, t, first);
    LastNeeded(first, t);
    CountedLess(first, t);
    assert u !in drop;
  }

  lemma LastNeeded(drop: seq<Tx>, tx: Tx)
    requires tx.size > 0
    ensures NoneIdle(drop + [tx], SlotsOf(drop + [tx]))
  {
    MoreSlots(drop, tx);
  }

  lemma CountedLess(txs: seq<Tx>, tx: Tx)
    requires tx in txs && forall x :: x in txs ==> x.size > 0
    ensures SlotSum(Elements(txs + [tx])) < SlotsOf(txs + [tx])
  {
    assert (txs + [tx])[..|txs|] == txs;
    CountedOnceIff(txs + [tx]);
  }

  lemma WorseThenOnce(items: seq<Tx>, rank: Tx -> int, local: set<Address>, all: set<Tx>, t: Tx) returns (first: seq<Tx>)
    requires Exposed(t, local, all)
    ensures Ascending(first, rank) && t in first
    ensures forall x :: x in first && x != t ==> Exposed(x, local, all) && rank(x) < rank(t)
    ensures forall x :: multiset(first)[x] == if x == t then 1 else if Exposed(x, local, all) && rank(x) < rank(t) then multiset(items)[x] else 0
  {
    var worse := WorseThan(items, rank, local, all, rank(t));
    first := worse + [t];
    forall x ensures multiset(worse)[x] == if Exposed(x, local, all) && rank(x) < rank(t) then multiset(items)[x] else 0 {
      WorseCount(items, rank, local, all, rank(t), x);
    }
    forall x | x in worse ensures Exposed(x, local, all) && rank(x) < rank(t) {
      assert multiset(worse)[x] > 0;
    }
    AscendingNext(worse, rank, t);
    assert multiset(first) == multiset(worse) + multiset{t};
  }

  lemma WorseThenTwice(items: seq<Tx>, rank: Tx -> int, local: set<Address>, all: set<Tx>, t: Tx, first: seq<Tx>)
    requires Exposed(t, local, all) && multiset(items)[t] >= 2 && Ascending(first, rank)
    requires forall x :: x in first && x != t ==> Exposed(x, local, all) && rank(x) < rank(t)
    requires forall x :: multiset(first)[x] == if x == t then 1 else if Exposed(x, local, all) && rank(x) < rank(t) then multiset(items)[x] else 0
    ensures var drop := first + [t];
            && multiset(drop) <= multiset(items) && Ascending(drop, rank)
            && (forall x :: x in drop ==> x == t || (Exposed(x, local, all) && rank(x) < rank(t)))
            && (forall x :: x in multiset(items) - multiset(drop) && Exposed(x, local, all) ==> rank(x) >= rank(t))
  {
    var drop := first + [t];
    assert multiset(drop) == multiset(first) + multiset{t};
    AscendingNext(first, rank, t);
  }

  /** The exposed entries below a rank, in order. */
  ghost function WorseThan(items: seq<Tx>, rank: Tx -> int, local: set<Address>, all: set<Tx>, bound: int): (r: seq<Tx>)
    ensures Ascending(r, rank)
  {
    if items == [] then []
    else
      var rest, last := WorseThan(items[..|items| - 1], rank, local, all, bound), items[|items| - 1];
      if Exposed(last, local, all) && rank(last) < bound then Ranked(rest, rank, last) else rest
  }

  lemma {:induction false} WorseCount(items: seq<Tx>, rank: Tx -> int, local: set<Address>, all: set<Tx>, bound: int, x: Tx)
    ensures multiset(WorseThan(items, rank, local, all, bound))[x]
         == if Exposed(x, local, all) && rank(x) < bound then multiset(items)[x] else 0
  {
    if items != [] {
      var rest, last := items[..|items| - 1], items[|items| - 1];
      assert items == rest + [last];
      WorseCount(rest, rank, local, all, bound, x);
    }
  }

  /** Puts a transaction into its place by rank. */
  ghost function Ranked(txs: seq<Tx>, rank: Tx -> int, tx: Tx): (r: seq<Tx>)
    requires Ascending(txs, rank)
    ensures Ascending(r, rank) && multiset(r) == multiset(txs) + multiset{tx}
  {
    if txs == [] || rank(txs[|txs| - 1]) <= rank(tx) then txs + [tx]
    else
      var rest, last := txs[..|txs| - 1], txs[|txs| - 1];
      assert txs == rest + [last];
      var r := Ranked(rest, rank, tx);
      SameMembers(r, rest, multiset{tx});
      AscendingNext(r, rank, last);
      r + [last]
  }

  /**
   * A heap with two entries of one transaction and one of a better one, each of one slot: discarding two
   * slots always takes out the two entries, which frees one slot, and the better transaction stays.
   */
  lemma CountsTwice(t: Tx, u: Tx, rank: Tx -> int, drop: seq<Tx>)
    requires NumSlots(t) == NumSlots(u) == 1 && rank(t) < rank(u)
    requires TakenOut([t, t, u], rank, {}, {t, u}, 2, drop)
    ensures Heap.IsHeap([t, t, u], rank) && Covers([t, t, u], {t, u})
    ensures drop == [t, t] && SlotSum(Elements(drop)) == 1 && !Frees(drop, 2, {}, {t, u})
  {
    TwiceInHeap(t, u, rank);
    FewSlots(drop, 2);
    PopsTwice(t, u, rank, drop);
    OneOfTwo(t);
    assert Exposed(u, {}, {t, u}) && u !in drop;
  }

  lemma TwiceInHeap(t: Tx, u: Tx, rank: Tx -> int)
    requires rank(t) <= rank(u)
    ensures Heap.IsHeap([t, t, u], rank) && Covers([t, t, u], {t, u})
  {
    assert [t, t, u][2] == u;
  }

  lemma FewSlots(drop: seq<Tx>, wanted: nat)
    requires (forall tx :: tx in drop ==> NumSlots(tx) == 1) && NoneIdle(drop, wanted)
    ensures SlotsOf(drop) == |drop| <= wanted
  {
    OneSlotEach(drop);
    if drop != [] {
      OneSlotEach(drop[..|drop| - 1]);
    }
  }

  lemma OneOfTwo(t: Tx)
    requires NumSlots(t) == 1
    ensures SlotSum(Elements([t, t])) == 1
  {
    assert Elements([t, t]) == {} + {t};
    SlotSumAdd({}, t);
  }

  lemma PopsTwice(t: Tx, u: Tx, rank: Tx -> int, drop: seq<Tx>)
    requires rank(t) < rank(u) && SlotsOf(drop) == |drop| <= 2 && TakenOut([t, t, u], rank, {}, {t, u}, 2, drop)
    ensures drop == [t, t]
  {
    var items := multiset{t, t, u};
    assert multiset([t, t, u]) == items;
    assert |items - multiset(drop)| == 3 - |drop|;
    var x :| x in items - multiset(drop);
    assert Exposed(t, {}, {t, u}) && Exposed(x, {}, {t, u});
    TwoOfThree(t, u, rank, drop);
  }

  lemma TwoOfThree(t: Tx, u: Tx, rank: Tx -> int, drop: seq<Tx>)
    requires rank(t) < rank(u) && |drop| == 2 && multiset(drop) <= multiset{t, t, u}
    requires forall d :: d in drop && t in multiset{t, t, u} - multiset(drop) ==> rank(d) <= rank(t)
    ensures drop == [t, t]
  {
    assert drop == [drop[0], drop[1]];
    assert multiset(drop) == multiset{drop[0], drop[1]};
    forall d | d in drop ensures d == t {
      assert d in multiset(drop);
      assert d == u ==> (multiset{t, t, u} - multiset(drop))[t] >= 1;
    }
  }

  lemma {:induction false} OneSlotEach(txs: seq<Tx>)
    requires forall tx :: tx in txs ==> NumSlots(tx) == 1
    ensures SlotsOf(txs) == |txs|
  {
    if txs != [] {
      OneSlotEach(txs[..|txs| - 1]);
    }
  }

  /** The last of the transactions is needed to make up so many slots. */
  ghost predicate NoneIdle(drop: seq<Tx>, wanted: nat) {
    drop != [] ==> SlotsOf(drop[..|drop| - 1]) < wanted
  }

  lemma MoreSlots(drop: seq<Tx>, tx: Tx)
    ensures SlotsOf(drop + [tx]) == SlotsOf(drop) + NumSlots(tx) && (drop + [tx])[..|drop + [tx]| - 1] == drop
  {
    assert (drop + [tx])[..|drop|] == drop;
  }

  /** How many slots are to be freed: no more than there are remote entries, if there are locals. */
  ghost function Wanted(slots: nat, items: seq<Tx>, local: set<Address>): nat {
    if local != {} && Remotes(items, local) < slots then Remotes(items, local) else slots
  }

  /** How many entries are remote. */
  ghost function Remotes(txs: seq<Tx>, local: set<Address>): nat {
    if txs == [] then 0
    else Remotes(txs[..|txs| - 1], local) + if txs[|txs| - 1].from in local then 0 else 1
  }

  lemma OneMoreRemote(txs: seq<Tx>, local: set<Address>, i: nat)
    requires i < |txs|
    ensures Remotes(txs[..i + 1], local) == Remotes(txs[..i], local) + if txs[i].from in local then 0 else 1
  {
    var more := txs[..i + 1];
    assert more[..|more| - 1] == txs[..i] && more[|more| - 1] == txs[i];
  }

  lemma {:induction false} RemotesGrow(txs: seq<Tx>, local: set<Address>, k: nat)
    requires k <= |txs|
    ensures Remotes(txs[..k], local) <= Remotes(txs, local)
    decreases |txs|
  {
    if k < |txs| {
      RemotesGrow(txs[..|txs| - 1], local, k);
      assert txs[..|txs| - 1][..k] == txs[..k];
    } else {
      assert txs[..k] == txs;
    }
  }

  /** Remote transactions of the pool are remote entries of the heap. */
  lemma {:induction false} RemotesCover(items: seq<Tx>, remotes: set<Tx>, local: set<Address>)
    requires forall tx :: tx in remotes ==> tx in items && tx.from !in local
    ensures |remotes| <= Remotes(items, local)
    decreases |items|
  {
    if items == [] {
      assert remotes == {};
    } else {
      var rest, last := items[..|items| - 1], items[|items| - 1];
      assert items == rest + [last];
      RemotesCover(rest, remotes - {last}, local);
    }
  }

  ghost function SlotsOf(txs: seq<Tx>): nat {
    if txs == [] then 0 else SlotsOf(txs[..|txs| - 1]) + NumSlots(txs[|txs| - 1])
  }

  ghost function Elements(txs: seq<Tx>): set<Tx> {
    set tx | tx in txs
  }

  /** What was popped off the heap and is in the pool has been saved or dropped; only remote ones were dropped. */
  ghost predicate Sifted(items: seq<Tx>, save: seq<Tx>, drop: seq<Tx>, local: set<Address>, all: set<Tx>) {
    && Heap.IsHeap(items, PriceRank)
    && (forall t :: t in all ==> t in items || t in save || t in drop)
    && (forall t :: t in drop ==> t in all && t.from !in local)
  }
}
