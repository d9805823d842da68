/**
 * The transaction pool (core/tx_pool.go). Whatever the sequence of operations, its table is the
 * disjoint union of the pending and the queued transactions, and its price index covers the table.
 * As long as state nonces do not fall, an account's pending nonces run from its state nonce to its
 * virtual nonce.
 */
module TransactionPool {
  import opened Types
  import opened NonceOrder
  import opened SortedMap
  import opened AccountList
  import opened PricedList
  import opened PoolBooks
  import opened PoolNonces
  import opened WaterFill

  datatype Config = Config(
    priceBump: nat, accountSlots: nat, globalSlots: nat, accountQueue: nat, globalQueue: nat)

  /** What becomes of a request to reset: the head stays, or moves and brings back transactions. */
  datatype Reset = Stay | MoveTo(head: Head, reinject: seq<Tx>)

  datatype Operation =
    | AddAll(txs: seq<Tx>, local: bool)
    | Reorg(reset: Option<Reset>, dirty: set<Address>)
    | Fork(head: Head, rollback: seq<Tx>)
    | RaisePrice(price: nat)
    | EvictOne(tx: Tx)

  /** Every head the pool moves to has nonces no lower than the one before. */
  ghost predicate NeverFalls(ops: seq<Operation>, head: Head) {
    ops == [] || (Rises(head, HeadAfter(ops[0], head)) && NeverFalls(ops[1..], HeadAfter(ops[0], head)))
  }

  function HeadAfter(op: Operation, head: Head): Head {
    if op.Reorg? && op.reset.Some? && op.reset.value.MoveTo? then op.reset.value.head
    else if op.Fork? then op.head
    else head
  }

  ghost predicate OperationOk(op: Operation) {
    match op
    case AddAll(txs, _) => WellFormed(txs)
    case Reorg(reset, _) => reset.Some? && reset.value.MoveTo? ==> WellFormed(reset.value.reinject)
    case Fork(_, rollback) => WellFormed(rollback)
    case _ => true
  }

  ghost predicate WellFormed(txs: seq<Tx>) {
    forall i :: 0 <= i < |txs| ==> txs[i].size > 0 && txs[i].nonce <= MAX_UINT64
  }

  datatype Verdict = Known | Invalid | TooCheap | ReplaceUnderpriced | Pooled(replaced: bool)

  class TxPool {
    const config: Config
    const priced: TxPricedList
    var pending: Lists
    var queue: Lists
    var all: set<Tx>
    var slots: int
    var nonces: map<Address, nat>
    var locals: set<Address>
    var gasPrice: nat
    var head: Head

    ghost function View(): Books
      reads this
    {
      Books(pending, queue, all, slots)
    }

    /** The price index covers the table, except for what has been taken out of it for removal. */
    ghost predicate Priced(owed: set<Tx>)
      reads this, priced
    {
      priced.Valid(all - owed)
    }

    ghost predicate Ordered(mode: Mode)
      reads this
    {
      AllInOrder(mode, pending, nonces, head)
    }

    /** What holds between operations. */
    ghost predicate Sound(mode: Mode)
      reads this, priced
    {
      Partition(View(), {}) && Priced({}) && Ordered(mode) && NoneEmpty(pending) && NoneEmpty(queue)
    }

    constructor (config: Config, head: Head, gasPrice: nat)
      requires config.accountSlots > 0
      ensures Sound(Mode(Settled, map[], {}))
      ensures this.config == config && fresh(priced)
    {
      this.config, this.head, this.gasPrice := config, head, gasPrice;
      pending, queue, all, slots, nonces, locals := map[], map[], {}, 0, map[], {};
      priced := new TxPricedList();
    }

    // ----- The table -----

    method LookupAdd(tx: Tx)
      modifies `all, `slots
      ensures View() == Record(old(View()), tx)
    {
      slots := slots + NumSlots(tx);
      all := all + {tx};
    }

    /** Only ever called for what is in the table. */
    method LookupRemove(tx: Tx)
      requires tx in all
      modifies `all, `slots
      ensures View() == Forget(old(View()), tx)
    {
      slots := slots - NumSlots(tx);
      all := all - {tx};
    }

    /** Tells the price index how many transactions are gone from the table. */
    method NoteRemoved(ghost owed: set<Tx>, count: nat)
      requires Priced(owed)
      modifies priced
      ensures Priced(owed)
      ensures priced.stales == if old(priced.stales) + count <= old(|priced.items|) / 4 then old(priced.stales) + count else 0
    {
      priced.Removed(all, owed, count);
    }

    // ----- Virtual nonces -----

    method SetNonceIfLower(a: Address, nonce: nat)
      modifies `nonces
      ensures VirtualNonce(nonces, head, a) == Min(VirtualNonce(old(nonces), head, a), nonce)
      ensures nonces - {a} == old(nonces) - {a}
    {
      if a !in nonces {
        nonces := nonces[a := NonceAt(head, a)];
      }
      if nonces[a] <= nonce {
        return;
      }
      nonces := nonces[a := nonce];
    }

    // ----- Single transactions -----

    /**
     * Inserts a transaction into its account's queue, unless one with its nonce is there and not
     * outbid. The transaction is new, or one of those in hand.
     */
    method EnqueueTx(tx: Tx, ghost hand: set<Tx>, ghost owed: set<Tx>) returns (inserted: bool, replaced: bool)
      requires Partition(View(), hand) && Priced(owed) && (tx in hand || tx !in all)
      requires tx.size > 0 && tx.nonce <= MAX_UINT64 && tx.nonce !in ItemsOf(pending, tx.from)
      modifies `queue, `all, `slots, priced
      ensures inserted == Accepts(ListOf(old(queue), tx.from, false), tx, config.priceBump)
      ensures View() == if inserted then Enqueued(old(View()), tx) else old(View())
      ensures inserted ==> Partition(View(), hand - {tx})
      ensures Priced(owed) && replaced == (inserted && tx.nonce in ItemsOf(old(queue), tx.from))
    {
      var list := ListOf(queue, tx.from, false);
      if !Accepts(list, tx, config.priceBump) {
        return false, false;
      }
      EnqueueKeeps(View(), hand, tx);
      queue := queue[tx.from := Insert(list, tx)];
      replaced := tx.nonce in list.items;
      if replaced {
        assert Holds(old(queue), list.items[tx.nonce]);
        LookupRemove(list.items[tx.nonce]);
        NoteRemoved(owed, 1);
      }
      if tx !in all {
        LookupAdd(tx);
        priced.Put(tx);
      }
      inserted := true;
    }

    /** Moves a transaction in hand back to its queue: its nonce is free, so it is taken. */
    method PostponeNext(tx: Tx, ghost hand: set<Tx>, ghost owed: set<Tx>)
      requires Partition(View(), hand) && Free(View(), hand) && Sized(hand) && tx in hand && Priced(owed)
      modifies `queue, `all, `slots, priced
      ensures Partition(View(), hand - {tx}) && Free(View(), hand - {tx}) && Priced(owed)
      ensures all == old(all) && slots == old(slots) && queue == Inserted(old(queue), tx, false)
    {
      EnqueueFree(View(), hand, tx, config.priceBump);
      var inserted, _ := EnqueueTx(tx, hand, owed);
      assert inserted;
    }

    /** Moves transactions of an account that are in hand back to its queue: every one of them is taken. */
    method Postpone(a: Address, txs: Items, ghost owed: set<Tx>)
      requires Partition(View(), txs.Values) && Free(View(), txs.Values) && Sized(txs.Values) && Priced(owed)
      requires Keyed(txs) && forall n :: n in txs ==> txs[n].from == a
      modifies `queue, `all, `slots, priced
      ensures Partition(View(), {}) && Priced(owed) && all == old(all) && slots == old(slots)
      ensures old(NoneEmpty(queue)) ==> NoneEmpty(queue)
      ensures ItemsOf(queue, a) == ItemsOf(old(queue), a) + txs && queue - {a} == old(queue) - {a}
    {
      PostponeStarts(a, txs, queue);
      PostponeAll(a, txs, txs.Values, owed);
      PostponeEnds(a, txs, old(queue), queue);
    }

    method PostponeAll(a: Address, ghost txs: Items, hand: set<Tx>, ghost owed: set<Tx>)
      requires Partition(View(), hand) && Free(View(), hand) && Sized(hand) && Priced(owed)
      requires Postponing(a, txs, hand, queue, queue)
      modifies `queue, `all, `slots, priced
      ensures Partition(View(), {}) && Priced(owed) && all == old(all) && slots == old(slots)
      ensures Postponing(a, txs, {}, old(queue), queue)
    {
      var todo := hand;
      while todo != {}
        invariant todo <= hand && Partition(View(), todo) && Free(View(), todo) && Priced(owed)
        invariant all == old(all) && slots == old(slots) && Postponing(a, txs, todo, old(queue), queue)
        decreases |todo|
      {
        var tx :| tx in todo;
        PostponeStep(a, txs, todo, old(queue), queue, tx);
        PostponeNext(tx, todo, owed);
        todo := todo - {tx};
      }
    }

    /**
     * Makes a transaction pending and puts the virtual nonce after it, unless one with its nonce is
     * pending and not outbid, when it is dropped.
     */
    method PromoteTx(tx: Tx, ghost hand: set<Tx>) returns (inserted: bool)
      requires Partition(View(), hand) && Priced({})
      requires tx in hand || (tx !in all && Accepts(ListOf(pending, tx.from, true), tx, config.priceBump))
      requires tx.size > 0 && tx.nonce <= MAX_UINT64 && tx.nonce !in ItemsOf(queue, tx.from)
      modifies `pending, `all, `slots, `nonces, priced
      ensures inserted == Accepts(ListOf(old(pending), tx.from, true), tx, config.priceBump)
      ensures Partition(View(), hand - {tx}) && Priced({})
      ensures View() == if inserted then Promoted(old(View()), tx) else Forget(old(View()), tx)
      ensures nonces == if inserted then old(nonces)[tx.from := tx.nonce + 1] else old(nonces)
    {
      var list := ListOf(pending, tx.from, true);
      if !Accepts(list, tx, config.priceBump) {
        ForgetHand(View(), hand, tx);
        LookupRemove(tx);
        NoteRemoved({}, 1);
        return false;
      }
      PromoteKeeps(View(), hand, tx);
      pending := pending[tx.from := Insert(list, tx)];
      if tx.nonce in list.items {
        assert Holds(old(pending), list.items[tx.nonce]);
        LookupRemove(list.items[tx.nonce]);
        NoteRemoved({}, 1);
      }
      if tx !in all {
        LookupAdd(tx);
        priced.Put(tx);
      }
      nonces := nonces[tx.from := tx.nonce + 1];
      inserted := true;
    }

    /** Drops a pending transaction already taken off the table, and postpones those after it. */
    method CutAccount(tx: Tx, ghost owed: set<Tx>)
      requires tx !in all && Partition(Record(View(), tx), {}) && Holds(pending, tx) && Priced(owed)
      modifies `pending, `queue, `all, `slots, priced
      ensures Partition(View(), {}) && Priced(owed) && all == old(all)
      ensures pending == Reduced(old(pending), tx.from, Below(old(pending)[tx.from].items, tx.nonce))
      ensures ItemsOf(queue, tx.from) == ItemsOf(old(queue), tx.from) + From(old(pending)[tx.from].items, tx.nonce + 1)
      ensures queue - {tx.from} == old(queue) - {tx.from} && (old(NoneEmpty(queue)) ==> NoneEmpty(queue))
    {
      ghost var before := Record(View(), tx);
      CutPending(before, tx);
      assert Forget(before, tx).all == all;
      var items := pending[tx.from].items;
      pending := Reduced(pending, tx.from, Below(items, tx.nonce));
      Postpone(tx.from, From(items, tx.nonce + 1), owed);
    }

    /** The pending half of removing a transaction. */
    method RemovePending(tx: Tx, ghost mode: Mode, ghost owed: set<Tx>)
      requires tx !in all && Partition(Record(View(), tx), {}) && Holds(pending, tx) && Priced(owed) && Ordered(mode)
      modifies `pending, `queue, `all, `slots, `nonces, priced
      ensures Partition(View(), {}) && Priced(owed) && Ordered(mode) && all == old(all)
      ensures old(NoneEmpty(pending)) ==> NoneEmpty(pending)
      ensures old(NoneEmpty(queue)) ==> NoneEmpty(queue)
      ensures CutAt(old(View()), View(), tx) && LoweredTo(old(nonces), nonces, head, tx)
    {
      CutAccount(tx, owed);
      SetNonceIfLower(tx.from, tx.nonce);
      CutReduced(mode, old(pending), old(nonces), nonces, head, tx.from, tx.nonce);
    }

    /** The queue half of removing a transaction already taken off the table. */
    method RemoveQueued(tx: Tx)
      requires tx !in all && Partition(Record(View(), tx), {}) && Holds(queue, tx)
      modifies `queue
      ensures Partition(View(), {}) && queue == Reduced(old(queue), tx.from, ItemsOf(old(queue), tx.from) - {tx.nonce})
      ensures old(NoneEmpty(queue)) ==> NoneEmpty(queue)
    {
      ghost var before := Record(View(), tx);
      CutQueued(before, tx);
      assert Forget(before, tx).all == all;
      if NoneEmpty(queue) {
        ReducedNoneEmpty(queue, tx.from, queue[tx.from].items - {tx.nonce});
      }
      queue := Reduced(queue, tx.from, queue[tx.from].items - {tx.nonce});
    }

    /** Takes a transaction off the table and, unless it is off it already, off the price index. */
    method TakeOff(tx: Tx, outofbound: bool, ghost owed: set<Tx>)
      requires tx in all && Priced(owed)
      modifies `all, `slots, priced
      ensures View() == Forget(old(View()), tx) && Priced(owed - {tx})
    {
      LookupRemove(tx);
      assert all - (owed - {tx}) == all - owed;
      if outofbound {
        NoteRemoved(owed - {tx}, 1);
      }
    }

    /** Takes a transaction that has been taken off the table out of its list. */
    method Unlist(tx: Tx, ghost mode: Mode, ghost owed: set<Tx>)
      requires tx !in all && Partition(Record(View(), tx), {}) && Priced(owed) && Ordered(mode)
      requires Holds(pending, tx) <==> tx.nonce in ItemsOf(pending, tx.from)
      requires Holds(pending, tx) <==> !Holds(queue, tx)
      modifies `pending, `queue, `all, `slots, `nonces, priced
      ensures Partition(View(), {}) && Priced(owed) && Ordered(mode) && all == old(all)
      ensures old(NoneEmpty(pending)) ==> NoneEmpty(pending)
      ensures old(NoneEmpty(queue)) ==> NoneEmpty(queue)
      ensures if old(Holds(pending, tx))
              then CutAt(old(View()), View(), tx) && LoweredTo(old(nonces), nonces, head, tx)
              else Unqueued(old(View()), View(), tx) && nonces == old(nonces)
    {
      if tx.from in pending && tx.nonce in pending[tx.from].items {
        RemovePending(tx, mode, owed);
      } else {
        RemoveQueued(tx);
      }
    }

    /**
     * Removes a transaction from the pool. If it was pending, those after it go back to the queue and
     * the virtual nonce falls to it.
     */
    method RemoveTx(tx: Tx, outofbound: bool, ghost mode: Mode, ghost owed: set<Tx>)
      requires Partition(View(), {}) && Priced(owed) && Ordered(mode)
      modifies `pending, `queue, `all, `slots, `nonces, priced
      ensures Partition(View(), {}) && Priced(owed - {tx}) && Ordered(mode) && all == old(all) - {tx}
      ensures old(NoneEmpty(pending)) ==> NoneEmpty(pending)
      ensures old(NoneEmpty(queue)) ==> NoneEmpty(queue)
      ensures tx !in old(all) ==> View() == old(View()) && nonces == old(nonces)
      ensures old(Holds(pending, tx)) ==> CutAt(old(View()), View(), tx) && LoweredTo(old(nonces), nonces, head, tx)
      ensures old(Holds(queue, tx)) ==> Unqueued(old(View()), View(), tx) && nonces == old(nonces)
    {
      if tx !in all {
        assert all - (owed - {tx}) == all - owed && all == all - {tx};
        return;
      }
      Located(View(), tx);
      TakeOff(tx, outofbound, owed);
      Unlist(tx, mode, owed - {tx});
    }

    /** Removes the first of some transactions that are off the price index already. */
    method RemoveFirst(txs: seq<Tx>, ghost mode: Mode)
      requires |txs| > 0 && Partition(View(), {}) && Priced(Elements(txs)) && Ordered(mode)
      modifies `pending, `queue, `all, `slots, `nonces, priced
      ensures Partition(View(), {}) && Priced(Elements(txs[1..])) && Ordered(mode) && all == old(all) - {txs[0]}
      ensures old(NoneEmpty(pending)) ==> NoneEmpty(pending)
      ensures old(NoneEmpty(queue)) ==> NoneEmpty(queue)
    {
      RemoveTx(txs[0], false, mode, Elements(txs));
      assert txs == [txs[0]] + txs[1..];
      assert all - (Elements(txs) - {txs[0]}) == all - Elements(txs[1..]);
    }

    /** Removes transactions that are off the price index already. */
    method RemoveAll(txs: seq<Tx>, ghost mode: Mode)
      requires Partition(View(), {}) && Priced(Elements(txs)) && Ordered(mode)
      modifies `pending, `queue, `all, `slots, `nonces, priced
      ensures Partition(View(), {}) && Priced({}) && Ordered(mode) && all == old(all) - Elements(txs)
      ensures old(NoneEmpty(pending)) ==> NoneEmpty(pending)
      ensures old(NoneEmpty(queue)) ==> NoneEmpty(queue)
    {
      assert txs[0..] == txs && txs[..0] == [];
      for i := 0 to |txs|
        invariant Partition(View(), {}) && Priced(Elements(txs[i..])) && Ordered(mode)
        invariant all == old(all) - Elements(txs[..i])
        invariant old(NoneEmpty(pending)) ==> NoneEmpty(pending)
        invariant old(NoneEmpty(queue)) ==> NoneEmpty(queue)
      {
        RemoveFirst(txs[i..], mode);
        assert txs[i..][1..] == txs[i + 1..];
        OneMore(txs, i);
      }
      assert txs[..|txs|] == txs && txs[|txs|..] == [];
    }

    /** Whether the pool takes a transaction; `checked` stands for its signature, its intrinsic gas and its payload. */
    predicate Validates(tx: Tx, local: bool, checked: bool)
      reads this
    {
      && tx.size <= 1024 * 1024 && tx.gas <= head.maxGas && checked
      && (local || tx.from in locals || tx.price >= gasPrice)
      && NonceAt(head, tx.from) <= tx.nonce && tx.Cost() <= BalanceAt(head, tx.from)
    }

    /** Removes the worst remote transactions, enough to free some slots. */
    method RemoveWorst(free: nat, ghost mode: Mode) returns (ghost gone: seq<Tx>)
      requires Partition(View(), {}) && Priced({}) && Ordered(mode)
      modifies `pending, `queue, `all, `slots, `nonces, priced
      ensures Partition(View(), {}) && Priced({}) && Ordered(mode)
      ensures old(NoneEmpty(pending)) ==> NoneEmpty(pending)
      ensures old(NoneEmpty(queue)) ==> NoneEmpty(queue)
      ensures Cleared(gone, free, old(View()), View(), old(priced.items), locals)
    {
      assert all - {} == all;
      ghost var items := priced.items;
      var drop, _ := priced.Discard(free, locals, all);
      TakenOutDiscards(items, locals, all, free, drop);
      RemoveAll(drop, mode);
      gone := drop;
      SlotSumParts(old(all), Elements(drop));
    }

    predicate Full()
      reads this
    {
      |all| >= config.globalSlots + config.globalQueue
    }

    /** The slots to be freed for a transaction. */
    function Excess(tx: Tx): int
      reads this
    {
      slots - (config.globalSlots + config.globalQueue) + NumSlots(tx)
    }

    /**
     * Drops the worst remote transactions from a full pool; false if the new one is no better. That
     * makes room as far as there are remote transactions, if the price index has none of them twice.
     */
    method MakeRoom(tx: Tx, local: bool, ghost mode: Mode) returns (ok: bool, ghost gone: seq<Tx>)
      requires Partition(View(), {}) && Priced({}) && Ordered(mode) && tx.size > 0
      modifies `pending, `queue, `all, `slots, `nonces, priced
      ensures Partition(View(), {}) && Priced({}) && Ordered(mode)
      ensures old(NoneEmpty(pending)) ==> NoneEmpty(pending)
      ensures old(NoneEmpty(queue)) ==> NoneEmpty(queue)
      ensures if ok && old(Full()) then Cleared(gone, old(Excess(tx)), old(View()), View(), old(priced.items), locals)
              else View() == old(View()) && nonces == old(nonces)
      ensures !ok <==> old(Full()) && !local && tx.from !in locals && NoDearer(tx, old(all))
    {
      assert all - {} == all;
      ok, gone := true, [];
      if Full() {
        if !local {
          var under := priced.Underpriced(tx, locals, all);
          if under {
            return false, [];
          }
          SameDoubled(priced.items, old(priced.items), PriceRank, locals, all);
        }
        SlotSumAtLeast(all);
        gone := RemoveWorst(Excess(tx), mode);
      }
    }

    /** Puts a transaction in the place of the pending one with its nonce, if it outbids it. */
    method ReplacePending(tx: Tx) returns (inserted: bool)
      requires Partition(View(), {}) && Priced({}) && tx !in all
      requires tx.size > 0 && tx.nonce <= MAX_UINT64 && tx.nonce in ItemsOf(pending, tx.from)
      modifies `pending, `all, `slots, priced
      ensures Partition(View(), {}) && Priced({})
      ensures inserted == Outbids(tx, ItemsOf(old(pending), tx.from)[tx.nonce], config.priceBump)
      ensures View() == if inserted then Promoted(old(View()), tx) else old(View())
    {
      var list := pending[tx.from];
      if !Accepts(list, tx, config.priceBump) {
        return false;
      }
      PromoteKeeps(View(), {}, tx);
      assert {} - {tx} == {};
      pending := pending[tx.from := Insert(list, tx)];
      assert Holds(old(pending), list.items[tx.nonce]);
      LookupRemove(list.items[tx.nonce]);
      NoteRemoved({}, 1);
      LookupAdd(tx);
      priced.Put(tx);
      return true;
    }

    /** Queues a valid transaction whose nonce is not pending. */
    method PlaceQueued(tx: Tx, local: bool) returns (verdict: Verdict)
      requires Partition(View(), {}) && Priced({}) && tx !in all
      requires tx.size > 0 && tx.nonce <= MAX_UINT64 && tx.nonce !in ItemsOf(pending, tx.from)
      modifies `queue, `all, `slots, `locals, priced
      ensures Partition(View(), {}) && Priced({})
      ensures old(NoneEmpty(queue)) ==> NoneEmpty(queue)
      ensures PlacedAs(old(View()), View(), tx, config.priceBump, verdict) && (verdict.Pooled? ==> Enters(old(all), all, tx))
      ensures locals == if verdict.Pooled? && local then old(locals) + {tx.from} else old(locals)
    {
      if NoneEmpty(queue) {
        InsertNoneEmpty(queue, tx, false);
      }
      EntersAs(View(), queue, tx);
      assert {} - {tx} == {};
      var inserted, replaced := EnqueueTx(tx, {}, {});
      if !inserted {
        return ReplaceUnderpriced;
      }
      if local {
        locals := locals + {tx.from};
      }
      return Pooled(replaced);
    }

    /** Puts a valid transaction in the place of the pending one with its nonce. */
    method PlacePending(tx: Tx, ghost mode: Mode) returns (verdict: Verdict)
      requires Partition(View(), {}) && Priced({}) && Ordered(mode) && tx !in all && tx.nonce in ItemsOf(pending, tx.from)
      requires tx.size > 0 && tx.nonce <= MAX_UINT64 && tx.Cost() <= BalanceAt(head, tx.from) && tx.gas <= head.maxGas
      modifies `pending, `all, `slots, priced
      ensures Partition(View(), {}) && Priced({}) && Ordered(mode)
      ensures old(NoneEmpty(pending)) ==> NoneEmpty(pending)
      ensures PlacedAs(old(View()), View(), tx, config.priceBump, verdict) && (verdict.Pooled? ==> Enters(old(all), all, tx))
    {
      ReplaceFits(View(), mode, nonces, head, tx);
      var inserted := ReplacePending(tx);
      return if inserted then Pooled(true) else ReplaceUnderpriced;
    }

    /** Puts a valid transaction into its place, in the pending list or the queue. */
    method Place(tx: Tx, local: bool, ghost mode: Mode) returns (verdict: Verdict)
      requires Partition(View(), {}) && Priced({}) && Ordered(mode) && tx !in all
      requires tx.size > 0 && tx.nonce <= MAX_UINT64 && tx.Cost() <= BalanceAt(head, tx.from) && tx.gas <= head.maxGas
      modifies `pending, `queue, `all, `slots, `locals, priced
      ensures Partition(View(), {}) && Priced({}) && Ordered(mode)
      ensures old(NoneEmpty(pending)) ==> NoneEmpty(pending)
      ensures old(NoneEmpty(queue)) ==> NoneEmpty(queue)
      ensures PlacedAs(old(View()), View(), tx, config.priceBump, verdict) && (verdict.Pooled? ==> Enters(old(all), all, tx))
      ensures locals == if Marks(old(pending), tx, local, verdict) then old(locals) + {tx.from} else old(locals)
    {
      if tx.from in pending && tx.nonce in pending[tx.from].items {
        verdict := PlacePending(tx, mode);
      } else {
        verdict := PlaceQueued(tx, local);
      }
    }

    /**
     * Adds a transaction to the pool: in the place of a pending one with its nonce, or else to the
     * queue. No local transaction is lost but one it replaces. `room` are the books once there is room
     * for it, `gone` what was dropped for that; a pool that is not full has room as it is.
     */
    method Add(tx: Tx, local: bool, checked: bool, ghost mode: Mode)
      returns (verdict: Verdict, ghost room: Books, ghost gone: seq<Tx>)
      requires Partition(View(), {}) && Priced({}) && Ordered(mode) && tx.size > 0 && tx.nonce <= MAX_UINT64
      modifies `pending, `queue, `all, `slots, `nonces, `locals, priced
      ensures Partition(View(), {}) && Priced({}) && Ordered(mode)
      ensures old(NoneEmpty(pending)) ==> NoneEmpty(pending)
      ensures old(NoneEmpty(queue)) ==> NoneEmpty(queue)
      ensures verdict.Known? <==> tx in old(all)
      ensures verdict.Invalid? <==> tx !in old(all) && !old(Validates(tx, local, checked))
      ensures verdict.TooCheap? <==>
        && tx !in old(all) && old(Validates(tx, local, checked)) && old(Full())
        && !local && tx.from !in old(locals) && NoDearer(tx, old(all))
      ensures if verdict.Pooled? || verdict.ReplaceUnderpriced?
              then PlacedAs(room, View(), tx, config.priceBump, verdict) && (verdict.Pooled? ==> Enters(room.all, all, tx))
              else View() == room == old(View())
      ensures !old(Full()) ==> room == old(View())
      ensures old(Full()) && (verdict.Pooled? || verdict.ReplaceUnderpriced?) ==>
        Cleared(gone, old(Excess(tx)), old(View()), room, old(priced.items), old(locals))
      ensures forall t :: t in old(all) && t !in all ==>
        t.from !in old(locals) || (verdict.Pooled? && t.from == tx.from && t.nonce == tx.nonce)
      ensures locals == if Marks(room.pending, tx, local, verdict) then old(locals) + {tx.from} else old(locals)
    {
      room, gone := View(), [];
      if tx in all {
        return Known, room, gone;
      }
      if !Validates(tx, local, checked) {
        return Invalid, room, gone;
      }
      var ok;
      ok, gone := MakeRoom(tx, local, mode);
      if !ok {
        return TooCheap, room, gone;
      }
      room := View();
      verdict := Place(tx, local, mode);
    }

    // ----- Promotion -----

    /** Takes transactions in hand off the table. */
    method ForgetAll(txs: set<Tx>, ghost hand: set<Tx>)
      requires Partition(View(), hand) && txs <= hand
      modifies `all, `slots
      ensures Partition(View(), hand - txs) && all == old(all) - txs
    {
      var todo := txs;
      ghost var rest := hand;
      while todo != {}
        invariant todo <= rest && Partition(View(), rest) && rest - todo == hand - txs && all - todo == old(all) - txs
        decreases |todo|
      {
        var tx :| tx in todo;
        ForgetHand(View(), rest, tx);
        LookupRemove(tx);
        StepOut(rest, todo, tx);
        StepOut(all + {tx}, todo, tx);
        todo, rest := todo - {tx}, rest - {tx};
      }
      assert rest - {} == rest && all - {} == all;
    }

    /** Replaces an account's queued list by a part of it and takes the rest off the table. */
    method ShrinkQueue(a: Address, list: List)
      requires Partition(View(), {}) && Priced({}) && a in queue && ListOk(list, a, false)
      requires PartOf(list.items, queue[a].items)
      modifies `queue, `all, `slots
      ensures Partition(View(), {}) && Priced({}) && a in queue && queue[a] == list && queue - {a} == old(queue) - {a}
      ensures all == old(all) - Taken(old(queue)[a].items, list.items)
    {
      var taken := Taken(queue[a].items, list.items);
      TakeQueued(View(), {}, a, list);
      assert {} + taken == taken;
      OneChanged(queue, a, list);
      queue := queue[a := list];
      assert taken - taken == {};
      ForgetAll(taken, taken);
    }

    /** Makes a transaction in hand pending: its nonce is free, so it is taken. */
    method PromoteNext(tx: Tx, ghost hand: set<Tx>, ghost mode: Mode)
      requires Partition(View(), hand) && Free(View(), hand) && Sized(hand) && tx in hand
      requires Priced({}) && Ordered(mode) && NoneEmpty(pending)
      requires !mode.phase.Unsettled? ==> IsNext(tx, nonces, head)
      modifies `pending, `all, `slots, `nonces, priced
      ensures Partition(View(), hand - {tx}) && Free(View(), hand - {tx})
      ensures Priced({}) && Ordered(mode) && NoneEmpty(pending)
      ensures all == old(all) && nonces == old(nonces)[tx.from := tx.nonce + 1] && pending == Inserted(old(pending), tx, true)
    {
      PromoteFree(View(), hand, tx, config.priceBump);
      InsertNoneEmpty(pending, tx, true);
      ExtendedInOrder(mode, View(), hand, nonces, head, tx);
      var inserted := PromoteTx(tx, hand);
    }

    /** Transactions in hand with consecutive nonces, of which the first is next for its account. */
    ghost predicate Runnable(txs: seq<Tx>, mode: Mode)
      reads this, priced
    {
      && Partition(View(), Elements(txs)) && Free(View(), Elements(txs)) && RunOk(txs, mode, nonces, head)
      && Priced({}) && Ordered(mode) && NoneEmpty(pending)
    }

    method PromoteFirst(txs: seq<Tx>, ghost mode: Mode)
      requires |txs| > 0 && Runnable(txs, mode)
      modifies `pending, `all, `slots, `nonces, priced
      ensures Runnable(txs[1..], mode) && all == old(all)
      ensures pending == Inserted(old(pending), txs[0], true) && nonces == old(nonces)[txs[0].from := txs[0].nonce + 1]
    {
      NextReady(txs, mode, nonces, head);
      PromoteNext(txs[0], Elements(txs), mode);
    }

    /** Makes transactions in hand pending. */
    method PromoteRun(txs: seq<Tx>, ghost mode: Mode)
      requires Runnable(txs, mode)
      modifies `pending, `all, `slots, `nonces, priced
      ensures Partition(View(), {}) && Priced({}) && Ordered(mode) && NoneEmpty(pending) && all == old(all)
      ensures pending == InsertedAll(old(pending), txs) && nonces == NoncesPast(old(nonces), txs)
    {
      var rest := txs;
      while rest != []
        invariant Runnable(rest, mode) && all == old(all)
        invariant InsertedAll(pending, rest) == InsertedAll(old(pending), txs)
        invariant NoncesPast(nonces, rest) == NoncesPast(old(nonces), txs)
        decreases |rest|
      {
        PromoteFirst(rest, mode);
        rest := rest[1..];
      }
      assert Elements([]) == {};
    }

    /** Takes what is ready of an account out of its queue. */
    method TakeReady(a: Address, ghost mode: Mode) returns (readies: seq<Tx>)
      requires Partition(View(), {}) && Priced({}) && Ordered(mode) && a in queue && NoneEmpty(pending)
      requires Executable(queue[a].items, head, a)
      modifies `queue
      ensures Runnable(readies, mode) && a in queue && queue - {a} == old(queue) - {a}
      ensures var end := ReadyEnd(old(queue)[a].items, VirtualNonce(nonces, head, a));
              readies == Flat(Below(old(queue)[a].items, end)) && queue[a].items == From(old(queue)[a].items, end)
    {
      var list := queue[a];
      var end := ReadyEnd(list.items, VirtualNonce(nonces, head, a));
      readies := Flat(Below(list.items, end));
      ReadyFacts(View(), nonces, head, a, end, mode);
      OneChanged(queue, a, list.(items := From(list.items, end)));
      queue := queue[a := list.(items := From(list.items, end))];
    }

    /**
     * Makes the ready transactions of an account pending, in the order of their nonces. Every one of
     * them is taken, so the table stays as it is.
     */
    method PromoteReady(a: Address, ghost mode: Mode)
      requires Partition(View(), {}) && Priced({}) && Ordered(mode) && a in queue && NoneEmpty(pending)
      requires Executable(queue[a].items, head, a)
      modifies `pending, `queue, `all, `slots, `nonces, priced
      ensures Partition(View(), {}) && Priced({}) && Ordered(mode) && all == old(all) && NoneEmpty(pending)
      ensures a in queue && queue - {a} == old(queue) - {a}
      ensures pending - {a} == old(pending) - {a} && nonces - {a} == old(nonces) - {a}
      ensures queue[a].items == From(old(queue)[a].items, ReadyEnd(old(queue)[a].items, VirtualNonce(old(nonces), head, a)))
      ensures ReadyMade(old(queue)[a].items, a, old(pending), old(nonces), pending, nonces, head)
    {
      ReadyInserted(queue[a].items, a, pending, nonces, head);
      var readies := TakeReady(a, mode);
      PromoteRun(readies, mode);
    }

    /** Drops an account's queued transactions that are too old or cannot be paid for. */
    method DropStale(a: Address) returns (count: nat)
      requires Partition(View(), {}) && Priced({}) && a in queue
      modifies `queue, `all, `slots
      ensures Partition(View(), {}) && Priced({}) && all <= old(all) && a in queue && queue - {a} == old(queue) - {a}
      ensures queue[a].items == Eligible(old(queue)[a], head, a) && Executable(queue[a].items, head, a)
      ensures count == |Taken(old(queue)[a].items, queue[a].items)|
    {
      var list := queue[a];
      var forwarded := list.(items := From(list.items, NonceAt(head, a)));
      FilteredQueue(list, a, NonceAt(head, a), BalanceAt(head, a), head.maxGas);
      ShrinkQueue(a, forwarded);
      var filtered := Filtered(forwarded, BalanceAt(head, a), head.maxGas);
      ShrinkQueue(a, filtered);
      count := |Taken(list.items, filtered.items)|;
    }

    /** Drops the highest nonces of a remote account's queue that is too long. */
    method CapAccount(a: Address) returns (count: nat)
      requires Partition(View(), {}) && Priced({}) && a in queue
      modifies `queue, `all, `slots
      ensures Partition(View(), {}) && Priced({}) && all <= old(all) && a in queue && queue - {a} == old(queue) - {a}
      ensures queue[a].items == Capped(old(queue)[a].items, a in locals, config.accountQueue)
      ensures count == |Taken(old(queue)[a].items, queue[a].items)|
    {
      assert Taken(queue[a].items, queue[a].items) == {};
      count := 0;
      if a !in locals {
        var list := queue[a];
        var capped := list.(items := Lowest(list.items, config.accountQueue));
        CapQueue(list, a, config.accountQueue);
        ShrinkQueue(a, capped);
        count := |Taken(list.items, capped.items)|;
      }
    }

    /** Deletes an account's queue that has become empty. */
    method CloseQueue(a: Address)
      requires Partition(View(), {}) && a in queue && NoneEmpty(queue - {a})
      modifies `queue
      ensures Partition(View(), {}) && NoneEmpty(queue) && queue - {a} == old(queue) - {a}
      ensures ItemsOf(queue, a) == ItemsOf(old(queue), a)
    {
      DropEmpty(View(), {}, a);
      ClosedLists(queue, a);
      if queue[a].items == map[] {
        queue := queue - {a};
      }
    }

    /** Cuts an account's queue down to its limit, or deletes it if it is empty. */
    method CloseUp(a: Address, stale: nat)
      requires Partition(View(), {}) && Priced({}) && a in queue && NoneEmpty(queue - {a})
      modifies `queue, `all, `slots, priced
      ensures Partition(View(), {}) && Priced({}) && all <= old(all) && NoneEmpty(queue) && queue - {a} == old(queue) - {a}
      ensures ItemsOf(queue, a) == Capped(old(queue)[a].items, a in locals, config.accountQueue)
    {
      var capped := CapAccount(a);
      NoteRemoved({}, stale + capped);
      CloseQueue(a);
    }

    /**
     * Drops an account's queued transactions that are too old, too costly or too many, and makes
     * those that follow on from its pending ones pending.
     */
    method PromoteAccount(a: Address, ghost mode: Mode)
      requires Partition(View(), {}) && Priced({}) && Ordered(mode) && NoneEmpty(pending) && NoneEmpty(queue)
      modifies `pending, `queue, `all, `slots, `nonces, priced
      ensures Partition(View(), {}) && Priced({}) && Ordered(mode) && NoneEmpty(pending) && NoneEmpty(queue)
      ensures all <= old(all) && pending - {a} == old(pending) - {a} && queue - {a} == old(queue) - {a}
      ensures nonces - {a} == old(nonces) - {a}
      ensures PromotedAs(old(View()), View(), old(nonces), nonces, head, locals, config.accountQueue, a)
    {
      if a in queue {
        PromoteQueued(a, mode);
      }
    }

    method PromoteQueued(a: Address, ghost mode: Mode)
      requires Partition(View(), {}) && Priced({}) && Ordered(mode) && NoneEmpty(pending) && NoneEmpty(queue) && a in queue
      modifies `pending, `queue, `all, `slots, `nonces, priced
      ensures Partition(View(), {}) && Priced({}) && Ordered(mode) && NoneEmpty(pending) && NoneEmpty(queue)
      ensures all <= old(all) && pending - {a} == old(pending) - {a} && queue - {a} == old(queue) - {a}
      ensures nonces - {a} == old(nonces) - {a}
      ensures PromotedAs(old(View()), View(), old(nonces), nonces, head, locals, config.accountQueue, a)
    {
      assert NoneEmpty(queue - {a});
      var stale := DropStale(a);
      PromoteReady(a, mode);
      CloseUp(a, stale);
    }

    /** Promotes some accounts; the others are as they were. */
    method PromoteExecutables(accounts: set<Address>, ghost mode: Mode)
      requires Sound(mode)
      modifies `pending, `queue, `all, `slots, `nonces, priced
      ensures Sound(mode) && all <= old(all)
      ensures PromotedOnly(accounts, old(View()), View(), old(nonces), nonces, head, locals, config.accountQueue)
    {
      var todo := accounts;
      while todo != {}
        invariant Sound(mode) && all <= old(all) && todo <= accounts
        invariant PromotedOnly(accounts - todo, old(View()), View(), old(nonces), nonces, head, locals, config.accountQueue)
        decreases |todo|
      {
        var a :| a in todo;
        ghost var before, nonces1 := View(), nonces;
        PromoteAccount(a, mode);
        PromotedStep(accounts - todo, old(View()), before, View(), old(nonces), nonces1, nonces, head, locals, config.accountQueue, a);
        assert accounts - todo + {a} == accounts - (todo - {a});
        todo := todo - {a};
      }
      assert accounts - {} == accounts;
    }

    // ----- Demotion -----

    /** Replaces an account's pending list by a part of it: the rest is in hand. */
    method TakeFrom(a: Address, list: List)
      requires Partition(View(), {}) && a in pending && ListOk(list, a, true) && PartOf(list.items, pending[a].items)
      modifies `pending
      ensures a in pending && pending[a] == list && pending - {a} == old(pending) - {a}
      ensures var taken := Taken(old(pending)[a].items, list.items);
              Partition(View(), taken) && Free(View(), taken) && Sized(taken)
    {
      ghost var taken := Taken(pending[a].items, list.items);
      ghost var before := pending[a];
      TakePending(View(), {}, a, list);
      assert {} + taken == taken;
      OneChanged(pending, a, list);
      pending := pending[a := list];
      TakenSized(View(), taken, before, a, true, list.items);
    }

    /** Replaces an account's pending list by a part of it and takes the rest off the table. */
    method ShrinkPending(a: Address, list: List) returns (count: nat)
      requires Partition(View(), {}) && Priced({}) && a in pending && ListOk(list, a, true) && PartOf(list.items, pending[a].items)
      modifies `pending, `all, `slots
      ensures Partition(View(), {}) && Priced({}) && all <= old(all)
      ensures a in pending && pending[a] == list && pending - {a} == old(pending) - {a}
      ensures count == |Taken(old(pending)[a].items, list.items)|
    {
      var gone := Taken(pending[a].items, list.items);
      TakeFrom(a, list);
      assert gone - gone == {};
      ForgetAll(gone, gone);
      count := |gone|;
    }

    /** Drops an account's pending transactions that are too old. */
    method DropOld(a: Address) returns (count: nat)
      requires Partition(View(), {}) && Priced({}) && a in pending
      modifies `pending, `all, `slots
      ensures Partition(View(), {}) && Priced({}) && all <= old(all)
      ensures a in pending && pending - {a} == old(pending) - {a}
      ensures pending[a] == old(pending)[a].(items := From(old(pending)[a].items, NonceAt(head, a)))
    {
      var list := pending[a].(items := From(pending[a].items, NonceAt(head, a)));
      PartListOk(pending[a], a, list.items, true);
      count := ShrinkPending(a, list);
    }

    /**
     * Drops an account's pending transactions that cannot be paid for; those after them are in hand.
     * `olds` have been dropped before.
     */
    method TakeCostly(a: Address, olds: nat)
      requires Partition(View(), {}) && Priced({}) && a in pending
      modifies `pending, `all, `slots, priced
      ensures a in pending && pending - {a} == old(pending) - {a} && Priced({}) && all <= old(all)
      ensures pending[a] == Filtered(old(pending)[a], BalanceAt(head, a), head.maxGas)
      ensures var hand := Invalidated(old(pending)[a], BalanceAt(head, a), head.maxGas).Values;
              Partition(View(), hand) && Free(View(), hand) && Sized(hand)
    {
      var list := pending[a];
      var balance, maxGas := BalanceAt(head, a), head.maxGas;
      FilteredPending(list, a, balance, maxGas);
      TakeFrom(a, Filtered(list, balance, maxGas));
      var drops := Unaffordable(list, balance, maxGas).Values;
      ghost var before, rest := View(), Invalidated(list, balance, maxGas).Values;
      ForgetAll(drops, drops + rest);
      FewerFree(before, View(), drops + rest, rest);
      assert (drops + rest) - drops == rest;
      NoteRemoved({}, olds + |drops|);
    }

    /** Drops an account's pending transactions that cannot be paid for, and postpones those after them. */
    method DropCostly(a: Address, olds: nat)
      requires Partition(View(), {}) && Priced({}) && a in pending && NoneEmpty(queue)
      modifies `pending, `queue, `all, `slots, priced
      ensures Partition(View(), {}) && Priced({}) && all <= old(all) && NoneEmpty(queue)
      ensures a in pending && pending - {a} == old(pending) - {a}
      ensures pending[a] == Filtered(old(pending)[a], BalanceAt(head, a), head.maxGas)
      ensures ItemsOf(queue, a) == ItemsOf(old(queue), a) + Invalidated(old(pending)[a], BalanceAt(head, a), head.maxGas)
      ensures queue - {a} == old(queue) - {a}
    {
      var list := pending[a];
      InvalidatedOk(list, a, BalanceAt(head, a), head.maxGas);
      TakeCostly(a, olds);
      Postpone(a, Invalidated(list, BalanceAt(head, a), head.maxGas), {});
    }

    /** Drops an account's pending transactions that are too old or cannot be paid for, and postpones those after the latter. */
    method DropDead(a: Address)
      requires Partition(View(), {}) && Priced({}) && a in pending && NoneEmpty(queue)
      modifies `pending, `queue, `all, `slots, priced
      ensures Partition(View(), {}) && Priced({}) && all <= old(all) && NoneEmpty(queue)
      ensures a in pending && pending - {a} == old(pending) - {a} && queue - {a} == old(queue) - {a}
      ensures pending[a].items == Eligible(old(pending)[a], head, a)
      ensures ItemsOf(queue, a) == ItemsOf(old(queue), a) + DemotedBack(old(pending)[a], head, a)
    {
      var olds := DropOld(a);
      DropCostly(a, olds);
    }

    /** Postpones all of an account's pending transactions if the one at the state nonce is missing. */
    method CloseGap(a: Address)
      requires Partition(View(), {}) && Priced({}) && a in pending && NoneEmpty(queue)
      modifies `pending, `queue, `all, `slots, priced
      ensures Partition(View(), {}) && Priced({}) && all == old(all) && NoneEmpty(queue)
      ensures a in pending && pending - {a} == old(pending) - {a} && queue - {a} == old(queue) - {a}
      ensures if NonceAt(head, a) in old(pending)[a].items
              then pending[a].items == old(pending)[a].items && ItemsOf(queue, a) == ItemsOf(old(queue), a)
              else pending[a].items == map[] && ItemsOf(queue, a) == ItemsOf(old(queue), a) + old(pending)[a].items
    {
      var items := pending[a].items;
      if |items| > 0 && NonceAt(head, a) !in items {
        PostponeAccount(a);
      }
    }

    /** Postpones all of an account's pending transactions. */
    method PostponeAccount(a: Address)
      requires Partition(View(), {}) && Priced({}) && a in pending && NoneEmpty(queue)
      modifies `pending, `queue, `all, `slots, priced
      ensures Partition(View(), {}) && Priced({}) && all == old(all) && NoneEmpty(queue)
      ensures a in pending && pending - {a} == old(pending) - {a} && pending[a].items == map[]
      ensures queue - {a} == old(queue) - {a} && ItemsOf(queue, a) == ItemsOf(old(queue), a) + old(pending)[a].items
    {
      var items := pending[a].items;
      PartListOk(pending[a], a, map[], true);
      TakeFrom(a, pending[a].(items := map[]));
      TakenAll(items);
      Postpone(a, items, {});
    }

    /** Deletes an account's pending list that has become empty. */
    method ClosePending(a: Address)
      requires Partition(View(), {}) && a in pending && NoneEmpty(pending - {a})
      modifies `pending
      ensures Partition(View(), {}) && NoneEmpty(pending) && pending - {a} == old(pending) - {a}
      ensures ItemsOf(pending, a) == ItemsOf(old(pending), a)
    {
      DropEmpty(View(), {}, a);
      ClosedLists(pending, a);
      if pending[a].items == map[] {
        pending := pending - {a};
      }
    }

    /** Postpones all of an account's pending transactions if there is a gap in front, and deletes an empty list. */
    method CloseDown(a: Address)
      requires Partition(View(), {}) && Priced({}) && a in pending && NoneEmpty(pending - {a}) && NoneEmpty(queue)
      modifies `pending, `queue, `all, `slots, priced
      ensures Partition(View(), {}) && Priced({}) && all == old(all) && NoneEmpty(pending) && NoneEmpty(queue)
      ensures pending - {a} == old(pending) - {a} && queue - {a} == old(queue) - {a}
      ensures if NonceAt(head, a) in old(pending)[a].items
              then ItemsOf(pending, a) == old(pending)[a].items && ItemsOf(queue, a) == ItemsOf(old(queue), a)
              else ItemsOf(pending, a) == map[] && ItemsOf(queue, a) == ItemsOf(old(queue), a) + old(pending)[a].items
    {
      CloseGap(a);
      ClosePending(a);
    }

    /**
     * Drops an account's pending transactions that are too old or cannot be paid for, and puts back
     * into the queue those that thereby, or for a gap in front, cannot be executed.
     */
    method DemoteAccount(a: Address)
      requires Partition(View(), {}) && Priced({}) && a in pending && NoneEmpty(pending) && NoneEmpty(queue)
      modifies `pending, `queue, `all, `slots, priced
      ensures Partition(View(), {}) && Priced({}) && all <= old(all) && NoneEmpty(pending) && NoneEmpty(queue)
      ensures pending - {a} == old(pending) - {a} && queue - {a} == old(queue) - {a}
      ensures DemotedAs(head, old(pending), old(queue), pending, queue, a)
    {
      assert NoneEmpty(pending - {a});
      DropDead(a);
      CloseDown(a);
    }

    /** In a reset, the accounts in `todo` are still to be demoted. */
    ghost predicate Demoting(todo: set<Address>, mode: Mode)
      reads this
    {
      mode.phase.Resetting? ==> PartlyDemoted(todo, mode, pending, nonces, head)
    }

    method DemoteNext(a: Address, ghost todo: set<Address>, ghost mode: Mode, ghost pending0: Lists, ghost queue0: Lists)
      requires Partition(View(), {}) && Priced({}) && NoneEmpty(pending) && NoneEmpty(queue) && a in todo
      requires Demoting(todo, mode) && DemotedBut(todo, head, pending0, queue0, pending, queue)
      modifies `pending, `queue, `all, `slots, priced
      ensures Partition(View(), {}) && Priced({}) && all <= old(all) && NoneEmpty(pending) && NoneEmpty(queue)
      ensures Demoting(todo - {a}, mode) && DemotedBut(todo - {a}, head, pending0, queue0, pending, queue)
    {
      DemotedNext(todo, head, pending0, queue0, pending, queue, a);
      if mode.phase.Resetting? {
        NoGap(todo, mode, pending, nonces, head, a);
      }
      DemoteAccount(a);
      if mode.phase.Resetting? {
        DemoteOne(todo, mode, old(pending), pending, nonces, head, a);
      }
      DemotedStep(todo, head, pending0, queue0, old(pending), old(queue), pending, queue, a);
    }

    /**
     * Demotes every account. After the state has moved on to nonces no lower, what stays pending runs
     * from the state nonce.
     */
    method DemoteUnexecutables(ghost mode: Mode)
      requires Sound(mode) && (mode.phase.Unsettled? || mode.phase.Resetting?)
      modifies `pending, `queue, `all, `slots, priced
      ensures Sound(Demotes(mode, old(pending), head)) && all <= old(all)
      ensures forall a: Address :: DemotedAs(head, old(pending), old(queue), pending, queue, a)
    {
      var todo := pending.Keys;
      ghost var noted := mode;
      if mode.phase.Resetting? {
        noted := Noted(mode, pending, FallenFrom(mode.before, pending, head));
        NotedInOrder(mode, pending, nonces, head);
        DemotionStarts(noted, pending, nonces, head);
      }
      while todo != {}
        invariant Partition(View(), {}) && Priced({}) && all <= old(all) && NoneEmpty(pending) && NoneEmpty(queue)
        invariant Demoting(todo, noted) && DemotedBut(todo, head, old(pending), old(queue), pending, queue)
        decreases |todo|
      {
        var a :| a in todo;
        DemoteNext(a, todo, noted, old(pending), old(queue));
        todo := todo - {a};
      }
      if mode.phase.Resetting? {
        DemotionEnds(noted, pending, nonces, head);
      }
    }

    // ----- Limits -----

    /** Caps an account's pending list at one less, and takes what falls off it off the table. */
    method CapLast(a: Address) returns (last: Tx)
      requires Partition(View(), {}) && Priced({}) && a in pending && |pending[a].items| > 1
      modifies `pending, `all, `slots, priced
      ensures Partition(View(), {}) && Priced({}) && all <= old(all)
      ensures a in pending && pending - {a} == old(pending) - {a} && last.nonce in old(pending)[a].items
      ensures pending[a].items == Below(old(pending)[a].items, last.nonce)
      ensures |pending[a].items| == |old(pending)[a].items| - 1
    {
      var list := pending[a];
      var k := |list.items| - 1;
      LastOnly(list.items, k);
      last := Flat(list.items)[k];
      var capped := list.(items := Lowest(list.items, k));
      PartListOk(list, a, capped.items, true);
      var count := ShrinkPending(a, capped);
      NoteRemoved({}, count);
    }

    /** Caps an account's pending list at one less, and lowers its virtual nonce. */
    method CutLast(a: Address, ghost mode: Mode)
      requires Partition(View(), {}) && Priced({}) && Ordered(mode) && a in pending && |pending[a].items| > 1
      modifies `pending, `all, `slots, `nonces, priced
      ensures Partition(View(), {}) && Priced({}) && Ordered(mode) && all <= old(all)
      ensures a in pending && pending - {a} == old(pending) - {a} && FrontOf(pending[a].items, old(pending)[a].items)
      ensures |pending[a].items| == |old(pending)[a].items| - 1
    {
      var last := CapLast(a);
      SetNonceIfLower(a, last.nonce);
      CutInOrder(mode, old(pending), old(nonces), pending, nonces, head, a, last.nonce);
    }

    /** Drops the last pending transaction of an account that has more than one. */
    method DropLast(a: Address, ghost mode: Mode)
      requires Sound(mode) && a in pending && |pending[a].items| > 1
      modifies `pending, `all, `slots, `nonces, priced
      ensures Sound(mode) && all <= old(all)
      ensures LengthsOf(pending) == LengthsOf(old(pending))[a := |old(pending)[a].items| - 1]
      ensures Within(pending, old(pending))
    {
      CutLast(a, mode);
      OneShorter(old(pending), pending, a);
    }

    /** The first `i` of a list of drops have been made. */
    ghost predicate DroppedUpTo(orig: Lengths, drops: seq<Address>, i: nat)
      requires i <= |drops|
      reads this
    {
      CanDrop(orig, drops[..i]) && LengthsOf(pending) == AfterDrops(orig, drops[..i])
    }

    method DropNext(drops: seq<Address>, i: nat, ghost orig: Lengths, ghost mode: Mode)
      requires Sound(mode) && CanDrop(orig, drops) && i < |drops| && DroppedUpTo(orig, drops, i)
      modifies `pending, `all, `slots, `nonces, priced
      ensures Sound(mode) && all <= old(all) && DroppedUpTo(orig, drops, i + 1) && Within(pending, old(pending))
    {
      DropsBefore(orig, drops, i);
      assert drops[i] in LengthsOf(pending);
      DropLast(drops[i], mode);
    }

    /** Drops transactions one by one from the accounts listed. */
    method DropEach(drops: seq<Address>, ghost mode: Mode)
      requires Sound(mode) && CanDrop(LengthsOf(pending), drops)
      modifies `pending, `all, `slots, `nonces, priced
      ensures Sound(mode) && all <= old(all) && LengthsOf(pending) == AfterDrops(LengthsOf(old(pending)), drops)
      ensures Within(pending, old(pending))
    {
      ghost var orig := LengthsOf(pending);
      for i := 0 to |drops|
        invariant Sound(mode) && all <= old(all) && DroppedUpTo(orig, drops, i) && Within(pending, old(pending))
      {
        ghost var before := pending;
        DropNext(drops, i, orig, mode);
        WithinBoth(pending, before, old(pending));
      }
      assert drops[..|drops|] == drops;
    }

    /**
     * Brings the pending transactions down to the global limit. Local accounts keep theirs and every
     * other keeps the lesser of what it had and a common level, never below what each may keep. If
     * anything is dropped, no higher level would have met the limit. In the end the limit is met, or no
     * account that is not local has more than it may keep.
     */
    method TruncatePending(ghost mode: Mode) returns (ghost level: nat)
      requires Sound(mode) && config.accountSlots > 0
      modifies `pending, `all, `slots, `nonces, priced
      ensures Sound(mode) && all <= old(all) && level >= config.accountSlots
      ensures LengthsOf(pending) == Leveled(LengthsOf(old(pending)), locals, level)
      ensures LengthsOf(pending) != LengthsOf(old(pending)) ==>
        forall higher :: higher > level ==> Total(Leveled(LengthsOf(old(pending)), locals, higher)) > config.globalSlots
      ensures PendingWithin(config, pending, locals)
      ensures Within(pending, old(pending)) && forall a :: a in locals ==> ItemsOf(pending, a) == ItemsOf(old(pending), a)
    {
      var count := CountTxs(pending);
      var c;
      c, level := Truncate(LengthsOf(pending), locals, config.accountSlots, config.globalSlots, count);
      DropEach(c.drops, mode);
      LocalsKept(pending, old(pending), locals, level);
    }

    /** Removes a queued transaction. */
    method DropQueued(tx: Tx, ghost mode: Mode)
      requires Sound(mode) && Holds(queue, tx)
      modifies `pending, `queue, `all, `slots, `nonces, priced
      ensures Sound(mode) && all <= old(all) && pending == old(pending) && nonces == old(nonces)
      ensures ItemsOf(queue, tx.from) == old(queue)[tx.from].items - {tx.nonce}
      ensures queue - {tx.from} == old(queue) - {tx.from}
    {
      assert !Holds(pending, tx);
      RemoveTx(tx, true, mode, {});
      assert {} - {tx} == {};
      ReducedItems(old(queue), tx.from, old(queue)[tx.from].items - {tx.nonce});
    }

    /** Removes the queued transactions of an account with the highest nonces, `n` of them. */
    method DropTail(a: Address, n: nat, ghost mode: Mode)
      requires Sound(mode) && a in queue && n <= |queue[a].items|
      modifies `pending, `queue, `all, `slots, `nonces, priced
      ensures Sound(mode) && all <= old(all) && pending == old(pending) && nonces == old(nonces)
      ensures queue - {a} == old(queue) - {a}
      ensures ItemsOf(queue, a) == Lowest(old(queue)[a].items, |old(queue)[a].items| - n)
      ensures |ItemsOf(queue, a)| == |old(queue)[a].items| - n
    {
      var items := queue[a].items;
      LowestAll(items);
      LowestSize(items, |items| - n);
      var txs := Flat(items);
      var i := |txs|;
      while i > |items| - n
        invariant |items| - n <= i <= |txs| && Sound(mode) && all <= old(all)
        invariant pending == old(pending) && nonces == old(nonces) && queue - {a} == old(queue) - {a}
        invariant ItemsOf(queue, a) == Lowest(items, i)
      {
        i := i - 1;
        LowestDrop(items, i + 1);
        QueuedAt(queue, a, txs[i]);
        DropQueued(txs[i], mode);
      }
    }

    /** Drops an account's queued transactions, as many as are too many, and returns how many still are. */
    method DropExcess(a: Address, drop: nat, ghost mode: Mode) returns (left: nat)
      requires Sound(mode) && a in queue && drop > 0
      modifies `pending, `queue, `all, `slots, `nonces, priced
      ensures Sound(mode) && all <= old(all) && pending == old(pending) && nonces == old(nonces)
      ensures queue - {a} == old(queue) - {a} && left <= drop && (left > 0 ==> a !in queue)
      ensures |ItemsOf(queue, a)| == |old(queue)[a].items| - (drop - left)
      ensures FrontOf(ItemsOf(queue, a), old(queue)[a].items)
    {
      var size := |queue[a].items|;
      LowestIsFront(queue[a].items, if size <= drop then 0 else size - drop);
      if size <= drop {
        DropTail(a, size, mode);
        left := drop - size;
      } else {
        DropTail(a, drop, mode);
        left := 0;
      }
    }

    /**
     * Brings the queued transactions down to the global limit, or until only local accounts have any.
     * Which accounts go first depends on their last activity and is left open.
     */
    method TruncateQueue(ghost mode: Mode)
      requires Sound(mode)
      modifies `pending, `queue, `all, `slots, `nonces, priced
      ensures Sound(mode) && all <= old(all) && pending == old(pending) && nonces == old(nonces)
      ensures QueueWithin(config, queue, locals)
      ensures Total(LengthsOf(old(queue))) > config.globalQueue ==> Total(LengthsOf(queue)) >= config.globalQueue
      ensures FrontsOf(queue, old(queue)) && forall a :: a in locals ==> ItemsOf(queue, a) == ItemsOf(old(queue), a)
    {
      var queued := CountTxs(queue);
      if queued <= config.globalQueue {
        return;
      }
      var addresses := set a | a in queue && a !in locals;
      ghost var rest, left := ShedAll(addresses, queued - config.globalQueue, mode);
      Shed(old(queue), queue, locals, rest, left, config.globalQueue);
    }

    /** Goes through the accounts while there are too many transactions. */
    method ShedAll(addresses: set<Address>, drop: nat, ghost mode: Mode) returns (ghost rest: set<Address>, ghost left: nat)
      requires Sound(mode) && Shedding(queue, queue, locals, addresses, drop, config.globalQueue)
      modifies `pending, `queue, `all, `slots, `nonces, priced
      ensures Sound(mode) && all <= old(all) && pending == old(pending) && nonces == old(nonces)
      ensures Shedding(old(queue), queue, locals, rest, left, config.globalQueue) && (left == 0 || rest == {})
    {
      var todo, excess := addresses, drop;
      while excess > 0 && todo != {}
        invariant Sound(mode) && all <= old(all) && pending == old(pending) && nonces == old(nonces)
        invariant Shedding(old(queue), queue, locals, todo, excess, config.globalQueue)
        decreases |todo|
      {
        var a :| a in todo;
        excess := ShedNext(a, excess, todo, old(queue), mode);
        todo := todo - {a};
      }
      rest, left := todo, excess;
    }

    method ShedNext(a: Address, drop: nat, ghost todo: set<Address>, ghost first: Lists, ghost mode: Mode) returns (left: nat)
      requires Sound(mode) && drop > 0 && a in todo && Shedding(first, queue, locals, todo, drop, config.globalQueue)
      modifies `pending, `queue, `all, `slots, `nonces, priced
      ensures Sound(mode) && all <= old(all) && pending == old(pending) && nonces == old(nonces)
      ensures Shedding(first, queue, locals, todo - {a}, left, config.globalQueue)
    {
      left := DropExcess(a, drop, mode);
      ShedOne(first, old(queue), queue, locals, todo, drop, config.globalQueue, a, left);
    }

    // ----- Whole operations -----

    /** What truncation brings about. */
    ghost predicate WithinLimits()
      reads this
    {
      PendingWithin(config, pending, locals) && QueueWithin(config, queue, locals)
    }

    /** Brings the pool within its limits. */
    method KeepLimits(ghost mode: Mode)
      requires Sound(mode) && config.accountSlots > 0
      modifies `pending, `queue, `all, `slots, `nonces, priced
      ensures Sound(mode) && all <= old(all) && WithinLimits()
      ensures Within(pending, old(pending)) && FrontsOf(queue, old(queue))
    {
      ghost var level := TruncatePending(mode);
      TruncateQueue(mode);
    }

    /**
     * Adds transactions in turn and returns the senders of those that replaced nothing; `checked(tx)`
     * stands for a transaction's own checks.
     */
    method AddTxs(txs: seq<Tx>, local: bool, checked: Tx -> bool, ghost mode: Mode)
      returns (verdicts: seq<Verdict>, dirty: set<Address>)
      requires Sound(mode) && WellFormed(txs)
      modifies `pending, `queue, `all, `slots, `nonces, `locals, priced
      ensures Sound(mode) && |verdicts| == |txs| && dirty == NewSenders(txs, verdicts)
    {
      verdicts, dirty := [], {};
      for i := 0 to |txs|
        invariant Sound(mode) && |verdicts| == i && dirty == NewSenders(txs, verdicts)
      {
        var verdict, _, _ := Add(txs[i], local, checked(txs[i]), mode);
        NextSender(txs, verdicts, verdict);
        verdicts := verdicts + [verdict];
        if verdict == Pooled(false) {
          dirty := dirty + {txs[i].from};
        }
      }
    }

    /** Raises the minimum price and removes the remote transactions below it. */
    method SetGasPrice(price: nat, ghost mode: Mode)
      requires Sound(mode)
      modifies `pending, `queue, `all, `slots, `nonces, `gasPrice, priced
      ensures Sound(mode) && gasPrice == price
      ensures forall t :: t in all <==> t in old(all) && (t.from in locals || t.price >= price)
    {
      gasPrice := price;
      assert all - {} == all;
      var drop := priced.Cap(price, locals, all);
      RemoveAll(drop, mode);
    }

    /** Removes a transaction, as when its account has been idle for too long. */
    method Evict(tx: Tx, ghost mode: Mode)
      requires Sound(mode)
      modifies `pending, `queue, `all, `slots, `nonces, priced
      ensures Sound(mode) && all == old(all) - {tx}
    {
      RemoveTx(tx, true, mode, {});
      assert {} - {tx} == {};
    }

    /** What the state's moving on leaves of the order. */
    ghost function After(reset: Reset, mode: Mode): Mode
      reads this
    {
      if mode.phase.Settled? && (reset.MoveTo? ==> Rises(head, reset.head))
      then Mode(Resetting, pending, if reset.MoveTo? then {} else mode.fallen)
      else UNSETTLED
    }

    /** Moves the pool to another head, with fresh virtual nonces, and adds what the chain gave back. */
    method ResetTo(reset: Reset, checked: Tx -> bool, ghost mode: Mode) returns (dirty: set<Address>)
      requires Sound(mode) && (reset.MoveTo? ==> WellFormed(reset.reinject))
      modifies `pending, `queue, `all, `slots, `nonces, `locals, `head, priced
      ensures Sound(old(After(reset, mode))) && head == if reset.MoveTo? then reset.head else old(head)
    {
      ghost var next := After(reset, mode);
      if next.phase.Resetting? {
        if reset.MoveTo? {
          ResetInOrder(mode, pending, nonces, head, reset.head);
        } else {
          SkipInOrder(mode, pending, nonces, head);
        }
      }
      dirty := {};
      if reset.MoveTo? {
        head, nonces := reset.head, map[];
        var verdicts;
        verdicts, dirty := AddTxs(reset.reinject, false, checked, next);
      }
    }

    /** Puts the virtual nonce of every account with pending transactions after its last one. */
    method FinishReset(ghost mode: Mode)
      requires Sound(mode) && (mode.phase.Unsettled? || mode.phase.Demoted?)
      modifies `nonces
      ensures Sound(Finishes(mode))
      ensures (forall a :: a in pending ==> PastLast(pending, nonces, a)) && nonces - pending.Keys == old(nonces) - pending.Keys
    {
      var todo := pending.Keys;
      if mode.phase.Demoted? {
        FinishStarts(mode, pending, nonces, head);
      }
      while todo != {}
        invariant todo <= pending.Keys && (mode.phase.Demoted? ==> PartlyFinished(todo, mode, pending, nonces, head))
        invariant PastLastBut(todo, pending, old(nonces), nonces)
        decreases |todo|
      {
        var a :| a in todo;
        var last := LastNonce(pending[a].items);
        if mode.phase.Demoted? {
          FinishOne(todo, mode, pending, nonces, head, a, last);
        }
        PastLastStep(todo, pending, old(nonces), nonces, a, last);
        nonces := nonces[a := last + 1];
        todo := todo - {a};
      }
      if mode.phase.Demoted? {
        FinishEnds(mode, pending, nonces, head);
      }
    }

    /**
     * A background run without a reset: promotes the accounts asked for and brings the pool within its
     * limits; `mid` and `midNonces` are in between.
     */
    method RunPromotion(dirty: set<Address>, ghost mode: Mode) returns (ghost mid: Books, ghost midNonces: map<Address, nat>)
      requires Sound(mode) && config.accountSlots > 0
      modifies `pending, `queue, `all, `slots, `nonces, priced
      ensures Sound(mode) && all <= old(all) && WithinLimits()
      ensures PromotedOnly(dirty, old(View()), mid, old(nonces), midNonces, head, locals, config.accountQueue)
      ensures Within(pending, mid.pending) && FrontsOf(queue, mid.queue)
    {
      PromoteExecutables(dirty, mode);
      mid, midNonces := View(), nonces;
      KeepLimits(mode);
    }

    /** Promotes some accounts and then demotes what the state rules out; `mid` and `midNonces` are in between. */
    method Rebuild(accounts: set<Address>, ghost mode: Mode) returns (ghost mid: Books, ghost midNonces: map<Address, nat>)
      requires Sound(mode) && (mode.phase.Unsettled? || mode.phase.Resetting?)
      modifies `pending, `queue, `all, `slots, `nonces, priced
      ensures Sound(Demotes(mode, mid.pending, head)) && nonces == midNonces
      ensures PromotedOnly(accounts, old(View()), mid, old(nonces), midNonces, head, locals, config.accountQueue)
      ensures forall a: Address :: DemotedAs(head, mid.pending, mid.queue, pending, queue, a)
    {
      PromoteExecutables(accounts, mode);
      mid, midNonces := View(), nonces;
      DemoteUnexecutables(mode);
    }

    /** Brings the pool within its limits and sets the virtual nonces. */
    method Settle(ghost mode: Mode)
      requires Sound(mode) && (mode.phase.Unsettled? || mode.phase.Demoted?) && config.accountSlots > 0
      modifies `pending, `queue, `all, `slots, `nonces, priced
      ensures Sound(Finishes(mode)) && WithinLimits()
      ensures forall a :: a in pending ==> PastLast(pending, nonces, a)
    {
      KeepLimits(mode);
      FinishReset(mode);
    }

    /**
     * A reset: in a background run everything queued is promoted, after a fork only the accounts
     * whose transactions came back; what the new state rules out is demoted. `mid` is what is pending
     * in between: the virtual nonce of an account is below its state nonce afterwards, in a pool in which
     * state nonces never fall, if and only if a transaction below that was pending before and is not in
     * `mid`.
     */
    method RunReset(reset: Reset, forked: bool, checked: Tx -> bool, ghost mode: Mode) returns (ghost next: Mode, ghost mid: Lists)
      requires Sound(mode) && config.accountSlots > 0 && (reset.MoveTo? ==> WellFormed(reset.reinject))
      modifies `pending, `queue, `all, `slots, `nonces, `locals, `head, priced
      ensures Sound(next) && next == Finishes(Demotes(old(After(reset, mode)), mid, head)) && WithinLimits()
      ensures forall a :: a in pending ==> PastLast(pending, nonces, a)
      ensures head == if reset.MoveTo? then reset.head else old(head)
    {
      ghost var during := After(reset, mode);
      var accounts := ResetTo(reset, checked, mode);
      if !forked {
        accounts := queue.Keys;
      }
      ghost var books, _ := Rebuild(accounts, during);
      mid := books.pending;
      Settle(Demotes(during, mid, head));
      next := Finishes(Demotes(during, mid, head));
    }

    /**
     * Performs one operation. As long as state nonces do not fall, only a reset changes which accounts
     * have a virtual nonce below their state nonce; `mid` is what is pending before it demotes.
     */
    method Perform(op: Operation, checked: Tx -> bool, ghost mode: Mode) returns (ghost next: Mode, ghost mid: Lists)
      requires Sound(mode) && AtRest(mode) && config.accountSlots > 0 && OperationOk(op)
      modifies `pending, `queue, `all, `slots, `nonces, `locals, `gasPrice, `head, priced
      ensures Sound(next) && AtRest(next) && head == HeadAfter(op, old(head))
      ensures next.phase.Settled? <==> mode.phase.Settled? && Rises(old(head), HeadAfter(op, old(head)))
      ensures next.phase.Settled? ==>
        next.fallen == if Moves(op) then FallenFrom(old(pending), mid, head) else mode.fallen + FallenFrom(old(pending), mid, head)
      ensures !Resets(op) ==> mid == old(pending)
    {
      next, mid := mode, pending;
      NoneFallen(pending, head);
      match op
      case AddAll(txs, local) => var _, _ := AddTxs(txs, local, checked, mode);
      case Fork(newHead, rollback) => next, mid := RunReset(MoveTo(newHead, rollback), true, checked, mode);
      case Reorg(reset, dirty) =>
        if reset.Some? {
          next, mid := RunReset(reset.value, false, checked, mode);
        } else {
          var _, _ := RunPromotion(dirty, mode);
        }
      case RaisePrice(price) => SetGasPrice(price, mode);
      case EvictOne(tx) => Evict(tx, mode);
    }

    /**
     * Any sequence of operations. The table is always the disjoint union of the pending and the
     * queued transactions, with its slots counted; no account has a nonce in both lists; every
     * transaction is in the price index. If no state nonce ever falls, an account's pending nonces are
     * exactly those from its state nonce up to its virtual nonce.
     */
    method Run(ops: seq<Operation>, checked: Tx -> bool)
      requires Sound(Mode(Settled, map[], {})) && config.accountSlots > 0 && forall i :: 0 <= i < |ops| ==> OperationOk(ops[i])
      modifies `pending, `queue, `all, `slots, `nonces, `locals, `gasPrice, `head, priced
      ensures Sound(UNSETTLED)
      ensures forall tx :: tx in all <==> Holds(pending, tx) || Holds(queue, tx)
      ensures forall a, n :: n in ItemsOf(pending, a) ==> n !in ItemsOf(queue, a)
      ensures slots == SlotSum(all) && forall tx :: tx in all ==> tx in priced.items
      ensures NeverFalls(ops, old(head)) ==> forall a: Address, n: nat ::
        n in ItemsOf(pending, a) <==> NonceAt(head, a) <= n < VirtualNonce(nonces, head, a)
    {
      ghost var mode := Mode(Settled, map[], {});
      for i := 0 to |ops|
        invariant Sound(mode) && AtRest(mode)
        invariant NeverFalls(ops, old(head)) ==> mode.phase.Settled? && NeverFalls(ops[i..], head)
      {
        assert ops[i..][0] == ops[i] && ops[i..][1..] == ops[i + 1..];
        ghost var next, _ := Perform(ops[i], checked, mode);
        mode := next;
      }
      if mode.phase.Settled? {
        SettledIntervals(mode, pending, nonces, head);
      }
      assert all - {} == all;
    }
  }

  /** Between operations the pool is settled, or nothing is asked of it. */
  ghost predicate AtRest(mode: Mode) {
    mode.phase.Settled? || mode == UNSETTLED
  }

  predicate Resets(op: Operation) {
    op.Fork? || (op.Reorg? && op.reset.Some?)
  }

  /** The pool moves to another head. */
  predicate Moves(op: Operation) {
    op.Fork? || (op.Reorg? && op.reset.Some? && op.reset.value.MoveTo?)
  }

  /** What demotion makes of a reset in which `pending` is left. */
  ghost function Demotes(mode: Mode, pending: Lists, head: Head): Mode {
    if mode.phase.Resetting? then Mode(Demoted, pending, mode.fallen + FallenFrom(mode.before, pending, head)) else UNSETTLED
  }

  ghost function Finishes(mode: Mode): Mode {
    if mode.phase.Demoted? then mode.(phase := Settled) else UNSETTLED
  }

  lemma NoneFallen(pending: Lists, head: Head)
    ensures FallenFrom(pending, pending, head) == {}
  {
  }

  /** In a settled pool pending nonces run from the state nonce to the virtual nonce, which is below it just for the fallen. */
  lemma SettledIntervals(mode: Mode, pending: Lists, nonces: map<Address, nat>, head: Head)
    requires mode.phase.Settled? && AllInOrder(mode, pending, nonces, head)
    ensures forall a: Address, n: nat ::
      n in ItemsOf(pending, a) <==> NonceAt(head, a) <= n < VirtualNonce(nonces, head, a)
    ensures forall a: Address :: VirtualNonce(nonces, head, a) < NonceAt(head, a) <==> a in mode.fallen
    ensures AllInOrder(UNSETTLED, pending, nonces, head)
  {
    forall a: Address
      ensures VirtualNonce(nonces, head, a) < NonceAt(head, a) <==> a in mode.fallen
      ensures forall n: nat :: n in ItemsOf(pending, a) <==> NonceAt(head, a) <= n < VirtualNonce(nonces, head, a)
    {
      assert AccountInOrder(mode, pending, nonces, head, a);
    }
  }

  /** The pending transactions meet the global limit, or no remote account has more than it may keep. */
  ghost predicate PendingWithin(config: Config, pending: Lists, locals: set<Address>) {
    || Total(LengthsOf(pending)) <= config.globalSlots
    || forall a :: a in pending && a !in locals ==> LengthsOf(pending)[a] <= config.accountSlots
  }

  /** The queued transactions meet the global limit, or only local accounts have any. */
  ghost predicate QueueWithin(config: Config, queue: Lists, locals: set<Address>) {
    Total(LengthsOf(queue)) <= config.globalQueue || forall a :: a in queue ==> a in locals
  }

  function LengthsOf(lists: Lists): Lengths {
    map a | a in lists :: |lists[a].items|
  }

  lemma LengthsWithout(lists: Lists, gone: set<Address>)
    ensures LengthsOf(lists - gone) == LengthsOf(lists) - gone
  {
  }

  /** An account's virtual nonce comes right after the last of its pending transactions. */
  ghost predicate PastLast(pending: Lists, nonces: map<Address, nat>, a: Address) {
    && a in pending && a in nonces && nonces[a] > 0 && nonces[a] - 1 in pending[a].items
    && forall k :: k in pending[a].items ==> k < nonces[a]
  }

  /** The virtual nonces of all accounts with pending transactions but those in `todo` have been set, and no others. */
  ghost predicate PastLastBut(todo: set<Address>, pending: Lists, nonces: map<Address, nat>, nonces': map<Address, nat>) {
    && (forall a :: a in pending && a !in todo ==> PastLast(pending, nonces', a))
    && nonces' - pending.Keys == nonces - pending.Keys
  }

  lemma PastLastStep(
    todo: set<Address>, pending: Lists, nonces: map<Address, nat>, nonces': map<Address, nat>, a: Address, last: nat)
    requires PastLastBut(todo, pending, nonces, nonces') && a in todo && a in pending
    requires last in pending[a].items && forall k :: k in pending[a].items ==> k <= last
    ensures PastLastBut(todo - {a}, pending, nonces, nonces'[a := last + 1])
  {
  }

  /** The highest nonce. */
  method LastNonce(items: Items) returns (last: nat)
    requires Keyed(items) && items != map[]
    ensures last in items && forall k :: k in items ==> k <= last
  {
    FlatLists(items);
    var txs := Flat(items);
    last := txs[|txs| - 1].nonce;
    forall k | k in items ensures k <= last {
      ListsAll(txs, items, k);
    }
  }

  /** How many transactions some lists hold. */
  method CountTxs(lists: Lists) returns (count: nat)
    ensures count == Total(LengthsOf(lists))
  {
    count := 0;
    var todo := lists.Keys;
    assert lists - todo == map[];
    while todo != {}
      invariant todo <= lists.Keys && count == Total(LengthsOf(lists - todo))
      decreases |todo|
    {
      var a :| a in todo;
      count := count + |lists[a].items|;
      CountStep(lists, todo, a);
      todo := todo - {a};
    }
    assert lists - {} == lists;
  }

  lemma CountStep(lists: Lists, todo: set<Address>, a: Address)
    requires a in todo && a in lists
    ensures Total(LengthsOf(lists - (todo - {a}))) == Total(LengthsOf(lists - todo)) + |lists[a].items|
  {
    var more := lists - (todo - {a});
    LengthsWithout(more, {a});
    LengthsWithout(lists - todo, {a});
    assert more - {a} == (lists - todo) - {a};
    TotalChange(LengthsOf(lists - todo), LengthsOf(more), a);
  }

  /** Queues are being cut: `drop` too many are left, and only those of `addresses` are still to be looked at. */
  ghost predicate Shedding(
    before: Lists, queue: Lists, locals: set<Address>, addresses: set<Address>, drop: nat, limit: nat)
  {
    && addresses <= queue.Keys && addresses !! locals && Total(LengthsOf(queue)) == limit + drop
    && (drop > 0 ==> forall a :: a in queue && a !in locals ==> a in addresses)
    && FrontsOf(queue, before) && (forall a :: a in locals ==> ItemsOf(queue, a) == ItemsOf(before, a))
  }

  /** When no more are too many, or no account is left to look at, the limit is met or only locals are left. */
  lemma Shed(before: Lists, queue: Lists, locals: set<Address>, rest: set<Address>, left: nat, limit: nat)
    requires Shedding(before, queue, locals, rest, left, limit) && (left == 0 || rest == {})
    ensures Total(LengthsOf(queue)) <= limit || forall a :: a in queue ==> a in locals
    ensures Total(LengthsOf(queue)) >= limit && FrontsOf(queue, before)
    ensures forall a :: a in locals ==> ItemsOf(queue, a) == ItemsOf(before, a)
  {
  }

  lemma ShedOne(
    before: Lists, queue: Lists, queue': Lists, locals: set<Address>, addresses: set<Address>, drop: nat, limit: nat,
    a: Address, left: nat)
    requires Shedding(before, queue, locals, addresses, drop, limit) && a in addresses
    requires queue' - {a} == queue - {a} && left <= drop && (left > 0 ==> a !in queue')
    requires |ItemsOf(queue', a)| == |queue[a].items| - (drop - left) && FrontOf(ItemsOf(queue', a), queue[a].items)
    ensures Shedding(before, queue', locals, addresses - {a}, left, limit)
  {
    AllButOne(queue, queue', a);
    TailTotal(queue, queue', a);
    FrontsStep(before, queue, queue', a);
  }

  lemma FrontsStep(before: Lists, lists: Lists, lists': Lists, a: Address)
    requires FrontsOf(lists, before) && lists' - {a} == lists - {a} && FrontOf(ItemsOf(lists', a), ItemsOf(lists, a))
    ensures FrontsOf(lists', before)
  {
    AllButOne(lists, lists', a);
    forall x: Address ensures FrontOf(ItemsOf(lists', x), ItemsOf(before, x)) {
      assert FrontOf(ItemsOf(lists, x), ItemsOf(before, x));
      if x == a {
        FrontBoth(ItemsOf(lists', a), ItemsOf(lists, a), ItemsOf(before, a));
      }
    }
  }

  lemma FrontBoth(left: Items, between: Items, items: Items)
    requires FrontOf(left, between) && FrontOf(between, items)
    ensures FrontOf(left, items)
  {
  }

  lemma AllButOne(before: Lists, lists: Lists, a: Address)
    requires lists - {a} == before - {a}
    ensures forall x :: x != a ==> (x in lists <==> x in before) && ItemsOf(lists, x) == ItemsOf(before, x)
    ensures forall x :: x != a && x in lists ==> lists[x] == before[x]
  {
    forall x | x != a
      ensures (x in lists <==> x in before) && ItemsOf(lists, x) == ItemsOf(before, x) && (x in lists ==> lists[x] == before[x])
    {
      assert x in lists <==> x in lists - {a};
      assert x in before <==> x in before - {a};
      assert x in lists ==> (lists - {a})[x] == lists[x];
      assert x in before ==> (before - {a})[x] == before[x];
    }
  }

  lemma TailTotal(before: Lists, lists: Lists, a: Address)
    requires a in before && lists - {a} == before - {a}
    ensures Total(LengthsOf(lists)) == Total(LengthsOf(before)) - |before[a].items| + |ItemsOf(lists, a)|
  {
    LengthsWithout(lists, {a});
    LengthsWithout(before, {a});
    TotalChange(LengthsOf(lists), LengthsOf(before), a);
  }

  lemma QueuedAt(queue: Lists, a: Address, tx: Tx)
    requires ListsOk(queue, false) && tx.nonce in ItemsOf(queue, a) && ItemsOf(queue, a)[tx.nonce] == tx
    ensures tx.from == a && Holds(queue, tx)
  {
  }

  /** Some of the transactions, with the lowest nonces. */
  ghost predicate FrontOf(left: Items, items: Items) {
    PartOf(left, items) && forall n, m :: n in items && m in left && n < m ==> n in left
  }

  /** Every account has what it had up to some nonce. */
  ghost predicate FrontsOf(lists: Lists, before: Lists) {
    forall a: Address {:trigger ItemsOf(lists, a)} :: FrontOf(ItemsOf(lists, a), ItemsOf(before, a))
  }

  lemma LowestIsFront(items: Items, k: nat)
    ensures FrontOf(Lowest(items, k), items)
  {
  }

  /** The same accounts, each with what it had up to some nonce. */
  ghost predicate Within(lists: Lists, before: Lists) {
    lists.Keys == before.Keys && forall a :: a in lists ==> FrontOf(lists[a].items, before[a].items)
  }

  lemma WithinBoth(lists: Lists, between: Lists, before: Lists)
    requires Within(lists, between) && Within(between, before)
    ensures Within(lists, before)
  {
  }

  lemma LocalsKept(lists: Lists, before: Lists, locals: set<Address>, level: nat)
    requires Within(lists, before) && LengthsOf(lists) == Leveled(LengthsOf(before), locals, level)
    ensures forall a :: a in locals ==> ItemsOf(lists, a) == ItemsOf(before, a)
  {
    forall a | a in locals && a in lists ensures lists[a].items == before[a].items {
      assert LengthsOf(lists)[a] == LengthsOf(before)[a];
      SamePart(lists[a].items, before[a].items);
    }
  }

  lemma SamePart(left: Items, items: Items)
    requires PartOf(left, items) && |left| == |items|
    ensures left == items
  {
    var gone := items.Keys - left.Keys;
    assert left.Keys <= items.Keys;
    assert items.Keys == left.Keys + gone;
    assert gone == {};
  }

  lemma OneShorter(before: Lists, lists: Lists, a: Address)
    requires a in lists && a in before && lists - {a} == before - {a} && FrontOf(lists[a].items, before[a].items)
    ensures Within(lists, before)
    ensures LengthsOf(lists) == LengthsOf(before)[a := |lists[a].items|] && lists.Keys == before.Keys
    ensures NoneEmpty(before) && lists[a].items != map[] ==> NoneEmpty(lists)
  {
    forall x | x != a ensures x in lists <==> x in before
      ensures x in lists ==> lists[x] == before[x]
    {
      assert x in lists <==> x in lists - {a};
      assert x in before <==> x in before - {a};
      assert x in lists ==> (lists - {a})[x] == lists[x];
      assert x in before ==> (before - {a})[x] == before[x];
    }
  }

  lemma HighestNonce(items: Items, n: nat)
    requires Keyed(items) && |items| > 0 && n in items
    ensures |Flat(items)| == |items| && n <= Flat(items)[|items| - 1].nonce
  {
    FlatLists(items);
    Neighbours(items, |items| - 1, n);
  }

  lemma LastOnly(items: Items, k: nat)
    requires Keyed(items) && |items| == k + 1
    ensures |Flat(items)| == k + 1
    ensures var last := Flat(items)[k];
            && last.nonce in items && items[last.nonce] == last
            && Lowest(items, k) == Below(items, last.nonce) && |Lowest(items, k)| == k
            && Taken(items, Lowest(items, k)) == {last}
  {
    FlatLists(items);
    var last := Flat(items)[k];
    FlatCut(items, k);
    RestInHand(items, last);
    assert From(items, last.nonce + 1) == map[] by {
      forall n | n in items ensures n <= last.nonce {
        HighestNonce(items, n);
      }
    }
    assert From(items, last.nonce + 1).Values == {};
  }

  lemma InvalidatedOk(list: List, a: Address, balance: nat, maxGas: nat)
    requires ListOk(list, a, true)
    ensures var rest := Invalidated(list, balance, maxGas); Keyed(rest) && forall n :: n in rest ==> rest[n].from == a
  {
  }

  lemma KeyedValues(items: Items)
    requires Keyed(items)
    ensures forall t :: t in items.Values <==> t.nonce in items && items[t.nonce] == t
  {
  }

  lemma FilteredPending(list: List, a: Address, balance: nat, maxGas: nat)
    requires ListOk(list, a, true)
    ensures ListOk(Filtered(list, balance, maxGas), a, true) && PartOf(Filtered(list, balance, maxGas).items, list.items)
    ensures var drops, invalids := Unaffordable(list, balance, maxGas).Values, Invalidated(list, balance, maxGas).Values;
            drops !! invalids && Taken(list.items, Filtered(list, balance, maxGas).items) == drops + invalids
  {
    SkippingIsExact(list, balance, maxGas);
    FilterParts(list, balance, maxGas);
    KeyedValues(Unaffordable(list, balance, maxGas));
    KeyedValues(Invalidated(list, balance, maxGas));
    var items, left := list.items, Affordable(list, balance, maxGas);
    forall t ensures t in Taken(items, left) <==> t.nonce in items && items[t.nonce] == t && t.nonce !in left {
    }
  }

  /** A filter sorts the transactions into those it keeps, those it drops and those it invalidates. */
  lemma FilterParts(list: List, balance: nat, maxGas: nat)
    ensures var left, gone, rest := Affordable(list, balance, maxGas), Unaffordable(list, balance, maxGas), Invalidated(list, balance, maxGas);
            && PartOf(left, list.items) && PartOf(gone, list.items) && PartOf(rest, list.items)
            && gone.Keys !! rest.Keys && list.items.Keys - left.Keys == gone.Keys + rest.Keys
  {
  }

  /**
   * An account has been demoted: what was too old or could not be paid for is gone, what came after
   * such a transaction is queued, and if the one at the state nonce is missing all is queued.
   */
  ghost predicate DemotedAs(head: Head, pending: Lists, queue: Lists, pending': Lists, queue': Lists, a: Address) {
    if a !in pending then ItemsOf(pending', a) == map[] && ItemsOf(queue', a) == ItemsOf(queue, a)
    else
      var left, back := Eligible(pending[a], head, a), DemotedBack(pending[a], head, a);
      if NonceAt(head, a) in left
      then ItemsOf(pending', a) == left && ItemsOf(queue', a) == ItemsOf(queue, a) + back
      else ItemsOf(pending', a) == map[] && ItemsOf(queue', a) == ItemsOf(queue, a) + back + left
  }

  /** All accounts but those in `todo` have been demoted; those are as they were. */
  ghost predicate DemotedBut(todo: set<Address>, head: Head, pending: Lists, queue: Lists, pending': Lists, queue': Lists) {
    && (forall a :: a in todo ==> a in pending && a in pending' && pending'[a] == pending[a] && ItemsOf(queue', a) == ItemsOf(queue, a))
    && (forall a: Address {:trigger DemotedAs(head, pending, queue, pending', queue', a)} ::
      a !in todo ==> DemotedAs(head, pending, queue, pending', queue', a))
  }

  lemma DemotedNext(todo: set<Address>, head: Head, pending: Lists, queue: Lists, pending': Lists, queue': Lists, a: Address)
    requires DemotedBut(todo, head, pending, queue, pending', queue') && a in todo
    ensures a in pending'
  {
  }

  lemma DemotedStep(
    todo: set<Address>, head: Head, pending: Lists, queue: Lists, pending1: Lists, queue1: Lists,
    pending2: Lists, queue2: Lists, a: Address)
    requires DemotedBut(todo, head, pending, queue, pending1, queue1) && a in todo
    requires pending2 - {a} == pending1 - {a} && queue2 - {a} == queue1 - {a}
    requires DemotedAs(head, pending1, queue1, pending2, queue2, a)
    ensures DemotedBut(todo - {a}, head, pending, queue, pending2, queue2)
  {
    AllButOne(pending1, pending2, a);
    AllButOne(queue1, queue2, a);
    forall x: Address | x !in todo - {a} ensures DemotedAs(head, pending, queue, pending2, queue2, x) {
      if x != a {
        assert DemotedAs(head, pending, queue, pending1, queue1, x);
      }
    }
  }

  lemma OneMore(txs: seq<Tx>, i: nat)
    requires i < |txs|
    ensures Elements(txs[..i + 1]) == Elements(txs[..i]) + {txs[i]} && txs[i..][0] == txs[i]
  {
    assert txs[..i + 1] == txs[..i] + [txs[i]];
  }

  /** Cutting an account off at one of its pending transactions and lowering its virtual nonce to it. */
  lemma CutReduced(
    mode: Mode, pending: Lists, nonces: map<Address, nat>, nonces': map<Address, nat>, head: Head, a: Address, n: nat)
    requires AllInOrder(mode, pending, nonces, head) && a in pending && n in pending[a].items
    requires nonces' - {a} == nonces - {a} && VirtualNonce(nonces', head, a) == Min(VirtualNonce(nonces, head, a), n)
    ensures var pending' := Reduced(pending, a, Below(pending[a].items, n));
            AllInOrder(mode, pending', nonces', head) && (NoneEmpty(pending) ==> NoneEmpty(pending'))
  {
    var left := Below(pending[a].items, n);
    ReducedItems(pending, a, left);
    CutInOrder(mode, pending, nonces, Reduced(pending, a, left), nonces', head, a, n);
  }

  /** The queue is as `before` but for an account's transactions that are not in `todo`, which have joined it. */
  ghost predicate Postponing(a: Address, txs: Items, todo: set<Tx>, before: Lists, queue: Lists) {
    && Keyed(txs) && (forall n :: n in txs ==> txs[n].from == a) && (forall tx :: tx in todo ==> tx.nonce in txs && txs[tx.nonce] == tx)
    && ItemsOf(queue, a) == ItemsOf(before, a) + Moved(txs, todo) && queue - {a} == before - {a}
    && (NoneEmpty(before) ==> NoneEmpty(queue))
  }

  ghost function Moved(txs: Items, todo: set<Tx>): Items {
    map n | n in txs && txs[n] !in todo :: txs[n]
  }

  lemma PostponeStarts(a: Address, txs: Items, queue: Lists)
    requires Keyed(txs) && forall n :: n in txs ==> txs[n].from == a
    ensures Postponing(a, txs, txs.Values, queue, queue)
  {
    assert Moved(txs, txs.Values) == map[];
  }

  lemma PostponeStep(a: Address, txs: Items, todo: set<Tx>, before: Lists, queue: Lists, tx: Tx)
    requires Postponing(a, txs, todo, before, queue) && tx in todo
    ensures Postponing(a, txs, todo - {tx}, before, Inserted(queue, tx, false))
  {
    assert Moved(txs, todo - {tx}) == Moved(txs, todo)[tx.nonce := tx];
    if NoneEmpty(before) {
      InsertNoneEmpty(queue, tx, false);
    }
  }

  lemma PostponeEnds(a: Address, txs: Items, before: Lists, queue: Lists)
    requires Postponing(a, txs, {}, before, queue)
    ensures ItemsOf(queue, a) == ItemsOf(before, a) + txs
  {
    assert Moved(txs, {}) == txs;
  }

  lemma TakenAll(items: Items)
    ensures Taken(items, map[]) == items.Values
  {
  }

  /** A pending transaction is gone and those after it are queued; the other accounts are as they were. */
  ghost predicate CutAt(b: Books, b': Books, tx: Tx) {
    && tx.from in b.pending
    && b'.pending == Reduced(b.pending, tx.from, Below(b.pending[tx.from].items, tx.nonce))
    && ItemsOf(b'.queue, tx.from) == ItemsOf(b.queue, tx.from) + From(b.pending[tx.from].items, tx.nonce + 1)
    && b'.queue - {tx.from} == b.queue - {tx.from}
  }

  /** A queued transaction is gone; the other accounts are as they were. */
  ghost predicate Unqueued(b: Books, b': Books, tx: Tx) {
    && tx.from in b.queue && b'.pending == b.pending
    && b'.queue == Reduced(b.queue, tx.from, b.queue[tx.from].items - {tx.nonce})
  }

  /** The sender's virtual nonce has fallen to the transaction's, if it was higher. */
  ghost predicate LoweredTo(nonces: map<Address, nat>, nonces': map<Address, nat>, head: Head, tx: Tx) {
    && VirtualNonce(nonces', head, tx.from) == Min(VirtualNonce(nonces, head, tx.from), tx.nonce)
    && nonces' - {tx.from} == nonces - {tx.from}
  }

  /** Deleting an account's list if it is empty leaves none empty. */
  lemma ClosedLists(lists: Lists, a: Address)
    requires a in lists && NoneEmpty(lists - {a})
    ensures var closed := if lists[a].items == map[] then lists - {a} else lists;
            NoneEmpty(closed) && closed - {a} == lists - {a} && ItemsOf(closed, a) == lists[a].items
  {
    assert forall x :: x in lists && x != a ==> x in lists - {a} && lists[x] == (lists - {a})[x];
    assert (lists - {a}) - {a} == lists - {a};
  }

  lemma StepOut(s: set<Tx>, todo: set<Tx>, tx: Tx)
    requires tx in todo
    ensures (s - {tx}) - (todo - {tx}) == s - todo && todo - {tx} <= todo
  {
  }

  lemma OneChanged(lists: Lists, a: Address, l: List)
    ensures lists[a := l] - {a} == lists - {a}
  {
  }

  lemma FilteredQueue(list: List, a: Address, nonce: nat, balance: nat, maxGas: nat)
    requires ListOk(list, a, false)
    ensures var forwarded := list.(items := From(list.items, nonce));
            var filtered := Filtered(forwarded, balance, maxGas);
            && ListOk(forwarded, a, false) && PartOf(forwarded.items, list.items)
            && ListOk(filtered, a, false) && PartOf(filtered.items, forwarded.items)
            && Payable(filtered.items, balance, maxGas)
  {
    var forwarded := list.(items := From(list.items, nonce));
    SkippingIsExact(forwarded, balance, maxGas);
  }

  lemma CapQueue(list: List, a: Address, k: nat)
    requires ListOk(list, a, false)
    ensures ListOk(list.(items := Lowest(list.items, k)), a, false) && PartOf(Lowest(list.items, k), list.items)
    ensures |Lowest(list.items, k)| <= k
  {
    FlatLists(list.items);
    if k < |Flat(list.items)| {
      FlatCut(list.items, k);
    }
  }

  ghost function RemotesIn(all: set<Tx>, locals: set<Address>): set<Tx> {
    set tx | tx in all && tx.from !in locals
  }

  /** The pool is not empty and everything in it is at least as dear. */
  ghost predicate NoDearer(tx: Tx, all: set<Tx>) {
    all != {} && forall t :: t in all ==> tx.price <= t.price
  }

  /**
   * The worst remote transactions are gone: none of them is better than a remote one that stays. They
   * make up the slots to be freed, or no remote one is left, or, if there are local accounts, they
   * make up as many slots as there were remote transactions. The last of them was needed.
   */
  ghost predicate Discarded(gone: seq<Tx>, free: int, before: set<Tx>, all: set<Tx>, locals: set<Address>) {
    && all == before - Elements(gone) && (forall t :: t in gone ==> t in before && t.from !in locals)
    && (forall d, t :: d in gone && t in all && t.from !in locals ==> PriceRank(d) <= PriceRank(t))
    && RoomMade(SlotsOf(gone), free, before, all, locals)
    && (gone != [] ==> SlotsOf(gone[..|gone| - 1]) < free)
  }

  /** The worst are discarded, and their slots are free if the price index has nothing that matters twice. */
  ghost predicate Cleared(gone: seq<Tx>, free: int, b: Books, b': Books, items: seq<Tx>, locals: set<Address>) {
    && Discarded(gone, free, b.all, b'.all, locals)
    && (!Doubled(items, PriceRank, locals, b.all) ==> RoomMade(b.slots - b'.slots, free, b.all, b'.all, locals))
  }

  /** So many slots are what was to be freed, or no remote transaction is left, or they are as many as there were remote ones. */
  ghost predicate RoomMade(freed: int, free: int, before: set<Tx>, all: set<Tx>, locals: set<Address>) {
    || freed >= free
    || (forall t :: t in all ==> t.from in locals)
    || (locals != {} && freed >= |RemotesIn(before, locals)|)
  }

  /** What is taken out of the price index is discarded, and frees its slots if nothing that matters is doubled. */
  lemma TakenOutDiscards(items: seq<Tx>, locals: set<Address>, all: set<Tx>, free: nat, drop: seq<Tx>)
    requires Covers(items, all) && (forall tx :: tx in all ==> tx.size > 0)
    requires TakenOut(items, PriceRank, locals, all, Wanted(free, items, locals), drop)
    ensures Discarded(drop, free, all, all - Elements(drop), locals)
    ensures !Doubled(items, PriceRank, locals, all) ==> RoomMade(SlotSum(Elements(drop)), free, all, all - Elements(drop), locals)
  {
    RemotesCover(items, RemotesIn(all, locals), locals);
    forall t | Exposed(t, locals, all) && t !in drop ensures t in multiset(items) - multiset(drop) {
      LeftOver(items, drop, t);
    }
    if !Doubled(items, PriceRank, locals, all) {
      OnceFrees(items, PriceRank, locals, all, Wanted(free, items, locals), drop);
    }
  }

  lemma {:induction false} SlotSumParts(txs: set<Tx>, part: set<Tx>)
    requires part <= txs
    ensures SlotSum(txs) == SlotSum(txs - part) + SlotSum(part)
    decreases part
  {
    if part == {} {
      assert txs - part == txs;
    } else {
      var tx :| tx in part;
      SlotSumParts(txs, part - {tx});
      assert txs - (part - {tx}) == (txs - part) + {tx} && part == (part - {tx}) + {tx};
      SlotSumAdd(txs - part, tx);
      SlotSumAdd(part - {tx}, tx);
    }
  }

  /** The senders of the transactions that were added and replaced none. */
  ghost function NewSenders(txs: seq<Tx>, verdicts: seq<Verdict>): set<Address>
    requires |verdicts| <= |txs|
  {
    set i | 0 <= i < |verdicts| && verdicts[i] == Pooled(false) :: txs[i].from
  }

  lemma NextSender(txs: seq<Tx>, verdicts: seq<Verdict>, verdict: Verdict)
    requires |verdicts| < |txs|
    ensures NewSenders(txs, verdicts + [verdict])
         == NewSenders(txs, verdicts) + if verdict == Pooled(false) then {txs[|verdicts|].from} else {}
  {
    var more := verdicts + [verdict];
    forall a | a in NewSenders(txs, verdicts) ensures a in NewSenders(txs, more) {
      var i :| 0 <= i < |verdicts| && verdicts[i] == Pooled(false) && txs[i].from == a;
      assert more[i] == Pooled(false);
    }
    assert more[|verdicts|] == verdict;
  }

  /**
   * A transaction has been put in the place of the pending one with its nonce, or else into the queue,
   * provided it outbids the one it replaces there; if it does not, nothing has changed.
   */
  ghost predicate PlacedAs(b: Books, b': Books, tx: Tx, priceBump: nat, verdict: Verdict) {
    if tx.nonce in ItemsOf(b.pending, tx.from) then
      if Outbids(tx, ItemsOf(b.pending, tx.from)[tx.nonce], priceBump)
      then verdict == Pooled(true) && b' == Promoted(b, tx)
      else verdict.ReplaceUnderpriced? && b' == b
    else
      if Accepts(ListOf(b.queue, tx.from, false), tx, priceBump)
      then verdict == Pooled(tx.nonce in ItemsOf(b.queue, tx.from)) && b' == Enqueued(b, tx)
      else verdict.ReplaceUnderpriced? && b' == b
  }

  /** Whether adding a transaction makes its sender a local account: only if it was queued. */
  ghost predicate Marks(pending: Lists, tx: Tx, local: bool, verdict: Verdict) {
    verdict.Pooled? && local && tx.nonce !in ItemsOf(pending, tx.from)
  }

  /** A transaction has come into the table, at most in exchange for one with its sender and nonce. */
  ghost predicate Enters(before: set<Tx>, all: set<Tx>, tx: Tx) {
    && tx in all && (forall t :: t in all && t !in before ==> t == tx)
    && (forall t :: t in before && t !in all ==> t.from == tx.from && t.nonce == tx.nonce)
  }

  /** What is ready is in hand once the queue is cut behind it. */
  lemma ReadyHand(b: Books, a: Address, end: nat)
    requires Partition(b, {}) && a in b.queue
    ensures var l := b.queue[a];
            var b', hand := b.(queue := b.queue[a := l.(items := From(l.items, end))]), Elements(Flat(Below(l.items, end)));
            Partition(b', hand) && Free(b', hand) && Sized(hand) && (forall tx :: tx in hand ==> tx.from == a)
  {
    var l := b.queue[a];
    var low, high := Below(l.items, end), From(l.items, end);
    FlatLists(low);
    var hand := Elements(Flat(low));
    forall tx ensures tx in hand <==> tx in Taken(l.items, high) {
      if tx in Taken(l.items, high) {
        ListsAll(Flat(low), low, tx.nonce);
      }
    }
    assert hand == Taken(l.items, high);
    TakeQueued(b, {}, a, l.(items := high));
    assert {} + hand == hand;
    TakenSized(b.(queue := b.queue[a := l.(items := high)]), hand, l, a, false, high);
  }

  /** None is too old and all can be paid for. */
  ghost predicate Executable(items: Items, head: Head, a: Address) {
    (forall n :: n in items ==> n >= NonceAt(head, a)) && Payable(items, BalanceAt(head, a), head.maxGas)
  }

  /** Lists into which transactions have been inserted in turn. */
  ghost function InsertedAll(lists: Lists, txs: seq<Tx>): Lists
    decreases |txs|
  {
    if txs == [] then lists else InsertedAll(Inserted(lists, txs[0], true), txs[1..])
  }

  /** Virtual nonces that have been set past transactions in turn. */
  ghost function NoncesPast(nonces: map<Address, nat>, txs: seq<Tx>): map<Address, nat>
    decreases |txs|
  {
    if txs == [] then nonces else NoncesPast(nonces[txs[0].from := txs[0].nonce + 1], txs[1..])
  }

  /** Inserting an account's transactions one by one adds them all to its list and leaves the other lists alone. */
  lemma {:induction false} InsertedItems(lists: Lists, txs: seq<Tx>, a: Address, items: Items)
    requires NonceOrder.Lists(txs, items) && forall i :: 0 <= i < |txs| ==> txs[i].from == a
    ensures ItemsOf(InsertedAll(lists, txs), a) == ItemsOf(lists, a) + items
    ensures InsertedAll(lists, txs) - {a} == lists - {a}
    decreases |txs|
  {
    if txs == [] {
      assert items == map[];
    } else {
      var tx := txs[0];
      ListsLess(txs, items);
      OneInserted(lists, tx);
      InsertedItems(Inserted(lists, tx, true), txs[1..], a, items - {tx.nonce});
      FirstOfAll(ItemsOf(lists, a), items, tx);
    }
  }

  lemma {:induction false} LastNoncePast(nonces: map<Address, nat>, txs: seq<Tx>, a: Address)
    requires forall i :: 0 <= i < |txs| ==> txs[i].from == a
    ensures NoncesPast(nonces, txs) == if txs == [] then nonces else nonces[a := txs[|txs| - 1].nonce + 1]
    decreases |txs|
  {
    if |txs| > 0 {
      LastNoncePast(nonces[a := txs[0].nonce + 1], txs[1..], a);
    }
  }

  /** The ready ones of an account's queued transactions are pending and its virtual nonce is past them. */
  ghost predicate ReadyMade(
    items: Items, a: Address, pending: Lists, nonces: map<Address, nat>, pending': Lists, nonces': map<Address, nat>, head: Head)
  {
    var start := VirtualNonce(nonces, head, a);
    var ready := Below(items, ReadyEnd(items, start));
    && ItemsOf(pending', a) == ItemsOf(pending, a) + ready
    && VirtualNonce(nonces', head, a) == if ready == map[] then start else ReadyEnd(items, start)
  }

  lemma ListsLess(txs: seq<Tx>, items: Items)
    requires NonceOrder.Lists(txs, items) && |txs| > 0
    ensures NonceOrder.Lists(txs[1..], items - {txs[0].nonce})
  {
    assert (items - {txs[0].nonce}).Keys == items.Keys - {txs[0].nonce};
  }

  lemma FirstOfAll(before: Items, items: Items, tx: Tx)
    requires tx.nonce in items && items[tx.nonce] == tx
    ensures before[tx.nonce := tx] + (items - {tx.nonce}) == before + items
  {
  }

  /** Making a free transaction at the virtual nonce pending leaves the order alone. */
  lemma ExtendedInOrder(mode: Mode, b: Books, hand: set<Tx>, nonces: map<Address, nat>, head: Head, tx: Tx)
    requires AllInOrder(mode, b.pending, nonces, head) && Free(b, hand) && tx in hand
    requires !mode.phase.Unsettled? ==> IsNext(tx, nonces, head)
    ensures AllInOrder(mode, Inserted(b.pending, tx, true), nonces[tx.from := tx.nonce + 1], head)
  {
    OneInserted(b.pending, tx);
    ExtendInOrder(mode, b.pending, nonces, Inserted(b.pending, tx, true), head, tx);
  }

  lemma OneInserted(lists: Lists, tx: Tx)
    ensures ItemsOf(Inserted(lists, tx, true), tx.from) == ItemsOf(lists, tx.from)[tx.nonce := tx]
    ensures Inserted(lists, tx, true) - {tx.from} == lists - {tx.from}
  {
  }

  lemma ReadyInserted(items: Items, a: Address, pending: Lists, nonces: map<Address, nat>, head: Head)
    requires Keyed(items) && forall n :: n in items ==> items[n].from == a
    ensures var ready := Flat(Below(items, ReadyEnd(items, VirtualNonce(nonces, head, a))));
            var pending', nonces' := InsertedAll(pending, ready), NoncesPast(nonces, ready);
            && pending' - {a} == pending - {a} && nonces' - {a} == nonces - {a}
            && ReadyMade(items, a, pending, nonces, pending', nonces', head)
  {
    var start := VirtualNonce(nonces, head, a);
    ReadyJoins(pending, items, start, a);
    ReadyPast(nonces, items, start, a);
  }

  lemma ReadyJoins(pending: Lists, items: Items, start: nat, a: Address)
    requires Keyed(items) && forall n :: n in items ==> items[n].from == a
    ensures var ready := Below(items, ReadyEnd(items, start));
            && ItemsOf(InsertedAll(pending, Flat(ready)), a) == ItemsOf(pending, a) + ready
            && InsertedAll(pending, Flat(ready)) - {a} == pending - {a}
  {
    var ready := Below(items, ReadyEnd(items, start));
    FlatLists(ready);
    InsertedItems(pending, Flat(ready), a, ready);
  }

  lemma ReadyPast(nonces: map<Address, nat>, items: Items, start: nat, a: Address)
    requires Keyed(items) && forall n :: n in items ==> items[n].from == a
    ensures var ready := Below(items, ReadyEnd(items, start));
            NoncesPast(nonces, Flat(ready)) == if ready == map[] then nonces else nonces[a := ReadyEnd(items, start)]
  {
    var ready := Below(items, ReadyEnd(items, start));
    FlatFrom(ready, a);
    LastNoncePast(nonces, Flat(ready), a);
    LastReady(items, start);
  }

  lemma FlatFrom(items: Items, a: Address)
    requires Keyed(items) && forall n :: n in items ==> items[n].from == a
    ensures |Flat(items)| == |items| && forall i :: 0 <= i < |Flat(items)| ==> Flat(items)[i].from == a
  {
    FlatLists(items);
  }

  /** The last of what is ready is just below its end. */
  lemma LastReady(items: Items, start: nat)
    requires Keyed(items)
    ensures var ready := Flat(Below(items, ReadyEnd(items, start)));
            |ready| > 0 ==> ready[|ready| - 1].nonce + 1 == ReadyEnd(items, start)
  {
    if items != map[] && Least(items.Keys) <= start {
      var first := Least(items.Keys);
      RunInOrder(Below(items, RunEnd(items, first)), first, RunEnd(items, first));
    }
  }

  /** The `limit` lowest of a remote account's transactions, all of a local one's. */
  function Capped(items: Items, local: bool, limit: nat): Items {
    if local then items else Lowest(items, limit)
  }

  /** An account is as it was. */
  ghost predicate Untouched(b: Books, b': Books, nonces: map<Address, nat>, nonces': map<Address, nat>, head: Head, a: Address) {
    && ItemsOf(b'.pending, a) == ItemsOf(b.pending, a) && (a in b'.queue <==> a in b.queue)
    && (a in b.queue ==> b'.queue[a] == b.queue[a]) && VirtualNonce(nonces', head, a) == VirtualNonce(nonces, head, a)
  }

  /**
   * An account has been promoted: of what is queued and neither too old nor too costly, the run that
   * follows on from its virtual nonce is pending and the virtual nonce is past it; what comes after
   * the run is queued, within the limit if the account is remote.
   */
  ghost predicate PromotedAs(
    b: Books, b': Books, nonces: map<Address, nat>, nonces': map<Address, nat>, head: Head, locals: set<Address>,
    limit: nat, a: Address)
  {
    if a !in b.queue then Untouched(b, b', nonces, nonces', head, a)
    else
      var items := Eligible(b.queue[a], head, a);
      var end := ReadyEnd(items, VirtualNonce(nonces, head, a));
      && ReadyMade(items, a, b.pending, nonces, b'.pending, nonces', head)
      && ItemsOf(b'.queue, a) == Capped(From(items, end), a in locals, limit)
  }

  ghost predicate PromotedIf(
    promoted: bool, b: Books, b': Books, nonces: map<Address, nat>, nonces': map<Address, nat>, head: Head,
    locals: set<Address>, limit: nat, a: Address)
  {
    if promoted then PromotedAs(b, b', nonces, nonces', head, locals, limit, a)
    else Untouched(b, b', nonces, nonces', head, a)
  }

  /** Some accounts have been promoted and the others are as they were. */
  ghost predicate PromotedOnly(
    accounts: set<Address>, b: Books, b': Books, nonces: map<Address, nat>, nonces': map<Address, nat>, head: Head,
    locals: set<Address>, limit: nat)
  {
    forall a: Address {:trigger PromotedIf(a in accounts, b, b', nonces, nonces', head, locals, limit, a)} ::
      PromotedIf(a in accounts, b, b', nonces, nonces', head, locals, limit, a)
  }

  lemma PromotedStep(
    done: set<Address>, b: Books, b1: Books, b2: Books, nonces: map<Address, nat>, nonces1: map<Address, nat>,
    nonces2: map<Address, nat>, head: Head, locals: set<Address>, limit: nat, a: Address)
    requires PromotedOnly(done, b, b1, nonces, nonces1, head, locals, limit) && a !in done
    requires b2.pending - {a} == b1.pending - {a} && b2.queue - {a} == b1.queue - {a} && nonces2 - {a} == nonces1 - {a}
    requires PromotedAs(b1, b2, nonces1, nonces2, head, locals, limit, a)
    ensures PromotedOnly(done + {a}, b, b2, nonces, nonces2, head, locals, limit)
  {
    forall x: Address ensures PromotedIf(x in done + {a}, b, b2, nonces, nonces2, head, locals, limit, x) {
      assert PromotedIf(x in done, b, b1, nonces, nonces1, head, locals, limit, x);
      if x == a {
        UntouchedThen(b, b1, b2, nonces, nonces1, nonces2, head, locals, limit, a);
      } else {
        OtherUntouched(b1, b2, nonces1, nonces2, head, a, x);
        ThenUntouched(x in done, b, b1, b2, nonces, nonces1, nonces2, head, locals, limit, x);
      }
    }
  }

  lemma UntouchedThen(
    b: Books, b1: Books, b2: Books, nonces: map<Address, nat>, nonces1: map<Address, nat>, nonces2: map<Address, nat>,
    head: Head, locals: set<Address>, limit: nat, a: Address)
    requires Untouched(b, b1, nonces, nonces1, head, a)
    requires PromotedAs(b1, b2, nonces1, nonces2, head, locals, limit, a)
    ensures PromotedAs(b, b2, nonces, nonces2, head, locals, limit, a)
  {
  }

  lemma ThenUntouched(
    promoted: bool, b: Books, b1: Books, b2: Books, nonces: map<Address, nat>, nonces1: map<Address, nat>,
    nonces2: map<Address, nat>, head: Head, locals: set<Address>, limit: nat, a: Address)
    requires PromotedIf(promoted, b, b1, nonces, nonces1, head, locals, limit, a)
    requires Untouched(b1, b2, nonces1, nonces2, head, a)
    ensures PromotedIf(promoted, b, b2, nonces, nonces2, head, locals, limit, a)
  {
  }

  lemma OtherUntouched(
    b: Books, b': Books, nonces: map<Address, nat>, nonces': map<Address, nat>, head: Head, a: Address, x: Address)
    requires b'.pending - {a} == b.pending - {a} && b'.queue - {a} == b.queue - {a} && nonces' - {a} == nonces - {a}
    requires x != a
    ensures Untouched(b, b', nonces, nonces', head, x)
  {
    AllButOne(b.pending, b'.pending, a);
    AllButOne(b.queue, b'.queue, a);
    SameNonce(nonces, nonces', head, a, x);
  }

  lemma SameNonce(nonces: map<Address, nat>, nonces': map<Address, nat>, head: Head, a: Address, x: Address)
    requires nonces' - {a} == nonces - {a} && x != a
    ensures VirtualNonce(nonces', head, x) == VirtualNonce(nonces, head, x)
  {
    assert x in nonces - {a} <==> x in nonces;
    assert x in nonces' - {a} <==> x in nonces';
    assert x in nonces ==> (nonces - {a})[x] == nonces[x] == (nonces' - {a})[x];
  }

  ghost predicate InTurn(txs: seq<Tx>, i: nat) {
    i < |txs| ==> txs[i].from == txs[0].from && txs[i].nonce == txs[0].nonce + i
  }

  ghost predicate Consecutive(txs: seq<Tx>) {
    forall i: nat {:trigger InTurn(txs, i)} :: InTurn(txs, i)
  }

  ghost predicate PaidFor(txs: seq<Tx>, i: nat, head: Head) {
    i < |txs| ==> txs[i].Cost() <= BalanceAt(head, txs[i].from) && txs[i].gas <= head.maxGas
  }

  /** The transaction is at its account's virtual nonce and can be paid for. */
  ghost predicate IsNext(tx: Tx, nonces: map<Address, nat>, head: Head) {
    && tx.nonce == VirtualNonce(nonces, head, tx.from) && tx.nonce >= NonceAt(head, tx.from)
    && tx.Cost() <= BalanceAt(head, tx.from) && tx.gas <= head.maxGas
  }

  /** The first of a run is next for its account, and all can be paid for. */
  ghost predicate RunIsNext(txs: seq<Tx>, nonces: map<Address, nat>, head: Head) {
    && (|txs| > 0 ==> IsNext(txs[0], nonces, head))
    && (forall i: nat {:trigger PaidFor(txs, i, head)} :: PaidFor(txs, i, head))
  }

  lemma RestIsNext(txs: seq<Tx>, nonces: map<Address, nat>, head: Head)
    requires |txs| > 0 && Consecutive(txs) && RunIsNext(txs, nonces, head)
    ensures RunIsNext(txs[1..], nonces[txs[0].from := txs[0].nonce + 1], head)
  {
    forall i: nat ensures PaidFor(txs[1..], i, head) {
      assert PaidFor(txs, i + 1, head);
    }
    assert InTurn(txs, 1) && PaidFor(txs, 1, head);
  }

  /** Transactions with consecutive nonces, the first of them being next for its account unless there is no order. */
  ghost predicate RunOk(txs: seq<Tx>, mode: Mode, nonces: map<Address, nat>, head: Head) {
    Consecutive(txs) && Sized(Elements(txs)) && (!mode.phase.Unsettled? ==> RunIsNext(txs, nonces, head))
  }

  /** Once the first of a run is pending, the rest is a run. */
  lemma NextReady(txs: seq<Tx>, mode: Mode, nonces: map<Address, nat>, head: Head)
    requires |txs| > 0 && RunOk(txs, mode, nonces, head)
    ensures txs[0] in Elements(txs) && Elements(txs) - {txs[0]} == Elements(txs[1..])
    ensures RunOk(txs[1..], mode, nonces[txs[0].from := txs[0].nonce + 1], head)
  {
    assert txs == [txs[0]] + txs[1..];
    forall i: nat ensures InTurn(txs[1..], i) && (i + 1 < |txs| ==> txs[1..][i] != txs[0]) {
      assert InTurn(txs, i + 1) && InTurn(txs, 1);
    }
    if !mode.phase.Unsettled? {
      RestIsNext(txs, nonces, head);
    }
  }

  /** The ready transactions of an account start at its virtual nonce and can be paid for. */
  lemma ReadyPaid(b: Books, nonces: map<Address, nat>, head: Head, a: Address, end: nat, mode: Mode)
    requires Partition(b, {}) && AllInOrder(mode, b.pending, nonces, head) && a in b.queue
    requires end == ReadyEnd(b.queue[a].items, VirtualNonce(nonces, head, a))
    requires Executable(b.queue[a].items, head, a)
    ensures var txs := Flat(Below(b.queue[a].items, end));
            Consecutive(txs) && (!mode.phase.Unsettled? ==> RunIsNext(txs, nonces, head))
  {
    var items, start := b.queue[a].items, VirtualNonce(nonces, head, a);
    ReadyInTurn(items, start, a, head);
    var txs := Flat(Below(items, end));
    if !mode.phase.Unsettled? && |txs| > 0 {
      assert InTurn(txs, 0) && PaidFor(txs, 0, head);
      assert AccountInOrder(mode, b.pending, nonces, head, a);
      assert txs[0].nonce !in ItemsOf(b.pending, a);
      ReadyStartsAt(mode.phase, ItemsOf(b.pending, a), NonceAt(head, a), start, BalanceAt(head, a), head.maxGas, txs[0].nonce);
    }
  }

  /** What is ready of an account has consecutive nonces, up to the start at the earliest, and can be paid for. */
  lemma ReadyInTurn(items: Items, start: nat, a: Address, head: Head)
    requires Keyed(items) && Executable(items, head, a) && forall n :: n in items ==> items[n].from == a
    ensures var txs := Flat(Below(items, ReadyEnd(items, start)));
            && Consecutive(txs) && (forall i: nat {:trigger PaidFor(txs, i, head)} :: PaidFor(txs, i, head))
            && (|txs| > 0 ==> txs[0].from == a && txs[0].nonce in items && NonceAt(head, a) <= txs[0].nonce <= start)
  {
    var ready := Below(items, ReadyEnd(items, start));
    FlatLists(ready);
    ReadyRun(items, start);
  }

  lemma ReadyFacts(b: Books, nonces: map<Address, nat>, head: Head, a: Address, end: nat, mode: Mode)
    requires Partition(b, {}) && AllInOrder(mode, b.pending, nonces, head) && a in b.queue
    requires end == ReadyEnd(b.queue[a].items, VirtualNonce(nonces, head, a))
    requires Executable(b.queue[a].items, head, a)
    ensures var l := b.queue[a];
            var b', txs := b.(queue := b.queue[a := l.(items := From(l.items, end))]), Flat(Below(l.items, end));
            Partition(b', Elements(txs)) && Free(b', Elements(txs)) && RunOk(txs, mode, nonces, head)
  {
    ReadyHand(b, a, end);
    ReadyPaid(b, nonces, head, a, end, mode);
  }

  /** A transaction put in the place of a pending one with its nonce leaves the order alone. */
  lemma ReplaceFits(b: Books, mode: Mode, nonces: map<Address, nat>, head: Head, tx: Tx)
    requires Partition(b, {}) && AllInOrder(mode, b.pending, nonces, head) && tx !in b.all
    requires tx.nonce in ItemsOf(b.pending, tx.from) && tx.Cost() <= BalanceAt(head, tx.from) && tx.gas <= head.maxGas
    ensures AllInOrder(mode, Promoted(b, tx).pending, nonces, head) && Enters(b.all, Promoted(b, tx).all, tx)
    ensures NoneEmpty(b.pending) ==> NoneEmpty(Promoted(b, tx).pending)
  {
    OneInserted(b.pending, tx);
    ReplaceInOrder(mode, b.pending, Inserted(b.pending, tx, true), nonces, head, tx);
    EntersAs(b, b.pending, tx);
  }

  lemma EntersAs(b: Books, lists: Lists, tx: Tx)
    requires Partition(b, {}) && (lists == b.pending || lists == b.queue) && tx !in b.all
    ensures Enters(b.all, Entered(b, lists, tx).all, tx)
  {
  }
}
