/**
 * The pool's books as values (core/tx_pool.go): the pending and the queued lists by account, the
 * table of all transactions and its slot count. The table is keyed by the transaction itself, which
 * is what a hash identifies.
 */
module PoolBooks {
  import opened Types
  import opened NonceOrder
  import opened AccountList
  import opened PricedList

  type Lists = map<Address, List>

  datatype Books = Books(pending: Lists, queue: Lists, all: set<Tx>, slots: int)

  function ItemsOf(lists: Lists, a: Address): Items {
    if a in lists then lists[a].items else map[]
  }

  function ListOf(lists: Lists, a: Address, strict: bool): List {
    if a in lists then lists[a] else List(strict, map[], 0, 0)
  }

  /** The list of its sender holds the transaction. */
  predicate Holds(lists: Lists, tx: Tx) {
    tx.nonce in ItemsOf(lists, tx.from) && ItemsOf(lists, tx.from)[tx.nonce] == tx
  }

  ghost predicate ListOk(l: List, a: Address, strict: bool) {
    l.strict == strict && WithinCaps(l) && forall n :: n in l.items ==> l.items[n].from == a && n <= MAX_UINT64
  }

  ghost predicate ListsOk(lists: Lists, strict: bool) {
    forall a :: a in lists ==> ListOk(lists[a], a, strict)
  }

  /** No list is empty: accounts without transactions have none. */
  predicate NoneEmpty(lists: Lists) {
    forall a :: a in lists ==> lists[a].items != map[]
  }

  /** Every transaction takes up a slot. */
  lemma {:induction false} SlotSumAtLeast(txs: set<Tx>)
    requires forall tx :: tx in txs ==> tx.size > 0
    ensures SlotSum(txs) >= |txs|
  {
    if txs != {} {
      var tx :| tx in txs;
      SlotSumAtLeast(txs - {tx});
      SlotSumAdd(txs - {tx}, tx);
      assert (txs - {tx}) + {tx} == txs;
    }
  }

  /** A nonce of an account is in one of its two lists at most. */
  ghost predicate Apart(pending: Lists, queue: Lists) {
    forall a, n :: n in ItemsOf(pending, a) ==> n !in ItemsOf(queue, a)
  }

  /** The table holds the pending and the queued transactions and those in hand, which are in neither list. */
  ghost predicate Exact(b: Books, hand: set<Tx>) {
    && (forall tx :: tx in b.all <==> Holds(b.pending, tx) || Holds(b.queue, tx) || tx in hand)
    && (forall tx :: tx in hand ==> !Holds(b.pending, tx) && !Holds(b.queue, tx))
  }

  ghost predicate Counted(b: Books) {
    b.slots == SlotSum(b.all) && forall tx :: tx in b.all ==> tx.size > 0
  }

  /**
   * The table is the disjoint union of pending, queued and, in the middle of an operation,
   * transactions in hand; and the slots are counted.
   */
  ghost predicate Partition(b: Books, hand: set<Tx>) {
    && ListsOk(b.pending, true) && ListsOk(b.queue, false) && Apart(b.pending, b.queue)
    && Exact(b, hand) && Counted(b)
  }

  /** The nonces of the transactions in hand are in no list, and differ. */
  ghost predicate Free(b: Books, hand: set<Tx>) {
    && (forall tx :: tx in hand ==> tx.nonce !in ItemsOf(b.pending, tx.from) && tx.nonce !in ItemsOf(b.queue, tx.from))
    && (forall t, u :: t in hand && u in hand && t.from == u.from && t.nonce == u.nonce ==> t == u)
  }

  // ----- The table -----

  function Forget(b: Books, tx: Tx): Books {
    b.(all := b.all - {tx}, slots := b.slots - NumSlots(tx))
  }

  function Record(b: Books, tx: Tx): Books {
    b.(all := b.all + {tx}, slots := b.slots + NumSlots(tx))
  }

  lemma ForgetHand(b: Books, hand: set<Tx>, tx: Tx)
    requires Partition(b, hand) && tx in hand
    ensures Partition(Forget(b, tx), hand - {tx})
  {
    SlotSumAdd(b.all - {tx}, tx);
    assert (b.all - {tx}) + {tx} == b.all;
  }

  // ----- Taking transactions out of a list -----

  /** The transactions in `items` whose nonce is not in `left`. */
  function Taken(items: Items, left: Items): set<Tx> {
    set n | n in items && n !in left :: items[n]
  }

  predicate PartOf(left: Items, items: Items) {
    forall n :: n in left ==> n in items && left[n] == items[n]
  }

  lemma TakeQueued(b: Books, hand: set<Tx>, a: Address, l: List)
    requires Partition(b, hand) && a in b.queue && ListOk(l, a, false) && PartOf(l.items, b.queue[a].items)
    ensures var taken := Taken(b.queue[a].items, l.items);
            && Partition(b.(queue := b.queue[a := l]), hand + taken)
            && (hand == {} ==> Free(b.(queue := b.queue[a := l]), taken))
  {
    var queue := b.queue[a := l];
    assert forall tx :: Holds(b.queue, tx) <==> Holds(queue, tx) || tx in Taken(b.queue[a].items, l.items);
  }

  lemma TakePending(b: Books, hand: set<Tx>, a: Address, l: List)
    requires Partition(b, hand) && a in b.pending && ListOk(l, a, true) && PartOf(l.items, b.pending[a].items)
    ensures var taken := Taken(b.pending[a].items, l.items);
            && Partition(b.(pending := b.pending[a := l]), hand + taken)
            && (hand == {} ==> Free(b.(pending := b.pending[a := l]), taken))
  {
    var pending := b.pending[a := l];
    assert forall tx :: Holds(b.pending, tx) <==> Holds(pending, tx) || tx in Taken(b.pending[a].items, l.items);
  }

  lemma DropEmpty(b: Books, hand: set<Tx>, a: Address)
    requires Partition(b, hand)
    ensures ItemsOf(b.pending, a) == map[] ==> Partition(b.(pending := b.pending - {a}), hand)
    ensures ItemsOf(b.queue, a) == map[] ==> Partition(b.(queue := b.queue - {a}), hand)
  {
    assert ItemsOf(b.pending, a) == map[] ==> forall x :: ItemsOf(b.pending - {a}, x) == ItemsOf(b.pending, x);
    assert ItemsOf(b.queue, a) == map[] ==> forall x :: ItemsOf(b.queue - {a}, x) == ItemsOf(b.queue, x);
  }

  // ----- Putting transactions into a list -----

  /** The transaction an insertion replaces. */
  function Replaced(lists: Lists, tx: Tx): set<Tx> {
    if tx.nonce in ItemsOf(lists, tx.from) then {ItemsOf(lists, tx.from)[tx.nonce]} else {}
  }

  function Inserted(lists: Lists, tx: Tx, strict: bool): Lists {
    lists[tx.from := Insert(ListOf(lists, tx.from, strict), tx)]
  }

  lemma InsertedHolds(lists: Lists, tx: Tx, strict: bool, t: Tx)
    requires ListsOk(lists, strict)
    ensures Holds(Inserted(lists, tx, strict), t) <==> t == tx || (Holds(lists, t) && t !in Replaced(lists, tx))
  {
  }

  lemma InsertOk(lists: Lists, tx: Tx, strict: bool)
    requires ListsOk(lists, strict) && tx.nonce <= MAX_UINT64
    ensures ListsOk(Inserted(lists, tx, strict), strict)
    ensures forall a :: a != tx.from ==> ItemsOf(Inserted(lists, tx, strict), a) == ItemsOf(lists, a)
    ensures ItemsOf(Inserted(lists, tx, strict), tx.from) == ItemsOf(lists, tx.from)[tx.nonce := tx]
    ensures forall t :: Holds(Inserted(lists, tx, strict), t) <==> t == tx || (Holds(lists, t) && t !in Replaced(lists, tx))
  {
    forall t ensures Holds(Inserted(lists, tx, strict), t) <==> t == tx || (Holds(lists, t) && t !in Replaced(lists, tx)) {
      InsertedHolds(lists, tx, strict, t);
    }
  }

  /** The table after `tx` has been put into a list in place of what `lists` has at its nonce. */
  function Entered(b: Books, lists: Lists, tx: Tx): Books {
    var c := if tx.nonce in ItemsOf(lists, tx.from) then Forget(b, ItemsOf(lists, tx.from)[tx.nonce]) else b;
    if tx in c.all then c else Record(c, tx)
  }

  function Enqueued(b: Books, tx: Tx): Books {
    Entered(b, b.queue, tx).(queue := Inserted(b.queue, tx, false))
  }

  function Promoted(b: Books, tx: Tx): Books {
    Entered(b, b.pending, tx).(pending := Inserted(b.pending, tx, true))
  }

  lemma EnteredCounted(b: Books, hand: set<Tx>, lists: Lists, tx: Tx)
    requires Partition(b, hand) && (lists == b.pending || lists == b.queue) && tx.size > 0
    requires tx in hand || tx !in b.all
    ensures Counted(Entered(b, lists, tx)) && Entered(b, lists, tx).all == (b.all - Replaced(lists, tx)) + {tx}
  {
    var items := ItemsOf(lists, tx.from);
    var c := b;
    if tx.nonce in items {
      var other := items[tx.nonce];
      assert Holds(lists, other);
      SlotSumAdd(b.all - {other}, other);
      assert (b.all - {other}) + {other} == b.all;
      c := Forget(b, other);
    }
    if tx !in c.all {
      SlotSumAdd(c.all, tx);
    }
  }

  /** Queueing keeps the books, if the nonce is not pending. */
  lemma EnqueueKeeps(b: Books, hand: set<Tx>, tx: Tx)
    requires Partition(b, hand) && (tx in hand || tx !in b.all) && tx.size > 0 && tx.nonce <= MAX_UINT64
    requires tx.nonce !in ItemsOf(b.pending, tx.from)
    ensures Partition(Enqueued(b, tx), hand - {tx})
  {
    EnteredCounted(b, hand, b.queue, tx);
    InsertOk(b.queue, tx, false);
  }

  /** Making pending keeps the books, if the nonce is not queued. */
  lemma PromoteKeeps(b: Books, hand: set<Tx>, tx: Tx)
    requires Partition(b, hand) && (tx in hand || tx !in b.all) && tx.size > 0 && tx.nonce <= MAX_UINT64
    requires tx.nonce !in ItemsOf(b.queue, tx.from)
    ensures Partition(Promoted(b, tx), hand - {tx})
  {
    EnteredCounted(b, hand, b.pending, tx);
    InsertOk(b.pending, tx, true);
  }

  /** A transaction in hand whose nonce is free is accepted, and replaces nothing. */
  lemma EnqueueFree(b: Books, hand: set<Tx>, tx: Tx, priceBump: nat)
    requires Partition(b, hand) && Free(b, hand) && tx in hand
    ensures Accepts(ListOf(b.queue, tx.from, false), tx, priceBump)
    ensures Enqueued(b, tx) == b.(queue := Inserted(b.queue, tx, false)) && Free(Enqueued(b, tx), hand - {tx})
  {
  }

  /** A transaction in hand that is free becomes pending, replacing nothing. */
  lemma PromoteFree(b: Books, hand: set<Tx>, tx: Tx, priceBump: nat)
    requires Partition(b, hand) && Free(b, hand) && tx in hand
    ensures Accepts(ListOf(b.pending, tx.from, true), tx, priceBump)
    ensures Promoted(b, tx) == b.(pending := Inserted(b.pending, tx, true)) && Free(Promoted(b, tx), hand - {tx})
  {
  }

  /** The nonces in hand have 64 bits, and the transactions some size. */
  ghost predicate Sized(hand: set<Tx>) {
    forall tx :: tx in hand ==> tx.nonce <= MAX_UINT64 && tx.size > 0
  }

  /** Inserting makes no list empty. */
  lemma InsertNoneEmpty(lists: Lists, tx: Tx, strict: bool)
    requires NoneEmpty(lists)
    ensures NoneEmpty(Inserted(lists, tx, strict))
  {
    assert tx.nonce in Insert(ListOf(lists, tx.from, strict), tx).items;
  }

  // ----- Removing one transaction -----

  /** `lists` with other contents for an account, and no list if they are empty. */
  function Reduced(lists: Lists, a: Address, left: Items): Lists
    requires a in lists
  {
    if left == map[] then lists - {a} else lists[a := lists[a].(items := left)]
  }

  lemma ReducedItems(lists: Lists, a: Address, left: Items)
    requires a in lists
    ensures ItemsOf(Reduced(lists, a, left), a) == left && Reduced(lists, a, left) - {a} == lists - {a}
    ensures forall x :: x != a ==> ItemsOf(Reduced(lists, a, left), x) == ItemsOf(lists, x)
  {
  }

  lemma ReducedNoneEmpty(lists: Lists, a: Address, left: Items)
    requires a in lists && NoneEmpty(lists)
    ensures NoneEmpty(Reduced(lists, a, left))
  {
  }

  lemma PartListOk(l: List, a: Address, left: Items, strict: bool)
    requires ListOk(l, a, strict) && PartOf(left, l.items)
    ensures ListOk(l.(items := left), a, strict)
  {
  }

  lemma TakenSized(b: Books, hand: set<Tx>, l: List, a: Address, strict: bool, left: Items)
    requires Partition(b, hand) && ListOk(l, a, strict) && Taken(l.items, left) <= hand
    ensures Sized(Taken(l.items, left))
  {
  }

  /** Whether an empty list is kept makes no difference to what is free. */
  lemma SameFree(b: Books, b': Books, hand: set<Tx>, a: Address)
    requires Free(b, hand)
    requires b' == b || (ItemsOf(b.pending, a) == map[] && b' == b.(pending := b.pending - {a}))
      || (ItemsOf(b.queue, a) == map[] && b' == b.(queue := b.queue - {a}))
    ensures Free(b', hand)
  {
  }

  lemma ReducePending(b: Books, a: Address, left: Items)
    requires Partition(b, {}) && a in b.pending && PartOf(left, b.pending[a].items)
    ensures var b', taken := b.(pending := Reduced(b.pending, a, left)), Taken(b.pending[a].items, left);
            Partition(b', taken) && Free(b', taken) && Sized(taken)
  {
    var c, taken := b.(pending := b.pending[a := b.pending[a].(items := left)]), Taken(b.pending[a].items, left);
    ShrunkPending(b, a, left);
    DropEmpty(c, taken, a);
    assert c.pending - {a} == b.pending - {a};
    SameFree(c, b.(pending := Reduced(b.pending, a, left)), taken, a);
  }

  lemma ShrunkPending(b: Books, a: Address, left: Items)
    requires Partition(b, {}) && a in b.pending && PartOf(left, b.pending[a].items)
    ensures var b', taken := b.(pending := b.pending[a := b.pending[a].(items := left)]), Taken(b.pending[a].items, left);
            Partition(b', taken) && Free(b', taken) && Sized(taken)
  {
    var l, taken := b.pending[a].(items := left), Taken(b.pending[a].items, left);
    PartListOk(b.pending[a], a, left, true);
    assert {} + taken == taken;
    TakePending(b, {}, a, l);
    TakenSized(b.(pending := b.pending[a := l]), taken, b.pending[a], a, true, left);
  }

  lemma ReduceQueue(b: Books, a: Address, left: Items)
    requires Partition(b, {}) && a in b.queue && PartOf(left, b.queue[a].items)
    ensures var b', taken := b.(queue := Reduced(b.queue, a, left)), Taken(b.queue[a].items, left);
            Partition(b', taken) && Free(b', taken) && Sized(taken)
  {
    var c, taken := b.(queue := b.queue[a := b.queue[a].(items := left)]), Taken(b.queue[a].items, left);
    ShrunkQueue(b, a, left);
    DropEmpty(c, taken, a);
    assert c.queue - {a} == b.queue - {a};
    SameFree(c, b.(queue := Reduced(b.queue, a, left)), taken, a);
  }

  lemma ShrunkQueue(b: Books, a: Address, left: Items)
    requires Partition(b, {}) && a in b.queue && PartOf(left, b.queue[a].items)
    ensures var b', taken := b.(queue := b.queue[a := b.queue[a].(items := left)]), Taken(b.queue[a].items, left);
            Partition(b', taken) && Free(b', taken) && Sized(taken)
  {
    var l, taken := b.queue[a].(items := left), Taken(b.queue[a].items, left);
    PartListOk(b.queue[a], a, left, false);
    assert {} + taken == taken;
    TakeQueued(b, {}, a, l);
    TakenSized(b.(queue := b.queue[a := l]), taken, b.queue[a], a, false, left);
  }

  lemma RestInHand(items: Items, tx: Tx)
    requires Keyed(items) && tx.nonce in items && items[tx.nonce] == tx
    ensures var taken := Taken(items, Below(items, tx.nonce));
            tx in taken && taken - {tx} == From(items, tx.nonce + 1).Values
  {
    var left, rest := Below(items, tx.nonce), From(items, tx.nonce + 1);
    assert tx.nonce !in left;
    forall t ensures t in Taken(items, left) - {tx} <==> t in rest.Values {
      if t in rest.Values {
        var n :| n in rest && rest[n] == t;
        assert n in items && n !in left;
      }
      if t in Taken(items, left) && t != tx {
        assert t.nonce in rest && rest[t.nonce] == t;
      }
    }
  }

  /** Removing a pending transaction leaves those after it in hand. */
  lemma CutPending(b: Books, tx: Tx)
    requires Partition(b, {}) && Holds(b.pending, tx)
    ensures var items := ItemsOf(b.pending, tx.from);
            var b' := Forget(b, tx).(pending := Reduced(b.pending, tx.from, Below(items, tx.nonce)));
            var rest := From(items, tx.nonce + 1).Values;
            Partition(b', rest) && Free(b', rest) && Sized(rest)
  {
    var items := ItemsOf(b.pending, tx.from);
    var left := Below(items, tx.nonce);
    ReducePending(b, tx.from, left);
    var taken := Taken(items, left);
    RestInHand(items, tx);
    var c := b.(pending := Reduced(b.pending, tx.from, left));
    ForgetHand(c, taken, tx);
    FewerFree(c, Forget(c, tx), taken, taken - {tx});
  }

  lemma FewerFree(b: Books, c: Books, hand: set<Tx>, less: set<Tx>)
    requires Free(b, hand) && Sized(hand) && less <= hand && c.pending == b.pending && c.queue == b.queue
    ensures Free(c, less) && Sized(less)
  {
  }

  lemma CutQueued(b: Books, tx: Tx)
    requires Partition(b, {}) && Holds(b.queue, tx)
    ensures Partition(Forget(b, tx).(queue := Reduced(b.queue, tx.from, ItemsOf(b.queue, tx.from) - {tx.nonce})), {})
  {
    var items := ItemsOf(b.queue, tx.from);
    var left := items - {tx.nonce};
    ReduceQueue(b, tx.from, left);
    TakenOne(items, tx);
    ForgetHand(b.(queue := Reduced(b.queue, tx.from, left)), {tx}, tx);
    assert {tx} - {tx} == {};
  }

  lemma TakenOne(items: Items, tx: Tx)
    requires tx.nonce in items && items[tx.nonce] == tx
    ensures Taken(items, items - {tx.nonce}) == {tx}
  {
    assert tx.nonce in items && tx.nonce !in items - {tx.nonce};
  }

  /** Which of the lists a transaction of the table is in can be told by its nonce. */
  lemma Located(b: Books, tx: Tx)
    requires Partition(b, {}) && tx in b.all
    ensures tx.nonce in ItemsOf(b.pending, tx.from) <==> Holds(b.pending, tx)
    ensures tx.nonce !in ItemsOf(b.pending, tx.from) <==> Holds(b.queue, tx)
    ensures Record(Forget(b, tx), tx) == b
  {
    assert (b.all - {tx}) + {tx} == b.all;
  }
}
