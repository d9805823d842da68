/**
 * An account's pending nonces against its nonce in the chain state and its virtual nonce in the
 * pool (core/tx_noncer.go, core/tx_pool.go).
 */
module PoolNonces {
  import opened Types
  import opened NonceOrder
  import opened SortedMap
  import opened AccountList

  /** What the pool knows of the chain at its head. */
  datatype Head = Head(nonces: map<Address, nat>, balances: map<Address, nat>, maxGas: nat)

  function NonceAt(head: Head, a: Address): nat {
    if a in head.nonces then head.nonces[a] else 0
  }

  function BalanceAt(head: Head, a: Address): nat {
    if a in head.balances then head.balances[a] else 0
  }

  /** The virtual nonce: the state's where none has been set. */
  function VirtualNonce(nonces: map<Address, nat>, head: Head, a: Address): nat {
    if a in nonces then nonces[a] else NonceAt(head, a)
  }

  /**
   * How far the pool is from rest. `Unsettled` asks nothing; `Settled` holds between operations;
   * `Resetting` after the chain state has moved on; `Demoted` once what it invalidated is gone.
   */
  datatype Phase = Unsettled | Settled | Resetting | Demoted

  /**
   * `fallen` are the accounts whose virtual nonce is below their state nonce; in a reset, those that had
   * it before, and `before` are the lists that were pending when the state moved on.
   */
  datatype Mode = Mode(phase: Phase, before: map<Address, List>, fallen: set<Address>)

  const UNSETTLED := Mode(Unsettled, map[], {})

  ghost predicate Payable(items: Items, balance: nat, maxGas: nat) {
    forall n :: n in items ==> items[n].Cost() <= balance && items[n].gas <= maxGas
  }

  /** What holds of an account with state nonce `s` and virtual nonce `v`. */
  ghost predicate InOrder(phase: Phase, items: Items, s: nat, v: nat, balance: nat, maxGas: nat) {
    match phase
    case Unsettled => true
    case Settled => (forall k: nat :: k in items <==> s <= k < v) && Payable(items, balance, maxGas)
    case Resetting =>
      && (forall k :: k in items && k >= s ==> k < RunEnd(items, s))
      && (v <= s || (v == RunEnd(items, s) && Payable(From(items, s), balance, maxGas)))
    case Demoted =>
      && (forall k: nat :: k in items <==> s <= k < RunEnd(items, s)) && Payable(items, balance, maxGas)
      && (v <= s || v == RunEnd(items, s))
  }

  lemma RunEndIs(items: Items, n: nat, end: nat)
    requires n <= end && end !in items && forall k :: n <= k < end ==> k in items
    ensures RunEnd(items, n) == end
  {
    var e := RunEnd(items, n);
    assert e < end ==> e in items;
    assert end < e ==> end in items;
  }

  function Min(a: nat, b: nat): nat {
    if a <= b then a else b
  }

  lemma PayableWith(items: Items, s: nat, balance: nat, maxGas: nat, tx: Tx)
    requires Payable(From(items, s), balance, maxGas) && tx.Cost() <= balance && tx.gas <= maxGas
    ensures Payable(From(items[tx.nonce := tx], s), balance, maxGas)
  {
    var more := items[tx.nonce := tx];
    forall n | n in From(more, s) ensures more[n].Cost() <= balance && more[n].gas <= maxGas {
      assert n != tx.nonce ==> n in From(items, s);
    }
  }

  /** Removing a pending transaction and what comes after, and lowering the virtual nonce to it. */
  lemma CutKeeps(phase: Phase, items: Items, s: nat, v: nat, balance: nat, maxGas: nat, n: nat)
    requires InOrder(phase, items, s, v, balance, maxGas) && n in items
    ensures InOrder(phase, Below(items, n), s, Min(v, n), balance, maxGas)
  {
    var left := Below(items, n);
    if phase.Resetting? || phase.Demoted? {
      RunEndIs(left, s, if n < s then s else n);
    }
  }

  /** Making the transaction at the virtual nonce pending. */
  lemma ExtendKeeps(phase: Phase, items: Items, s: nat, v: nat, balance: nat, maxGas: nat, tx: Tx)
    requires InOrder(phase, items, s, v, balance, maxGas)
    requires !phase.Unsettled? ==>
      tx.nonce == v && v >= s && v !in items && tx.Cost() <= balance && tx.gas <= maxGas
    ensures InOrder(phase, items[tx.nonce := tx], s, tx.nonce + 1, balance, maxGas)
  {
    if phase.Resetting? || phase.Demoted? {
      assert RunEnd(items, s) == v;
      assert v + 1 !in items;
      PayableWith(items, s, balance, maxGas, tx);
      RunEndIs(items[v := tx], s, v + 1);
    }
  }

  /** Replacing a pending transaction by one that can be paid for. */
  lemma ReplaceKeeps(phase: Phase, items: Items, s: nat, v: nat, balance: nat, maxGas: nat, tx: Tx)
    requires InOrder(phase, items, s, v, balance, maxGas) && tx.nonce in items
    requires tx.Cost() <= balance && tx.gas <= maxGas
    ensures InOrder(phase, items[tx.nonce := tx], s, v, balance, maxGas)
  {
    if phase.Resetting? && v > s {
      PayableWith(items, s, balance, maxGas, tx);
    }
    RunEndIs(items[tx.nonce := tx], s, RunEnd(items, s));
  }

  /** What is ready starts at the virtual nonce. */
  lemma ReadyStartsAt(phase: Phase, items: Items, s: nat, v: nat, balance: nat, maxGas: nat, first: nat)
    requires InOrder(phase, items, s, v, balance, maxGas) && !phase.Unsettled?
    requires s <= first <= v && first !in items
    ensures first == v
  {
  }

  /** A state that has moved on to nonces no lower, with a fresh virtual nonce. */
  lemma ResetFrom(items: Items, s: nat, v: nat, balance: nat, maxGas: nat, s': nat, balance': nat, maxGas': nat)
    requires InOrder(Settled, items, s, v, balance, maxGas) && s <= s'
    ensures InOrder(Resetting, items, s', s', balance', maxGas')
  {
    RunEndIs(items, s', if v < s' then s' else v);
  }

  lemma SettledIsResetting(items: Items, s: nat, v: nat, balance: nat, maxGas: nat)
    requires InOrder(Settled, items, s, v, balance, maxGas)
    ensures InOrder(Resetting, items, s, v, balance, maxGas)
  {
    RunEndIs(items, s, if v < s then s else v);
  }

  /** Dropping what is below the state nonce and what cannot be paid for, with what comes after it. */
  lemma DemoteSettles(l: List, s: nat, v: nat, balance: nat, maxGas: nat)
    requires WithinCaps(l) && l.strict && InOrder(Resetting, l.items, s, v, balance, maxGas)
    ensures var left := Filtered(l.(items := From(l.items, s)), balance, maxGas).items;
            && InOrder(Demoted, left, s, v, balance, maxGas)
            && (left != map[] ==> s in left)
  {
    var fwd := l.(items := From(l.items, s));
    SkippingIsExact(fwd, balance, maxGas);
    if Unaffordable(fwd, balance, maxGas) == map[] {
      AllPayable(fwd, balance, maxGas);
      RunEndIs(Affordable(fwd, balance, maxGas), s, RunEnd(l.items, s));
    } else {
      CutSettles(l, s, v, balance, maxGas);
    }
  }

  /** The case that something cannot be paid for: what is left ends below the first of that. */
  lemma CutSettles(l: List, s: nat, v: nat, balance: nat, maxGas: nat)
    requires Keyed(l.items) && l.strict && InOrder(Resetting, l.items, s, v, balance, maxGas)
    requires Unaffordable(l.(items := From(l.items, s)), balance, maxGas) != map[]
    ensures var left := Affordable(l.(items := From(l.items, s)), balance, maxGas);
            && InOrder(Demoted, left, s, v, balance, maxGas)
            && (left != map[] ==> s in left)
  {
    var fwd := l.(items := From(l.items, s));
    StrictKeepsBelow(fwd, balance, maxGas);
    var left, lowest := Affordable(fwd, balance, maxGas), Least(Unaffordable(fwd, balance, maxGas).Keys);
    AllPayable(fwd.(items := left), balance, maxGas);
    RunEndIs(left, s, lowest);
  }

  lemma AllPayable(l: List, balance: nat, maxGas: nat)
    ensures Unaffordable(l, balance, maxGas) == map[] <==> Payable(l.items, balance, maxGas)
    ensures Unaffordable(l, balance, maxGas) == map[] ==> Affordable(l, balance, maxGas) == l.items
  {
    forall n | n in l.items
      ensures n in Unaffordable(l, balance, maxGas) <==> l.items[n].gas > maxGas || l.items[n].Cost() > balance
    {
    }
  }

  /** At the end of a reset the virtual nonce of an account with pending transactions is put after the last. */
  lemma FinishSettles(items: Items, s: nat, v: nat, balance: nat, maxGas: nat, last: nat)
    requires InOrder(Demoted, items, s, v, balance, maxGas)
    ensures items == map[] ==> InOrder(Settled, items, s, v, balance, maxGas)
    ensures last in items && (forall k :: k in items ==> k <= last) ==>
      InOrder(Settled, items, s, last + 1, balance, maxGas)
  {
    if last in items && forall k :: k in items ==> k <= last {
      assert RunEnd(items, s) - 1 in items;
    }
  }

  // ----- Virtual nonces below the state nonce -----

  /** A transaction that was pending below the state nonce is gone. */
  ghost predicate Lost(before: Items, items: Items, s: nat) {
    exists n :: n in before && n < s && n !in items
  }

  /**
   * When the virtual nonce is below the state nonce: if it was before the reset or a pending transaction
   * below the state nonce was removed since. Nothing from the state nonce on is pending then.
   */
  ghost predicate Fell(phase: Phase, before: Items, items: Items, s: nat, v: nat, low: bool) {
    match phase
    case Unsettled => true
    case Resetting =>
      && (v < s <==> low || Lost(before, items, s)) && (v < s ==> forall k :: k in items ==> k < s)
      && (forall k :: k in items && k < s ==> k in before)
    case _ => (v < s <==> low) && (v < s ==> items == map[])
  }

  lemma CutFalls(phase: Phase, before: Items, items: Items, s: nat, v: nat, low: bool, balance: nat, maxGas: nat, n: nat)
    requires InOrder(phase, items, s, v, balance, maxGas) && Fell(phase, before, items, s, v, low) && n in items
    ensures Fell(phase, before, Below(items, n), s, Min(v, n), low)
  {
    var left := Below(items, n);
    if phase.Resetting? {
      if n < s {
        assert n in before && n !in left;
      } else {
        assert forall m :: m < s ==> (m in left <==> m in items);
      }
    }
  }

  lemma ReplaceFalls(phase: Phase, before: Items, items: Items, s: nat, v: nat, low: bool, tx: Tx)
    requires Fell(phase, before, items, s, v, low) && tx.nonce in items
    ensures Fell(phase, before, items[tx.nonce := tx], s, v, low)
  {
  }

  lemma ExtendFalls(phase: Phase, before: Items, items: Items, s: nat, v: nat, low: bool, tx: Tx)
    requires Fell(phase, before, items, s, v, low) && (!phase.Unsettled? ==> tx.nonce == v >= s)
    ensures Fell(phase, before, items[tx.nonce := tx], s, tx.nonce + 1, low)
  {
    if phase.Resetting? {
      assert Lost(before, items[tx.nonce := tx], s) <==> Lost(before, items, s);
    }
  }

  /** While the virtual nonce is below the state nonce nothing in the queue is ready, whatever it holds. */
  lemma NoneReady(queue: Items, s: nat, v: nat)
    requires v < s
    ensures ReadyEnd(From(queue, s), v) == 0
    ensures s in queue ==> ReadyEnd(From(queue, s), s) > s
  {
    var items := From(queue, s);
    if s in queue {
      assert s in items && Least(items.Keys) == s;
    }
  }

  /**
   * The state has moved to nonce 5 while 3 is pending, and 3 is removed before it is demoted: the virtual
   * nonce is 3, and the queued transaction at 5 is not ready, although it can be executed.
   */
  lemma FallsBehind(three: Tx, five: Tx, balance: nat, maxGas: nat)
    ensures var before := map[3 := three];
            && InOrder(Resetting, before, 5, 5, balance, maxGas) && Fell(Resetting, before, before, 5, 5, false)
            && InOrder(Resetting, Below(before, 3), 5, Min(5, 3), balance, maxGas) && Lost(before, Below(before, 3), 5)
            && ReadyEnd(map[5 := five], Min(5, 3)) == 0 && ReadyEnd(map[5 := five], 5) == 6
  {
    var before, queue: Items := map[3 := three], map[5 := five];
    RunEndIs(before, 5, 5);
    CutKeeps(Resetting, before, 5, 5, balance, maxGas, 3);
    assert 3 in before && 3 !in Below(before, 3);
    assert queue.Keys == {5} && Least(queue.Keys) == 5;
    RunEndIs(queue, 5, 6);
  }

  // ----- All accounts -----

  ghost predicate AccountInOrder(mode: Mode, pending: map<Address, List>, nonces: map<Address, nat>, head: Head, a: Address) {
    var items, s, v := ItemsIn(pending, a), NonceAt(head, a), VirtualNonce(nonces, head, a);
    && InOrder(mode.phase, items, s, v, BalanceAt(head, a), head.maxGas)
    && Fell(mode.phase, ItemsIn(mode.before, a), items, s, v, a in mode.fallen)
  }

  function ItemsIn(lists: map<Address, List>, a: Address): Items {
    if a in lists then lists[a].items else map[]
  }

  /** The accounts of which a pending transaction below the state nonce is gone. */
  ghost function FallenFrom(before: map<Address, List>, pending: map<Address, List>, head: Head): set<Address> {
    set a | a in before && Lost(before[a].items, ItemsIn(pending, a), NonceAt(head, a))
  }

  ghost predicate AllInOrder(mode: Mode, pending: map<Address, List>, nonces: map<Address, nat>, head: Head) {
    forall a: Address {:trigger AccountInOrder(mode, pending, nonces, head, a)} ::
      AccountInOrder(mode, pending, nonces, head, a)
  }

  /** An operation on one account leaves the others in order. */
  lemma OneAccount(
    mode: Mode, pending: map<Address, List>, nonces: map<Address, nat>,
    pending': map<Address, List>, nonces': map<Address, nat>, head: Head, a: Address)
    requires AllInOrder(mode, pending, nonces, head) && AccountInOrder(mode, pending', nonces', head, a)
    requires pending' - {a} == pending - {a} && nonces' - {a} == nonces - {a}
    ensures AllInOrder(mode, pending', nonces', head)
  {
    forall x: Address ensures AccountInOrder(mode, pending', nonces', head, x) {
      if x != a {
        assert AccountInOrder(mode, pending, nonces, head, x);
        assert x in pending - {a} <==> x in pending;
        assert x in pending' - {a} <==> x in pending';
        assert x in nonces - {a} <==> x in nonces;
        assert x in nonces' - {a} <==> x in nonces';
        assert x in pending ==> (pending - {a})[x] == pending[x] == (pending' - {a})[x];
        assert x in nonces ==> (nonces - {a})[x] == nonces[x] == (nonces' - {a})[x];
      }
    }
  }

  /** Cutting an account's pending transactions off at one of them and lowering its virtual nonce to it. */
  lemma CutInOrder(
    mode: Mode, pending: map<Address, List>, nonces: map<Address, nat>,
    pending': map<Address, List>, nonces': map<Address, nat>, head: Head, a: Address, n: nat)
    requires AllInOrder(mode, pending, nonces, head) && a in pending && n in pending[a].items
    requires pending' - {a} == pending - {a} && nonces' - {a} == nonces - {a}
    requires ItemsIn(pending', a) == Below(pending[a].items, n)
    requires VirtualNonce(nonces', head, a) == Min(VirtualNonce(nonces, head, a), n)
    ensures AllInOrder(mode, pending', nonces', head)
  {
    assert AccountInOrder(mode, pending, nonces, head, a);
    CutKeeps(mode.phase, pending[a].items, NonceAt(head, a), VirtualNonce(nonces, head, a), BalanceAt(head, a), head.maxGas, n);
    CutFalls(mode.phase, ItemsIn(mode.before, a), pending[a].items, NonceAt(head, a), VirtualNonce(nonces, head, a), a in mode.fallen,
             BalanceAt(head, a), head.maxGas, n);
    OneAccount(mode, pending, nonces, pending', nonces', head, a);
  }

  /** Replacing a pending transaction by one its sender can pay for. */
  lemma ReplaceInOrder(
    mode: Mode, pending: map<Address, List>, pending': map<Address, List>, nonces: map<Address, nat>, head: Head, tx: Tx)
    requires AllInOrder(mode, pending, nonces, head) && tx.from in pending && tx.nonce in pending[tx.from].items
    requires pending' - {tx.from} == pending - {tx.from} && tx.from in pending'
    requires pending'[tx.from].items == pending[tx.from].items[tx.nonce := tx]
    requires tx.Cost() <= BalanceAt(head, tx.from) && tx.gas <= head.maxGas
    ensures AllInOrder(mode, pending', nonces, head)
  {
    var a := tx.from;
    assert AccountInOrder(mode, pending, nonces, head, a);
    ReplaceKeeps(mode.phase, pending[a].items, NonceAt(head, a), VirtualNonce(nonces, head, a), BalanceAt(head, a), head.maxGas, tx);
    ReplaceFalls(mode.phase, ItemsIn(mode.before, a), pending[a].items, NonceAt(head, a), VirtualNonce(nonces, head, a), a in mode.fallen, tx);
    OneAccount(mode, pending, nonces, pending', nonces, head, a);
  }

  /** Making the transaction at an account's virtual nonce pending and moving the virtual nonce past it. */
  lemma ExtendInOrder(
    mode: Mode, pending: map<Address, List>, nonces: map<Address, nat>, pending': map<Address, List>, head: Head, tx: Tx)
    requires AllInOrder(mode, pending, nonces, head)
    requires pending' - {tx.from} == pending - {tx.from} && tx.from in pending'
    requires var items := ItemsIn(pending, tx.from);
             pending'[tx.from].items == items[tx.nonce := tx] && tx.nonce !in items
    requires !mode.phase.Unsettled? ==>
      && tx.nonce == VirtualNonce(nonces, head, tx.from) && tx.nonce >= NonceAt(head, tx.from)
      && tx.Cost() <= BalanceAt(head, tx.from) && tx.gas <= head.maxGas
    ensures AllInOrder(mode, pending', nonces[tx.from := tx.nonce + 1], head)
  {
    var a := tx.from;
    assert AccountInOrder(mode, pending, nonces, head, a);
    ExtendKeeps(mode.phase, ItemsIn(pending, a), NonceAt(head, a), VirtualNonce(nonces, head, a), BalanceAt(head, a), head.maxGas, tx);
    ExtendFalls(mode.phase, ItemsIn(mode.before, a), ItemsIn(pending, a), NonceAt(head, a), VirtualNonce(nonces, head, a), a in mode.fallen, tx);
    OneAccount(mode, pending, nonces, pending', nonces[a := tx.nonce + 1], head, a);
  }

  // ----- A reset -----

  /** The accounts in `todo` are still to be demoted. */
  ghost predicate PartlyDemoted(todo: set<Address>, mode: Mode, pending: map<Address, List>, nonces: map<Address, nat>, head: Head) {
    && (forall a {:trigger AccountInOrder(mode.(phase := Resetting), pending, nonces, head, a)} ::
      a in todo ==> AccountInOrder(mode.(phase := Resetting), pending, nonces, head, a))
    && (forall a: Address {:trigger AccountInOrder(mode.(phase := Demoted), pending, nonces, head, a)} ::
      a !in todo ==> AccountInOrder(mode.(phase := Demoted), pending, nonces, head, a))
    && (forall a :: a in todo ==> ItemsIn(pending, a) == ItemsIn(mode.before, a))
  }

  lemma DemotionStarts(mode: Mode, pending: map<Address, List>, nonces: map<Address, nat>, head: Head)
    requires AllInOrder(mode.(phase := Resetting), pending, nonces, head) && mode.before == pending
    ensures PartlyDemoted(pending.Keys, mode, pending, nonces, head)
  {
    assert forall a {:trigger AccountInOrder(mode.(phase := Resetting), pending, nonces, head, a)} ::
      a in pending.Keys ==> AccountInOrder(mode.(phase := Resetting), pending, nonces, head, a);
    forall a: Address | a !in pending.Keys ensures AccountInOrder(mode.(phase := Demoted), pending, nonces, head, a) {
      assert AccountInOrder(mode.(phase := Resetting), pending, nonces, head, a);
      RunEndIs(map[], NonceAt(head, a), NonceAt(head, a));
    }
  }

  lemma DemotionEnds(mode: Mode, pending: map<Address, List>, nonces: map<Address, nat>, head: Head)
    requires PartlyDemoted({}, mode, pending, nonces, head)
    ensures AllInOrder(mode.(phase := Demoted), pending, nonces, head)
  {
    forall a: Address ensures AccountInOrder(mode.(phase := Demoted), pending, nonces, head, a) {
      assert a !in {};
    }
  }

  lemma SameAccount(
    mode: Mode, pending: map<Address, List>, pending': map<Address, List>, nonces: map<Address, nat>, head: Head,
    a: Address, x: Address)
    requires AccountInOrder(mode, pending, nonces, head, x) && pending' - {a} == pending - {a} && x != a
    ensures AccountInOrder(mode, pending', nonces, head, x) && ItemsIn(pending', x) == ItemsIn(pending, x)
  {
    assert x in pending - {a} <==> x in pending;
    assert x in pending' - {a} <==> x in pending';
    assert x in pending ==> (pending - {a})[x] == pending[x] == (pending' - {a})[x];
  }

  /** Demoting one account: what is left of it, and what is left to do. */
  lemma DemoteOne(
    todo: set<Address>, mode: Mode, pending: map<Address, List>, pending': map<Address, List>, nonces: map<Address, nat>, head: Head,
    a: Address)
    requires PartlyDemoted(todo, mode, pending, nonces, head) && a in todo && a in pending
    requires pending' - {a} == pending - {a} && WithinCaps(pending[a]) && pending[a].strict
    requires ItemsIn(pending', a) == Eligible(pending[a], head, a)
    ensures PartlyDemoted(todo - {a}, mode, pending', nonces, head)
  {
    assert AccountInOrder(mode.(phase := Resetting), pending, nonces, head, a);
    DemoteSettles(pending[a], NonceAt(head, a), VirtualNonce(nonces, head, a), BalanceAt(head, a), head.maxGas);
    forall x | x in todo - {a}
      ensures AccountInOrder(mode.(phase := Resetting), pending', nonces, head, x) && ItemsIn(pending', x) == ItemsIn(mode.before, x)
    {
      SameAccount(mode.(phase := Resetting), pending, pending', nonces, head, a, x);
    }
    forall x: Address | x !in todo - {a} ensures AccountInOrder(mode.(phase := Demoted), pending', nonces, head, x) {
      if x != a {
        assert AccountInOrder(mode.(phase := Demoted), pending, nonces, head, x);
        SameAccount(mode.(phase := Demoted), pending, pending', nonces, head, a, x);
      }
    }
  }

  /** What is left of an account's list without what is too old or cannot be paid for. */
  function Eligible(l: List, head: Head, a: Address): Items {
    Filtered(l.(items := From(l.items, NonceAt(head, a))), BalanceAt(head, a), head.maxGas).items
  }

  /** What demotion queues again of an account's pending transactions, apart from the check for a gap in front. */
  function DemotedBack(l: List, head: Head, a: Address): Items {
    Invalidated(l.(items := From(l.items, NonceAt(head, a))), BalanceAt(head, a), head.maxGas)
  }

  /** In a reset there is no gap in front: what is left starts at the state nonce. */
  lemma NoGap(todo: set<Address>, mode: Mode, pending: map<Address, List>, nonces: map<Address, nat>, head: Head, a: Address)
    requires PartlyDemoted(todo, mode, pending, nonces, head) && a in todo && a in pending
    requires WithinCaps(pending[a]) && pending[a].strict
    ensures Eligible(pending[a], head, a) != map[] ==> NonceAt(head, a) in Eligible(pending[a], head, a)
  {
    assert AccountInOrder(mode.(phase := Resetting), pending, nonces, head, a);
    DemoteSettles(pending[a], NonceAt(head, a), VirtualNonce(nonces, head, a), BalanceAt(head, a), head.maxGas);
  }

  /** No account's state nonce falls from one head to the next. */
  ghost predicate Rises(head: Head, head': Head) {
    forall a: Address :: NonceAt(head, a) <= NonceAt(head', a)
  }

  /** Moving to a new head with fresh virtual nonces. */
  lemma ResetInOrder(mode: Mode, pending: map<Address, List>, nonces: map<Address, nat>, head: Head, head': Head)
    requires mode.phase.Settled? && AllInOrder(mode, pending, nonces, head) && Rises(head, head')
    ensures AllInOrder(Mode(Resetting, pending, {}), pending, map[], head')
  {
    forall a: Address ensures AccountInOrder(Mode(Resetting, pending, {}), pending, map[], head', a) {
      assert AccountInOrder(mode, pending, nonces, head, a);
      ResetFrom(ItemsIn(pending, a), NonceAt(head, a), VirtualNonce(nonces, head, a),
                BalanceAt(head, a), head.maxGas, NonceAt(head', a), BalanceAt(head', a), head'.maxGas);
    }
  }

  /** A reset that moves nowhere. */
  lemma SkipInOrder(mode: Mode, pending: map<Address, List>, nonces: map<Address, nat>, head: Head)
    requires mode.phase.Settled? && AllInOrder(mode, pending, nonces, head)
    ensures AllInOrder(Mode(Resetting, pending, mode.fallen), pending, nonces, head)
  {
    forall a: Address ensures AccountInOrder(Mode(Resetting, pending, mode.fallen), pending, nonces, head, a) {
      assert AccountInOrder(mode, pending, nonces, head, a);
      SettledIsResetting(ItemsIn(pending, a), NonceAt(head, a), VirtualNonce(nonces, head, a),
                         BalanceAt(head, a), head.maxGas);
    }
  }

  /** What a reset has lost so far, taken into account. */
  function Noted(mode: Mode, pending: map<Address, List>, fallen: set<Address>): Mode {
    Mode(mode.phase, pending, mode.fallen + fallen)
  }

  lemma NotedInOrder(mode: Mode, pending: map<Address, List>, nonces: map<Address, nat>, head: Head)
    requires mode.phase.Resetting? && AllInOrder(mode, pending, nonces, head)
    ensures AllInOrder(Noted(mode, pending, FallenFrom(mode.before, pending, head)), pending, nonces, head)
  {
    var noted := Noted(mode, pending, FallenFrom(mode.before, pending, head));
    forall a: Address ensures AccountInOrder(noted, pending, nonces, head, a) {
      assert AccountInOrder(mode, pending, nonces, head, a);
      assert !Lost(ItemsIn(pending, a), ItemsIn(pending, a), NonceAt(head, a));
    }
  }

  /** The virtual nonces of the accounts in `todo` are still to be set. */
  ghost predicate PartlyFinished(todo: set<Address>, mode: Mode, pending: map<Address, List>, nonces: map<Address, nat>, head: Head) {
    && (forall a {:trigger AccountInOrder(mode.(phase := Demoted), pending, nonces, head, a)} ::
      a in todo ==> AccountInOrder(mode.(phase := Demoted), pending, nonces, head, a))
    && (forall a: Address {:trigger AccountInOrder(mode.(phase := Settled), pending, nonces, head, a)} ::
      a !in todo ==> AccountInOrder(mode.(phase := Settled), pending, nonces, head, a))
  }

  lemma FinishStarts(mode: Mode, pending: map<Address, List>, nonces: map<Address, nat>, head: Head)
    requires AllInOrder(mode.(phase := Demoted), pending, nonces, head)
    ensures PartlyFinished(pending.Keys, mode, pending, nonces, head)
  {
    assert forall a {:trigger AccountInOrder(mode.(phase := Demoted), pending, nonces, head, a)} ::
      a in pending.Keys ==> AccountInOrder(mode.(phase := Demoted), pending, nonces, head, a);
    forall a: Address | a !in pending.Keys ensures AccountInOrder(mode.(phase := Settled), pending, nonces, head, a) {
      assert AccountInOrder(mode.(phase := Demoted), pending, nonces, head, a);
      FinishSettles(map[], NonceAt(head, a), VirtualNonce(nonces, head, a), BalanceAt(head, a), head.maxGas, 0);
    }
  }

  lemma FinishOne(
    todo: set<Address>, mode: Mode, pending: map<Address, List>, nonces: map<Address, nat>, head: Head, a: Address, last: nat)
    requires PartlyFinished(todo, mode, pending, nonces, head) && a in todo && a in pending
    requires last in pending[a].items && forall k :: k in pending[a].items ==> k <= last
    ensures PartlyFinished(todo - {a}, mode, pending, nonces[a := last + 1], head)
  {
    assert AccountInOrder(mode.(phase := Demoted), pending, nonces, head, a);
    FinishSettles(pending[a].items, NonceAt(head, a), VirtualNonce(nonces, head, a), BalanceAt(head, a), head.maxGas, last);
    forall x | x in todo - {a} ensures AccountInOrder(mode.(phase := Demoted), pending, nonces[a := last + 1], head, x) {
      assert AccountInOrder(mode.(phase := Demoted), pending, nonces, head, x);
    }
    forall x: Address | x !in todo - {a} ensures AccountInOrder(mode.(phase := Settled), pending, nonces[a := last + 1], head, x) {
      if x != a {
        assert AccountInOrder(mode.(phase := Settled), pending, nonces, head, x);
      }
    }
  }

  lemma FinishEnds(mode: Mode, pending: map<Address, List>, nonces: map<Address, nat>, head: Head)
    requires PartlyFinished({}, mode, pending, nonces, head)
    ensures AllInOrder(mode.(phase := Settled), pending, nonces, head)
  {
    forall a: Address ensures AccountInOrder(mode.(phase := Settled), pending, nonces, head, a) {
      assert a !in {};
    }
  }
}
