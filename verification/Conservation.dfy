/** What a block run conserves: gas, coins, and the count of a sender's transactions. */
module Conservation {
  import opened Types
  import opened TxDependencies
  import opened Rules

  // ----- Gas -----

  /** The gas of calls that were given up after buying gas. */
  ghost function Burnt(vm: Machine, b: Block, order: seq<nat>, c: Totals): nat
    requires Indices(b, order)
  {
    if order == [] then 0
    else
      var x, rest := order[|order| - 1], order[..|order| - 1];
      Burnt(vm, b, rest, c) + if Run(false, vm, b, order, c).log[x].CallAborted? then b.txs[x].gas else 0
  }

  /** Gas leaves the pool only as gas used or with a call that was given up. */
  lemma {:induction false} GasConserved(vm: Machine, b: Block, order: seq<nat>, c: Totals)
    requires Indices(b, order)
    ensures Run(false, vm, b, order, c).pool + Run(false, vm, b, order, c).used + Burnt(vm, b, order, c) == c.pool + c.used
  {
    if order != [] {
      GasConserved(vm, b, order[..|order| - 1], c);
    }
  }

  // ----- Coins -----

  /** All coins on the ledger. */
  ghost function Supply(st: State): nat {
    if st == map[] then 0
    else
      var a :| a in st;
      st[a].balance + Supply(st - {a})
  }

  /** The supply can be counted starting from any account. */
  lemma {:induction false} SupplyFrom(st: State, a: Address)
    ensures Supply(st) == Get(st, a).balance + Supply(st - {a})
    decreases |st|
  {
    if a !in st {
      assert st - {a} == st;
    } else {
      var first :| first in st && Supply(st) == st[first].balance + Supply(st - {first});
      if first != a {
        SupplyFrom(st - {first}, a);
        SupplyFrom(st - {a}, first);
        assert st - {first} - {a} == st - {a} - {first};
        assert |st - {a}| < |st|;
      }
    }
  }

  lemma SupplyPut(st: State, a: Address, acct: Account)
    ensures Supply(Put(st, a, acct)) + Get(st, a).balance == Supply(st) + acct.balance
  {
    SupplyFrom(st, a);
    SupplyFrom(Put(st, a, acct), a);
    assert Put(st, a, acct) - {a} == st - {a};
  }

  /** A transfer takes from the ledger exactly the fee owed to the producer. */
  lemma TransferSupply(tx: Tx, gas: nat, st: State)
    requires tx.to.Some? && CheckTransfer(tx, gas, Get(st, tx.from)).None?
    ensures Supply(Transfer(tx, gas, st)) + gas * tx.price == Supply(st)
  {
    var paid := Put(st, tx.from, Debit(tx, gas, Get(st, tx.from)));
    SupplyPut(st, tx.from, Debit(tx, gas, Get(st, tx.from)));
    SupplyPut(paid, tx.to.value, Credit(tx, Get(paid, tx.to.value)));
  }

  ghost predicate OnlyTransfers(b: Block, order: seq<nat>) {
    Indices(b, order) && forall k :: 0 <= k < |order| ==> !b.Calls(order[k])
  }

  /** Transfers move coins between accounts and the fees owed; none appear or vanish. */
  lemma {:induction false} CoinsConserved(vm: Machine, b: Block, order: seq<nat>, c: Totals)
    requires OnlyTransfers(b, order)
    ensures Supply(Run(false, vm, b, order, c).st) + Run(false, vm, b, order, c).earnings == Supply(c.st) + c.earnings
  {
    if order != [] {
      var x, rest := order[|order| - 1], order[..|order| - 1];
      CoinsConserved(vm, b, rest, c);
      var before := Run(false, vm, b, rest, c);
      var o := TransferOutcome(b.txs[x], before.st);
      if o.Success? {
        TransferSupply(b.txs[x], o.gasUsed, before.st);
      }
    }
  }

  /** Once the fees are paid out the ledger holds what it held before the block. */
  lemma CoinsPaidOut(vm: Machine, b: Block, order: seq<nat>, c: Totals, coinbase: Address)
    requires OnlyTransfers(b, order) && c.earnings == 0
    ensures var c' := Run(false, vm, b, order, c);
            Supply(PayProducer(c'.st, coinbase, c'.earnings)) == Supply(c.st)
  {
    CoinsConserved(vm, b, order, c);
    var c' := Run(false, vm, b, order, c);
    SupplyPut(c'.st, coinbase, Account(Get(c'.st, coinbase).balance + c'.earnings, Get(c'.st, coinbase).nonce));
  }

  // ----- Nonces -----

  /** How many transactions of `order` sent by `a` succeed. */
  ghost function Sent(vm: Machine, b: Block, order: seq<nat>, c: Totals, a: Address): nat
    requires Indices(b, order)
  {
    if order == [] then 0
    else
      var x, rest := order[|order| - 1], order[..|order| - 1];
      Sent(vm, b, rest, c, a) +
      if b.txs[x].from == a && Run(false, vm, b, order, c).log[x].Success? then 1 else 0
  }

  lemma TransferNonce(tx: Tx, gas: nat, st: State, a: Address)
    requires tx.to.Some? && CheckTransfer(tx, gas, Get(st, tx.from)).None?
    ensures Get(Transfer(tx, gas, st), a).nonce == Get(st, a).nonce + if a == tx.from then 1 else 0
  {
  }

  /** A sender's nonce rises by one for each of its transfers that succeeds, and by nothing else. */
  lemma {:induction false} NoncesCount(vm: Machine, b: Block, order: seq<nat>, c: Totals, a: Address)
    requires OnlyTransfers(b, order)
    ensures Get(Run(false, vm, b, order, c).st, a).nonce == Get(c.st, a).nonce + Sent(vm, b, order, c, a)
  {
    if order != [] {
      var x, rest := order[|order| - 1], order[..|order| - 1];
      NoncesCount(vm, b, rest, c, a);
      var before := Run(false, vm, b, rest, c);
      var o := TransferOutcome(b.txs[x], before.st);
      if o.Success? {
        TransferNonce(b.txs[x], o.gasUsed, before.st, a);
      }
    }
  }
}
