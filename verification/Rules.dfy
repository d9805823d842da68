/**
 * What one transaction does to the ledger, stated without any concurrency. The same rules are
 * followed by the batched executor; running them in block order is the reference it is held to.
 */
module Rules {
  import opened Types
  import opened TxDependencies
  import IntrinsicGas

  datatype Account = Account(balance: nat, nonce: nat)

  const EMPTY := Account(0, 0)

  /** Accounts by address. Empty accounts are not stored: an absent address is an empty account. */
  type State = map<Address, Account>

  function Get(st: State, a: Address): Account {
    if a in st then st[a] else EMPTY
  }

  function Put(st: State, a: Address, acct: Account): State {
    if acct == EMPTY then st - {a} else st[a := acct]
  }

  ghost predicate Canonical(st: State) {
    forall a :: a in st ==> st[a] != EMPTY
  }

  lemma Extensional(s: State, t: State)
    requires Canonical(s) && Canonical(t)
    requires forall a: Address :: Get(s, a) == Get(t, a)
    ensures s == t
  {
    assert forall a: Address :: a in s <==> Get(s, a) != EMPTY;
    assert forall a: Address :: a in t <==> Get(t, a) != EMPTY;
    assert forall a :: a in s ==> Get(s, a) == s[a] && Get(t, a) == t[a];
  }

  datatype Error = OutOfGas | GasLimitReached | InsufficientBalanceForGas | NonceTooHigh | NonceTooLow

  /** The checks of a transfer against its sender's account, in the order they are made. */
  function CheckTransfer(tx: Tx, intrinsic: nat, sender: Account): Option<Error> {
    if tx.gas < intrinsic then Some(OutOfGas)
    else if sender.balance < tx.gas * tx.price then Some(InsufficientBalanceForGas)
    else if sender.nonce < tx.nonce then Some(NonceTooHigh)
    else if sender.nonce > tx.nonce then Some(NonceTooLow)
    else if sender.balance < tx.value + intrinsic * tx.price then Some(InsufficientBalanceForGas)
    else None
  }

  function Debit(tx: Tx, intrinsic: nat, sender: Account): Account
    requires CheckTransfer(tx, intrinsic, sender).None?
  {
    Account(sender.balance - (tx.value + intrinsic * tx.price), sender.nonce + 1)
  }

  function Credit(tx: Tx, recipient: Account): Account {
    recipient.(balance := recipient.balance + tx.value)
  }

  /** The ledger after a transfer: the sender is debited first, which matters when it pays itself. */
  function Transfer(tx: Tx, intrinsic: nat, st: State): State
    requires tx.to.Some? && CheckTransfer(tx, intrinsic, Get(st, tx.from)).None?
  {
    var paid := Put(st, tx.from, Debit(tx, intrinsic, Get(st, tx.from)));
    Put(paid, tx.to.value, Credit(tx, Get(paid, tx.to.value)))
  }

  /** The ledger after the fees of a block are paid out. */
  function PayProducer(st: State, coinbase: Address, earnings: nat): State {
    if earnings > 0 then Put(st, coinbase, Account(Get(st, coinbase).balance + earnings, Get(st, coinbase).nonce)) else st
  }

  /**
   * What the virtual machine makes of a contract call: refused before gas was bought, given up
   * after gas was bought (the ledger is rolled back, the gas is not), or applied with some gas left.
   */
  datatype CallResult = Refused | Aborted | Applied(st: State, left: nat) {
    /** The gas used of a limit of `limit`. */
    function GasUsed(limit: nat): nat
      requires Applied?
    {
      if left <= limit then limit - left else 0
    }
  }

  /** A ledger without its empty accounts, as a call leaves it. */
  function Finalised(st: State): State {
    map a | a in st && st[a] != EMPTY :: st[a]
  }

  /** The machine: a function of the call, the ledger and the call's position in the block. */
  datatype Machine = Machine(call: (Tx, State, nat) -> CallResult)

  datatype Outcome = Failed(err: Error) | CallRefused | CallAborted | Success(gasUsed: nat)

  /**
   * The running totals of a block: ledger, gas left in the block's pool, gas used, fees owed to the
   * producer, number of transactions packed, and what became of each transaction.
   */
  datatype Totals = Totals(
    st: State,
    pool: int,
    used: nat,
    earnings: nat,
    packed: nat,
    log: map<nat, Outcome>)

  /** What becomes of a transfer that finds its gas in the pool. */
  ghost function TransferOutcome(tx: Tx, st: State): Outcome {
    match IntrinsicGas.OfTransfer(tx.data)
    case None => Failed(OutOfGas)
    case Some(gas) =>
      match CheckTransfer(tx, gas, Get(st, tx.from))
      case Some(err) => Failed(err)
      case None => Success(gas)
  }

  /** Books outcome `o` of transfer `i`. */
  ghost function Book(tx: Tx, i: nat, o: Outcome, c: Totals): Totals
    requires tx.to.Some? && (o.Success? ==> CheckTransfer(tx, o.gasUsed, Get(c.st, tx.from)).None?)
  {
    if o.Success? then
      Totals(Transfer(tx, o.gasUsed, c.st), c.pool - o.gasUsed, c.used + o.gasUsed,
             c.earnings + o.gasUsed * tx.price, c.packed + 1, c.log[i := o])
    else c.(log := c.log[i := o])
  }

  /**
   * One transfer. With `bounded` a transfer that does not find its gas in the pool fails; without
   * it the pool is a plain account that may go below zero.
   */
  ghost function TransferStep(bounded: bool, tx: Tx, i: nat, c: Totals): Totals
    requires tx.to.Some?
  {
    var gas := IntrinsicGas.OfTransfer(tx.data);
    if bounded && gas.Some? && c.pool < gas.value then Book(tx, i, Failed(GasLimitReached), c)
    else Book(tx, i, TransferOutcome(tx, c.st), c)
  }

  ghost function CallStep(bounded: bool, vm: Machine, tx: Tx, i: nat, c: Totals): Totals {
    if bounded && c.pool < tx.gas then c.(log := c.log[i := CallRefused])
    else match vm.call(tx, c.st, c.packed)
      case Refused => c.(log := c.log[i := CallRefused])
      case Aborted => c.(pool := c.pool - tx.gas, log := c.log[i := CallAborted])
      case Applied(st, _) =>
        var gas := vm.call(tx, c.st, c.packed).GasUsed(tx.gas);
        Totals(Finalised(st), c.pool - gas, c.used + gas, c.earnings, c.packed + 1, c.log[i := Success(gas)])
  }

  ghost function Step(bounded: bool, vm: Machine, b: Block, i: nat, c: Totals): Totals
    requires i < |b.txs|
  {
    if b.Calls(i) then CallStep(bounded, vm, b.txs[i], i, c) else TransferStep(bounded, b.txs[i], i, c)
  }

  ghost predicate Indices(b: Block, order: seq<nat>) {
    forall k :: 0 <= k < |order| ==> order[k] < |b.txs|
  }

  /** Runs the transactions with the given indices one after the other. */
  ghost function Run(bounded: bool, vm: Machine, b: Block, order: seq<nat>, c: Totals): Totals
    requires Indices(b, order)
  {
    if order == [] then c
    else Step(bounded, vm, b, order[|order| - 1], Run(bounded, vm, b, order[..|order| - 1], c))
  }

  ghost function UpTo(n: nat): (s: seq<nat>)
    ensures |s| == n && forall k :: 0 <= k < n ==> s[k] == k
  {
    seq(n, k => k)
  }

  /** Block order. */
  ghost function Serial(bounded: bool, vm: Machine, b: Block, n: nat, c: Totals): Totals
    requires n <= |b.txs|
  {
    if n == 0 then c else Step(bounded, vm, b, n - 1, Serial(bounded, vm, b, n - 1, c))
  }

  // ----- Transactions that do not conflict may change places -----

  lemma PutCommutes(st: State, a: Address, x: Account, b: Address, y: Account)
    requires a != b
    ensures Put(Put(st, a, x), b, y) == Put(Put(st, b, y), a, x)
  {
  }

  lemma TransferFrame(tx: Tx, gas: nat, st: State, a: Address)
    requires tx.to.Some? && CheckTransfer(tx, gas, Get(st, tx.from)).None?
    ensures a != tx.from && a != tx.to.value ==> Get(Transfer(tx, gas, st), a) == Get(st, a)
  {
  }

  lemma TransfersCommute(t: Tx, g: nat, u: Tx, h: nat, st: State)
    requires t.to.Some? && u.to.Some? && {t.from, t.to.value} !! {u.from, u.to.value}
    requires CheckTransfer(t, g, Get(st, t.from)).None?
    requires CheckTransfer(u, h, Get(st, u.from)).None?
    ensures CheckTransfer(u, h, Get(Transfer(t, g, st), u.from)).None?
    ensures CheckTransfer(t, g, Get(Transfer(u, h, st), t.from)).None?
    ensures Transfer(u, h, Transfer(t, g, st)) == Transfer(t, g, Transfer(u, h, st))
  {
    TransferFrame(t, g, st, u.from);
    TransferFrame(u, h, st, t.from);
    var t1, u1 := Debit(t, g, Get(st, t.from)), Debit(u, h, Get(st, u.from));
    var ts, us := Put(st, t.from, t1), Put(st, u.from, u1);
    var t2, u2 := Credit(t, Get(ts, t.to.value)), Credit(u, Get(us, u.to.value));
    calc {
      Transfer(u, h, Transfer(t, g, st));
      Put(Put(Put(Put(st, t.from, t1), t.to.value, t2), u.from, u1), u.to.value, u2);
      { PutCommutes(Put(st, t.from, t1), t.to.value, t2, u.from, u1); }
      Put(Put(Put(Put(st, t.from, t1), u.from, u1), t.to.value, t2), u.to.value, u2);
      { PutCommutes(st, t.from, t1, u.from, u1);
        PutCommutes(Put(Put(st, t.from, t1), u.from, u1), t.to.value, t2, u.to.value, u2); }
      Put(Put(Put(Put(st, u.from, u1), t.from, t1), u.to.value, u2), t.to.value, t2);
      { PutCommutes(Put(st, u.from, u1), t.from, t1, u.to.value, u2); }
      Put(Put(Put(Put(st, u.from, u1), u.to.value, u2), t.from, t1), t.to.value, t2);
      Transfer(t, g, Transfer(u, h, st));
    }
  }

  lemma BookCommutes(t: Tx, i: nat, o: Outcome, u: Tx, j: nat, p: Outcome, c: Totals)
    requires i != j && t.to.Some? && u.to.Some? && {t.from, t.to.value} !! {u.from, u.to.value}
    requires o.Success? ==> CheckTransfer(t, o.gasUsed, Get(c.st, t.from)).None?
    requires p.Success? ==> CheckTransfer(u, p.gasUsed, Get(c.st, u.from)).None?
    ensures Get(Book(t, i, o, c).st, u.from) == Get(c.st, u.from)
    ensures Get(Book(u, j, p, c).st, t.from) == Get(c.st, t.from)
    ensures Book(t, i, o, Book(u, j, p, c)) == Book(u, j, p, Book(t, i, o, c))
  {
    assert c.log[i := o][j := p] == c.log[j := p][i := o];
    if o.Success? {
      TransferFrame(t, o.gasUsed, c.st, u.from);
    }
    if p.Success? {
      TransferFrame(u, p.gasUsed, c.st, t.from);
    }
    if o.Success? && p.Success? {
      TransfersCommute(t, o.gasUsed, u, p.gasUsed, c.st);
    }
  }

  /** Two transactions without a conflict give the same totals in either order. */
  lemma StepsCommute(vm: Machine, b: Block, i: nat, j: nat, c: Totals)
    requires i < |b.txs| && j < |b.txs| && i != j && !b.Conflict(i, j)
    ensures Step(false, vm, b, i, Step(false, vm, b, j, c)) == Step(false, vm, b, j, Step(false, vm, b, i, c))
  {
    var t, u := b.txs[i], b.txs[j];
    assert {t.from, t.to.value} !! {u.from, u.to.value} by {
      assert b.Touches(i) == {t.from, t.to.value} && b.Touches(j) == {u.from, u.to.value};
    }
    BookCommutes(t, i, TransferOutcome(t, c.st), u, j, TransferOutcome(u, c.st), c);
  }

  lemma {:induction false} RunConcat(bounded: bool, vm: Machine, b: Block, p: seq<nat>, q: seq<nat>, c: Totals)
    requires Indices(b, p) && Indices(b, q)
    ensures Indices(b, p + q)
    ensures Run(bounded, vm, b, p + q, c) == Run(bounded, vm, b, q, Run(bounded, vm, b, p, c))
  {
    if q == [] {
      assert p + q == p;
    } else {
      var q' := q[..|q| - 1];
      RunConcat(bounded, vm, b, p, q', c);
      assert (p + q)[..|p + q| - 1] == p + q';
    }
  }

  /** A transaction can be moved behind a run of others it does not conflict with. */
  lemma {:induction false} MoveBack(vm: Machine, b: Block, x: nat, q: seq<nat>, c: Totals)
    requires x < |b.txs| && Indices(b, q)
    requires forall k :: 0 <= k < |q| ==> x != q[k] && !b.Conflict(x, q[k])
    ensures Run(false, vm, b, q, Step(false, vm, b, x, c)) == Step(false, vm, b, x, Run(false, vm, b, q, c))
  {
    if q != [] {
      var q', y := q[..|q| - 1], q[|q| - 1];
      MoveBack(vm, b, x, q', c);
      StepsCommute(vm, b, x, y, Run(false, vm, b, q', c));
    }
  }

  /** `order` lists distinct transactions of the block and keeps conflicting ones in block order. */
  ghost predicate KeepsOrder(b: Block, order: seq<nat>) {
    && Indices(b, order)
    && (forall p, q :: 0 <= p < q < |order| ==> order[p] != order[q])
    && forall p, q :: 0 <= p < q < |order| && b.Conflict(order[p], order[q]) ==> order[p] < order[q]
  }

  /** `order` is such a list of exactly the first `n` transactions. */
  ghost predicate Respects(b: Block, order: seq<nat>, n: nat) {
    KeepsOrder(b, order) && |order| == n && forall i: nat :: i < n <==> i in order
  }

  lemma MoveToEnd(vm: Machine, b: Block, p: seq<nat>, x: nat, q: seq<nat>, c: Totals)
    requires x < |b.txs| && Indices(b, p) && Indices(b, q)
    requires forall k :: 0 <= k < |q| ==> x != q[k] && !b.Conflict(x, q[k])
    ensures Indices(b, p + [x] + q) && Indices(b, p + q)
    ensures Run(false, vm, b, p + [x] + q, c) == Step(false, vm, b, x, Run(false, vm, b, p + q, c))
  {
    RunConcat(false, vm, b, p, q, c);
    RunConcat(false, vm, b, p + [x], q, c);
    assert (p + [x])[..|p|] == p;
    MoveBack(vm, b, x, q, Run(false, vm, b, p, c));
  }

  lemma WithoutLast(b: Block, p: seq<nat>, q: seq<nat>, n: nat)
    requires 0 < n <= |b.txs| && Respects(b, p + [n - 1] + q, n)
    ensures Respects(b, p + q, n - 1) && Indices(b, p) && Indices(b, q)
    ensures forall m :: 0 <= m < |q| ==> q[m] != n - 1 && !b.Conflict(n - 1, q[m])
  {
    var order, rest := p + [n - 1] + q, p + q;
    assert forall m :: 0 <= m < |rest| ==> rest[m] == order[if m < |p| then m else m + 1];
    forall m | 0 <= m < |q| ensures q[m] < n - 1 && !b.Conflict(n - 1, q[m]) {
      assert q[m] == order[|p| + 1 + m] && q[m] in order && order[|p|] == n - 1;
    }
    forall m | 0 <= m < |p| ensures p[m] < |b.txs| && p[m] != n - 1 {
      assert p[m] == order[m] && order[|p|] == n - 1;
    }
    forall i: nat ensures i < n - 1 <==> i in rest {
      assert i in order <==> i in p || i == n - 1 || i in q;
    }
  }

  lemma SplitAt(s: seq<nat>, x: nat) returns (p: seq<nat>, q: seq<nat>)
    requires x in s
    ensures s == p + [x] + q
  {
    var k :| 0 <= k < |s| && s[k] == x;
    p, q := s[..k], s[k + 1..];
  }

  lemma LastMoved(vm: Machine, b: Block, order: seq<nat>, n: nat, c: Totals) returns (rest: seq<nat>)
    requires 0 < n <= |b.txs| && Respects(b, order, n)
    ensures Respects(b, rest, n - 1)
    ensures Run(false, vm, b, order, c) == Step(false, vm, b, n - 1, Run(false, vm, b, rest, c))
  {
    var p, q := SplitAt(order, n - 1);
    rest := p + q;
    WithoutLast(b, p, q, n);
    MoveToEnd(vm, b, p, n - 1, q, c);
  }

  /**
   * Any order that respects the conflicts gives exactly the totals of block order: the last
   * transaction of the block is moved to the end, then the rest is put in order the same way.
   */
  lemma {:induction false} OrderIrrelevant(vm: Machine, b: Block, order: seq<nat>, n: nat, c: Totals)
    requires n <= |b.txs| && Respects(b, order, n)
    ensures Run(false, vm, b, order, c) == Serial(false, vm, b, n, c)
    decreases n
  {
    if n > 0 {
      var rest := LastMoved(vm, b, order, n, c);
      OrderIrrelevant(vm, b, rest, n - 1, c);
    }
  }
}
