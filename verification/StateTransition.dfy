/**
 * The general way to apply a transaction (core/state_transition.go, core/gaspool.go), and its
 * relation to the fast path that the batched executor takes for plain transfers.
 */
module StateTransition {
  import opened Types
  import opened Rules
  import IntrinsicGas

  /** The gas left for the transactions of a block. */
  class GasPool {
    var gas: nat

    constructor (gas: nat)
      ensures this.gas == gas
    {
      this.gas := gas;
    }

    /** Gives gas back; `ok` is false where the source panics because 64 bits would overflow. */
    method AddGas(amount: nat) returns (ok: bool)
      modifies this
      ensures ok == (old(gas) + amount <= MAX_UINT64)
      ensures gas == if ok then old(gas) + amount else old(gas)
    {
      ok := gas + amount <= MAX_UINT64;
      if ok {
        gas := gas + amount;
      }
    }

    method SubGas(amount: nat) returns (ok: bool)
      modifies this
      ensures ok == (amount <= old(gas)) && gas == if ok then old(gas) - amount else old(gas)
    {
      ok := amount <= gas;
      if ok {
        gas := gas - amount;
      }
    }
  }

  datatype VmError = InsufficientBalance | ExecutionAborted | WasmPanic | OtherVmError

  /** What running the recipient's code comes to; `left` is the gas it did not use. */
  datatype RunResult = RunResult(st: State, left: nat, refund: nat, err: Option<VmError>)

  datatype TransitionError =
    | NonceHigh | NonceLow | InsufficientFunds | PoolExhausted | IntrinsicOverflow | IntrinsicTooLow
    | VmFailure(err: VmError)

  datatype TransitionResult = Rejected(reason: TransitionError) | Accepted(gasUsed: nat, vmerr: Option<VmError>)

  /** Errors after which the virtual machine's verdict voids the whole transaction. */
  predicate Voids(err: Option<VmError>) {
    err.Some? && err.value != OtherVmError
  }

  function AddBalance(st: State, a: Address, amount: nat): State {
    Put(st, a, Account(Get(st, a).balance + amount, Get(st, a).nonce))
  }

  function SubBalance(st: State, a: Address, amount: nat): State
    requires amount <= Get(st, a).balance
  {
    Put(st, a, Account(Get(st, a).balance - amount, Get(st, a).nonce))
  }

  function BumpNonce(st: State, a: Address): State {
    Put(st, a, Account(Get(st, a).balance, Get(st, a).nonce + 1))
  }

  /** Value moves from sender to recipient before any code runs. */
  function MoveValue(tx: Tx, st: State): State
    requires tx.to.Some? && tx.value <= Get(st, tx.from).balance
  {
    AddBalance(SubBalance(st, tx.from, tx.value), tx.to.value, tx.value)
  }

  /** A call as the virtual machine starts it: check the balance, move the value, run any code. */
  function Call(tx: Tx, st: State, gas: nat, hasCode: bool, run: (Tx, State, nat) -> RunResult): RunResult
    requires tx.to.Some?
  {
    if tx.value > Get(st, tx.from).balance then RunResult(st, gas, 0, Some(InsufficientBalance))
    else if hasCode then run(tx, MoveValue(tx, st), gas)
    else RunResult(MoveValue(tx, st), gas, 0, None)
  }

  /** Whether a transaction passes the checks made before any of its gas is spent. */
  predicate Admitted(tx: Tx, checkNonce: bool, st: State, pool: nat) {
    && (checkNonce ==> Get(st, tx.from).nonce == tx.nonce)
    && tx.gas * tx.price <= Get(st, tx.from).balance && tx.gas <= pool
  }

  /** The ledger when the virtual machine is entered for a call: gas bought, nonce raised. */
  function Entered(tx: Tx, st: State): State
    requires tx.gas * tx.price <= Get(st, tx.from).balance
  {
    BumpNonce(SubBalance(st, tx.from, tx.gas * tx.price), tx.from)
  }

  /** The ledger after a call: unused gas is paid back to the sender, used gas goes to the producer. */
  function Settle(tx: Tx, coinbase: Address, st: State, gasUsed: nat): State
    requires gasUsed <= tx.gas
  {
    AddBalance(AddBalance(st, tx.from, (tx.gas - gasUsed) * tx.price), coinbase, gasUsed * tx.price)
  }

  /** The steps of the general way for a recipient without code, if they all go through. */
  function PlainTransition(tx: Tx, coinbase: Address, st: State, pool: nat): Option<(State, nat)>
    requires tx.to.Some?
  {
    var intrinsic := IntrinsicGas.OfTransfer(tx.data);
    if !Admitted(tx, true, st, pool) || intrinsic.None? || tx.gas < intrinsic.value then None
    else if tx.value > Get(Entered(tx, st), tx.from).balance then None
    else Some((Settle(tx, coinbase, MoveValue(tx, Entered(tx, st)), intrinsic.value), intrinsic.value))
  }

  /** One application of a transaction; the fields change step by step. */
  class Transition {
    const tx: Tx
    const coinbase: Address
    const checkNonce: bool
    const hasCode: bool
    const run: (Tx, State, nat) -> RunResult
    const wasm: bool
    const gp: GasPool
    var st: State
    var gas: nat
    var initialGas: nat

    constructor (tx: Tx, st: State, gp: GasPool, coinbase: Address, checkNonce: bool, hasCode: bool, wasm: bool,
                 run: (Tx, State, nat) -> RunResult)
      ensures this.tx == tx && this.st == st && this.gp == gp && this.coinbase == coinbase
      ensures this.checkNonce == checkNonce && this.hasCode == hasCode && this.wasm == wasm && this.run == run
      ensures gas == 0 && initialGas == 0
    {
      this.tx, this.st, this.gp, this.coinbase := tx, st, gp, coinbase;
      this.checkNonce, this.hasCode, this.wasm, this.run := checkNonce, hasCode, wasm, run;
      gas, initialGas := 0, 0;
    }

    /** Buys the gas limit from the block and charges the sender, or changes nothing. */
    method BuyGas() returns (err: Option<TransitionError>)
      requires gas == 0
      modifies this, gp
      ensures err.None? <==> tx.gas * tx.price <= old(Get(st, tx.from).balance) && tx.gas <= old(gp.gas)
      ensures err.Some? ==> st == old(st) && gp.gas == old(gp.gas) && gas == old(gas) && initialGas == old(initialGas)
      ensures err.None? ==>
                && gp.gas == old(gp.gas) - tx.gas && gas == tx.gas && initialGas == tx.gas
                && Get(old(st), tx.from).balance >= tx.gas * tx.price
                && st == SubBalance(old(st), tx.from, tx.gas * tx.price)
    {
      var mgval := tx.gas * tx.price;
      if Get(st, tx.from).balance < mgval {
        return Some(InsufficientFunds);
      }
      var ok := gp.SubGas(tx.gas);
      if !ok {
        return Some(PoolExhausted);
      }
      gas := gas + tx.gas;
      initialGas := tx.gas;
      st := SubBalance(st, tx.from, mgval);
      return None;
    }

    /** Refunds part of the gas used, at most half of it, and returns the rest to sender and block. */
    method RefundGas(counter: nat) returns (panic: bool)
      requires gas <= initialGas && gp.gas + initialGas <= MAX_UINT64
      modifies this, gp
      ensures !panic && initialGas == old(initialGas) && gas <= initialGas
      ensures var refund := gas - old(gas);
              var gross := initialGas - old(gas);
              0 <= refund <= counter && 2 * refund <= gross && (refund == counter || 2 * refund + 1 >= gross)
      ensures st == AddBalance(old(st), tx.from, gas * tx.price) && gp.gas == old(gp.gas) + gas
    {
      var refund := (initialGas - gas) / 2;
      if refund > counter {
        refund := counter;
      }
      gas := gas + refund;
      st := AddBalance(st, tx.from, gas * tx.price);
      var ok := gp.AddGas(gas);
      panic := !ok;
    }

    /** Checks the nonce, then buys gas. */
    method PreCheck() returns (err: Option<TransitionError>)
      requires gas == 0
      modifies this, gp
      ensures err.None? <==> Admitted(tx, checkNonce, old(st), old(gp.gas))
      ensures err.Some? ==> st == old(st) && gp.gas == old(gp.gas) && gas == old(gas) && initialGas == old(initialGas)
      ensures err.None? ==>
                && gp.gas == old(gp.gas) - tx.gas && gas == tx.gas && initialGas == tx.gas
                && Get(old(st), tx.from).balance >= tx.gas * tx.price
                && st == SubBalance(old(st), tx.from, tx.gas * tx.price)
    {
      if checkNonce {
        if Get(st, tx.from).nonce < tx.nonce {
          return Some(NonceHigh);
        } else if Get(st, tx.from).nonce > tx.nonce {
          return Some(NonceLow);
        }
      }
      err := BuyGas();
    }

    /** The virtual machine's part: `gas` is what it leaves, the result its refund counter and error. */
    method RunVm() returns (refund: nat, vmerr: Option<VmError>)
      modifies this`st, this`gas
      ensures var r := if tx.to.None? then run(tx, old(st), old(gas)) else Call(tx, BumpNonce(old(st), tx.from), old(gas), hasCode, run);
              st == r.st && refund == r.refund && vmerr == r.err && gas == if r.left <= old(gas) then r.left else old(gas)
      ensures tx.to.Some? && !hasCode ==>
                var before := BumpNonce(old(st), tx.from);
                if tx.value > Get(before, tx.from).balance then vmerr == Some(InsufficientBalance)
                else vmerr == None && refund == 0 && gas == old(gas) && st == MoveValue(tx, before)
    {
      var r;
      if tx.to.None? {
        r := run(tx, st, gas);
      } else {
        st := BumpNonce(st, tx.from);
        r := Call(tx, st, gas, hasCode, run);
      }
      st := r.st;
      gas := if r.left <= gas then r.left else gas;
      return r.refund, r.err;
    }

    /** Refunds the sender and pays the producer. */
    method Finish(counter: nat) returns (used: nat)
      requires gas <= initialGas == tx.gas && gp.gas + tx.gas <= MAX_UINT64
      modifies this, gp
      ensures used <= tx.gas - old(gas) <= 2 * used && (counter == 0 ==> used == tx.gas - old(gas))
      ensures st == Settle(tx, coinbase, old(st), used) && gp.gas == old(gp.gas) + (tx.gas - used)
    {
      var panic := RefundGas(counter);
      used := initialGas - gas;
      st := AddBalance(st, coinbase, used * tx.price);
    }

    /**
     * Applies the transaction. Of the gas bought exactly the gas used stays out of the pool; a
     * rejection before gas was bought changes nothing, a later one keeps all of the gas. For a
     * recipient without code the ledger is the one of `PlainTransition`.
     */
    method TransitionDb() returns (r: TransitionResult)
      requires gas == 0 && gp.gas <= MAX_UINT64
      modifies this, gp
      ensures r.Accepted? ==> Admitted(tx, checkNonce, old(st), old(gp.gas))
      ensures r.Accepted? ==> r.gasUsed <= tx.gas && gp.gas == old(gp.gas) - r.gasUsed
      ensures r.Rejected? ==>
                if Admitted(tx, checkNonce, old(st), old(gp.gas)) then gp.gas == old(gp.gas) - tx.gas
                else gp.gas == old(gp.gas) && st == old(st)
      ensures tx.to.Some? && !hasCode && checkNonce ==>
                var plain := PlainTransition(tx, coinbase, old(st), old(gp.gas));
                && (r.Accepted? <==> plain.Some?)
                && (r.Accepted? ==> st == plain.value.0 && r.gasUsed == plain.value.1)
    {
      var err := PreCheck();
      if err.Some? {
        return Rejected(err.value);
      }
      var intrinsic := IntrinsicGas.Compute(tx.data, tx.to.None?, wasm);
      if intrinsic.None? {
        return Rejected(IntrinsicOverflow);
      }
      if gas < intrinsic.value {
        return Rejected(IntrinsicTooLow);
      }
      gas := gas - intrinsic.value;
      var counter, vmerr := RunVm();
      if Voids(vmerr) {
        return Rejected(VmFailure(vmerr.value));
      }
      var used := Finish(counter);
      return Accepted(used, vmerr);
    }
  }

  // ----- The fast path -----

  /** Gas bought, value moved and gas refunded come to the transfer of the fast path, account by account. */
  lemma SettledAt(tx: Tx, st: State, gas: nat, refund: nat, a: Address)
    requires tx.to.Some? && CheckTransfer(tx, gas, Get(st, tx.from)).None? && Canonical(st)
    requires tx.value + tx.gas * tx.price <= Get(st, tx.from).balance
    requires tx.gas * tx.price == gas * tx.price + refund
    ensures Get(AddBalance(MoveValue(tx, Entered(tx, st)), tx.from, refund), a) == Get(Transfer(tx, gas, st), a)
  {
  }

  lemma Refunded(tx: Tx, st: State, gas: nat, refund: nat)
    requires tx.to.Some? && CheckTransfer(tx, gas, Get(st, tx.from)).None? && Canonical(st)
    requires tx.value + tx.gas * tx.price <= Get(st, tx.from).balance
    requires tx.gas * tx.price == gas * tx.price + refund
    ensures AddBalance(MoveValue(tx, Entered(tx, st)), tx.from, refund) == Transfer(tx, gas, st)
  {
    var refunded := AddBalance(MoveValue(tx, Entered(tx, st)), tx.from, refund);
    forall a: Address ensures Get(refunded, a) == Get(Transfer(tx, gas, st), a) {
      SettledAt(tx, st, gas, refund, a);
    }
    Extensional(refunded, Transfer(tx, gas, st));
  }

  lemma SettledTransfer(tx: Tx, coinbase: Address, st: State, gas: nat)
    requires tx.to.Some? && CheckTransfer(tx, gas, Get(st, tx.from)).None? && Canonical(st)
    requires tx.value + tx.gas * tx.price <= Get(st, tx.from).balance && gas <= tx.gas
    ensures Settle(tx, coinbase, MoveValue(tx, Entered(tx, st)), gas) ==
            AddBalance(Transfer(tx, gas, st), coinbase, gas * tx.price)
  {
    assert tx.gas * tx.price == gas * tx.price + (tx.gas - gas) * tx.price;
    Refunded(tx, st, gas, (tx.gas - gas) * tx.price);
  }

  /**
   * The fast path against the general way, for a recipient without code. Whatever the general way
   * accepts the fast path does with the same net effect and gas, once its fee is credited. The fast
   * path accepts more: the general way wants the value on top of the whole gas limit, and the two
   * accept the same transaction exactly when the sender can pay that.
   */
  lemma FastPathRefines(tx: Tx, coinbase: Address, st: State, pool: nat, gas: nat)
    requires tx.to.Some? && Canonical(st) && IntrinsicGas.OfTransfer(tx.data) == Some(gas) && tx.gas <= pool
    ensures var fast := CheckTransfer(tx, gas, Get(st, tx.from)).None?;
            var plain := PlainTransition(tx, coinbase, st, pool);
            && (plain.Some? <==> fast && tx.value + tx.gas * tx.price <= Get(st, tx.from).balance)
            && (plain.Some? ==> plain.value == (AddBalance(Transfer(tx, gas, st), coinbase, gas * tx.price), gas))
  {
    if Admitted(tx, true, st, pool) && gas <= tx.gas {
      assert gas * tx.price <= tx.gas * tx.price;
      if tx.value + tx.gas * tx.price <= Get(st, tx.from).balance {
        SettledTransfer(tx, coinbase, st, gas);
      }
    }
  }

  /** A transfer that only the fast path accepts: ten coins of value, but not on top of the limit. */
  lemma FastPathAcceptsMore(st: State, coinbase: Address)
    requires st == map[1 := Account(21010, 0)]
    ensures var tx := Tx(7, 1, Some(2), 0, 21005, 1, 10, [], 0, 0);
            && CheckTransfer(tx, 21000, Get(st, 1)).None?
            && PlainTransition(tx, coinbase, st, 1000000).None?
  {
    var tx := Tx(7, 1, Some(2), 0, 21005, 1, 10, [], 0, 0);
    assert IntrinsicGas.OfTransfer([]) == Some(21000);
    FastPathRefines(tx, coinbase, st, 1000000, 21000);
  }
}
