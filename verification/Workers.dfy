/**
 * The concurrent part of a batch: one worker per transfer, advancing in any interleaving
 * (executeParallelTx in core/parallel_executor.go, the state objects of core/state).
 */
module Workers {
  import opened Types
  import opened TxDependencies
  import opened Rules

  /**
   * An account as a worker holds it. An account the ledger has cached is handed out as the live
   * object, so writes show in the ledger at once; any other is a private copy until it is merged.
   */
  datatype StateObject = Live(addr: Address) | Copy(addr: Address, acct: Account)

  function Load(addr: Address, cached: set<Address>, st: State): StateObject {
    if addr in cached then Live(addr) else Copy(addr, Get(st, addr))
  }

  function Read(o: StateObject, st: State): Account {
    if o.Live? then Get(st, o.addr) else o.acct
  }

  function Store(o: StateObject, acct: Account, st: State): (StateObject, State) {
    if o.Live? then (o, Put(st, o.addr, acct)) else (Copy(o.addr, acct), st)
  }

  /** What a worker leaves behind; `refund` asks for the reserved gas to go back to the pool. */
  datatype Result =
    | Failure(err: Error, refund: bool)
    | Done(from: StateObject, to: StateObject, gasUsed: nat, earnings: nat)

  datatype Phase =
    | Start
    | Debited(from: StateObject)
    | Credited(from: StateObject, to: StateObject)
    | Finished(result: Option<Result>)

  /** One atomic step of the worker of `tx`. */
  function Advance(tx: Tx, gas: nat, cached: set<Address>, ph: Phase, st: State): (Phase, State)
    requires tx.to.Some? && !ph.Finished?
  {
    match ph
    case Start =>
      var sender := Load(tx.from, cached, st);
      (match CheckTransfer(tx, gas, Read(sender, st))
       case Some(err) => (Finished(Some(Failure(err, true))), st)
       case None =>
         var w := Store(sender, Debit(tx, gas, Read(sender, st)), st);
         (Debited(w.0), w.1))
    case Debited(from) =>
      var to := if tx.from == tx.to.value then from else Load(tx.to.value, cached, st);
      var w := Store(to, Credit(tx, Read(to, st)), st);
      (Credited(if tx.from == tx.to.value then w.0 else from, w.0), w.1)
    case Credited(from, to) =>
      (Finished(Some(Done(from, to, gas, gas * tx.price))), st)
  }

  // ----- What can be said of one worker, whatever the others do -----

  ghost predicate SameOn(s: State, t: State, addrs: set<Address>) {
    forall a :: a in addrs ==> Get(s, a) == Get(t, a)
  }

  function Accounts(tx: Tx): set<Address>
    requires tx.to.Some?
  {
    {tx.from, tx.to.value}
  }

  /** `o` holds what the transfer makes of its account, and copies have not reached the ledger. */
  ghost predicate Holds(o: StateObject, addr: Address, acct: Account, cached: set<Address>, s0: State, st: State) {
    && o.addr == addr && (o.Live? <==> addr in cached)
    && Read(o, st) == acct
    && (o.Copy? ==> Get(st, addr) == Get(s0, addr))
  }

  /** Both objects hold what running the transfer alone on `s0` would leave. */
  ghost predicate HoldsTransfer(tx: Tx, gas: nat, from: StateObject, to: StateObject, cached: set<Address>, s0: State, st: State)
    requires tx.to.Some?
  {
    && CheckTransfer(tx, gas, Get(s0, tx.from)).None?
    && Holds(from, tx.from, Get(Transfer(tx, gas, s0), tx.from), cached, s0, st)
    && Holds(to, tx.to.value, Get(Transfer(tx, gas, s0), tx.to.value), cached, s0, st)
  }

  /** A worker in phase `ph` has done exactly its own share of work since the batch began in `s0`. */
  ghost predicate Tracks(tx: Tx, gas: nat, cached: set<Address>, s0: State, st: State, ph: Phase)
    requires tx.to.Some?
  {
    match ph
    case Start => SameOn(s0, st, Accounts(tx))
    case Debited(from) =>
      && CheckTransfer(tx, gas, Get(s0, tx.from)).None?
      && Holds(from, tx.from, Debit(tx, gas, Get(s0, tx.from)), cached, s0, st)
      && SameOn(s0, st, Accounts(tx) - {tx.from})
    case Credited(from, to) => HoldsTransfer(tx, gas, from, to, cached, s0, st)
    case Finished(None) => SameOn(s0, st, Accounts(tx))
    case Finished(Some(Failure(err, refund))) =>
      SameOn(s0, st, Accounts(tx)) && refund && CheckTransfer(tx, gas, Get(s0, tx.from)) == Some(err)
    case Finished(Some(Done(from, to, gasUsed, earnings))) =>
      HoldsTransfer(tx, gas, from, to, cached, s0, st) && gasUsed == gas && earnings == gas * tx.price
  }

  /** What a transfer leaves in its two accounts, in terms of what they held. */
  lemma TransferAccounts(tx: Tx, gas: nat, st: State)
    requires tx.to.Some? && CheckTransfer(tx, gas, Get(st, tx.from)).None?
    ensures var paid := Debit(tx, gas, Get(st, tx.from));
            var after := Transfer(tx, gas, st);
            if tx.from == tx.to.value then Get(after, tx.from) == Credit(tx, paid)
            else Get(after, tx.from) == paid && Get(after, tx.to.value) == Credit(tx, Get(st, tx.to.value))
  {
  }

  /** A step keeps the worker on track, and touches nothing but its own two accounts. */
  lemma AdvanceTracks(tx: Tx, gas: nat, cached: set<Address>, s0: State, st: State, ph: Phase)
    requires tx.to.Some? && !ph.Finished? && Tracks(tx, gas, cached, s0, st, ph)
    ensures var (ph', st') := Advance(tx, gas, cached, ph, st);
            && Tracks(tx, gas, cached, s0, st', ph')
            && (forall a: Address :: a !in Accounts(tx) ==> Get(st', a) == Get(st, a))
            && (Canonical(st) ==> Canonical(st'))
  {
    assert Get(s0, tx.from) == Get(st, tx.from) || !ph.Start?;
    if CheckTransfer(tx, gas, Get(s0, tx.from)).None? {
      TransferAccounts(tx, gas, s0);
    }
  }

  /** A worker stays on track when only accounts of others change. */
  lemma TracksFrame(tx: Tx, gas: nat, cached: set<Address>, s0: State, st: State, st': State, ph: Phase)
    requires tx.to.Some? && Tracks(tx, gas, cached, s0, st, ph) && SameOn(st, st', Accounts(tx))
    ensures Tracks(tx, gas, cached, s0, st', ph)
  {
    assert tx.from in Accounts(tx) && tx.to.value in Accounts(tx);
  }

  /** Transfers of different workers touch different accounts. */
  ghost predicate Independent(b: Block, tasks: set<nat>) {
    && (forall i :: i in tasks ==> i < |b.txs| && b.txs[i].to.Some?)
    && forall i, j :: i in tasks && j in tasks && i != j ==> b.Touches(i) !! b.Touches(j)
  }

  ghost function Owned(b: Block, tasks: set<nat>): set<Address>
    requires forall i :: i in tasks ==> i < |b.txs|
  {
    set i, a | i in tasks && a in b.Touches(i) :: a
  }

  /** Everything that holds of a set of workers between two steps. */
  ghost predicate AllTrack(b: Block, gas: map<nat, nat>, cached: set<Address>, s0: State, st: State, phases: map<nat, Phase>)
    requires Independent(b, phases.Keys) && phases.Keys <= gas.Keys
  {
    && (forall i :: i in phases ==> Tracks(b.txs[i], gas[i], cached, s0, st, phases[i]))
    && (forall a: Address :: a !in Owned(b, phases.Keys) ==> Get(st, a) == Get(s0, a))
    && (Canonical(s0) ==> Canonical(st))
  }

  lemma AllTrackStep(b: Block, gas: map<nat, nat>, cached: set<Address>, s0: State, st: State,
                     phases: map<nat, Phase>, w: nat, ph: Phase, st': State)
    requires Independent(b, phases.Keys) && phases.Keys <= gas.Keys
    requires AllTrack(b, gas, cached, s0, st, phases) && w in phases
    requires Tracks(b.txs[w], gas[w], cached, s0, st', ph)
    requires forall a: Address :: a !in Accounts(b.txs[w]) ==> Get(st', a) == Get(st, a)
    requires Canonical(st) ==> Canonical(st')
    ensures phases[w := ph].Keys == phases.Keys
    ensures AllTrack(b, gas, cached, s0, st', phases[w := ph])
  {
    assert b.Touches(w) == Accounts(b.txs[w]);
    assert Accounts(b.txs[w]) <= Owned(b, phases.Keys);
    forall i | i in phases && i != w ensures Tracks(b.txs[i], gas[i], cached, s0, st', phases[i]) {
      assert b.Touches(i) == Accounts(b.txs[i]);
      assert SameOn(st, st', Accounts(b.txs[i]));
      TracksFrame(b.txs[i], gas[i], cached, s0, st, st', phases[i]);
    }
    assert phases[w := ph].Keys == phases.Keys;
  }

  /** One step of worker `w` from a ledger on which all workers are on track. */
  lemma AdvanceOne(b: Block, gas: map<nat, nat>, cached: set<Address>, s0: State, st: State,
                   phases: map<nat, Phase>, w: nat)
    requires Independent(b, phases.Keys) && phases.Keys <= gas.Keys
    requires AllTrack(b, gas, cached, s0, st, phases) && w in phases && !phases[w].Finished?
    ensures var (ph, st') := Advance(b.txs[w], gas[w], cached, phases[w], st);
            phases[w := ph].Keys == phases.Keys && AllTrack(b, gas, cached, s0, st', phases[w := ph])
  {
    var (ph, st') := Advance(b.txs[w], gas[w], cached, phases[w], st);
    AdvanceTracks(b.txs[w], gas[w], cached, s0, st, phases[w]);
    AllTrackStep(b, gas, cached, s0, st, phases, w, ph, st');
  }

  /**
   * A batch in flight: the ledger, each worker's phase, and the workers waiting in each of the three
   * unfinished phases.
   */
  datatype Flight = Flight(st: State, phases: map<nat, Phase>, ready: set<nat>, debited: set<nat>, credited: set<nat>) {

    function Unfinished(): set<nat> {
      ready + debited + credited
    }

    ghost predicate Sorted() {
      && (forall i :: i in ready <==> i in phases && phases[i].Start?)
      && (forall i :: i in debited <==> i in phases && phases[i].Debited?)
      && (forall i :: i in credited <==> i in phases && phases[i].Credited?)
    }

    ghost predicate Good(b: Block, tasks: set<nat>, gas: map<nat, nat>, cached: set<Address>, s0: State, mayTimeOut: bool)
      requires Independent(b, tasks) && tasks <= gas.Keys
    {
      && phases.Keys == tasks && AllTrack(b, gas, cached, s0, st, phases) && Sorted()
      && (forall i :: i in phases && phases[i] == Finished(None) ==> mayTimeOut)
    }

    /** The flight after worker `w` has reached phase `ph` and left the ledger as `st'`. */
    function Moved(w: nat, ph: Phase, st': State): Flight {
      Flight(st', phases[w := ph], ready - {w},
             if ph.Debited? then debited + {w} else debited - {w},
             if ph.Credited? then credited + {w} else credited - {w})
    }
  }

  /** Lets one worker take one step, or give up when it may and has not started. */
  method MoveWorker(b: Block, ghost tasks: set<nat>, gas: map<nat, nat>, cached: set<Address>, ghost s0: State,
                    mayTimeOut: bool, f: Flight, w: nat)
    returns (f': Flight)
    requires Independent(b, tasks) && tasks <= gas.Keys
    requires f.Good(b, tasks, gas, cached, s0, mayTimeOut) && w in f.Unfinished()
    ensures f'.Good(b, tasks, gas, cached, s0, mayTimeOut)
    ensures f'.ready < f.ready || (f'.ready == f.ready && f'.debited < f.debited)
         || (f'.ready == f.ready && f'.debited == f.debited && f'.credited < f.credited)
  {
    var giveUp: bool := *;
    if mayTimeOut && giveUp && w in f.ready {
      AllTrackStep(b, gas, cached, s0, f.st, f.phases, w, Finished(None), f.st);
      MovedOn(f, w, Finished(None), f.st);
      f' := f.Moved(w, Finished(None), f.st);
    } else {
      AdvanceOne(b, gas, cached, s0, f.st, f.phases, w);
      var step := Advance(b.txs[w], gas[w], cached, f.phases[w], f.st);
      MovedOn(f, w, step.0, step.1);
      f' := f.Moved(w, step.0, step.1);
    }
  }

  /** How far a worker is. */
  function Progress(ph: Phase): nat {
    match ph
    case Start => 0
    case Debited(_) => 1
    case Credited(_, _) => 2
    case Finished(_) => 3
  }

  /** A worker that gets further is sorted into its new phase. */
  lemma MovedOn(f: Flight, w: nat, ph: Phase, st: State)
    requires f.Sorted() && w in f.phases && Progress(f.phases[w]) < Progress(ph)
    ensures var f' := f.Moved(w, ph, st);
            f'.Sorted() && (f'.ready < f.ready || (f'.ready == f.ready && f'.debited < f.debited)
                            || (f'.ready == f.ready && f'.debited == f.debited && f'.credited < f.credited))
  {
  }

  /**
   * Runs the workers of `tasks` to the end. Which worker moves next is left open at every step, so
   * the outcome is shown for every interleaving; with `mayTimeOut` a worker may also give up before
   * it starts. Each worker ends with what it would have done alone.
   */
  method RunWorkers(b: Block, tasks: set<nat>, gas: map<nat, nat>, cached: set<Address>, s0: State, mayTimeOut: bool)
    returns (st: State, phases: map<nat, Phase>)
    requires Independent(b, tasks) && tasks <= gas.Keys
    ensures phases.Keys == tasks && AllTrack(b, gas, cached, s0, st, phases)
    ensures forall i :: i in phases ==> phases[i].Finished? && (!mayTimeOut ==> phases[i].result.Some?)
  {
    var f := Flight(s0, map i | i in tasks :: Start, tasks, {}, {});
    while f.Unfinished() != {}
      invariant f.Good(b, tasks, gas, cached, s0, mayTimeOut)
      decreases f.ready, f.debited, f.credited
    {
      var w :| w in f.Unfinished();
      f := MoveWorker(b, tasks, gas, cached, s0, mayTimeOut, f, w);
    }
    st, phases := f.st, f.phases;
    assert forall i :: i in phases ==> i !in f.ready && i !in f.debited && i !in f.credited;
  }
}
