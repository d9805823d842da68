/**
 * Packing a block and then validating it. A packer may stop at its deadline, lose workers, skip
 * senders and reject transactions; the list it packs is nevertheless a block that runs through.
 */
module Packing {
  import opened Types
  import opened DagGraph
  import opened TxDependencies
  import IntrinsicGas
  import opened Rules
  import opened Receipts
  import opened GasCoverage
  import opened Executor
  import opened Processor

  /** The first `n` transactions of `packed` are those of `b` listed in `w`, classified alike. */
  ghost predicate Follows(b: Block, w: seq<nat>, packed: Block, n: nat) {
    n <= |w| && n <= |packed.txs| && Indices(b, w) &&
    forall k: nat :: k < n ==> packed.txs[k] == b.txs[w[k]] && packed.Calls(k) == b.Calls(w[k])
  }

  /** `c'` has the ledger and the totals of `c`, and no less gas in its pool. */
  ghost predicate Reproduces(c: Totals, c': Totals) {
    c'.st == c.st && c'.used == c.used && c'.earnings == c.earnings && c'.packed == c.packed && c'.pool >= c.pool
  }

  /** A transaction that succeeds does so wherever ledger and position are the same. */
  lemma StepReproduces(vm: Machine, b: Block, x: nat, c: Totals, b': Block, k: nat, c': Totals)
    requires x < |b.txs| && k < |b'.txs| && b'.txs[k] == b.txs[x] && b'.Calls(k) == b.Calls(x) && Reproduces(c, c')
    requires Step(false, vm, b, x, c).log[x].Success?
    ensures Reproduces(Step(false, vm, b, x, c), Step(false, vm, b', k, c'))
    ensures Step(false, vm, b', k, c').log[k] == Step(false, vm, b, x, c).log[x]
  {
  }

  /** A transaction that does not succeed leaves ledger and totals alone. */
  lemma StepSkips(vm: Machine, b: Block, x: nat, c: Totals, c': Totals)
    requires x < |b.txs| && Reproduces(c, c') && !Step(false, vm, b, x, c).log[x].Success?
    ensures Reproduces(Step(false, vm, b, x, c), c')
  {
  }

  /** What becomes of transaction `k` in block order. */
  ghost function OutcomeAt(vm: Machine, b: Block, c: Totals, k: nat): Outcome
    requires k < |b.txs|
  {
    Step(false, vm, b, k, Serial(false, vm, b, k, c)).log[k]
  }

  /** Transaction `k` succeeds in block order and, if it is a call, finds its gas limit in the pool. */
  ghost predicate Succeeds(vm: Machine, b: Block, c: Totals, k: nat)
    requires k < |b.txs|
  {
    OutcomeAt(vm, b, c, k).Success? && (b.Calls(k) ==> b.txs[k].gas <= Serial(false, vm, b, k, c).pool)
  }

  ghost predicate RunsThrough(vm: Machine, b: Block, c: Totals, n: nat)
    requires n <= |b.txs|
  {
    forall k: nat :: k < n ==> Succeeds(vm, b, c, k)
  }

  lemma ReplayWinner(vm: Machine, b: Block, x: nat, before: Totals, packed: Block, m: nat, c: Totals)
    requires x < |b.txs| && m < |packed.txs| && packed.txs[m] == b.txs[x] && packed.Calls(m) == b.Calls(x)
    requires Reproduces(before, Serial(false, vm, packed, m, c)) && RunsThrough(vm, packed, c, m)
    requires Step(false, vm, b, x, before).log[x].Success? && (b.Calls(x) ==> b.txs[x].gas <= before.pool)
    ensures Reproduces(Step(false, vm, b, x, before), Serial(false, vm, packed, m + 1, c)) && RunsThrough(vm, packed, c, m + 1)
  {
    StepReproduces(vm, b, x, before, packed, m, Serial(false, vm, packed, m, c));
    StepLog(false, vm, packed, m, Serial(false, vm, packed, m, c));
  }

  lemma FollowsRest(vm: Machine, b: Block, order: seq<nat>, c: Totals, packed: Block)
    requires Indices(b, order) && order != []
    requires Follows(b, Winners(vm, b, order, c), packed, |Winners(vm, b, order, c)|)
    ensures var x, w := order[|order| - 1], Winners(vm, b, order[..|order| - 1], c);
            && Winners(vm, b, order, c) == w + (if Run(false, vm, b, order, c).log[x].Success? then [x] else [])
            && Follows(b, w, packed, |w|)
  {
    var w := Winners(vm, b, order[..|order| - 1], c);
    assert forall k :: 0 <= k < |w| ==> Winners(vm, b, order, c)[k] == w[k];
  }

  /** Running only the winners, as a block of their own, reproduces the run they were picked from. */
  lemma {:induction false} WinnersReplay(vm: Machine, b: Block, order: seq<nat>, c: Totals, packed: Block)
    requires Indices(b, order) && CallsFit(vm, b, order, c)
    requires Follows(b, Winners(vm, b, order, c), packed, |Winners(vm, b, order, c)|)
    ensures var m := |Winners(vm, b, order, c)|;
            Reproduces(Run(false, vm, b, order, c), Serial(false, vm, packed, m, c)) && RunsThrough(vm, packed, c, m)
  {
    if order != [] {
      var x, rest := order[|order| - 1], order[..|order| - 1];
      var before, w := Run(false, vm, b, rest, c), Winners(vm, b, rest, c);
      var m := |w|;
      FollowsRest(vm, b, order, c, packed);
      WinnersReplay(vm, b, rest, c, packed);
      if Run(false, vm, b, order, c).log[x].Success? {
        assert Winners(vm, b, order, c)[m] == x;
        ReplayWinner(vm, b, x, before, packed, m, c);
      } else {
        StepSkips(vm, b, x, before, Serial(false, vm, packed, m, c));
      }
    }
  }

  lemma {:induction false} SerialLogKept(vm: Machine, b: Block, c: Totals, i: nat, n: nat)
    requires i < n <= |b.txs|
    ensures i in Serial(false, vm, b, n, c).log && Serial(false, vm, b, n, c).log[i] == OutcomeAt(vm, b, c, i)
  {
    StepLog(false, vm, b, n - 1, Serial(false, vm, b, n - 1, c));
    if i < n - 1 {
      SerialLogKept(vm, b, c, i, n - 1);
    }
  }

  lemma StepShareExact(vm: Machine, b: Block, i: nat, c: Totals)
    requires i < |b.txs| && Step(false, vm, b, i, c).log[i].Success?
    ensures var c' := Step(false, vm, b, i, c); c'.pool == c.pool - Share(b, i, c'.log[i])
  {
  }

  /** When everything succeeds, the shares add up to what the pool gave. */
  lemma {:induction false} SharesExact(vm: Machine, b: Block, c: Totals, log: map<nat, Outcome>, n: nat)
    requires n <= |b.txs| && RunsThrough(vm, b, c, |b.txs|)
    requires forall i: nat :: i < |b.txs| ==> i in log && log[i] == OutcomeAt(vm, b, c, i)
    ensures Serial(false, vm, b, n, c).pool == c.pool - Shares(b, log, Below(|b.txs|), n)
  {
    if n > 0 {
      SharesExact(vm, b, c, log, n - 1);
      assert Succeeds(vm, b, c, n - 1);
      StepShareExact(vm, b, n - 1, Serial(false, vm, b, n - 1, c));
    }
  }

  /** A block that runs through and leaves a pool that is not overdrawn has an ample pool. */
  lemma RunsThroughIsEnough(vm: Machine, b: Block, c: Totals)
    requires RunsThrough(vm, b, c, |b.txs|) && Serial(false, vm, b, |b.txs|, c).pool >= 0
    ensures Enough(vm, b, c)
  {
    var n := |b.txs|;
    SerialLogs(false, vm, b, n, c);
    var log := Serial(false, vm, b, n, c).log;
    forall i: nat | i < n ensures i in log && log[i] == OutcomeAt(vm, b, c, i) {
      SerialLogKept(vm, b, c, i, n);
    }
    SharesExact(vm, b, c, log, n);
    forall i: nat | i < n && b.Calls(i) ensures b.txs[i].gas <= Serial(false, vm, b, i, c).pool {
      assert Succeeds(vm, b, c, i);
    }
  }

  /** Every transaction of a block that runs through has a receipt. */
  lemma {:induction false} AllReceipts(b: Block, log: map<nat, Outcome>, n: nat)
    requires n <= |b.txs| && forall i: nat :: i < n ==> i in log && log[i].Success?
    ensures var rs := BlockReceipts(b, log, n);
            |rs| == n && forall k :: 0 <= k < n ==> rs[k].hash == b.txs[k].hash && rs[k].gasUsed == log[k].gasUsed
  {
    if n > 0 {
      AllReceipts(b, log, n - 1);
    }
  }

  // ----- When the packed block is classified alike -----

  /** `packed` is the block of the transactions `w` of `b`. */
  ghost predicate PickedFrom(b: Block, w: seq<nat>, packed: Block) {
    && packed.code == b.code && packed.created == b.created && |packed.txs| == |w| && KeepsOrder(b, w)
    && forall k: nat :: k < |w| ==> packed.txs[k] == b.txs[w[k]]
  }

  /** Each packed transaction is classified in the packed block as it was while packing. */
  ghost predicate KindsMatch(b: Block, w: seq<nat>, packed: Block)
    requires PickedFrom(b, w, packed)
  {
    forall k: nat :: k < |w| ==> packed.Calls(k) == b.Calls(w[k])
  }

  /** Transaction `j` creates a contract at `a`. */
  ghost predicate Creates(b: Block, j: nat, a: Address)
    requires j < |b.txs|
  {
    b.txs[j].from != ZERO_ADDRESS && b.txs[j].to.None? && b.txs[j].created == a
  }

  lemma {:induction false} CreatedBy(b: Block, n: nat, a: Address)
    requires n <= |b.txs|
    ensures a in b.CreatedBefore(n) <==> a in b.created || exists j: nat :: j < n && Creates(b, j, a)
  {
    if n > 0 {
      CreatedBy(b, n - 1, a);
      assert Creates(b, n - 1, a) <==> b.txs[n - 1].from != ZERO_ADDRESS && b.txs[n - 1].to.None? && b.txs[n - 1].created == a;
    }
  }

  /**
   * A packed transaction is classified as the packer did if and only if it does not call an address
   * that only a transaction left out of the block would have created.
   */
  lemma KindsMatchIff(b: Block, w: seq<nat>, packed: Block, k: nat)
    requires PickedFrom(b, w, packed) && k < |w|
    ensures packed.Calls(k) == b.Calls(w[k]) <==>
            !(packed.txs[k].to.Some? && packed.txs[k].to.value !in packed.code &&
              packed.txs[k].to.value in b.CreatedBefore(w[k]) && packed.txs[k].to.value !in packed.CreatedBefore(k))
  {
    if packed.txs[k].to.Some? {
      var a := packed.txs[k].to.value;
      CreatedBy(packed, k, a);
      CreatedBy(b, w[k], a);
      if m: nat :| m < k && Creates(packed, m, a) {
        assert b.Calls(w[m]) && b.Conflict(w[m], w[k]);
        assert w[m] < w[k] && Creates(b, w[m], a);
      }
    }
  }

  /** Transaction `i` is a call only because the earlier transaction `j` creates the contract it calls. */
  ghost predicate Relies(b: Block, i: nat, j: nat) {
    && j < i < |b.txs| && b.txs[i].to.Some? && Creates(b, j, b.txs[i].to.value)
    && b.txs[i].to.value !in b.code && b.txs[i].to.value !in b.created
  }

  /** No candidate is a call only because of another. */
  ghost predicate SelfContained(b: Block) {
    forall i: nat, j: nat :: !Relies(b, i, j)
  }

  /** It is enough that every creation a packed transaction relies on is packed as well. */
  lemma CreationsPacked(b: Block, w: seq<nat>, packed: Block)
    requires PickedFrom(b, w, packed) && forall k: nat, j: nat :: k < |w| && Relies(b, w[k], j) ==> j in w
    ensures KindsMatch(b, w, packed)
  {
    forall k: nat | k < |w| ensures packed.Calls(k) == b.Calls(w[k]) {
      KindsMatchIff(b, w, packed, k);
      if packed.txs[k].to.Some? {
        var a := packed.txs[k].to.value;
        CreatedBy(packed, k, a);
        CreatedBy(b, w[k], a);
        if a !in b.code && a !in b.created {
          if j: nat :| j < w[k] && Creates(b, j, a) {
            assert Relies(b, w[k], j);
            assert j in w;
            var m :| 0 <= m < |w| && w[m] == j;
            assert b.Calls(j) && b.Conflict(w[k], w[m]);
            assert m < k && Creates(packed, m, a);
          }
        }
      }
    }
  }

  /**
   * The condition on the candidates alone: whatever is packed of them keeps its kinds if and only if
   * none relies on another.
   */
  lemma SelfContainedIff(b: Block)
    ensures SelfContained(b) <==> forall w, packed :: PickedFrom(b, w, packed) ==> KindsMatch(b, w, packed)
  {
    if SelfContained(b) {
      forall w, packed | PickedFrom(b, w, packed) ensures KindsMatch(b, w, packed) {
        CreationsPacked(b, w, packed);
      }
    } else {
      var i: nat, j: nat :| Relies(b, i, j);
      var w, packed := [i], Block([b.txs[i]], b.code, b.created);
      CreatedBy(b, i, b.txs[i].to.value);
      assert PickedFrom(b, w, packed) && !packed.Calls(0) && b.Calls(w[0]);
      assert !KindsMatch(b, w, packed);
    }
  }

  /** `packed` is what a packer that came to the run of `order` packs. */
  ghost predicate Packs(vm: Machine, b: Block, order: seq<nat>, c: Totals, packed: Block) {
    KeepsOrder(b, order) && CallsFit(vm, b, order, c) && PickedFrom(b, Winners(vm, b, order, c), packed)
  }

  /** A creation, and a transfer to the address it would create. */
  ghost function Candidates(): Block {
    Block([Tx(1, 5, None, 0, 60000, 0, 0, [], 77, 100), Tx(2, 6, Some(77), 0, 50000, 0, 0, [], 78, 100)], {}, {})
  }

  ghost function SecondAlone(): Block {
    Block([Candidates().txs[1]], {}, {})
  }

  /** A machine that refuses creations and runs every other call for 29000 gas. */
  ghost function Refuser(): Machine {
    Machine((tx: Tx, st: State, position: nat) =>
      if tx.to.None? then Refused else Applied(st, if tx.gas >= 29000 then tx.gas - 29000 else 0))
  }

  const START := Totals(map[], 1000000, 0, 0, 0, map[])

  lemma CandidateKinds()
    ensures var b := Candidates(); b.Calls(0) && b.Calls(1) && Relies(b, 1, 0) && !SecondAlone().Calls(0)
    ensures PickedFrom(Candidates(), [1], SecondAlone())
  {
    CreatedBy(Candidates(), 1, 77);
    assert Creates(Candidates(), 0, 77);
  }

  lemma PackerRuns()
    ensures var b, vm := Candidates(), Refuser();
            && KeepsOrder(b, [0, 1]) && CallsFit(vm, b, [0, 1], START)
            && Winners(vm, b, [0, 1], START) == [1] && Run(false, vm, b, [0, 1], START).used == 29000
  {
    var b, vm := Candidates(), Refuser();
    CandidateKinds();
    assert [0, 1][..1] == [0] && [0][..0] == [];
    assert Run(false, vm, b, [], START) == START;
    var first := Run(false, vm, b, [0], START);
    assert first == Step(false, vm, b, 0, START) == START.(log := map[0 := CallRefused]);
    assert Winners(vm, b, [0], START) == [] && CallsFit(vm, b, [0], START);
    assert Run(false, vm, b, [0, 1], START) == Step(false, vm, b, 1, first);
    assert Step(false, vm, b, 1, first).log[1] == Success(29000);
  }

  lemma ValidatorRuns()
    ensures Serial(true, Refuser(), SecondAlone(), 1, START).used == 21000
  {
    CandidateKinds();
    var b := SecondAlone();
    assert Serial(true, Refuser(), b, 0, START) == START;
    assert IntrinsicGas.OfTransfer([]) == Some(21000);
    assert TransferOutcome(b.txs[0], map[]) == Success(21000);
  }

  /**
   * Where a candidate relies on another, validation can come out otherwise: the packer refuses the
   * creation and runs the second candidate as a call, for 29000 gas; packed alone it is validated as
   * a transfer, for 21000.
   */
  lemma ValidatedOtherwise()
    ensures Packs(Refuser(), Candidates(), [0, 1], START, SecondAlone()) && Relies(Candidates(), 1, 0)
    ensures Run(false, Refuser(), Candidates(), [0, 1], START).used == 29000
    ensures Serial(true, Refuser(), SecondAlone(), 1, START).used == 21000
  {
    CandidateKinds();
    PackerRuns();
    ValidatorRuns();
  }

  /** Running `packed` by itself reproduces the run of `order`, and every one of its transactions succeeds. */
  ghost predicate Replays(vm: Machine, b: Block, order: seq<nat>, c: Totals, packed: Block)
    requires Indices(b, order)
  {
    && Reproduces(Run(false, vm, b, order, c), Serial(false, vm, packed, |packed.txs|, c))
    && RunsThrough(vm, packed, c, |packed.txs|)
  }

  /** A machine that refuses creations and charges nothing for other calls. */
  ghost function Gratis(): Machine {
    Machine((tx: Tx, st: State, position: nat) => if tx.to.None? then Refused else Applied(st, tx.gas))
  }

  lemma GratisRuns(b: Block, i: nat, j: nat, c: Totals)
    requires Relies(b, i, j) && b.Calls(i) && b.txs[i].gas <= c.pool && b.txs[j].gas <= c.pool
    ensures KeepsOrder(b, [j, i]) && CallsFit(Gratis(), b, [j, i], c) && Winners(Gratis(), b, [j, i], c) == [i]
    ensures var ran := Run(false, Gratis(), b, [j, i], c); ran.used == c.used && ran.packed == c.packed + 1
  {
    var vm := Gratis();
    assert [j, i][..1] == [j] && [j][..0] == [];
    assert Run(false, vm, b, [], c) == c && CallsFit(vm, b, [], c);
    var first := Run(false, vm, b, [j], c);
    assert first == CallStep(false, vm, b.txs[j], j, c) == c.(log := c.log[j := CallRefused]);
    assert Winners(vm, b, [j], c) == [] && CallsFit(vm, b, [j], c);
    assert Run(false, vm, b, [j, i], c) == CallStep(false, vm, b.txs[i], i, first);
  }

  /** A transfer that succeeds uses gas; one that fails is not counted as packed. */
  lemma TransferShows(vm: Machine, b: Block, c: Totals)
    requires |b.txs| == 1 && !b.Calls(0)
    ensures var c' := Serial(false, vm, b, 1, c); c'.used > c.used || c'.packed == c.packed
  {
    assert Serial(false, vm, b, 0, c) == c;
    assert Serial(false, vm, b, 1, c) == TransferStep(false, b.txs[0], 0, c);
  }

  /** By itself such a candidate is a transfer. */
  lemma ReliantAlone(b: Block, i: nat, j: nat)
    requires Relies(b, i, j)
    ensures b.Calls(i) && !Block([b.txs[i]], b.code, b.created).Calls(0)
    ensures PickedFrom(b, [i], Block([b.txs[i]], b.code, b.created))
  {
    CreatedBy(b, i, b.txs[i].to.value);
  }

  /** A candidate that relies on a creation, run after it on a machine that refuses creations, does not replay. */
  lemma ReliantBreaks(b: Block, i: nat, j: nat)
    requires Relies(b, i, j)
    ensures var c, packed := Totals(map[], b.txs[j].gas + b.txs[i].gas, 0, 0, 0, map[]), Block([b.txs[i]], b.code, b.created);
            Packs(Gratis(), b, [j, i], c, packed) && !Replays(Gratis(), b, [j, i], c, packed)
  {
    var c, packed := Totals(map[], b.txs[j].gas + b.txs[i].gas, 0, 0, 0, map[]), Block([b.txs[i]], b.code, b.created);
    ReliantAlone(b, i, j);
    GratisRuns(b, i, j, c);
    TransferShows(Gratis(), packed, c);
  }

  /**
   * Exactly when no candidate relies on another does everything that can be packed of them replay,
   * whatever the machine, the ledger and the order the packer came to.
   */
  lemma ReplaysIffSelfContained(b: Block)
    ensures SelfContained(b) <==>
            forall vm, order, c, packed :: Packs(vm, b, order, c, packed) ==> Replays(vm, b, order, c, packed)
  {
    if SelfContained(b) {
      forall vm, order, c, packed | Packs(vm, b, order, c, packed) ensures Replays(vm, b, order, c, packed) {
        CreationsPacked(b, Winners(vm, b, order, c), packed);
        PackedFollows(b, Winners(vm, b, order, c), packed);
        WinnersReplay(vm, b, order, c, packed);
      }
    } else {
      var i: nat, j: nat :| Relies(b, i, j);
      ReliantBreaks(b, i, j);
    }
  }

  // ----- The theorem -----

  lemma PackedFollows(b: Block, w: seq<nat>, packed: Block)
    requires PickedFrom(b, w, packed) && KindsMatch(b, w, packed)
    ensures Follows(b, w, packed, |w|)
  {
  }

  /** The winners of a run in which conflicts keep their order keep it too. */
  lemma {:induction false} WinnersKeepOrder(vm: Machine, b: Block, order: seq<nat>, c: Totals)
    requires KeepsOrder(b, order)
    ensures KeepsOrder(b, Winners(vm, b, order, c))
  {
    if order != [] {
      var x, rest := order[|order| - 1], order[..|order| - 1];
      WinnersKeepOrder(vm, b, rest, c);
      var w := Winners(vm, b, rest, c);
      forall p | 0 <= p < |w| ensures w[p] != x && (b.Conflict(w[p], x) ==> w[p] < x) {
        assert w[p] in rest;
      }
      KeepsOrderNext(b, w, x);
    }
  }

  lemma KeepsOrderNext(b: Block, w: seq<nat>, x: nat)
    requires KeepsOrder(b, w) && x < |b.txs| && forall p :: 0 <= p < |w| ==> w[p] != x && (b.Conflict(w[p], x) ==> w[p] < x)
    ensures KeepsOrder(b, w + [x])
  {
  }

  /** What the packer recorded is the block of its winners. */
  lemma PackedPicked(vm: Machine, b: Block, order: seq<nat>, start: Totals, log: map<nat, Outcome>, receipts: seq<Receipt>, packed: Block)
    requires KeepsOrder(b, order) && packed.code == b.code && packed.created == b.created && b.Resolved()
    requires Records(b, Winners(vm, b, order, start), log, packed.txs, receipts)
    ensures PickedFrom(b, Winners(vm, b, order, start), packed) && packed.Resolved()
    ensures DistinctHashes(b.txs) ==> DistinctHashes(packed.txs)
  {
    WinnersKeepOrder(vm, b, order, start);
    var w := Winners(vm, b, order, start);
    if DistinctHashes(b.txs) {
      forall j, k | 0 <= j < k < |packed.txs| ensures packed.txs[j].hash != packed.txs[k].hash {
        assert packed.txs[j] == b.txs[w[j]] && packed.txs[k] == b.txs[w[k]] && w[j] != w[k];
      }
    }
  }

  /** What validation makes of a block that runs through. */
  ghost predicate Validated(vm: Machine, b: Block, start: Totals, coinbase: Address, st: State, used: nat, receipts: seq<Receipt>) {
    var serial := Serial(true, vm, b, |b.txs|, start);
    && st == PayProducer(serial.st, coinbase, serial.earnings) && used == serial.used
    && (DistinctHashes(b.txs) ==> receipts == BlockReceipts(b, serial.log, |b.txs|))
  }

  /** Validating the winners of a run gives its ledger and gas, and every one of them has a receipt. */
  lemma PackedReplays(vm: Machine, b: Block, order: seq<nat>, start: Totals, packed: Block, coinbase: Address,
                      st: State, used: nat, receipts: seq<Receipt>)
    requires Indices(b, order) && CallsFit(vm, b, order, start) && Run(false, vm, b, order, start).pool >= 0
    requires PickedFrom(b, Winners(vm, b, order, start), packed) && KindsMatch(b, Winners(vm, b, order, start), packed)
    ensures Enough(vm, packed, start)
    ensures var ran := Run(false, vm, b, order, start);
            Validated(vm, packed, start, coinbase, st, used, receipts) ==>
              && st == PayProducer(ran.st, coinbase, ran.earnings) && used == ran.used
              && (DistinctHashes(packed.txs) ==> HashesOf(receipts) == HashesOfTxs(packed.txs))
  {
    PackedFollows(b, Winners(vm, b, order, start), packed);
    WinnersReplay(vm, b, order, start, packed);
    RunsThroughIsEnough(vm, packed, start);
    BoundedAgrees(vm, packed, start, |packed.txs|);
    PackedReceipts(vm, packed, start);
  }

  ghost function HashesOf(receipts: seq<Receipt>): seq<Hash> {
    seq(|receipts|, k requires 0 <= k < |receipts| => receipts[k].hash)
  }

  ghost function HashesOfTxs(txs: seq<Tx>): seq<Hash> {
    seq(|txs|, k requires 0 <= k < |txs| => txs[k].hash)
  }

  lemma PackedReceipts(vm: Machine, b: Block, c: Totals)
    requires RunsThrough(vm, b, c, |b.txs|)
    ensures HashesOf(BlockReceipts(b, Serial(false, vm, b, |b.txs|, c).log, |b.txs|)) == HashesOfTxs(b.txs)
  {
    forall i: nat | i < |b.txs|
      ensures i in Serial(false, vm, b, |b.txs|, c).log && Serial(false, vm, b, |b.txs|, c).log[i].Success?
    {
      SerialLogKept(vm, b, c, i, |b.txs|);
      assert Succeeds(vm, b, c, i);
    }
    AllReceipts(b, Serial(false, vm, b, |b.txs|, c).log, |b.txs|);
  }

  /**
   * Packs a block from candidate transactions and validates what was packed from the same ledger.
   * Whatever the packer skipped, timed out on or rejected: if each packed transaction is classified
   * as it was while packing, every one succeeds again, and ledger and gas used come out the same.
   * Candidates of which none relies on another always are. `order` is the run the packer came to.
   */
  method PackThenValidate(b: Block, vm: Machine, st: State, gasLimit: nat, coinbase: Address)
    returns (packed: Block, ghost order: seq<nat>, packedSt: State, packedUsed: nat, st': State, used: nat, receipts: seq<Receipt>)
    requires b.Resolved() && Canonical(st)
    ensures var start := Totals(st, gasLimit, 0, 0, 0, map[]);
            && Packs(vm, b, order, start, packed)
            && var ran := Run(false, vm, b, order, start);
               packedSt == PayProducer(ran.st, coinbase, ran.earnings) && packedUsed == ran.used
    ensures var w := Winners(vm, b, order, Totals(st, gasLimit, 0, 0, 0, map[]));
            && (SelfContained(b) ==> KindsMatch(b, w, packed))
            && (KindsMatch(b, w, packed) ==>
              && st' == packedSt && used == packedUsed
              && (DistinctHashes(b.txs) ==> HashesOf(receipts) == HashesOfTxs(packed.txs)))
  {
    var ctx := new ParallelContext(b, vm, st, gasLimit, true);
    ctx.ExecuteTransactions(coinbase);
    packed := Block(ctx.packedTxs, b.code, b.created);
    packedSt, packedUsed := ctx.st, ctx.used;
    ghost var start, s := ctx.start, ctx.shadow;
    order := s.order;
    PackedPicked(vm, b, s.order, start, s.ideal.log, ctx.receipts, packed);
    st', receipts, used := Process(packed, vm, st, gasLimit, coinbase);
    SelfContainedIff(b);
    if KindsMatch(b, s.winners, packed) {
      PackedReplays(vm, b, s.order, start, packed, coinbase, st', used, receipts);
    }
  }
}
