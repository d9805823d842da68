/**
 * The transaction pool's scheduler (scheduleReorgLoop in core/tx_pool.go): requests for resets and
 * promotions are coalesced into background runs, of which one is in flight at a time.
 * Every step below is one atomic action of the loop or of a run; a history is any sequence of steps.
 */
module Scheduler {
  import opened Types

  /** From which head to which head the pool is reset; headers by their hash. */
  datatype Reset = Reset(oldHead: Hash, newHead: Hash)

  /** A request and the round whose done channel its sender was given. */
  datatype Request =
    | AskReset(round: nat, oldHead: Hash, newHead: Hash)
    | AskPromote(round: nat, accounts: set<Address>)

  /**
   * A background run: what it was launched with and, once it has had the pool's lock, the accounts
   * it promoted and those that had queued transactions at that moment.
   */
  datatype Run = Run(
    reset: Option<Reset>, dirty: Option<set<Address>>, promoted: Option<set<Address>>, queued: set<Address>)

  /** The loop's variables (done channels are numbered by round) and the history the claims are about. */
  datatype State = State(
    curDone: Option<nat>,
    nextDone: nat,
    launchNextRun: bool,
    reset: Option<Reset>,
    dirty: Option<set<Address>>,
    stopped: bool,
    inFlight: set<nat>,
    closed: set<nat>,
    runs: map<nat, Run>,
    requests: seq<Request>)

  const Init := State(None, 0, false, None, None, false, {}, {}, map[], [])

  datatype Event =
    | Launch                                   // the top of the loop
    | ReceiveReset(oldHead: Hash, newHead: Hash)
    | ReceivePromote(accounts: set<Address>)
    | Promote(round: nat, queued: set<Address>) // a run under the pool's lock
    | Close(round: nat)                        // a run returns
    | Notice                                   // the loop sees that its run has returned
    | Shutdown

  /** The loop reaches its select only after launching what it can. */
  predicate AtSelect(s: State) {
    !s.stopped && !(s.curDone.None? && s.launchNextRun)
  }

  predicate Enabled(s: State, e: Event) {
    match e
    case Launch => !s.stopped && s.curDone.None? && s.launchNextRun
    case ReceiveReset(_, _) => AtSelect(s)
    case ReceivePromote(_) => AtSelect(s)
    case Promote(round, _) => round in s.inFlight && round in s.runs && s.runs[round].promoted.None?
    case Close(round) => round in s.inFlight && round in s.runs && s.runs[round].promoted.Some?
    case Notice => AtSelect(s) && s.curDone.Some? && s.curDone.value in s.closed
    case Shutdown => AtSelect(s) && (s.curDone.Some? ==> s.curDone.value in s.closed)
  }

  /** The accounts a run promotes: its own, or everything queued if it resets the pool. */
  function PromoteAddrs(run: Run, queued: set<Address>): set<Address> {
    if run.reset.Some? then queued else if run.dirty.Some? then run.dirty.value else {}
  }

  function Apply(s: State, e: Event): State
    requires Enabled(s, e)
  {
    match e
    case Launch =>
      s.(runs := s.runs[s.nextDone := Run(s.reset, s.dirty, None, {})], inFlight := s.inFlight + {s.nextDone},
         curDone := Some(s.nextDone), nextDone := s.nextDone + 1, launchNextRun := false, reset := None, dirty := None)
    case ReceiveReset(oldHead, newHead) =>
      s.(reset := Some(Reset(if s.reset.None? then oldHead else s.reset.value.oldHead, newHead)),
         launchNextRun := true, requests := s.requests + [AskReset(s.nextDone, oldHead, newHead)])
    case ReceivePromote(accounts) =>
      s.(dirty := Some(if s.dirty.None? then accounts else s.dirty.value + accounts),
         launchNextRun := true, requests := s.requests + [AskPromote(s.nextDone, accounts)])
    case Promote(round, queued) =>
      var run := s.runs[round];
      s.(runs := s.runs[round := run.(promoted := Some(PromoteAddrs(run, queued)), queued := queued)])
    case Close(round) => s.(inFlight := s.inFlight - {round}, closed := s.closed + {round})
    case Notice => s.(curDone := None)
    case Shutdown => s.(closed := s.closed + {s.nextDone}, stopped := true)
  }

  ghost predicate Next(s: State, e: Event, s': State) {
    Enabled(s, e) && s' == Apply(s, e)
  }

  ghost predicate IsRun(states: seq<State>, events: seq<Event>) {
    && |states| == |events| + 1 && states[0] == Init
    && forall k :: 0 <= k < |events| ==> Next(states[k], events[k], states[k + 1])
  }

  // ----- What a round stands for -----

  ghost predicate ResetIn(requests: seq<Request>, round: nat, i: nat) {
    i < |requests| && requests[i].AskReset? && requests[i].round == round
  }

  ghost predicate PromoteIn(requests: seq<Request>, round: nat, i: nat) {
    i < |requests| && requests[i].AskPromote? && requests[i].round == round
  }

  /** The merge of the resets asked for in a round: the first one's old head, the last one's new head. */
  ghost predicate MergesResets(requests: seq<Request>, round: nat, reset: Option<Reset>) {
    if reset.None? then forall i: nat :: !ResetIn(requests, round, i)
    else exists i: nat, j: nat ::
      && ResetIn(requests, round, i) && ResetIn(requests, round, j)
      && (forall k: nat :: ResetIn(requests, round, k) ==> i <= k <= j)
      && reset.value == Reset(requests[i].oldHead, requests[j].newHead)
  }

  /** The accounts asked for in a round, no more and no fewer. */
  ghost predicate MergesAccounts(requests: seq<Request>, round: nat, dirty: Option<set<Address>>) {
    if dirty.None? then forall i: nat :: !PromoteIn(requests, round, i)
    else
      && (exists i: nat :: PromoteIn(requests, round, i))
      && (forall i: nat :: PromoteIn(requests, round, i) ==> requests[i].accounts <= dirty.value)
      && (forall a :: a in dirty.value ==> exists i: nat :: PromoteIn(requests, round, i) && a in requests[i].accounts)
  }

  // ----- What every history keeps -----

  ghost predicate RunMerges(s: State, round: nat) {
    round in s.runs && MergesResets(s.requests, round, s.runs[round].reset)
    && MergesAccounts(s.requests, round, s.runs[round].dirty)
  }

  /** What is pending is the merge of this round's requests, and each run was launched with its round's. */
  ghost predicate Merged(s: State) {
    && MergesResets(s.requests, s.nextDone, s.reset) && MergesAccounts(s.requests, s.nextDone, s.dirty)
    && (forall round :: round in s.runs <==> 0 <= round < s.nextDone)
    && (forall i :: 0 <= i < |s.requests| ==> s.requests[i].round <= s.nextDone)
    && (forall round: nat :: round < s.nextDone ==> RunMerges(s, round))
  }

  /** At most one run is in flight, the current one; a channel closes when its run is over, or at shutdown. */
  ghost predicate Sequential(s: State) {
    && (s.launchNextRun <==> s.reset.Some? || s.dirty.Some?)
    && (forall round :: round in s.inFlight ==> s.curDone == Some(round) && round !in s.closed)
    && (forall round :: round in s.runs && round !in s.closed ==> round in s.inFlight)
    && (forall round :: round in s.closed ==>
      if round in s.runs then s.runs[round].promoted.Some? else s.stopped && round == s.nextDone)
    && (s.curDone.Some? ==> s.curDone.value in s.runs)
    && (forall round :: round in s.runs ==> round < s.nextDone)
    && (forall round :: round in s.runs && s.runs[round].promoted.Some? ==>
      s.runs[round].promoted.value == PromoteAddrs(s.runs[round], s.runs[round].queued))
  }

  /** A request of another round, or of the other kind, changes nothing for a round. */
  lemma OtherReset(requests: seq<Request>, r: Request, round: nat, reset: Option<Reset>)
    requires MergesResets(requests, round, reset) && !(r.AskReset? && r.round == round)
    ensures MergesResets(requests + [r], round, reset)
  {
    var grown := requests + [r];
    assert forall i: nat :: ResetIn(grown, round, i) <==> ResetIn(requests, round, i);
    if reset.Some? {
      var i: nat, j: nat :| ResetIn(requests, round, i) && ResetIn(requests, round, j)
        && (forall k: nat :: ResetIn(requests, round, k) ==> i <= k <= j)
        && reset.value == Reset(requests[i].oldHead, requests[j].newHead);
      assert ResetIn(grown, round, i) && ResetIn(grown, round, j);
    }
  }

  lemma OtherPromote(requests: seq<Request>, r: Request, round: nat, dirty: Option<set<Address>>)
    requires MergesAccounts(requests, round, dirty) && !(r.AskPromote? && r.round == round)
    ensures MergesAccounts(requests + [r], round, dirty)
  {
    var grown := requests + [r];
    assert forall i: nat :: PromoteIn(grown, round, i) <==> PromoteIn(requests, round, i);
    assert forall i: nat :: PromoteIn(requests, round, i) ==> grown[i] == requests[i];
  }

  lemma MoreReset(requests: seq<Request>, round: nat, reset: Option<Reset>, oldHead: Hash, newHead: Hash)
    requires MergesResets(requests, round, reset)
    ensures MergesResets(requests + [AskReset(round, oldHead, newHead)], round,
                         Some(Reset(if reset.None? then oldHead else reset.value.oldHead, newHead)))
  {
    var grown := requests + [AskReset(round, oldHead, newHead)];
    var last := |requests|;
    assert ResetIn(grown, round, last);
    assert forall k: nat :: ResetIn(grown, round, k) <==> ResetIn(requests, round, k) || k == last;
    if reset.Some? {
      var i: nat, j: nat :| ResetIn(requests, round, i) && ResetIn(requests, round, j)
        && (forall k: nat :: ResetIn(requests, round, k) ==> i <= k <= j)
        && reset.value == Reset(requests[i].oldHead, requests[j].newHead);
      assert ResetIn(grown, round, i);
    }
  }

  lemma MorePromote(requests: seq<Request>, round: nat, dirty: Option<set<Address>>, accounts: set<Address>)
    requires MergesAccounts(requests, round, dirty)
    ensures MergesAccounts(requests + [AskPromote(round, accounts)], round,
                           Some(if dirty.None? then accounts else dirty.value + accounts))
  {
    var grown := requests + [AskPromote(round, accounts)];
    var last := |requests|;
    assert PromoteIn(grown, round, last) && grown[last].accounts == accounts;
    assert forall i: nat :: PromoteIn(grown, round, i) <==> PromoteIn(requests, round, i) || i == last;
    assert forall i: nat :: PromoteIn(requests, round, i) ==> grown[i] == requests[i];
  }

  /** No request names a round that has not begun. */
  lemma FreshRound(s: State)
    requires Merged(s)
    ensures MergesResets(s.requests, s.nextDone + 1, None) && MergesAccounts(s.requests, s.nextDone + 1, None)
  {
  }

  lemma ReceiveMerged(s: State, e: Event)
    requires Merged(s) && Enabled(s, e) && (e.ReceiveReset? || e.ReceivePromote?)
    ensures Merged(Apply(s, e))
  {
    var s' := Apply(s, e);
    var r := s'.requests[|s.requests|];
    if e.ReceiveReset? {
      MoreReset(s.requests, s.nextDone, s.reset, e.oldHead, e.newHead);
      OtherPromote(s.requests, r, s.nextDone, s.dirty);
    } else {
      MorePromote(s.requests, s.nextDone, s.dirty, e.accounts);
      OtherReset(s.requests, r, s.nextDone, s.reset);
    }
    forall round: nat | round < s.nextDone ensures RunMerges(s', round) {
      assert RunMerges(s, round);
      OtherReset(s.requests, r, round, s.runs[round].reset);
      OtherPromote(s.requests, r, round, s.runs[round].dirty);
    }
  }

  lemma MergedStep(s: State, e: Event)
    requires Merged(s) && Enabled(s, e)
    ensures Merged(Apply(s, e))
  {
    if e.ReceiveReset? || e.ReceivePromote? {
      ReceiveMerged(s, e);
    } else {
      var s' := Apply(s, e);
      FreshRound(s);
      forall round: nat | round < s'.nextDone ensures RunMerges(s', round) {
        if round < s.nextDone {
          assert RunMerges(s, round);
        }
      }
    }
  }

  lemma SequentialStep(s: State, e: Event)
    requires Sequential(s) && Enabled(s, e)
    ensures Sequential(Apply(s, e))
  {
  }

  lemma {:induction false} HistoryKeeps(states: seq<State>, events: seq<Event>, k: nat)
    requires IsRun(states, events) && k < |states|
    ensures Merged(states[k]) && Sequential(states[k])
  {
    if k > 0 {
      HistoryKeeps(states, events, k - 1);
      assert Next(states[k - 1], events[k - 1], states[k]);
      MergedStep(states[k - 1], events[k - 1]);
      SequentialStep(states[k - 1], events[k - 1]);
    }
  }

  lemma {:induction false} RequestsGrow(states: seq<State>, events: seq<Event>, i: nat, j: nat)
    requires IsRun(states, events) && i <= j < |states|
    ensures states[i].requests <= states[j].requests
  {
    if i < j {
      RequestsGrow(states, events, i, j - 1);
      assert Next(states[j - 1], events[j - 1], states[j]);
    }
  }

  /** At no moment is more than one run in flight. */
  lemma OneAtATime(states: seq<State>, events: seq<Event>, k: nat, a: nat, b: nat)
    requires IsRun(states, events) && k < |states| && a in states[k].inFlight && b in states[k].inFlight
    ensures a == b
  {
    HistoryKeeps(states, events, k);
  }

  /** The channel of a round is closed, and not because the loop was shut down before launching it. */
  predicate Served(s: State, round: nat) {
    round in s.closed && !(s.stopped && round == s.nextDone)
  }

  /**
   * When the channel given for a promotion request is closed, a run that had not begun at the request
   * has promoted the accounts asked for, as far as they had anything queued.
   */
  lemma PromotionServed(states: seq<State>, events: seq<Event>, i: nat, j: nat)
    requires IsRun(states, events) && i < |events| && i < j < |states| && events[i].ReceivePromote?
    requires Served(states[j], states[i].nextDone)
    ensures var round := states[i].nextDone;
            && round !in states[i].runs && round in states[j].runs && states[j].runs[round].promoted.Some?
            && events[i].accounts * states[j].runs[round].queued <= states[j].runs[round].promoted.value
            && (states[j].runs[round].reset.None? ==> events[i].accounts <= states[j].runs[round].promoted.value)
  {
    HistoryKeeps(states, events, i);
    HistoryKeeps(states, events, j);
    assert Next(states[i], events[i], states[i + 1]);
    RequestsGrow(states, events, i + 1, j);
    var round, s := states[i].nextDone, states[j];
    assert RunMerges(s, round);
    assert PromoteIn(s.requests, round, |states[i].requests|);
  }

  /**
   * When the channel given for a reset request is closed, a run that had not begun at the request has
   * reset the pool, from the old head of the first reset of its round to the new head of the last,
   * and has promoted every account with anything queued.
   */
  lemma ResetServed(states: seq<State>, events: seq<Event>, i: nat, j: nat)
    requires IsRun(states, events) && i < |events| && i < j < |states| && events[i].ReceiveReset?
    requires Served(states[j], states[i].nextDone)
    ensures var round := states[i].nextDone;
            && round !in states[i].runs && round in states[j].runs && states[j].runs[round].reset.Some?
            && MergesResets(states[j].requests, round, states[j].runs[round].reset)
            && ResetIn(states[j].requests, round, |states[i].requests|)
            && states[j].runs[round].promoted == Some(states[j].runs[round].queued)
  {
    HistoryKeeps(states, events, i);
    HistoryKeeps(states, events, j);
    assert Next(states[i], events[i], states[i + 1]);
    RequestsGrow(states, events, i + 1, j);
    var round, s := states[i].nextDone, states[j];
    assert RunMerges(s, round);
    assert ResetIn(s.requests, round, |states[i].requests|);
  }

  /** No request is forgotten: while one of the coming round is unserved, a launch is due. */
  lemma LaunchIsDue(states: seq<State>, events: seq<Event>, k: nat)
    requires IsRun(states, events) && k < |states|
    ensures states[k].launchNextRun <==> exists i: nat :: ResetIn(states[k].requests, states[k].nextDone, i)
                                                  || PromoteIn(states[k].requests, states[k].nextDone, i)
  {
    HistoryKeeps(states, events, k);
  }

  // ----- The loop -----

  /** The loop's local variables, one method for each thing it can do. */
  class Loop {
    var curDone: Option<nat>
    var nextDone: nat
    var launchNextRun: bool
    var reset: Option<Reset>
    var dirtyAccounts: Option<set<Address>>

    /** The variables are those of a state of the protocol. */
    ghost predicate At(s: State)
      reads this
    {
      && curDone == s.curDone && nextDone == s.nextDone && launchNextRun == s.launchNextRun
      && reset == s.reset && dirtyAccounts == s.dirty
    }

    constructor ()
      ensures At(Init)
    {
      curDone, nextDone, launchNextRun, reset, dirtyAccounts := None, 0, false, None, None;
    }

    /** The top of the loop: launches the next run if one is due and none is active. */
    method LaunchIfDue(ghost s: State) returns (run: Option<Run>)
      requires At(s) && !s.stopped
      modifies this
      ensures run.Some? <==> Enabled(s, Launch)
      ensures run.None? ==> At(s)
      ensures run.Some? ==> At(Apply(s, Launch)) && run.value == Apply(s, Launch).runs[s.nextDone]
    {
      run := None;
      if curDone.None? && launchNextRun {
        run := Some(Run(reset, dirtyAccounts, None, {}));
        curDone, nextDone := Some(nextDone), nextDone + 1;
        launchNextRun, reset, dirtyAccounts := false, None, None;
      }
    }

    /** A reset request; the answer is the done channel it waits on. */
    method OnReset(ghost s: State, oldHead: Hash, newHead: Hash) returns (done: nat)
      requires At(s) && AtSelect(s)
      modifies this
      ensures At(Apply(s, ReceiveReset(oldHead, newHead))) && done == s.nextDone
    {
      if reset.None? {
        reset := Some(Reset(oldHead, newHead));
      } else {
        reset := Some(reset.value.(newHead := newHead));
      }
      launchNextRun, done := true, nextDone;
    }

    /** A promotion request; the answer is the done channel it waits on. */
    method OnPromote(ghost s: State, accounts: set<Address>) returns (done: nat)
      requires At(s) && AtSelect(s)
      modifies this
      ensures At(Apply(s, ReceivePromote(accounts))) && done == s.nextDone
    {
      if dirtyAccounts.None? {
        dirtyAccounts := Some(accounts);
      } else {
        dirtyAccounts := Some(dirtyAccounts.value + accounts);
      }
      launchNextRun, done := true, nextDone;
    }

    method OnDone(ghost s: State)
      requires At(s) && Enabled(s, Notice)
      modifies this
      ensures At(Apply(s, Notice))
    {
      curDone := None;
    }
  }
}
