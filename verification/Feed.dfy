/**
 * The event feed (event/feed.go) as a protocol: subscribers come and go while a value is being sent.
 * Every step below is one atomic action of one goroutine, and a run is any sequence of steps.
 */
module Feed {

  /** Channels by identity; zero is the feed's own channel for interrupting a send. */
  type Channel = nat

  const REMOVE_SUB: Channel := 0

  // ----- The case list -----

  function Delete(cs: seq<Channel>, index: nat): seq<Channel>
    requires index < |cs|
  {
    cs[..index] + cs[index + 1..]
  }

  /** The list after the case at `index` has changed places with the last of the first `active`. */
  function Deactivate(cs: seq<Channel>, index: nat, active: nat): seq<Channel>
    requires index < active <= |cs|
  {
    cs[index := cs[active - 1]][active - 1 := cs[index]]
  }

  /** The first index of a channel, or -1. */
  function Find(cs: seq<Channel>, ch: Channel): int {
    if cs == [] then -1
    else if cs[0] == ch then 0
    else if Find(cs[1..], ch) == -1 then -1
    else 1 + Find(cs[1..], ch)
  }

  lemma {:induction false} FindFinds(cs: seq<Channel>, ch: Channel)
    ensures if ch in cs then 0 <= Find(cs, ch) < |cs| && cs[Find(cs, ch)] == ch else Find(cs, ch) == -1
  {
    if cs != [] {
      FindFinds(cs[1..], ch);
    }
  }

  method FindCase(cs: seq<Channel>, ch: Channel) returns (index: int)
    ensures index == Find(cs, ch)
  {
    for i := 0 to |cs|
      invariant Find(cs, ch) == if Find(cs[i..], ch) == -1 then -1 else i + Find(cs[i..], ch)
    {
      assert cs[i..][1..] == cs[i + 1..] && cs[i..][0] == cs[i];
      FindFinds(cs[i + 1..], ch);
      if cs[i] == ch {
        return i;
      }
    }
    return -1;
  }

  /** Deletes a case from the first `n` places of the slice's array by moving the later ones up. */
  method DeleteInPlace(buf: array<Channel>, n: nat, index: nat)
    requires index < n <= buf.Length
    modifies buf
    ensures buf[..n - 1] == Delete(old(buf[..n]), index) && buf[n..] == old(buf[n..])
  {
    var i := index;
    while i < n - 1
      invariant index <= i <= n - 1
      invariant forall k :: 0 <= k < index ==> buf[k] == old(buf[k])
      invariant forall k :: index <= k < i ==> buf[k] == old(buf[k + 1])
      invariant forall k :: i <= k < buf.Length ==> buf[k] == old(buf[k])
    {
      buf[i] := buf[i + 1];
      i := i + 1;
    }
    ghost var was := old(buf[..n]);
    assert forall k :: 0 <= k < n - 1 ==> buf[..n - 1][k] == Delete(was, index)[k];
  }

  /** Swaps a case out of the active part; slices of the same array see the swap. */
  method DeactivateInPlace(buf: array<Channel>, n: nat, active: nat, index: nat)
    requires index < active <= n <= buf.Length
    modifies buf
    ensures buf[..n] == Deactivate(old(buf[..n]), index, active) && buf[n..] == old(buf[n..])
  {
    buf[index], buf[active - 1] := buf[active - 1], buf[index];
  }

  // ----- The protocol -----

  /** What the holder of the send lock is doing. `active` is the length of its list of open cases. */
  datatype Lock = Free | Taken | Sending(active: nat, nsent: nat)

  /** A subscription: the channel, and how many the channel had before. */
  datatype Subscription = Subscription(channel: Channel, earlier: nat)

  /**
   * The feed, with the history the claims are about: how often each channel was subscribed before its
   * last subscription, and which subscriptions' Unsubscribe has completed; and for the send in
   * progress which it drained into its set, delivered to, and saw removed. `waiting` are the channels
   * whose Unsubscribe is past its look into the inbox.
   */
  datatype State = State(
    sendCases: seq<Channel>,
    inbox: seq<Channel>,
    lock: Lock,
    waiting: set<Channel>,
    earlier: map<Channel, nat>,
    unsubscribed: set<Subscription>,
    drained: set<Subscription>,
    delivered: seq<Subscription>,
    removed: set<Subscription>)

  const Init := State([REMOVE_SUB], [], Free, {}, map[], {}, {}, [], {})

  /** A channel's last subscription. */
  function Current(s: State, ch: Channel): Subscription {
    Subscription(ch, if ch in s.earlier then s.earlier[ch] else 0)
  }

  /** A channel is subscribed, and its Unsubscribe has not completed. */
  predicate Live(s: State, ch: Channel) {
    ch in s.earlier && Current(s, ch) !in s.unsubscribed
  }

  datatype Event =
    | Subscribe(ch: Channel)
    | Unsubscribe(ch: Channel)      // the look into the inbox
    | TakeLock                      // a Send gets the send lock
    | Drain                         // it moves the inbox into its cases
    | Deliver(index: nat)           // one of its open cases accepts the value
    | RemoveDuringSend(ch: Channel) // it receives a removal
    | RemoveUnlocked(ch: Channel)   // an Unsubscribe finds no send in progress
    | Finish                        // the Send returns and hands the lock back

  /**
   * No channel is subscribed while it is, and no subscription is ended twice; the rest is the feed's
   * own doing. A channel may be subscribed again after its Unsubscribe has completed.
   */
  predicate Enabled(s: State, e: Event) {
    match e
    case Subscribe(ch) => ch != REMOVE_SUB && !Live(s, ch)
    case Unsubscribe(ch) => Live(s, ch) && ch !in s.waiting
    case TakeLock => s.lock.Free?
    case Drain => s.lock.Taken?
    case Deliver(index) => s.lock.Sending? && 1 <= index < s.lock.active <= |s.sendCases|
    case RemoveDuringSend(ch) => s.lock.Sending? && s.lock.active > 1 && ch in s.waiting
    case RemoveUnlocked(ch) => s.lock.Free? && ch in s.waiting
    case Finish => s.lock.Sending? && s.lock.active == 1
  }

  /** The list without `ch`; unchanged where the source would index out of bounds. */
  function Without(cs: seq<Channel>, ch: Channel): seq<Channel> {
    FindFinds(cs, ch);
    var index := Find(cs, ch);
    if index >= 0 then Delete(cs, index) else cs
  }

  function Apply(s: State, e: Event): State
    requires Enabled(s, e)
  {
    match e
    case Subscribe(ch) =>
      s.(inbox := s.inbox + [ch], earlier := s.earlier[ch := if ch in s.earlier then s.earlier[ch] + 1 else 0])
    case Unsubscribe(ch) =>
      if Find(s.inbox, ch) != -1 then s.(inbox := Without(s.inbox, ch), unsubscribed := s.unsubscribed + {Current(s, ch)})
      else s.(waiting := s.waiting + {ch})
    case TakeLock => s.(lock := Taken)
    case Drain =>
      var cases := s.sendCases + s.inbox;
      s.(sendCases := cases, inbox := [], lock := Sending(|cases|, 0),
         drained := (set ch | ch in cases && ch != REMOVE_SUB :: Current(s, ch)), delivered := [], removed := {})
    case Deliver(index) =>
      s.(sendCases := Deactivate(s.sendCases, index, s.lock.active),
         lock := Sending(s.lock.active - 1, s.lock.nsent + 1),
         delivered := s.delivered + [Current(s, s.sendCases[index])])
    case RemoveDuringSend(ch) =>
      var index := Find(s.sendCases, ch);
      s.(sendCases := Without(s.sendCases, ch),
         lock := (if 0 <= index < s.lock.active then Sending(s.lock.active - 1, s.lock.nsent) else s.lock),
         waiting := s.waiting - {ch}, unsubscribed := s.unsubscribed + {Current(s, ch)},
         removed := s.removed + {Current(s, ch)})
    case RemoveUnlocked(ch) =>
      s.(sendCases := Without(s.sendCases, ch), waiting := s.waiting - {ch}, unsubscribed := s.unsubscribed + {Current(s, ch)})
    case Finish => s.(lock := Free)
  }

  /** The states of a run, the first being `Init`. */
  ghost predicate IsRun(states: seq<State>, events: seq<Event>) {
    && |states| == |events| + 1 && states[0] == Init
    && forall k :: 0 <= k < |events| ==> Enabled(states[k], events[k]) && states[k + 1] == Apply(states[k], events[k])
  }

  ghost predicate Distinct<T>(cs: seq<T>) {
    forall i, j :: 0 <= i < j < |cs| ==> cs[i] != cs[j]
  }

  // ----- What every run keeps -----

  /** Every subscribed channel is in exactly one of the two lists, once. */
  ghost predicate Listed(s: State) {
    && |s.sendCases| > 0 && s.sendCases[0] == REMOVE_SUB && REMOVE_SUB !in s.earlier
    && Distinct(s.sendCases) && Distinct(s.inbox) && (forall ch :: ch in s.sendCases ==> ch !in s.inbox)
    && (forall ch: Channel :: ch != REMOVE_SUB ==> (ch in s.sendCases || ch in s.inbox <==> Live(s, ch)))
    && (forall ch :: ch in s.waiting ==> ch in s.sendCases && ch != REMOVE_SUB)
    && (forall sub :: sub in s.unsubscribed ==> sub.channel in s.earlier && sub.earlier <= s.earlier[sub.channel])
  }

  /**
   * Of the subscriptions drained by the send in progress each is in its open cases, or has received
   * the value once, or was removed; and those it has delivered to are the closed cases or removed.
   */
  ghost predicate Accounted(s: State) {
    s.lock.Sending? ==>
      && 1 <= s.lock.active <= |s.sendCases| && s.lock.nsent == |s.delivered| && Distinct(s.delivered)
      && (forall i :: 1 <= i < s.lock.active ==>
        Current(s, s.sendCases[i]) in s.drained && Current(s, s.sendCases[i]) !in s.delivered)
      && (forall i :: s.lock.active <= i < |s.sendCases| ==> Current(s, s.sendCases[i]) in s.delivered)
      && (forall sub :: sub in s.drained ==>
        sub in s.removed || (sub.channel in s.sendCases && sub.channel != REMOVE_SUB && sub == Current(s, sub.channel)))
      && (forall sub :: sub in s.delivered ==> sub in s.drained)
      && (forall sub :: sub in s.removed ==> sub in s.unsubscribed)
  }

  /** Where the entry at `i` of a list with one entry deleted comes from. */
  function Source(index: nat, i: nat): nat {
    if i < index then i else i + 1
  }

  lemma DeletedAt(cs: seq<Channel>, index: nat)
    requires index < |cs|
    ensures var rest := Delete(cs, index);
            |rest| == |cs| - 1 && forall i :: 0 <= i < |rest| ==> rest[i] == cs[Source(index, i)]
  {
  }

  lemma DeletedDistinct(cs: seq<Channel>, index: nat)
    requires index < |cs| && Distinct(cs)
    ensures Distinct(Delete(cs, index))
  {
    DeletedAt(cs, index);
    var rest := Delete(cs, index);
    forall i, j | 0 <= i < j < |rest| ensures rest[i] != rest[j] {
      assert rest[i] == cs[Source(index, i)] && rest[j] == cs[Source(index, j)];
    }
  }

  lemma DeletedMember(cs: seq<Channel>, index: nat, c: Channel)
    requires index < |cs| && Distinct(cs)
    ensures c in Delete(cs, index) <==> c in cs && c != cs[index]
  {
    DeletedAt(cs, index);
    var rest := Delete(cs, index);
    if c in cs && c != cs[index] {
      var i :| 0 <= i < |cs| && cs[i] == c;
      var k := if i < index then i else i - 1;
      assert rest[k] == cs[Source(index, k)];
    }
    if c in rest {
      var i :| 0 <= i < |rest| && rest[i] == c;
      assert cs[Source(index, i)] == c;
    }
  }

  /** Deleting a channel from a list without repeats removes it and nothing else, in order. */
  lemma WithoutOne(cs: seq<Channel>, ch: Channel)
    requires Distinct(cs) && ch in cs
    ensures var index := Find(cs, ch);
            && 0 <= index < |cs| && cs[index] == ch && Without(cs, ch) == Delete(cs, index)
            && Distinct(Without(cs, ch)) && |Without(cs, ch)| == |cs| - 1
            && (forall c :: c in Without(cs, ch) <==> c in cs && c != ch)
            && (forall i :: 0 <= i < |cs| - 1 ==> Without(cs, ch)[i] == cs[Source(index, i)])
  {
    FindFinds(cs, ch);
    var index := Find(cs, ch);
    DeletedAt(cs, index);
    DeletedDistinct(cs, index);
    forall c ensures c in Without(cs, ch) <==> c in cs && c != ch {
      DeletedMember(cs, index, c);
    }
  }

  /** Swapping two cases changes no membership. */
  lemma Swapped(cs: seq<Channel>, index: nat, active: nat)
    requires index < active <= |cs|
    ensures var d := Deactivate(cs, index, active);
            && |d| == |cs| && d[active - 1] == cs[index] && (Distinct(cs) ==> Distinct(d))
            && (forall i :: 0 <= i < |cs| && i != index && i != active - 1 ==> d[i] == cs[i])
            && (index != active - 1 ==> d[index] == cs[active - 1])
            && (forall c :: c in d <==> c in cs)
  {
    var d := Deactivate(cs, index, active);
    forall c ensures c in d <==> c in cs {
      if c in cs {
        var i :| 0 <= i < |cs| && cs[i] == c;
        assert d[if i == index then active - 1 else if i == active - 1 then index else i] == c;
      }
      if c in d {
        var i :| 0 <= i < |d| && d[i] == c;
        assert cs[if i == index then active - 1 else if i == active - 1 then index else i] == c;
      }
    }
  }

  lemma DistinctConcat<T>(a: seq<T>, b: seq<T>)
    requires Distinct(a) && Distinct(b) && forall x :: x in a ==> x !in b
    ensures Distinct(a + b)
  {
    forall i, j | 0 <= i < j < |a + b| ensures (a + b)[i] != (a + b)[j] {
      if i < |a| <= j {
        assert a[i] in a && b[j - |a|] in b;
      }
    }
  }

  lemma SubscribeListed(s: State, ch: Channel)
    requires Listed(s) && Enabled(s, Subscribe(ch))
    ensures Listed(Apply(s, Subscribe(ch)))
  {
    DistinctConcat(s.inbox, [ch]);
  }

  lemma UnsubscribeListed(s: State, ch: Channel)
    requires Listed(s) && Enabled(s, Unsubscribe(ch))
    ensures Listed(Apply(s, Unsubscribe(ch)))
  {
    FindFinds(s.inbox, ch);
    if ch in s.inbox {
      WithoutOne(s.inbox, ch);
    }
  }

  lemma RemovalListed(s: State, e: Event)
    requires Listed(s) && Enabled(s, e) && (e.RemoveDuringSend? || e.RemoveUnlocked?)
    ensures Listed(Apply(s, e))
  {
    WithoutOne(s.sendCases, e.ch);
  }

  lemma ListedStep(s: State, e: Event)
    requires Listed(s) && Accounted(s) && Enabled(s, e)
    ensures Listed(Apply(s, e))
  {
    match e
    case Subscribe(ch) => SubscribeListed(s, ch);
    case Unsubscribe(ch) => UnsubscribeListed(s, ch);
    case Drain => DistinctConcat(s.sendCases, s.inbox);
    case Deliver(index) => Swapped(s.sendCases, index, s.lock.active);
    case RemoveDuringSend(ch) => RemovalListed(s, e);
    case RemoveUnlocked(ch) => RemovalListed(s, e);
    case _ =>
  }

  lemma DrainAccounted(s: State)
    requires Listed(s) && Enabled(s, Drain)
    ensures Accounted(Apply(s, Drain))
  {
    DistinctConcat(s.sendCases, s.inbox);
    var cases := s.sendCases + s.inbox;
    assert forall i :: 1 <= i < |cases| ==> cases[i] in cases && cases[i] != cases[0];
  }

  lemma DeliverAccounted(s: State, index: nat)
    requires Listed(s) && Accounted(s) && Enabled(s, Deliver(index))
    ensures Accounted(Apply(s, Deliver(index)))
  {
    Swapped(s.sendCases, index, s.lock.active);
  }

  lemma RemovalAccounted(s: State, ch: Channel)
    requires Listed(s) && Accounted(s) && Enabled(s, RemoveDuringSend(ch))
    ensures Accounted(Apply(s, RemoveDuringSend(ch)))
  {
    WithoutOne(s.sendCases, ch);
  }

  lemma AccountedStep(s: State, e: Event)
    requires Listed(s) && Accounted(s) && Enabled(s, e)
    ensures Accounted(Apply(s, e))
  {
    match e
    case Drain => DrainAccounted(s);
    case Deliver(index) => DeliverAccounted(s, index);
    case RemoveDuringSend(ch) => RemovalAccounted(s, ch);
    case _ =>
  }

  lemma {:induction false} RunKeeps(states: seq<State>, events: seq<Event>, k: nat)
    requires IsRun(states, events) && k < |states|
    ensures Listed(states[k]) && Accounted(states[k])
  {
    if k > 0 {
      RunKeeps(states, events, k - 1);
      ListedStep(states[k - 1], events[k - 1]);
      AccountedStep(states[k - 1], events[k - 1]);
    }
  }

  /**
   * Whatever the interleaving, when a Send returns it has delivered its value exactly once to every
   * subscription it drained that was not removed meanwhile, at most once to each of those, and to no
   * other; and it returns the number of deliveries.
   */
  lemma SendDelivers(states: seq<State>, events: seq<Event>, k: nat)
    requires IsRun(states, events) && k < |events| && events[k] == Finish
    ensures var s := states[k];
            && s.lock.nsent == |s.delivered| && Distinct(s.delivered)
            && (forall sub :: sub in s.drained && sub !in s.removed ==> sub in s.delivered)
            && (forall sub :: sub in s.delivered ==> sub in s.drained)
  {
    RunKeeps(states, events, k);
    var s := states[k];
    forall sub | sub in s.drained && sub !in s.removed ensures sub in s.delivered {
      var i :| 0 <= i < |s.sendCases| && s.sendCases[i] == sub.channel;
    }
  }

  /** No value is delivered to a subscription whose Unsubscribe has completed. */
  lemma NeverAfterUnsubscribe(states: seq<State>, events: seq<Event>, k: nat)
    requires IsRun(states, events) && k < |events| && events[k].Deliver?
    ensures var sub := Current(states[k], states[k].sendCases[events[k].index]);
            sub !in states[k].unsubscribed && sub in states[k].drained
  {
    RunKeeps(states, events, k);
    var s := states[k];
    var ch := s.sendCases[events[k].index];
    assert ch != s.sendCases[0] && ch in s.sendCases;
    assert Live(s, ch);
  }

  /** A removal always finds its channel among the cases. */
  lemma RemovalNeverMisses(states: seq<State>, events: seq<Event>, k: nat)
    requires IsRun(states, events) && k < |events| && (events[k].RemoveDuringSend? || events[k].RemoveUnlocked?)
    ensures 1 <= Find(states[k].sendCases, events[k].ch) < |states[k].sendCases|
  {
    RunKeeps(states, events, k);
    FindFinds(states[k].sendCases, events[k].ch);
  }
}
