/**
 * The arithmetic of truncatePending (core/tx_pool.go): numbers of pending transactions by account,
 * cut down to a common level except for local accounts.
 */
module WaterFill {
  import opened Types

  type Lengths = map<Address, nat>

  ghost function Total(lens: Lengths): nat
    decreases |lens|
  {
    if lens == map[] then 0
    else
      var a :| a in lens;
      lens[a] + Total(lens - {a})
  }

  lemma {:induction false} TotalWithout(lens: Lengths, a: Address)
    requires a in lens
    ensures Total(lens) == lens[a] + Total(lens - {a})
    decreases |lens|
  {
    var pick :| pick in lens && Total(lens) == lens[pick] + Total(lens - {pick});
    if pick != a {
      TotalWithout(lens - {pick}, a);
      TotalWithout(lens - {a}, pick);
      assert (lens - {pick}) - {a} == (lens - {a}) - {pick};
    }
  }

  lemma TotalUpdate(lens: Lengths, a: Address, n: nat)
    requires a in lens
    ensures Total(lens[a := n]) == Total(lens) - lens[a] + n
  {
    TotalWithout(lens, a);
    TotalWithout(lens[a := n], a);
    assert lens[a := n] - {a} == lens - {a};
  }

  /** Only the length of one account has changed; an account without transactions may have gone. */
  lemma TotalChange(lens: Lengths, more: Lengths, a: Address)
    requires lens - {a} == more - {a} && a in more
    ensures Total(more) == Total(lens) - (if a in lens then lens[a] else 0) + more[a]
  {
    TotalWithout(more, a);
    if a in lens {
      TotalWithout(lens, a);
    } else {
      assert lens - {a} == lens;
    }
  }

  /** Every account that is not local cut down to at most `level`. */
  function Leveled(orig: Lengths, locals: set<Address>, level: nat): Lengths {
    map a | a in orig :: if a in locals || orig[a] <= level then orig[a] else level
  }

  lemma {:induction false} TotalMonotone(lens: Lengths, more: Lengths)
    requires lens.Keys == more.Keys && forall a :: a in lens ==> lens[a] <= more[a]
    ensures Total(lens) <= Total(more)
    decreases |lens|
  {
    if lens != map[] {
      var a :| a in lens;
      TotalWithout(lens, a);
      TotalWithout(more, a);
      TotalMonotone(lens - {a}, more - {a});
    }
  }

  lemma HigherLevel(orig: Lengths, locals: set<Address>, level: nat, higher: nat)
    requires level <= higher
    ensures Total(Leveled(orig, locals, level)) <= Total(Leveled(orig, locals, higher))
  {
    TotalMonotone(Leveled(orig, locals, level), Leveled(orig, locals, higher));
  }

  /** Those standing above the level below `level`. */
  ghost predicate IsHigh(orig: Lengths, locals: set<Address>, level: nat, a: Address) {
    a in orig && a !in locals && orig[a] >= level
  }

  /** The accounts that stand as high as the level, each once. */
  ghost predicate Highs(orig: Lengths, locals: set<Address>, level: nat, offs: seq<Address>) {
    && (forall i, j :: 0 <= i < j < |offs| ==> offs[i] != offs[j])
    && (forall a :: a in offs <==> IsHigh(orig, locals, level, a))
  }

  /** In a round, those already done are one below the level. */
  function InRound(orig: Lengths, locals: set<Address>, level: nat, done: set<Address>): Lengths
    requires level > 0
  {
    map a | a in orig :: if a in done then (level - 1) as nat else Leveled(orig, locals, level)[a]
  }

  lemma RoundStarts(orig: Lengths, locals: set<Address>, level: nat)
    requires level > 0
    ensures InRound(orig, locals, level, {}) == Leveled(orig, locals, level)
  {
  }

  lemma RoundEnds(orig: Lengths, locals: set<Address>, level: nat, done: set<Address>)
    requires level > 0 && forall a :: a in done <==> IsHigh(orig, locals, level, a)
    ensures InRound(orig, locals, level, done) == Leveled(orig, locals, level - 1)
  {
  }

  lemma RoundStep(orig: Lengths, locals: set<Address>, level: nat, done: set<Address>, a: Address)
    requires level > 0 && a !in done && IsHigh(orig, locals, level, a)
    ensures InRound(orig, locals, level, done)[a] == level
    ensures InRound(orig, locals, level, done + {a}) == InRound(orig, locals, level, done)[a := level - 1]
    ensures Total(InRound(orig, locals, level, done + {a})) == Total(InRound(orig, locals, level, done)) - 1
  {
    TotalUpdate(InRound(orig, locals, level, done), a, level - 1);
  }

  // ----- The offenders -----

  /** An account with more transactions than it may keep. */
  predicate IsSpammer(orig: Lengths, locals: set<Address>, allowance: nat, a: Address) {
    a in orig && a !in locals && orig[a] > allowance
  }

  /** The spammers taken off the priority queue so far, longest first, and those still on it. */
  ghost predicate Ranked(
    orig: Lengths, locals: set<Address>, allowance: nat, offenders: seq<Address>, waiting: set<Address>)
  {
    && (forall a :: a in offenders || a in waiting <==> IsSpammer(orig, locals, allowance, a))
    && (forall i, j :: 0 <= i < j < |offenders| ==> offenders[i] != offenders[j])
    && (forall i :: 0 <= i < |offenders| ==> offenders[i] !in waiting)
    && (forall i, j :: 0 <= i < j < |offenders| && offenders[i] in orig && offenders[j] in orig ==>
      orig[offenders[i]] >= orig[offenders[j]])
    && (forall i, b :: 0 <= i < |offenders| && b in waiting && offenders[i] in orig && b in orig ==>
      orig[b] <= orig[offenders[i]])
  }

  lemma RankNext(
    orig: Lengths, locals: set<Address>, allowance: nat, offenders: seq<Address>, waiting: set<Address>, a: Address)
    requires Ranked(orig, locals, allowance, offenders, waiting) && a in waiting
    requires forall b :: b in waiting ==> b in orig && a in orig && orig[b] <= orig[a]
    ensures Ranked(orig, locals, allowance, offenders + [a], waiting - {a})
  {
  }

  /** The accounts that stand as high as the last but one of the offenders are those before the last. */
  lemma HighOnes(
    orig: Lengths, locals: set<Address>, allowance: nat, offenders: seq<Address>, waiting: set<Address>, level: nat)
    requires Ranked(orig, locals, allowance, offenders, waiting) && |offenders| > 1
    requires offenders[|offenders| - 1] in orig && offenders[|offenders| - 2] in orig
    requires orig[offenders[|offenders| - 1]] < level <= orig[offenders[|offenders| - 2]]
    ensures Highs(orig, locals, level, offenders[..|offenders| - 1])
  {
    var n := |offenders| - 1;
    forall a | IsHigh(orig, locals, level, a) ensures a in offenders[..n] {
      assert IsSpammer(orig, locals, allowance, offenders[n]) by {
        assert offenders[n] in offenders;
      }
      assert IsSpammer(orig, locals, allowance, a);
      assert a !in waiting;
      var i :| 0 <= i < |offenders| && offenders[i] == a;
      assert offenders[..n][i] == a;
    }
    forall a | a in offenders[..n] ensures IsHigh(orig, locals, level, a) {
      var i :| 0 <= i < n && offenders[i] == a;
      assert offenders[i] in offenders;
      assert IsSpammer(orig, locals, allowance, a);
      assert i < n - 1 ==> orig[offenders[i]] >= orig[offenders[n - 1]];
    }
  }

  /** With none waiting, the accounts above the allowance at a level are all the offenders. */
  lemma HighOnesAtEnd(
    orig: Lengths, locals: set<Address>, allowance: nat, offenders: seq<Address>, level: nat)
    requires Ranked(orig, locals, allowance, offenders, {}) && |offenders| > 0
    requires offenders[|offenders| - 1] in orig && allowance < level <= orig[offenders[|offenders| - 1]]
    ensures Highs(orig, locals, level, offenders)
  {
    var n := |offenders| - 1;
    forall a ensures a in offenders <==> IsHigh(orig, locals, level, a) {
      assert a in offenders <==> IsSpammer(orig, locals, allowance, a);
      if a in offenders {
        var i :| 0 <= i < |offenders| && offenders[i] == a;
        assert i < n ==> orig[offenders[i]] >= orig[offenders[n]];
      }
    }
  }

  /** Nothing was dropped, or one more for each would have been too many. */
  ghost predicate Tight(orig: Lengths, locals: set<Address>, level: nat, limit: nat) {
    Leveled(orig, locals, level) == orig || Total(Leveled(orig, locals, level + 1)) > limit
  }

  /** A level above everything drops nothing. */
  lemma NothingDropped(orig: Lengths, locals: set<Address>, level: nat)
    requires forall a :: a in orig && a !in locals ==> orig[a] <= level
    ensures Leveled(orig, locals, level) == orig
  {
  }

  // ----- The algorithm -----

  /** The lengths as they are, the accounts a transaction was dropped from so far, and how many are left in all. */
  datatype Cut = Cut(lens: Lengths, drops: seq<Address>, count: nat)

  /** The lengths after dropping transactions one by one, never an account's only one. */
  ghost predicate CanDrop(orig: Lengths, drops: seq<Address>)
    decreases |drops|, 0
  {
    drops == [] ||
    (var rest, a := drops[..|drops| - 1], drops[|drops| - 1];
     CanDrop(orig, rest) && a in AfterDrops(orig, rest) && AfterDrops(orig, rest)[a] > 1)
  }

  ghost function AfterDrops(orig: Lengths, drops: seq<Address>): Lengths
    requires CanDrop(orig, drops)
    decreases |drops|, 1
  {
    if drops == [] then orig
    else
      var rest, a := drops[..|drops| - 1], drops[|drops| - 1];
      AfterDrops(orig, rest)[a := AfterDrops(orig, rest)[a] - 1]
  }

  lemma {:induction false} DropsBefore(orig: Lengths, drops: seq<Address>, i: nat)
    requires CanDrop(orig, drops) && i < |drops|
    ensures CanDrop(orig, drops[..i]) && CanDrop(orig, drops[..i + 1])
    ensures var lens, a := AfterDrops(orig, drops[..i]), drops[i];
            a in lens && lens[a] > 1 && AfterDrops(orig, drops[..i + 1]) == lens[a := lens[a] - 1]
    decreases |drops|
  {
    var rest := drops[..|drops| - 1];
    if i + 1 == |drops| {
      assert drops[..i + 1] == drops;
    } else {
      DropsBefore(orig, rest, i);
      assert rest[..i] == drops[..i] && rest[..i + 1] == drops[..i + 1];
    }
  }

  ghost predicate Accounts(orig: Lengths, c: Cut) {
    CanDrop(orig, c.drops) && c.lens == AfterDrops(orig, c.drops) && c.count == Total(c.lens)
  }

  ghost predicate FilledTo(orig: Lengths, locals: set<Address>, c: Cut, level: nat) {
    Accounts(orig, c) && c.lens == Leveled(orig, locals, level)
  }

  /** Drops the last transaction of an account that has more than one. */
  method DropOne(c: Cut, a: Address, ghost orig: Lengths) returns (next: Cut)
    requires Accounts(orig, c) && a in c.lens && c.lens[a] > 1
    ensures Accounts(orig, next) && next.lens == c.lens[a := c.lens[a] - 1]
  {
    TotalUpdate(c.lens, a, c.lens[a] - 1);
    next := Cut(c.lens[a := c.lens[a] - 1], c.drops + [a], c.count - 1);
    assert next.drops[..|c.drops|] == c.drops;
  }

  /** Drops one transaction of each account that stands as high as the level. */
  method Round(c: Cut, offs: seq<Address>, ghost orig: Lengths, ghost locals: set<Address>, ghost level: nat)
    returns (next: Cut)
    requires FilledTo(orig, locals, c, level) && level > 1
    requires Highs(orig, locals, level, offs)
    ensures FilledTo(orig, locals, next, level - 1)
  {
    next := c;
    RoundStarts(orig, locals, level);
    ghost var done: set<Address> := {};
    for i := 0 to |offs|
      invariant Accounts(orig, next) && next.lens == InRound(orig, locals, level, done)
      invariant forall a :: a in done <==> a in offs[..i]
    {
      assert offs[..i + 1] == offs[..i] + [offs[i]];
      assert offs[i] in offs && offs[i] !in done;
      RoundStep(orig, locals, level, done, offs[i]);
      next := DropOne(next, offs[i], orig);
      done := done + {offs[i]};
    }
    assert offs[..|offs|] == offs;
    RoundEnds(orig, locals, level, done);
  }

  lemma RankedFacts(orig: Lengths, locals: set<Address>, allowance: nat, offenders: seq<Address>, waiting: set<Address>)
    requires Ranked(orig, locals, allowance, offenders, waiting)
    ensures forall i :: 0 <= i < |offenders| ==>
      offenders[i] in orig && offenders[i] !in locals && orig[offenders[i]] > allowance
  {
    assert forall i :: 0 <= i < |offenders| ==> offenders[i] in offenders;
  }

  /** The water level while offenders are taken one by one. */
  ghost predicate Evened(
    orig: Lengths, locals: set<Address>, allowance: nat, limit: nat, offenders: seq<Address>, waiting: set<Address>,
    c: Cut, level: nat)
  {
    && Ranked(orig, locals, allowance, offenders, waiting)
    && FilledTo(orig, locals, c, level) && Tight(orig, locals, level, limit) && level >= allowance
    && (|offenders| == 0 ==> c.lens == orig)
    && (|offenders| > 0 ==>
      && offenders[|offenders| - 1] in orig && orig[offenders[|offenders| - 1]] <= level
      && (c.count > limit ==> level == orig[offenders[|offenders| - 1]]))
  }

  /** One round down from a level that is too high. */
  method Lower(c: Cut, offs: seq<Address>, ghost limit: nat, ghost orig: Lengths, ghost locals: set<Address>, ghost level: nat)
    returns (next: Cut)
    requires FilledTo(orig, locals, c, level) && level > 1 && c.count > limit
    requires Highs(orig, locals, level, offs)
    ensures FilledTo(orig, locals, next, level - 1) && Tight(orig, locals, level - 1, limit)
  {
    next := Round(c, offs, orig, locals, level);
  }

  method LengthOf(c: Cut, a: Address, ghost orig: Lengths, ghost locals: set<Address>, ghost level: nat) returns (n: nat)
    requires a in orig && a !in locals && FilledTo(orig, locals, c, level)
    ensures n == if orig[a] <= level then orig[a] else level
  {
    n := c.lens[a];
  }

  /** Brings the offenders before the last down to the last one's length, or until the limit is met. */
  method Equalize(
    c: Cut, offenders: seq<Address>, limit: nat, ghost orig: Lengths, ghost locals: set<Address>, ghost allowance: nat,
    ghost waiting: set<Address>, ghost high: nat)
    returns (next: Cut, ghost level: nat)
    requires |offenders| > 1 && Ranked(orig, locals, allowance, offenders, waiting)
    requires FilledTo(orig, locals, c, high) && Tight(orig, locals, high, limit)
    requires offenders[|offenders| - 2] in orig && orig[offenders[|offenders| - 2]] == high
    ensures Evened(orig, locals, allowance, limit, offenders, waiting, next, level)
  {
    var n := |offenders| - 1;
    RankedFacts(orig, locals, allowance, offenders, waiting);
    var threshold := LengthOf(c, offenders[n], orig, locals, high);
    next, level := c, high;
    var length := LengthOf(next, offenders[n - 1], orig, locals, level);
    while next.count > limit && length > threshold
      invariant FilledTo(orig, locals, next, level) && Tight(orig, locals, level, limit)
      invariant threshold == orig[offenders[n]] <= level == length <= high
      decreases level
    {
      HighOnes(orig, locals, allowance, offenders, waiting, level);
      next := Lower(next, offenders[..n], limit, orig, locals, level);
      level := level - 1;
      length := LengthOf(next, offenders[n - 1], orig, locals, level);
    }
  }

  /** The priority queue gives up an account with the greatest length; among equals any may come first. */
  method PopLongest(waiting: set<Address>, lens: Lengths) returns (a: Address)
    requires waiting != {} && waiting <= lens.Keys
    ensures a in waiting && forall b :: b in waiting ==> lens[b] <= lens[a]
  {
    var rest := waiting;
    a :| a in rest;
    rest := rest - {a};
    while rest != {}
      invariant a in waiting && rest <= waiting && forall b :: b in waiting && b !in rest ==> lens[b] <= lens[a]
      decreases |rest|
    {
      var b :| b in rest;
      if lens[b] > lens[a] {
        a := b;
      }
      rest := rest - {b};
    }
  }

  /** A level that no account exceeds. */
  ghost function Highest(lens: Lengths, least: nat): (h: nat)
    ensures h >= least && forall a :: a in lens ==> lens[a] <= h
    decreases |lens|
  {
    if lens == map[] then least
    else
      var a :| a in lens;
      assert forall b :: b in lens && b != a ==> b in lens - {a};
      var h := Highest(lens - {a}, least);
      if lens[a] < h then h else lens[a]
  }

  /** The longest spammer's own length drops nothing. */
  lemma FirstLevel(
    orig: Lengths, locals: set<Address>, allowance: nat, a: Address, waiting: set<Address>, offenders: seq<Address>)
    requires Ranked(orig, locals, allowance, offenders, waiting) && |offenders| == 1 && offenders[0] == a
    ensures a in orig && orig[a] > allowance && Leveled(orig, locals, orig[a]) == orig
  {
    RankedFacts(orig, locals, allowance, offenders, waiting);
    forall b | b in orig && b !in locals ensures orig[b] <= orig[a] {
      assert orig[b] > allowance ==> IsSpammer(orig, locals, allowance, b);
      assert b in offenders ==> b == a;
    }
  }

  /** Takes the next offender and evens those before it out with it. */
  method NextOffender(
    c: Cut, before: seq<Address>, waiting: set<Address>, orig: Lengths, limit: nat,
    ghost locals: set<Address>, ghost allowance: nat, ghost high: nat)
    returns (offender: Address, next: Cut, ghost level: nat)
    requires Evened(orig, locals, allowance, limit, before, waiting, c, high) && c.count > limit && waiting != {}
    ensures offender in waiting
    ensures Evened(orig, locals, allowance, limit, before + [offender], waiting - {offender}, next, level)
  {
    assert forall b :: b in waiting ==> IsSpammer(orig, locals, allowance, b);
    offender := PopLongest(waiting, orig);
    ghost var rest := waiting - {offender};
    var offenders := before + [offender];
    RankNext(orig, locals, allowance, before, waiting, offender);
    if |offenders| > 1 {
      next, level := Equalize(c, offenders, limit, orig, locals, allowance, rest, high);
    } else {
      FirstLevel(orig, locals, allowance, offender, rest, offenders);
      next, level := c, orig[offender];
    }
  }

  /** Takes the spammers one by one, longest first, and evens them out, while there are too many transactions. */
  method EvenOffenders(orig: Lengths, locals: set<Address>, allowance: nat, limit: nat, count: nat)
    returns (c: Cut, offenders: seq<Address>, ghost waiting: set<Address>, ghost level: nat)
    requires count == Total(orig)
    ensures Evened(orig, locals, allowance, limit, offenders, waiting, c, level)
    ensures c.count <= limit || waiting == {}
  {
    var spammers := set a | a in orig && IsSpammer(orig, locals, allowance, a);
    c, offenders, level := Cut(orig, [], count), [], Highest(orig, allowance);
    NothingDropped(orig, locals, level);
    while c.count > limit && spammers != {}
      invariant Evened(orig, locals, allowance, limit, offenders, spammers, c, level)
      decreases |spammers|
    {
      var offender;
      offender, c, level := NextOffender(c, offenders, spammers, orig, limit, locals, allowance, level);
      spammers, offenders := spammers - {offender}, offenders + [offender];
    }
    waiting := spammers;
  }

  /** One round over all offenders. */
  method LowerAll(
    c: Cut, offenders: seq<Address>, ghost limit: nat, ghost orig: Lengths, ghost locals: set<Address>, ghost allowance: nat,
    ghost level: nat)
    returns (next: Cut, ghost lower: nat)
    requires Ranked(orig, locals, allowance, offenders, {}) && |offenders| > 0
    requires offenders[|offenders| - 1] in orig && 0 < allowance < level <= orig[offenders[|offenders| - 1]]
    requires FilledTo(orig, locals, c, level) && c.count > limit
    ensures lower == level - 1 && FilledTo(orig, locals, next, lower) && Tight(orig, locals, lower, limit)
  {
    HighOnesAtEnd(orig, locals, allowance, offenders, level);
    next := Lower(c, offenders, limit, orig, locals, level);
    lower := level - 1;
  }

  /** Brings all offenders down together, to the limit or to what each may keep. */
  method LastPhase(
    c: Cut, offenders: seq<Address>, allowance: nat, limit: nat, ghost orig: Lengths, ghost locals: set<Address>,
    ghost waiting: set<Address>, ghost high: nat)
    returns (next: Cut, ghost level: nat)
    requires allowance > 0 && |offenders| > 0 && Ranked(orig, locals, allowance, offenders, waiting) && waiting == {}
    requires FilledTo(orig, locals, c, high) && Tight(orig, locals, high, limit)
    requires offenders[|offenders| - 1] in orig && orig[offenders[|offenders| - 1]] == high
    ensures FilledTo(orig, locals, next, level) && Tight(orig, locals, level, limit)
    ensures level >= allowance && (next.count <= limit || level == allowance)
  {
    var last := offenders[|offenders| - 1];
    assert last !in locals && orig[last] > allowance by {
      RankedFacts(orig, locals, allowance, offenders, waiting);
    }
    next, level := c, high;
    var length := LengthOf(next, last, orig, locals, level);
    while next.count > limit && length > allowance
      invariant FilledTo(orig, locals, next, level) && Tight(orig, locals, level, limit)
      invariant allowance <= level == length <= high
      decreases level
    {
      next, level := LowerAll(next, offenders, limit, orig, locals, allowance, level);
      length := LengthOf(next, last, orig, locals, level);
    }
  }

  /**
   * Which accounts to drop a transaction from, in order, so as to bring the total down to the limit.
   * Local accounts are spared and every other ends with the lesser of what it had and a common level,
   * never below what each may keep. If anything is dropped, no higher level would do. In the end the
   * limit is met or no account that is not local has more than it may keep.
   */
  method Truncate(orig: Lengths, locals: set<Address>, allowance: nat, limit: nat, count: nat)
    returns (c: Cut, ghost level: nat)
    requires count == Total(orig) && allowance > 0
    ensures Accounts(orig, c) && c.lens == Leveled(orig, locals, level) && level >= allowance
    ensures c.lens != orig ==> forall higher :: higher > level ==> Total(Leveled(orig, locals, higher)) > limit
    ensures Total(c.lens) <= limit || forall a :: a in c.lens && a !in locals ==> c.lens[a] <= allowance
  {
    if count <= limit {
      c, level := Cut(orig, [], count), Highest(orig, allowance);
      NothingDropped(orig, locals, level);
      return;
    }
    var offenders;
    ghost var waiting;
    c, offenders, waiting, level := EvenOffenders(orig, locals, allowance, limit, count);
    NoSpammers(orig, locals, allowance, offenders, waiting);
    if c.count > limit && |offenders| > 0 {
      c, level := LastPhase(c, offenders, allowance, limit, orig, locals, waiting, level);
    }
    AtMost(orig, locals, level, limit, allowance);
  }

  lemma AtMost(orig: Lengths, locals: set<Address>, level: nat, limit: nat, allowance: nat)
    requires Tight(orig, locals, level, limit)
    ensures Leveled(orig, locals, level) != orig ==>
      forall higher :: higher > level ==> Total(Leveled(orig, locals, higher)) > limit
    ensures level == allowance ==>
      forall a :: a in Leveled(orig, locals, level) && a !in locals ==> Leveled(orig, locals, level)[a] <= allowance
  {
    if Leveled(orig, locals, level) != orig {
      forall higher | higher > level ensures Total(Leveled(orig, locals, higher)) > limit {
        HigherLevel(orig, locals, level + 1, higher);
      }
    }
  }

  lemma NoSpammers(orig: Lengths, locals: set<Address>, allowance: nat, offenders: seq<Address>, waiting: set<Address>)
    requires Ranked(orig, locals, allowance, offenders, waiting)
    ensures |offenders| == 0 && waiting == {} ==> forall a :: a in orig && a !in locals ==> orig[a] <= allowance
  {
    forall a | a in orig && a !in locals && |offenders| == 0 && waiting == {} ensures orig[a] <= allowance {
      assert IsSpammer(orig, locals, allowance, a) <==> orig[a] > allowance;
    }
  }
}
