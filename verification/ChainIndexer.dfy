/**
 * The chain indexer (core/chain_indexer.go): sections of the canonical chain are processed without
 * the lock held, while reorgs may roll the stored sections back and rewrite the chain being read.
 */
module ChainIndexer {
  import opened Types

  /** A hash identifies its header: what it commits to can be read off it. */
  datatype Hash = Zero | Of(parent: Hash, number: nat, salt: nat)

  /** What the chain database holds at some moment: canonical hashes by number, and stored headers. */
  datatype Chain = Chain(canonical: map<nat, Hash>, headers: set<Hash>)

  /** The headers numbered from `lo` up to, but not including, `hi` lead from `base` to `top` by parent hashes. */
  ghost predicate Span(top: Hash, base: Hash, lo: nat, hi: nat)
    requires lo <= hi
    decreases hi
  {
    if lo == hi then top == base
    else top.Of? && top.number == hi - 1 && Span(top.parent, base, lo, hi - 1)
  }

  function Ancestor(h: Hash, n: nat): Hash {
    if n == 0 || h.Zero? then h else Ancestor(h.parent, n - 1)
  }

  /** A span is what following parent hashes gives: consecutive numbers down to `lo`, and then `base`. */
  lemma {:induction false} SpanWalk(top: Hash, base: Hash, lo: nat, hi: nat)
    requires lo <= hi && Span(top, base, lo, hi)
    ensures Ancestor(top, hi - lo) == base
    ensures forall k: nat :: k < hi - lo ==> Ancestor(top, k).Of? && Ancestor(top, k).number == hi - 1 - k
    decreases hi
  {
    if lo < hi {
      SpanWalk(top.parent, base, lo, hi - 1);
      forall k: nat | k < hi - lo ensures Ancestor(top, k).Of? && Ancestor(top, k).number == hi - 1 - k {
        if k > 0 {
          assert Ancestor(top, k) == Ancestor(top.parent, k - 1);
        }
      }
    }
  }

  // ----- Processing one section -----

  /** One turn of the section loop: the header read at `number`, if it is there and extends `last`. */
  function ReadNext(db: Chain, number: nat, last: Hash): Option<Hash> {
    if number !in db.canonical || db.canonical[number].Zero? then None
    else
      var hash := db.canonical[number];
      if hash !in db.headers || hash.number != number then None
      else if hash.parent != last then None
      else Some(hash)
  }

  /**
   * The headers of a span were the canonical ones, each at the moment it was read (`dbs[k]` is the
   * database at the k-th turn), and the backend accepted each.
   */
  ghost predicate ReadAs(top: Hash, base: Hash, lo: nat, hi: nat, dbs: seq<Chain>, accepts: seq<bool>)
    requires lo <= hi && hi - lo <= |dbs| && hi - lo <= |accepts|
    decreases hi
  {
    if lo == hi then top == base
    else
      var k := hi - 1 - lo;
      && accepts[k] && hi - 1 in dbs[k].canonical && dbs[k].canonical[hi - 1] == top
      && top in dbs[k].headers && top.Of? && top.number == hi - 1
      && ReadAs(top.parent, base, lo, hi - 1, dbs, accepts)
  }

  lemma {:induction false} ReadsAreSpan(top: Hash, base: Hash, lo: nat, hi: nat, dbs: seq<Chain>, accepts: seq<bool>)
    requires lo <= hi && hi - lo <= |dbs| && hi - lo <= |accepts|
    requires ReadAs(top, base, lo, hi, dbs, accepts)
    ensures Span(top, base, lo, hi)
    decreases hi
  {
    if lo < hi {
      ReadsAreSpan(top.parent, base, lo, hi - 1, dbs, accepts);
    }
  }

  /** Whatever was read as a longer span passed through the only header that could be read at `mid`. */
  lemma {:induction false} ReadsThrough(
    top: Hash, last: Hash, base: Hash, lo: nat, mid: nat, hi: nat, dbs: seq<Chain>, accepts: seq<bool>)
    requires lo <= mid < hi && hi - lo <= |dbs| && hi - lo <= |accepts|
    requires ReadAs(top, base, lo, hi, dbs, accepts) && ReadAs(last, base, lo, mid, dbs, accepts)
    ensures accepts[mid - lo] && ReadNext(dbs[mid - lo], mid, last).Some?
    decreases hi
  {
    if mid + 1 < hi {
      ReadsThrough(top.parent, last, base, lo, mid, hi - 1, dbs, accepts);
    }
  }

  /** `head` ends a section read as a parent-linked run on top of `lastHead`. */
  ghost predicate SectionReadAs(
    head: Hash, lastHead: Hash, size: nat, section: nat, dbs: seq<Chain>, accepts: seq<bool>)
    requires |dbs| == |accepts| == size
  {
    ReadAs(head, lastHead, section * size, section * size + size, dbs, accepts)
  }

  /**
   * Processes a section on top of `lastHead`. It succeeds exactly when the backend does and the
   * headers read form one parent-linked run on top of `lastHead`; the result is its end.
   */
  method ProcessSection(
    size: nat, section: nat, lastHead: Hash, reset: bool, dbs: seq<Chain>, accepts: seq<bool>, commit: bool)
    returns (head: Option<Hash>)
    requires |dbs| == |accepts| == size
    ensures head.Some? ==> reset && commit && SectionReadAs(head.value, lastHead, size, section, dbs, accepts)
    ensures head.Some? ==> Span(head.value, lastHead, section * size, (section + 1) * size)
    ensures head.None? && reset && commit ==> forall top :: !SectionReadAs(top, lastHead, size, section, dbs, accepts)
  {
    if !reset {
      return None;
    }
    var last, lo := lastHead, section * size;
    for k := 0 to size
      invariant ReadAs(last, lastHead, lo, lo + k, dbs, accepts)
    {
      var next := ReadNext(dbs[k], lo + k, last);
      if next.None? || !accepts[k] {
        forall top ensures !SectionReadAs(top, lastHead, size, section, dbs, accepts) {
          if SectionReadAs(top, lastHead, size, section, dbs, accepts) {
            ReadsThrough(top, last, lastHead, lo, lo + k, lo + size, dbs, accepts);
          }
        }
        return None;
      }
      last := next.value;
    }
    ReadsAreSpan(last, lastHead, lo, lo + size, dbs, accepts);
    return if commit then Some(last) else None;
  }

  // ----- Rolling back -----

  /** How many sections are stored, and the heads recorded for sections. */
  datatype Store = Store(stored: nat, heads: map<nat, Hash>)

  /**
   * Where a roll-back to `to` sections has got to. It is a loop: while more are stored the count is
   * lowered and the head of the section it now names is removed; in the end the count is assigned.
   */
  datatype Rollback = Still | Test(to: nat) | Decrement(to: nat) | Remove(to: nat) | Assign(to: nat)

  /** One step of a roll-back. The count has 64 bits, and below zero it wraps around. */
  function RollStep(r: Rollback, d: Store): (Rollback, Store)
    requires !r.Still?
  {
    match r
    case Test(to) => (if d.stored > to then Decrement(to) else Assign(to), d)
    case Decrement(to) => (Remove(to), d.(stored := (d.stored - 1) % (MAX_UINT64 + 1)))
    case Remove(to) => (Test(to), d.(heads := d.heads - {d.stored}))
    case Assign(to) => (Still, d.(stored := to))
  }

  /** Heads are recorded for exactly the stored sections. */
  ghost predicate Exact(d: Store) {
    forall i :: i in d.heads <==> 0 <= i < d.stored
  }

  /** The heads that setting the number of valid sections leaves. */
  function Kept(heads: map<nat, Hash>, stored: nat, sections: nat): map<nat, Hash> {
    map i | i in heads && !(sections <= i < stored) :: heads[i]
  }

  // ----- The protocol -----

  /**
   * The update loop: idle, or reading section `section` on top of `oldHead`, or undoing what is
   * stored after the backend refused, or back from processing the section.
   */
  datatype Build =
    | Idle
    | Reading(section: nat, oldHead: Hash, next: nat, last: Hash)
    | Undoing(section: nat, oldHead: Hash, rollback: Rollback)
    | Built(section: nat, oldHead: Hash, head: Option<Hash>)

  /** The indexer. `reorg` is the roll-back of a reorg in progress, under the lock. */
  datatype State = State(
    size: nat,
    confirms: nat,
    stored: nat,
    known: nat,
    cascaded: nat,
    heads: map<nat, Hash>,
    build: Build,
    reorg: Rollback)

  datatype Event =
    | NewHead(head: nat, reorg: bool)   // a notification takes the lock and, if need be, begins a roll-back
    | ReorgStep                         // one step of that roll-back; the last one returns the lock
    | Begin                             // the update loop takes the lock, notes its section and unlocks
    | ResetFails                        // the backend refuses the section, and a roll-back to nothing begins
    | UndoStep                          // one step of that roll-back, without the lock
    | Read(db: Chain, accepts: bool)    // one turn of the section loop
    | Commit(ok: bool)                  // the backend stores the section
    | End                               // the update loop takes the lock again

  function StoreOf(s: State): Store {
    Store(s.stored, s.heads)
  }

  /** The head recorded for a section, the zero hash if none is; sections are 64-bit keys. */
  function SectionHead(heads: map<nat, Hash>, section: int): Hash {
    var key := section % (MAX_UINT64 + 1);
    if key in heads then heads[key] else Zero
  }

  function Cascaded(cascaded: nat, size: nat, sections: nat): nat {
    if sections * size < cascaded then sections * size else cascaded
  }

  function BeginReorg(s: State, head: nat): State
    requires s.size > 0
  {
    var known := head / s.size;
    var s1 := s.(known := if known < s.known then known else s.known);
    if known < s.stored then s1.(reorg := Test(known)) else s1.(cascaded := Cascaded(s.cascaded, s.size, known))
  }

  /** The number of sections complete, and confirmed, at a chain head. */
  function Complete(size: nat, confirms: nat, head: nat): nat
    requires size > 0
  {
    if head < confirms then 0 else (head + 1 - confirms) % (MAX_UINT64 + 1) / size
  }

  function AfterHead(s: State, head: nat): State
    requires s.size > 0
  {
    var sections := Complete(s.size, s.confirms, head);
    if sections > s.known then s.(known := sections) else s
  }

  predicate Enabled(s: State, e: Event) {
    match e
    case NewHead(head, _) => s.reorg.Still? && head <= MAX_UINT64
    case ReorgStep => !s.reorg.Still?
    case Begin => s.reorg.Still? && s.build.Idle? && s.known > s.stored
    case ResetFails => s.build.Reading? && s.build.next == s.build.section * s.size
    case UndoStep => s.build.Undoing? && !s.build.rollback.Still?
    case Read(_, _) => s.build.Reading? && s.build.next < (s.build.section + 1) * s.size
    case Commit(_) => s.build.Reading? && s.build.next == (s.build.section + 1) * s.size
    case End => s.reorg.Still? && s.build.Built?
  }

  /** Whether the update loop, back under the lock, records the section it has built. */
  predicate Commits(s: State)
    requires s.build.Built?
  {
    s.build.head.Some? && s.build.oldHead == SectionHead(s.heads, s.build.section - 1)
  }

  function Apply(s: State, e: Event): State
    requires s.size > 0 && Enabled(s, e)
  {
    match e
    case NewHead(head, reorg) => if reorg then BeginReorg(s, head) else AfterHead(s, head)
    case ReorgStep =>
      var (r, d) := RollStep(s.reorg, StoreOf(s));
      s.(stored := d.stored, heads := d.heads, reorg := r,
         cascaded := if r.Still? then Cascaded(s.cascaded, s.size, s.reorg.to) else s.cascaded)
    case Begin =>
      var oldHead := if s.stored > 0 then SectionHead(s.heads, s.stored - 1) else Zero;
      s.(build := Reading(s.stored, oldHead, s.stored * s.size, oldHead))
    case ResetFails => s.(build := Undoing(s.build.section, s.build.oldHead, Test(0)))
    case UndoStep =>
      var (r, d) := RollStep(s.build.rollback, StoreOf(s));
      s.(stored := d.stored, heads := d.heads,
         build := if r.Still? then Built(s.build.section, s.build.oldHead, None) else s.build.(rollback := r))
    case Read(db, accepts) =>
      var next := ReadNext(db, s.build.next, s.build.last);
      if next.None? || !accepts then s.(build := Built(s.build.section, s.build.oldHead, None))
      else s.(build := s.build.(next := s.build.next + 1, last := next.value))
    case Commit(ok) => s.(build := Built(s.build.section, s.build.oldHead, if ok then Some(s.build.last) else None))
    case End =>
      if Commits(s) then
        s.(heads := Kept(s.heads[s.build.section := s.build.head.value], s.stored, s.build.section + 1),
           stored := s.build.section + 1, cascaded := (s.build.section + 1) * s.size - 1, build := Idle)
      else s.(known := s.stored, build := Idle)
  }

  /** A new indexer without a checkpoint. */
  predicate Initial(s: State) {
    0 < s.size && s.stored == 0 && s.known == 0 && s.cascaded == 0 && s.heads == map[] && s.build.Idle? && s.reorg.Still?
  }

  ghost predicate IsRun(states: seq<State>, events: seq<Event>) {
    && |states| == |events| + 1 && Initial(states[0])
    && forall k :: 0 <= k < |events| ==> Next(states[k], events[k], states[k + 1])
  }

  ghost predicate Next(s: State, e: Event, s': State) {
    s.size > 0 && Enabled(s, e) && s' == Apply(s, e)
  }

  /** A reorg rolls back under the lock while the update loop rolls back without it. */
  predicate Overlap(s: State) {
    s.build.Undoing? && !s.reorg.Still?
  }

  /** No two roll-backs overlap in the first states of a run, up to `k`. */
  ghost predicate Apart(states: seq<State>, k: nat)
    requires k < |states|
  {
    forall j :: 0 <= j <= k ==> !Overlap(states[j])
  }

  // ----- What is kept while roll-backs do not overlap -----

  function PreviousHead(s: State, i: nat): Hash {
    if 0 < i && i - 1 in s.heads then s.heads[i - 1] else Zero
  }

  ghost predicate SectionLinked(s: State, i: nat) {
    i in s.heads && Span(s.heads[i], PreviousHead(s, i), i * s.size, (i + 1) * s.size)
  }

  /** The sections with a head: the stored ones and, in the middle of a roll-back, the one being removed. */
  function Extent(s: State): nat {
    s.stored + if s.reorg.Remove? || (s.build.Undoing? && s.build.rollback.Remove?) then 1 else 0
  }

  /** A roll-back by itself never gets below its target. */
  ghost predicate OnCourse(r: Rollback, stored: nat) {
    match r
    case Still => true
    case Test(to) => stored >= to
    case Decrement(to) => stored > to
    case Remove(to) => stored >= to
    case Assign(to) => stored == to
  }

  ghost predicate Rolling(s: State) {
    && !Overlap(s) && OnCourse(s.reorg, s.stored)
    && (s.build.Undoing? ==> OnCourse(s.build.rollback, s.stored) && !s.build.rollback.Still? && s.build.rollback.to == 0)
  }

  /** Heads are recorded for exactly the stored sections, each a parent-linked run on top of the one before. */
  ghost predicate Linked(s: State) {
    && s.size > 0 && s.known <= MAX_UINT64 && s.stored <= MAX_UINT64
    && (forall i :: i in s.heads <==> 0 <= i < Extent(s))
    && (forall i: nat {:trigger SectionLinked(s, i)} :: i < Extent(s) ==> SectionLinked(s, i))
  }

  /**
   * During a build the stored sections can only have been rolled back; if they have not, the build
   * still stands on the stored head of the section before.
   */
  ghost predicate Standing(s: State) {
    !s.build.Idle? ==>
      && Extent(s) <= s.build.section < MAX_UINT64
      && (s.stored == s.build.section ==> s.build.oldHead == PreviousHead(s, s.stored))
      && (s.build.section > 0 ==> s.build.oldHead.Of?)
      && (s.build.section == 0 ==> s.build.oldHead.Zero?)
  }

  /** What has been read so far is a parent-linked run on top of the head the build started from. */
  ghost predicate ReadSoFar(s: State) {
    && (s.build.Reading? ==>
      && s.build.section * s.size <= s.build.next <= (s.build.section + 1) * s.size
      && Span(s.build.last, s.build.oldHead, s.build.section * s.size, s.build.next))
    && (s.build.Built? && s.build.head.Some? ==>
      Span(s.build.head.value, s.build.oldHead, s.build.section * s.size, (s.build.section + 1) * s.size))
  }

  /** Heads only go, from the last section down. */
  lemma KeepsLinked(s: State, s': State)
    requires Linked(s) && s'.size == s.size && s'.known <= MAX_UINT64 && s'.stored <= s.stored && Extent(s') <= Extent(s)
    requires forall i :: i in s'.heads <==> 0 <= i < Extent(s')
    requires forall i :: i in s'.heads ==> s'.heads[i] == s.heads[i]
    ensures Linked(s')
    ensures Extent(s') > 0 ==> PreviousHead(s', Extent(s')) == PreviousHead(s, Extent(s'))
  {
    forall i: nat | i < Extent(s') ensures SectionLinked(s', i) {
      assert SectionLinked(s, i);
    }
  }

  lemma {:induction false} ProductBound(d: nat, q: nat)
    requires d > 0
    ensures q <= d * q
  {
    if d > 1 {
      ProductBound(d - 1, q);
    }
  }

  lemma QuotientBound(n: nat, d: nat)
    requires d > 0
    ensures n / d <= n
  {
    ProductBound(d, n / d);
  }

  lemma CompleteBound(size: nat, confirms: nat, head: nat)
    requires size > 0
    ensures Complete(size, confirms, head) <= MAX_UINT64
  {
    if head >= confirms {
      QuotientBound((head + 1 - confirms) % (MAX_UINT64 + 1), size);
    }
  }

  /** Heads are recorded up to the count, and for the section it names while that is being removed. */
  ghost predicate Counted(r: Rollback, d: Store) {
    forall i :: i in d.heads <==> 0 <= i < d.stored + if r.Remove? then 1 else 0
  }

  /** A step of a roll-back that nothing interferes with. */
  lemma RollKeeps(r: Rollback, d: Store)
    requires !r.Still? && OnCourse(r, d.stored) && Counted(r, d) && d.stored <= MAX_UINT64
    ensures var (r', d') := RollStep(r, d);
            && OnCourse(r', d'.stored) && Counted(r', d') && d'.stored <= d.stored
            && d'.stored + (if r'.Remove? then 1 else 0) <= d.stored + (if r.Remove? then 1 else 0)
            && (forall i :: i in d'.heads ==> i in d.heads && d'.heads[i] == d.heads[i])
  {
  }

  /** A step of either roll-back. */
  lemma RollsLinked(s: State, e: Event)
    requires Linked(s) && Rolling(s) && Enabled(s, e) && (e.ReorgStep? || e.UndoStep?)
    ensures Linked(Apply(s, e)) && Rolling(Apply(s, e)) && Extent(Apply(s, e)) <= Extent(s)
    ensures Apply(s, e).stored == s.stored ==> PreviousHead(Apply(s, e), s.stored) == PreviousHead(s, s.stored)
  {
    RollKeeps(if e.ReorgStep? then s.reorg else s.build.rollback, StoreOf(s));
    KeepsLinked(s, Apply(s, e));
  }

  lemma LinkedStep(s: State, e: Event)
    requires Linked(s) && Rolling(s) && Standing(s) && ReadSoFar(s) && Enabled(s, e)
    ensures Linked(Apply(s, e))
  {
    match e
    case NewHead(head, _) =>
      CompleteBound(s.size, s.confirms, head);
      KeepsLinked(s, Apply(s, e));
    case ReorgStep => RollsLinked(s, e);
    case UndoStep => RollsLinked(s, e);
    case End => EndLinked(s);
    case _ => KeepsLinked(s, Apply(s, e));
  }

  /** The section built is recorded exactly when no stored section before it was rolled back meanwhile. */
  lemma CommitsIff(s: State)
    requires Linked(s) && Standing(s) && s.build.Built? && s.reorg.Still?
    ensures Commits(s) <==> s.build.head.Some? && s.stored == s.build.section
  {
    var section := s.build.section;
    if section > 0 {
      assert (section - 1) % (MAX_UINT64 + 1) == section - 1;
    }
    if s.stored == section > 0 {
      assert SectionLinked(s, section - 1);
    }
  }

  lemma EndLinked(s: State)
    requires Linked(s) && Standing(s) && ReadSoFar(s) && Enabled(s, End)
    ensures Linked(Apply(s, End))
  {
    CommitsIff(s);
    var s' := Apply(s, End);
    if Commits(s) {
      forall i: nat | i < s'.stored ensures SectionLinked(s', i) {
        if i < s.stored {
          assert SectionLinked(s, i);
        }
      }
    } else {
      KeepsLinked(s, s');
    }
  }

  lemma StandingStep(s: State, e: Event)
    requires Linked(s) && Rolling(s) && Standing(s) && Enabled(s, e)
    ensures Standing(Apply(s, e))
  {
    match e
    case Begin =>
      if s.stored > 0 {
        assert SectionLinked(s, s.stored - 1);
        assert (s.stored - 1) % (MAX_UINT64 + 1) == s.stored - 1;
      }
    case ReorgStep => RollsLinked(s, e);
    case UndoStep => RollsLinked(s, e);
    case _ =>
  }

  lemma ReadSoFarStep(s: State, e: Event)
    requires Linked(s) && ReadSoFar(s) && Enabled(s, e)
    ensures ReadSoFar(Apply(s, e))
  {
  }

  lemma RollingStep(s: State, e: Event)
    requires Linked(s) && Rolling(s) && Enabled(s, e) && !Overlap(Apply(s, e))
    ensures Rolling(Apply(s, e))
  {
  }

  /** What holds as long as roll-backs do not overlap. */
  ghost predicate Orderly(s: State) {
    Linked(s) && Rolling(s) && Standing(s) && ReadSoFar(s)
  }

  lemma OrderlyStep(s: State, e: Event)
    requires Orderly(s) && Enabled(s, e) && !Overlap(Apply(s, e))
    ensures Orderly(Apply(s, e))
  {
    LinkedStep(s, e);
    RollingStep(s, e);
    StandingStep(s, e);
    ReadSoFarStep(s, e);
  }

  // ----- Roll-backs that overlap -----

  /** The two roll-backs and what they share. */
  datatype Pair = Pair(store: Store, undo: Rollback, reorg: Rollback)

  function PairOf(s: State): Pair {
    Pair(StoreOf(s), if s.build.Undoing? then s.build.rollback else Still, s.reorg)
  }

  /** One step of the one without the lock, or of the one under it. */
  function Move(p: Pair, unlocked: bool): Pair {
    if unlocked then
      if p.undo.Still? then p else var (r, d) := RollStep(p.undo, p.store); Pair(d, r, p.reorg)
    else
      if p.reorg.Still? then p else var (r, d) := RollStep(p.reorg, p.store); Pair(d, p.undo, r)
  }

  /** The protocol's steps on the roll-backs are those of the pair. */
  lemma StepsOfPair(s: State)
    requires s.size > 0
    ensures Enabled(s, UndoStep) ==> PairOf(Apply(s, UndoStep)) == Move(PairOf(s), true)
    ensures Enabled(s, ReorgStep) ==> PairOf(Apply(s, ReorgStep)) == Move(PairOf(s), false)
  {
  }

  function Play(p: Pair, schedule: seq<bool>): Pair
    decreases |schedule|
  {
    if schedule == [] then p else Play(Move(p, schedule[0]), schedule[1..])
  }

  lemma {:induction false} PlayConcat(p: Pair, a: seq<bool>, b: seq<bool>)
    ensures Play(p, a + b) == Play(Play(p, a), b)
    decreases |a|
  {
    if a == [] {
      assert a + b == b;
    } else {
      assert (a + b)[0] == a[0] && (a + b)[1..] == a[1..] + b;
      PlayConcat(Move(p, a[0]), a[1..], b);
    }
  }

  predicate Ended(p: Pair) {
    p.undo.Still? && p.reorg.Still?
  }

  /** Both roll-backs are about to begin, with `d` stored and the reorg's target `to`. */
  function Together(d: Store, to: nat): Pair {
    Pair(d, Test(0), Test(to))
  }

  /** The unlocked roll-back by itself goes down to nothing. */
  lemma {:induction false} UndoAlone(p: Pair) returns (schedule: seq<bool>)
    requires p.undo == Test(0) && p.store.stored <= MAX_UINT64
    ensures var q := Play(p, schedule);
            && q.undo.Still? && q.reorg == p.reorg && q.store.stored == 0
            && (forall i :: i in q.store.heads <==> i in p.store.heads && i >= p.store.stored)
    decreases p.store.stored
  {
    if p.store.stored == 0 {
      schedule := [true, true];
      assert Play(p, schedule) == Move(Move(p, true), true) by {
        assert schedule[1..] == [true];
      }
    } else {
      var next := Move(Move(Move(p, true), true), true);
      assert next == Pair(Store(p.store.stored - 1, p.store.heads - {p.store.stored - 1}), Test(0), p.reorg);
      var rest := UndoAlone(next);
      schedule := [true, true, true] + rest;
      assert [true, true, true][1..] == [true, true] && [true, true][1..] == [true];
      assert Play(p, [true, true, true]) == next;
      PlayConcat(p, [true, true, true], rest);
    }
  }

  /** With two or more sections stored there is a schedule that leaves a head behind which is not counted. */
  lemma OverlapBreaks(d: Store, to: nat) returns (schedule: seq<bool>)
    requires Exact(d) && 2 <= d.stored <= MAX_UINT64 && to < d.stored
    ensures Ended(Play(Together(d, to), schedule)) && !Exact(Play(Together(d, to), schedule).store)
  {
    var n := d.stored;
    var p := Together(d, to);
    var begun := Pair(d, Decrement(0), Decrement(to));
    var low := Store(n - 2, d.heads);
    var skipped := Pair(low.(heads := d.heads - {n - 2}), Test(0), Test(to));
    var first := [true, false, false, true, false, true];
    assert Play(p, first) == skipped by {
      assert Move(Move(p, true), false) == begun;
      assert Move(begun, false) == Pair(Store(n - 1, d.heads), Decrement(0), Remove(to));
      assert Move(Move(begun, false), true) == Pair(low, Remove(0), Remove(to));
      assert Move(Move(Move(begun, false), true), false) == Pair(skipped.store, Remove(0), Test(to));
      assert skipped.store.heads - {n - 2} == skipped.store.heads;
      SixMoves(p);
    }
    var rest := UndoAlone(skipped);
    var undone := Play(skipped, rest);
    assert n - 1 in undone.store.heads && undone.store.stored == 0 && undone.reorg == Test(to);
    assert Play(undone, [false, false]) == Pair(undone.store.(stored := to), Still, Still) by {
      assert [false, false][1..] == [false] && [false][1..] == [];
    }
    schedule := first + (rest + [false, false]);
    PlayConcat(p, first, rest + [false, false]);
    PlayConcat(skipped, rest, [false, false]);
  }

  lemma SixMoves(p: Pair)
    ensures Play(p, [true, false, false, true, false, true])
         == Move(Move(Move(Move(Move(Move(p, true), false), false), true), false), true)
  {
    PlayConcat(p, [true, false, false], [true, false, true]);
    ThreeMoves(p, true, false, false);
    ThreeMoves(Play(p, [true, false, false]), true, false, true);
    assert [true, false, false] + [true, false, true] == [true, false, false, true, false, true];
  }

  lemma ThreeMoves(p: Pair, a: bool, b: bool, c: bool)
    ensures Play(p, [a, b, c]) == Move(Move(Move(p, a), b), c)
  {
    var one, two := Move(p, a), Move(Move(p, a), b);
    assert [a, b, c][1..] == [b, c] && [b, c][1..] == [c] && [c][1..] == [];
    assert Play(p, [a, b, c]) == Play(one, [b, c]) == Play(two, [c]) == Play(Move(two, c), []);
  }

  /** The reorg's roll-back by itself goes down to its target, where it is about to assign it. */
  lemma {:induction false} ReorgAlone(p: Pair) returns (schedule: seq<bool>)
    requires p.reorg.Test? && p.reorg.to <= p.store.stored <= MAX_UINT64
    ensures var q := Play(p, schedule);
            && q.undo == p.undo && q.reorg == Assign(p.reorg.to) && q.store.stored == p.reorg.to
            && (forall i :: i in q.store.heads <==> i in p.store.heads && !(p.reorg.to <= i < p.store.stored))
    decreases p.store.stored
  {
    if p.store.stored == p.reorg.to {
      schedule := [false];
      assert Play(Move(p, false), []) == Move(p, false);
    } else {
      var next := Move(Move(Move(p, false), false), false);
      assert next == Pair(Store(p.store.stored - 1, p.store.heads - {p.store.stored - 1}), p.undo, p.reorg);
      var rest := ReorgAlone(next);
      schedule := [false, false, false] + rest;
      ThreeMoves(p, false, false, false);
      PlayConcat(p, [false, false, false], rest);
    }
  }

  /**
   * The reorg rolls back to its target and leaves its loop, the unlocked roll-back removes what is
   * left, and then the reorg assigns its target: sections are counted that have no head.
   */
  lemma OverlapLosesHeads(d: Store, to: nat) returns (schedule: seq<bool>)
    requires Exact(d) && 1 <= to < d.stored <= MAX_UINT64
    ensures Play(Together(d, to), schedule) == Pair(Store(to, map[]), Still, Still)
  {
    var p := Together(d, to);
    var first := ReorgAlone(p);
    var left := Play(p, first);
    var second := UndoAlone(left);
    var undone := Play(left, second);
    assert undone == Pair(Store(0, map[]), Still, Assign(to));
    assert Play(undone, [false]) == Move(undone, false) by {
      assert [false][1..] == [];
    }
    schedule := first + (second + [false]);
    PlayConcat(p, first, second + [false]);
    PlayConcat(left, second, [false]);
  }

  /** What holds of two roll-backs to nothing that began with one section stored. */
  ghost predicate OneLeft(p: Pair) {
    && (!p.undo.Still? ==> p.undo.to == 0) && (!p.reorg.Still? ==> p.reorg.to == 0) && (Ended(p) ==> p.store.stored == 0)
    && (forall i :: i in p.store.heads ==> i == 0)
    && (0 in p.store.heads ==> p.store.stored > 0 || p.undo.Remove? || p.reorg.Remove?)
    && (0 in p.store.heads && p.undo.Assign? ==> p.reorg.Remove? && p.store.stored == 0)
    && (0 in p.store.heads && p.reorg.Assign? ==> p.undo.Remove? && p.store.stored == 0)
  }

  lemma OneLeftMove(p: Pair, unlocked: bool)
    requires OneLeft(p)
    ensures OneLeft(Move(p, unlocked))
  {
  }

  lemma {:induction false} OneLeftPlay(p: Pair, schedule: seq<bool>)
    requires OneLeft(p)
    ensures OneLeft(Play(p, schedule))
    decreases |schedule|
  {
    if schedule != [] {
      OneLeftMove(p, schedule[0]);
      OneLeftPlay(Move(p, schedule[0]), schedule[1..]);
    }
  }

  /** Two roll-backs that overlap leave the heads exact, whatever the schedule, only if one section was stored. */
  lemma OverlapHarmlessIff(d: Store, to: nat)
    requires Exact(d) && to < d.stored <= MAX_UINT64
    ensures d.stored == 1 <==>
            forall schedule :: Ended(Play(Together(d, to), schedule)) ==> Exact(Play(Together(d, to), schedule).store)
  {
    if d.stored == 1 {
      forall schedule | Ended(Play(Together(d, to), schedule)) ensures Exact(Play(Together(d, to), schedule).store) {
        OneLeftPlay(Together(d, to), schedule);
      }
    } else {
      var schedule := OverlapBreaks(d, to);
    }
  }

  // ----- In a run -----

  /** An overlap that begins between two states begins with one section at most, all of which is to go. */
  ghost predicate BeginsMildly(s: State, s': State) {
    Overlap(s') && !Overlap(s) ==> Extent(s') <= 1 && s'.reorg.to == 0
  }

  /** So does every overlap of roll-backs in the first states of a run, up to `k`. */
  ghost predicate Calm(states: seq<State>, k: nat)
    requires k < |states|
  {
    forall j :: 0 < j <= k ==> BeginsMildly(states[j - 1], states[j])
  }

  /** What holds from where such an overlap begins until both roll-backs have ended. */
  ghost predicate Clearing(s: State) {
    && OneLeft(PairOf(s)) && !Ended(PairOf(s)) && s.size > 0 && s.known <= MAX_UINT64 && s.stored <= MAX_UINT64
    && (s.build.Undoing? ==> !s.build.rollback.Still?) && (s.build.Undoing? || (s.build.Built? && s.build.head.None?))
    && s.build.section < MAX_UINT64 && (s.build.section > 0 <==> s.build.oldHead.Of?)
    && (0 in s.heads ==> SectionLinked(s, 0))
  }

  lemma ClearingBegins(s: State, e: Event)
    requires Orderly(s) && Enabled(s, e) && Overlap(Apply(s, e)) && BeginsMildly(s, Apply(s, e))
    ensures Clearing(Apply(s, e))
  {
    var s' := Apply(s, e);
    if Extent(s) > 0 {
      assert SectionLinked(s, 0);
    }
    if e.NewHead? {
      CompleteBound(s.size, s.confirms, e.head);
    }
  }

  lemma ClearingStep(s: State, e: Event)
    requires Clearing(s) && Enabled(s, e) && BeginsMildly(s, Apply(s, e))
    ensures Clearing(Apply(s, e)) || Orderly(Apply(s, e))
  {
    var s' := Apply(s, e);
    StepsOfPair(s);
    if e.NewHead? {
      CompleteBound(s.size, s.confirms, e.head);
    } else {
      OneLeftMove(PairOf(s), e.UndoStep?);
    }
  }

  /** In a calm run what holds of the indexer holds at all times but while an overlap lasts. */
  lemma {:induction false} RunKeeps(states: seq<State>, events: seq<Event>, k: nat)
    requires IsRun(states, events) && k < |states| && Calm(states, k)
    ensures Orderly(states[k]) || (Clearing(states[k]) && !Apart(states, k))
  {
    if k > 0 {
      RunKeeps(states, events, k - 1);
      var s, e := states[k - 1], events[k - 1];
      assert Next(s, e, states[k]) && BeginsMildly(states[k - 1], states[k]);
      if !Orderly(s) {
        ClearingStep(s, e);
      } else if Overlap(states[k]) {
        ClearingBegins(s, e);
      } else {
        OrderlyStep(s, e);
      }
    }
  }

  /**
   * From the head stored for section i, `size` parent hashes lead down through the numbers of the
   * section to the head stored for section i - 1, or to the zero hash.
   */
  ghost predicate WalksBack(s: State, i: nat) {
    && i in s.heads && (i > 0 ==> i - 1 in s.heads)
    && Ancestor(s.heads[i], s.size) == (if i == 0 then Zero else s.heads[i - 1])
    && forall j: nat :: j < s.size ==>
      Ancestor(s.heads[i], j).Of? && Ancestor(s.heads[i], j).number == (i + 1) * s.size - 1 - j
  }

  lemma LinkedWalks(s: State, i: nat)
    requires SectionLinked(s, i) && (i > 0 ==> i - 1 in s.heads)
    ensures WalksBack(s, i)
  {
    SpanWalk(s.heads[i], PreviousHead(s, i), i * s.size, (i + 1) * s.size);
    assert (i + 1) * s.size - i * s.size == s.size;
  }

  /**
   * In any run in which roll-backs overlap only where that is harmless, whatever reorgs come between
   * and whatever is read in a build: each head is linked to the one before as stored now, and while no
   * roll-back is on heads are stored for exactly the sections below `stored`. As long as none have
   * overlapped they are also in the middle of one, but for the section being removed.
   */
  lemma SectionsLinked(states: seq<State>, events: seq<Event>, k: nat)
    requires IsRun(states, events) && k < |states| && Calm(states, k)
    ensures forall i :: i in states[k].heads ==> WalksBack(states[k], i)
    ensures Ended(PairOf(states[k])) ==> Exact(StoreOf(states[k]))
    ensures Apart(states, k) ==> forall i :: i in states[k].heads <==> 0 <= i < Extent(states[k])
  {
    RunKeeps(states, events, k);
    var s := states[k];
    forall i | i in s.heads ensures WalksBack(s, i) {
      assert SectionLinked(s, i);
      LinkedWalks(s, i);
    }
  }

  /** A build is recorded exactly when it succeeded and nothing stored before it was rolled back during it. */
  lemma RecordedIffUndisturbed(states: seq<State>, events: seq<Event>, k: nat)
    requires IsRun(states, events) && k < |events| && events[k] == End && Calm(states, k)
    ensures states[k].build.Built?
    ensures var s := states[k];
            states[k + 1].stored ==
              if s.build.head.Some? && s.stored == s.build.section then s.build.section + 1 else s.stored
  {
    RunKeeps(states, events, k);
    assert Next(states[k], End, states[k + 1]);
    CommitsIff(states[k]);
  }

  ghost predicate Path(states: seq<State>, events: seq<Event>) {
    |states| == |events| + 1 && forall k :: 0 <= k < |events| ==> Next(states[k], events[k], states[k + 1])
  }

  ghost predicate NoOverlap(states: seq<State>) {
    forall k :: 0 <= k < |states| ==> !Overlap(states[k])
  }

  lemma PathConcat(states: seq<State>, events: seq<Event>, states': seq<State>, events': seq<Event>)
    requires Path(states, events) && Path(states', events') && states[|events|] == states'[0]
    ensures Path(states + states'[1..], events + events')
    ensures (states + states'[1..])[|events + events'|] == states'[|events'|]
    ensures NoOverlap(states) && NoOverlap(states') ==> NoOverlap(states + states'[1..])
  {
    var all, es := states + states'[1..], events + events';
    forall k | 0 <= k < |es| ensures Next(all[k], es[k], all[k + 1]) {
      if k < |events| {
        assert Next(states[k], events[k], states[k + 1]);
      } else {
        assert Next(states'[k - |events|], events'[k - |events|], states'[k - |events| + 1]);
        assert all[k] == states'[k - |events|];
      }
    }
  }

  /** Any schedule of the two roll-backs is a stretch of a run. */
  lemma {:induction false} Scheduled(s: State, schedule: seq<bool>) returns (states: seq<State>, events: seq<Event>)
    requires s.size > 0
    ensures Path(states, events) && states[0] == s && PairOf(states[|events|]) == Play(PairOf(s), schedule)
    decreases |schedule|
  {
    if schedule == [] {
      states, events := [s], [];
    } else {
      StepsOfPair(s);
      var e := if schedule[0] then UndoStep else ReorgStep;
      if Enabled(s, e) {
        var rest, more := Scheduled(Apply(s, e), schedule[1..]);
        assert Next(s, e, rest[0]);
        PathConcat([s, rest[0]], [e], rest, more);
        states, events := [s, rest[0]] + rest[1..], [e] + more;
      } else {
        states, events := Scheduled(s, schedule[1..]);
      }
    }
  }

  /**
   * Any calm run that comes to where the backend may refuse a section, with two or more
   * stored, goes on to one that ends with heads that are not those of the stored sections, if a reorg
   * to any of these comes in.
   */
  lemma RunBreaks(states: seq<State>, events: seq<Event>, head: nat) returns (states': seq<State>, events': seq<Event>)
    requires IsRun(states, events) && Calm(states, |events|) && Enabled(states[|events|], ResetFails)
    requires var s := states[|events|];
             s.size > 0 && s.reorg.Still? && s.stored >= 2 && head <= MAX_UINT64 && head / s.size < s.stored
    ensures IsRun(states', events') && states <= states'
    ensures Ended(PairOf(states'[|events'|])) && !Exact(StoreOf(states'[|events'|]))
  {
    RunKeeps(states, events, |events|);
    var s := states[|events|];
    var s1 := Apply(s, ResetFails);
    var s2 := Apply(s1, NewHead(head, true));
    assert Exact(StoreOf(s)) && PairOf(s2) == Together(StoreOf(s), head / s.size);
    var schedule := OverlapBreaks(StoreOf(s), head / s.size);
    var rest, more := Scheduled(s2, schedule);
    assert Next(s, ResetFails, s1) && Next(s1, NewHead(head, true), s2);
    PathConcat([s, s1, s2], [ResetFails, NewHead(head, true)], rest, more);
    PathConcat(states, events, [s, s1, s2] + rest[1..], [ResetFails, NewHead(head, true)] + more);
    states', events' := states + ([s, s1, s2] + rest[1..])[1..], events + ([ResetFails, NewHead(head, true)] + more);
    assert states'[..|states|] == states;
  }

  /** Storing the next section, of one header, on top of `last`. */
  lemma Stores(s: State, last: Hash, db: Chain)
    requires s.size == 1 && s.build.Idle? && s.reorg.Still? && s.stored < s.known <= MAX_UINT64 && Exact(StoreOf(s))
    requires last == if s.stored == 0 then Zero else s.heads[s.stored - 1]
    requires var h := Of(last, s.stored, 0); s.stored in db.canonical && db.canonical[s.stored] == h && h in db.headers
    ensures var h, n := Of(last, s.stored, 0), s.stored;
            && Next(s, Begin, s.(build := Reading(n, last, n, last)))
            && Next(s.(build := Reading(n, last, n, last)), Read(db, true), s.(build := Reading(n, last, n + 1, h)))
            && Next(s.(build := Reading(n, last, n + 1, h)), Commit(true), s.(build := Built(n, last, Some(h))))
            && Next(s.(build := Built(n, last, Some(h))), End, s.(stored := n + 1, heads := s.heads[n := h], cascaded := n))
  {
    var h, n := Of(last, s.stored, 0), s.stored;
    if n > 0 {
      assert (n - 1) % (MAX_UINT64 + 1) == n - 1;
    } else {
      assert SectionHead(s.heads, -1) == Zero;
    }
    assert ReadNext(db, n, last) == Some(h);
    assert Kept(s.heads[n := h], n, n + 1) == s.heads[n := h];
  }

  lemma StoresPath(s: State, last: Hash, db: Chain) returns (states: seq<State>, events: seq<Event>)
    requires s.size == 1 && s.build.Idle? && s.reorg.Still? && s.stored < s.known <= MAX_UINT64 && Exact(StoreOf(s))
    requires last == if s.stored == 0 then Zero else s.heads[s.stored - 1]
    requires var h := Of(last, s.stored, 0); s.stored in db.canonical && db.canonical[s.stored] == h && h in db.headers
    ensures Path(states, events) && NoOverlap(states) && states[0] == s
    ensures states[|events|] == s.(stored := s.stored + 1, heads := s.heads[s.stored := Of(last, s.stored, 0)], cascaded := s.stored)
  {
    var h, n := Of(last, s.stored, 0), s.stored;
    Stores(s, last, db);
    events := [Begin, Read(db, true), Commit(true), End];
    states := [
      s, s.(build := Reading(n, last, n, last)), s.(build := Reading(n, last, n + 1, h)), s.(build := Built(n, last, Some(h))),
      s.(stored := n + 1, heads := s.heads[n := h], cascaded := n)];
  }

  /** There are such runs: one in which two sections of one header each are stored and a third begins. */
  lemma TwoStored() returns (states: seq<State>, events: seq<Event>)
    ensures IsRun(states, events) && Calm(states, |events|) && Enabled(states[|events|], ResetFails)
    ensures states[|events|].reorg.Still? && states[|events|].stored == 2 && states[|events|].size == 1
  {
    var h0 := Of(Zero, 0, 0);
    var h1 := Of(h0, 1, 0);
    var db := Chain(map[0 := h0, 1 := h1], {h0, h1});
    var s0 := State(1, 0, 0, 0, 0, map[], Idle, Still);
    var s1 := s0.(known := 3);
    assert Next(s0, NewHead(2, false), s1);
    var a, ea := StoresPath(s1, Zero, db);
    PathConcat([s0, s1], [NewHead(2, false)], a, ea);
    states, events := [s0, s1] + a[1..], [NewHead(2, false)] + ea;
    var b, eb := StoresPath(states[|events|], h0, db);
    PathConcat(states, events, b, eb);
    states, events := states + b[1..], events + eb;
    var s := states[|events|];
    assert (s.stored - 1) % (MAX_UINT64 + 1) == 1;
    var c := [s, Apply(s, Begin)];
    PathConcat(states, events, c, [Begin]);
    states, events := states + c[1..], events + [Begin];
  }

  // ----- A reorg by itself -----

  /** What a roll-back that nothing interferes with comes to. */
  function RollTo(r: Rollback, d: Store): Store
    requires OnCourse(r, d.stored) && d.stored <= MAX_UINT64
    decreases d.stored, if r.Remove? then 2 else if r.Test? then 1 else 0
  {
    if r.Still? then d
    else
      var (r', d') := RollStep(r, d);
      if r'.Still? then d' else RollTo(r', d')
  }

  lemma {:induction false} RolledBack(d: Store, to: nat)
    requires to <= d.stored <= MAX_UINT64
    ensures RollTo(Test(to), d) == Store(to, Kept(d.heads, d.stored, to))
    decreases d.stored
  {
    if d.stored == to {
      assert RollTo(Assign(to), d) == d;
      assert Kept(d.heads, d.stored, to) == d.heads;
    } else {
      var lower := Store(d.stored - 1, d.heads);
      var less := lower.(heads := d.heads - {d.stored - 1});
      assert RollTo(Decrement(to), d) == RollTo(Remove(to), lower) == RollTo(Test(to), less);
      RolledBack(less, to);
      assert Kept(less.heads, less.stored, to) == Kept(d.heads, d.stored, to);
    }
  }

  /** The state after a reorg that nothing interferes with. */
  function AfterReorg(s: State, head: nat): State
    requires s.size > 0
  {
    var known := head / s.size;
    s.(known := (if known < s.known then known else s.known),
       stored := (if known < s.stored then known else s.stored),
       heads := (if known < s.stored then Kept(s.heads, s.stored, known) else s.heads),
       cascaded := Cascaded(s.cascaded, s.size, known))
  }

  /** A reorg's steps, one after the other, come to that. */
  lemma ReorgSteps(s: State, head: nat)
    requires s.size > 0 && s.reorg.Still? && s.stored <= MAX_UINT64
    ensures var s1 := BeginReorg(s, head);
            if s1.reorg.Still? then s1 == AfterReorg(s, head)
            else
              var d := RollTo(s1.reorg, StoreOf(s1));
              s1.(stored := d.stored, heads := d.heads, reorg := Still, cascaded := Cascaded(s.cascaded, s.size, s1.reorg.to))
                == AfterReorg(s, head)
  {
    if head / s.size < s.stored {
      RolledBack(StoreOf(s), head / s.size);
    }
  }

  // ----- The indexer object -----

  /** The indexer's fields, and what its update loop keeps while the lock is released. */
  class Indexer {
    const sectionSize: nat
    const confirmsReq: nat
    var storedSections: nat
    var knownSections: nat
    var cascadedHead: nat
    var sectionHeads: map<nat, Hash>
    var build: Build

    ghost function View(): State
      reads this
    {
      State(sectionSize, confirmsReq, storedSections, knownSections, cascadedHead, sectionHeads, build, Still)
    }

    constructor (section: nat, confirm: nat)
      requires section > 0
      ensures Initial(View()) && sectionSize == section && confirmsReq == confirm
    {
      sectionSize, confirmsReq := section, confirm;
      storedSections, knownSections, cascadedHead, sectionHeads, build := 0, 0, 0, map[], Idle;
    }

    /** Removes the heads of the sections that are no longer valid, from the last one down. */
    method SetValidSections(sections: nat)
      modifies `storedSections, `sectionHeads
      ensures storedSections == sections
      ensures sectionHeads == Kept(old(sectionHeads), old(storedSections), sections)
    {
      while storedSections > sections
        invariant if old(storedSections) > sections then sections <= storedSections else storedSections == old(storedSections)
        invariant sectionHeads == Kept(old(sectionHeads), old(storedSections), storedSections)
      {
        storedSections := storedSections - 1;
        sectionHeads := sectionHeads - {storedSections};
      }
      storedSections := sections;
    }

    /**
     * Takes note of a new chain head or of a reorg down to `head`. `cascade` is the reorg passed on
     * to the child indexers, and `signal` wakes the update loop.
     */
    method NewHead(head: nat, reorg: bool) returns (cascade: Option<nat>, signal: bool)
      requires sectionSize > 0 && head <= MAX_UINT64
      modifies this
      ensures View() == if reorg then AfterReorg(old(View()), head) else AfterHead(old(View()), head)
      ensures cascade == if cascadedHead < old(cascadedHead) then Some(cascadedHead) else None
      ensures signal <==> knownSections > old(knownSections)
    {
      cascade, signal := None, false;
      if reorg {
        var known := head / sectionSize;
        if known < knownSections {
          knownSections := known;
        }
        if known < storedSections {
          SetValidSections(known);
        }
        var end := known * sectionSize;
        if end < cascadedHead {
          cascadedHead := end;
          cascade := Some(cascadedHead);
        }
        return;
      }
      if head >= confirmsReq {
        var sections := (head + 1 - confirmsReq) % (MAX_UINT64 + 1) / sectionSize;
        if sections > knownSections {
          knownSections := sections;
          signal := true;
        }
      }
    }

    /** The update loop's first critical section. */
    method StartUpdate()
      requires sectionSize > 0 && build.Idle? && knownSections > storedSections
      modifies `build
      ensures View() == Apply(old(View()), Begin)
    {
      var section := storedSections;
      var oldHead := Zero;
      if section > 0 {
        oldHead := SectionHead(sectionHeads, section - 1);
      }
      build := Reading(section, oldHead, section * sectionSize, oldHead);
    }

    /** What processing a section does when the backend refuses it. */
    method ResetFailed()
      requires build.Reading?
      modifies `storedSections, `sectionHeads, `build
      ensures storedSections == 0 && sectionHeads == Kept(old(sectionHeads), old(storedSections), 0)
      ensures build == Built(old(build).section, old(build).oldHead, None)
    {
      SetValidSections(0);
      build := Built(build.section, build.oldHead, None);
    }

    /** The update loop's second critical section; `cascade` is the head passed on to the child indexers. */
    method FinishUpdate() returns (cascade: Option<nat>)
      requires sectionSize > 0 && build.Built?
      modifies this
      ensures View() == Apply(old(View()), End)
      ensures cascade == if old(Commits(View())) then Some(cascadedHead) else None
    {
      cascade := None;
      if build.head.Some? && build.oldHead == SectionHead(sectionHeads, build.section - 1) {
        sectionHeads := sectionHeads[build.section := build.head.value];
        SetValidSections(build.section + 1);
        cascadedHead := storedSections * sectionSize - 1;
        cascade := Some(cascadedHead);
      } else {
        knownSections := storedSections;
      }
      build := Idle;
    }
  }
}
