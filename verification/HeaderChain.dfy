/**
 * The header chain (core/headerchain.go): a store of headers linked to their parents, the canonical
 * numbering of one path through it, and the ancestor lookup that uses the numbering as a shortcut.
 */
module HeaderChain {
  import opened Types

  const ZERO_HASH: Hash := 0

  datatype Header = Header(hash: Hash, parent: Hash, number: nat)

  type Store = map<Hash, Header>

  /** Headers are filed under their hash, and every header has its parent on file but the one genesis, which has not. */
  ghost predicate Rooted(headers: Store, genesis: Hash) {
    && genesis in headers && headers[genesis].number == 0 && ZERO_HASH !in headers && headers[genesis].parent !in headers
    && (forall h :: h in headers ==> headers[h].hash == h)
    && (forall h :: h in headers && headers[h].number == 0 ==> h == genesis)
    && (forall h {:trigger ParentKnown(headers, headers[h])} :: h in headers && headers[h].number > 0 ==> ParentKnown(headers, headers[h]))
  }

  ghost predicate ParentKnown(headers: Store, h: Header) {
    h.number > 0 && h.parent in headers && headers[h.parent].number == h.number - 1
  }

  /** A header is filed under its hash and number. */
  predicate OnFile(headers: Store, hash: Hash, number: int) {
    hash in headers && headers[hash].number == number
  }

  /** The hash reached by following `k` parent links from `hash`. */
  ghost function Up(headers: Store, hash: Hash, k: nat): Option<Hash>
    decreases k
  {
    if k == 0 then Some(hash)
    else if hash in headers then Up(headers, headers[hash].parent, k - 1)
    else None
  }

  /** `canonical` numbers exactly the path from genesis to `head`, and nothing above it. */
  ghost predicate IsPath(headers: Store, canonical: map<nat, Hash>, head: Hash) {
    && head in headers
    && (forall n: nat :: n in canonical <==> n <= headers[head].number)
    && canonical[headers[head].number] == head
    && (forall n: nat :: n in canonical ==> canonical[n] in headers && headers[canonical[n]].number == n)
    && (forall n: nat {:trigger Linked(headers, canonical, n)} :: n in canonical && n > 0 ==> Linked(headers, canonical, n))
  }

  ghost predicate Linked(headers: Store, canonical: map<nat, Hash>, n: nat) {
    n > 0 && n in canonical && canonical[n] in headers && n - 1 in canonical && headers[canonical[n]].parent == canonical[n - 1]
  }

  /** Along the canonical numbering, going up `k` parents is going down `k` numbers. */
  lemma {:induction false} PathUp(headers: Store, canonical: map<nat, Hash>, head: Hash, n: nat, k: nat)
    requires IsPath(headers, canonical, head) && n in canonical && k <= n
    ensures Up(headers, canonical[n], k) == Some(canonical[n - k])
    decreases k
  {
    if k > 0 {
      assert Linked(headers, canonical, n);
      PathUp(headers, canonical, head, n - 1, k - 1);
    }
  }

  /** Any two paths to one head are the same: the canonical numbering is determined by the head. */
  lemma PathUnique(headers: Store, c: map<nat, Hash>, d: map<nat, Hash>, head: Hash)
    requires IsPath(headers, c, head) && IsPath(headers, d, head)
    ensures c == d
  {
    forall n: nat | n in c ensures c[n] == d[n] {
      PathUp(headers, c, head, headers[head].number, headers[head].number - n);
      PathUp(headers, d, head, headers[head].number, headers[head].number - n);
    }
  }

  /** `more` has the headers of `headers` and perhaps others. */
  ghost predicate Extends(headers: Store, more: Store) {
    forall h :: h in headers ==> h in more && more[h] == headers[h]
  }

  lemma RootedGrows(headers: Store, genesis: Hash, h: Header)
    requires Rooted(headers, genesis) && ParentKnown(headers, h) && h.hash != ZERO_HASH && h.hash != headers[genesis].parent
    requires h.hash in headers ==> headers[h.hash] == h
    ensures Rooted(headers[h.hash := h], genesis) && Extends(headers, headers[h.hash := h])
  {
    var more := headers[h.hash := h];
    assert Extends(headers, more);
    forall x | x in more && more[x].number > 0 ensures ParentKnown(more, more[x]) {
      assert x != h.hash ==> ParentKnown(headers, headers[x]);
    }
  }

  /** A path stays in place when headers are added. */
  lemma PathGrows(headers: Store, more: Store, canonical: map<nat, Hash>, head: Hash)
    requires IsPath(headers, canonical, head) && Extends(headers, more)
    ensures IsPath(more, canonical, head)
  {
    forall n: nat | n in canonical && n > 0 ensures Linked(more, canonical, n) {
      assert Linked(headers, canonical, n);
    }
  }

  /**
   * While the numbering is rewritten for the new head `h`: `next` is the ancestor of `h` at number
   * `n`, the numbers between `n` and `h` are those of its ancestors in between, and from `n` down
   * the old path is still in place.
   */
  ghost predicate Rewriting(headers: Store, prior: map<nat, Hash>, canonical: map<nat, Hash>, h: Header, n: nat, next: Hash) {
    && n < h.number && next in headers && headers[next].number == n
    && (forall m: nat :: n < m < h.number ==> m in canonical && canonical[m] in headers && headers[canonical[m]].number == m)
    && (forall m: nat {:trigger Linked(headers, canonical, m)} :: n + 1 < m < h.number ==> Linked(headers, canonical, m))
    && (if n + 1 == h.number then next == h.parent
        else canonical[h.number - 1] == h.parent && headers[canonical[n + 1]].parent == next)
    && (forall m: nat :: m <= n ==> (m in canonical <==> m in prior) && (m in prior ==> canonical[m] == prior[m]))
    && (forall m: nat :: m > h.number ==> m !in canonical)
  }

  lemma RewriteStep(headers: Store, genesis: Hash, prior: map<nat, Hash>, canonical: map<nat, Hash>, h: Header, n: nat, next: Hash)
    requires Rooted(headers, genesis) && Rewriting(headers, prior, canonical, h, n, next) && n > 0
    ensures Rewriting(headers, prior, canonical[n := next], h, n - 1, headers[next].parent)
  {
    assert ParentKnown(headers, headers[next]);
    var canonical' := canonical[n := next];
    forall m: nat | n < m < h.number ensures Linked(headers, canonical', m) {
      assert n + 1 < m ==> Linked(headers, canonical, m);
    }
  }

  /** The old path meets the new one, at the latest in genesis. */
  lemma RewriteMeets(headers: Store, genesis: Hash, prior: map<nat, Hash>, head: Hash, canonical: map<nat, Hash>, h: Header, next: Hash)
    requires Rooted(headers, genesis) && IsPath(headers, prior, head) && Rewriting(headers, prior, canonical, h, 0, next)
    ensures 0 in canonical && canonical[0] == next
  {
    assert prior[0] == genesis;
  }

  /** Once they meet, numbering the new head completes its path. */
  lemma RewriteDone(headers: Store, prior: map<nat, Hash>, head: Hash, canonical: map<nat, Hash>, h: Header, n: nat, next: Hash)
    requires IsPath(headers, prior, head) && Rewriting(headers, prior, canonical, h, n, next)
    requires n in canonical && canonical[n] == next && h.hash in headers && headers[h.hash] == h
    ensures IsPath(headers, canonical[h.number := h.hash], h.hash)
  {
    var done := canonical[h.number := h.hash];
    forall m: nat | m <= h.number ensures m in done && done[m] in headers && headers[done[m]].number == m {
    }
    forall m: nat | 0 < m <= h.number ensures Linked(headers, done, m) {
      if m <= n {
        assert Linked(headers, prior, m);
      } else if n + 1 < m < h.number {
        assert Linked(headers, canonical, m);
      }
    }
  }

  /** A numbering without the numbers from `i` on, up to the first that it has not. */
  function Pruned(canonical: map<nat, Hash>, i: nat): map<nat, Hash>
    decreases |canonical|
  {
    if i !in canonical then canonical
    else
      assert canonical.Keys == (canonical - {i}).Keys + {i};
      Pruned(canonical - {i}, i + 1)
  }

  /** Removes the numbering from `i` on, up to the first number that has none. */
  method DeleteFrom(numbering: map<nat, Hash>, i: nat) returns (canonical: map<nat, Hash>)
    ensures canonical == Pruned(numbering, i)
    ensures forall n: nat :: n in canonical ==> n in numbering && canonical[n] == numbering[n]
    ensures forall n: nat :: n < i && n in numbering ==> n in canonical
    ensures i !in canonical && (i !in numbering ==> canonical == numbering)
    ensures (forall m: nat, n: nat :: i <= m <= n && n in numbering ==> m in numbering) ==> forall n: nat :: n >= i ==> n !in canonical
  {
    canonical := numbering;
    var n := i;
    while n in canonical
      invariant n >= i && Pruned(canonical, n) == Pruned(numbering, i)
      invariant forall m: nat :: m in canonical <==> m in numbering && !(i <= m < n)
      invariant forall m: nat :: m in canonical ==> canonical[m] == numbering[m]
      invariant n == i ==> canonical == numbering
      invariant i !in numbering ==> n == i
      decreases |canonical|
    {
      canonical := canonical - {n};
      n := n + 1;
    }
  }

  /**
   * A missing number reads as the zero hash, so the zero hash at a number that is not canonical passes
   * for a canonical block, and what is answered is the block at the number asked for.
   */
  predicate Passes(canonical: map<nat, Hash>, hash: Hash, number: int, target: int) {
    hash == ZERO_HASH && number >= 0 && number !in canonical && target in canonical
  }

  /** The header of `hash` and those of its ancestors down to genesis are cached. */
  ghost predicate AllCached(headers: Store, cached: set<Hash>, hash: Hash)
    requires hash in headers
    decreases headers[hash].number
  {
    && hash in cached
    && (headers[hash].number > 0 ==>
      ParentKnown(headers, headers[hash]) && AllCached(headers, cached, headers[hash].parent))
  }

  /**
   * A cached header is found whatever its number. From a wrong number the walk can go on below genesis,
   * to the zero hash, if that is genesis' parent, all on the way are cached and the budget lasts.
   */
  ghost predicate Overshoots(headers: Store, genesis: Hash, cached: set<Hash>, hash: Hash, number: nat, ancestor: nat, budget: nat) {
    && hash in headers && genesis in headers && headers[genesis].parent == ZERO_HASH
    && headers[hash].number + 2 <= ancestor <= number && AllCached(headers, cached, hash) && headers[hash].number < budget
  }

  /** The inputs that mislead the ancestor lookup. */
  ghost predicate Misled(headers: Store, genesis: Hash, canonical: map<nat, Hash>, cached: set<Hash>,
                         hash: Hash, number: nat, ancestor: nat, budget: nat) {
    || (2 <= ancestor <= number && Passes(canonical, hash, number, number - ancestor))
    || (Overshoots(headers, genesis, cached, hash, number, ancestor, budget)
        && Passes(canonical, ZERO_HASH, number - headers[hash].number - 1, number - ancestor))
  }

  /** Above every head there are such inputs, and what they get is not an ancestor. */
  lemma MisledAbove(headers: Store, genesis: Hash, canonical: map<nat, Hash>, head: Hash, cached: set<Hash>, budget: nat)
    requires Rooted(headers, genesis) && IsPath(headers, canonical, head)
    ensures Misled(headers, genesis, canonical, cached, ZERO_HASH, headers[head].number + 2, 2, budget)
    ensures canonical[headers[head].number] != ZERO_HASH && Up(headers, ZERO_HASH, 2).None?
  {
  }

  /** With nothing but genesis on file, and cached, it passes for the block two above it. */
  lemma MisledByCache(g: Header, budget: nat)
    requires g.number == 0 && g.hash != ZERO_HASH && g.parent == ZERO_HASH && budget > 0
    ensures Misled(map[g.hash := g], g.hash, map[0 := g.hash], {g.hash}, g.hash, 2, 2, budget)
    ensures Up(map[g.hash := g], g.hash, 2).None?
  {
    assert Up(map[g.hash := g], g.hash, 2) == Up(map[g.hash := g], ZERO_HASH, 1);
  }

  /** Below genesis there is nothing. */
  lemma {:induction false} UpOut(headers: Store, genesis: Hash, hash: Hash, k: nat)
    requires Rooted(headers, genesis) && hash in headers && headers[genesis].parent == ZERO_HASH && k >= headers[hash].number + 2
    ensures Up(headers, hash, k).None?
    decreases headers[hash].number
  {
    if headers[hash].number > 0 {
      assert ParentKnown(headers, headers[hash]);
      UpOut(headers, genesis, headers[hash].parent, k - 1);
    } else {
      assert Up(headers, hash, k) == Up(headers, ZERO_HASH, k - 1);
    }
  }

  /** The walk has come `ancestor - k` steps, to `h` at number `n`. */
  ghost predicate Walking(headers: Store, genesis: Hash, cached0: set<Hash>, cached: set<Hash>,
                          hash: Hash, number: nat, ancestor: nat, budget: nat, h: Hash, n: nat, k: nat, left: nat)
    requires genesis in headers
  {
    && k <= ancestor <= number && n - k == number - ancestor && left + (ancestor - k) == budget
    && Up(headers, h, k) == Up(headers, hash, ancestor)
    && (|| (OnFile(headers, hash, number) && OnFile(headers, h, n))
        || (k == ancestor && h == hash && cached == cached0)
        || (Astray(headers, cached0, cached, hash, number, h, n)
            && (AllCached(headers, cached0, hash) <==> AllCached(headers, cached0, h)))
        || (BelowGenesis(headers, genesis, cached0, hash, number, n) && cached == cached0 && h == headers[genesis].parent))
  }

  /** The walk goes through cached headers at numbers that are not theirs. */
  ghost predicate Astray(headers: Store, cached0: set<Hash>, cached: set<Hash>, hash: Hash, number: nat, h: Hash, n: nat) {
    && hash in headers && h in headers && headers[hash].number != number && cached == cached0
    && headers[hash].number - number == headers[h].number - n
  }

  ghost predicate BelowGenesis(headers: Store, genesis: Hash, cached0: set<Hash>, hash: Hash, number: nat, n: nat) {
    hash in headers && n == number - headers[hash].number - 1 && AllCached(headers, cached0, hash)
  }

  lemma WalkStep(headers: Store, genesis: Hash, canonical: map<nat, Hash>, cached0: set<Hash>, cached: set<Hash>, cached': set<Hash>,
                 hash: Hash, number: nat, ancestor: nat, budget: nat, h: Hash, n: nat, k: nat, left: nat)
    requires Rooted(headers, genesis) && cached <= headers.Keys && k > 0 && left > 0
    requires Walking(headers, genesis, cached0, cached, hash, number, ancestor, budget, h, n, k, left)
    requires h in cached || OnFile(headers, h, n)
    requires h in cached ==> cached' == cached
    ensures h in headers && Walking(headers, genesis, cached0, cached', hash, number, ancestor, budget, headers[h].parent, n - 1, k - 1, left - 1)
  {
    assert Up(headers, h, k) == Up(headers, headers[h].parent, k - 1);
    if OnFile(headers, h, n) {
      assert ParentKnown(headers, headers[h]);
    } else if headers[h].number > 0 {
      assert ParentKnown(headers, headers[h]);
    } else {
      assert h == genesis;
    }
  }

  /** A number that reads as `h` gives the ancestor, unless it misleads. */
  lemma WalkAnswers(headers: Store, genesis: Hash, canonical: map<nat, Hash>, head: Hash, cached0: set<Hash>, cached: set<Hash>,
                    hash: Hash, number: nat, ancestor: nat, budget: nat, h: Hash, n: nat, k: nat, left: nat)
    requires Rooted(headers, genesis) && IsPath(headers, canonical, head) && k > 0 && ancestor >= 2
    requires Walking(headers, genesis, cached0, cached, hash, number, ancestor, budget, h, n, k, left)
    requires h == if n in canonical then canonical[n] else ZERO_HASH
    ensures var answer := if n - k in canonical then canonical[n - k] else ZERO_HASH;
            (answer == ZERO_HASH || Up(headers, hash, ancestor) == Some(answer))
              <==> !Misled(headers, genesis, canonical, cached0, hash, number, ancestor, budget)
  {
    if n in canonical {
      PathUp(headers, canonical, head, n, k);
    } else if hash != ZERO_HASH && headers[genesis].parent == ZERO_HASH {
      UpOut(headers, genesis, hash, ancestor);
    }
  }

  /** Where the number does not read as `h`, giving up is no mistake. */
  lemma WalkMisses(headers: Store, genesis: Hash, canonical: map<nat, Hash>, cached0: set<Hash>, cached: set<Hash>,
                   hash: Hash, number: nat, ancestor: nat, budget: nat, h: Hash, n: nat, k: nat, left: nat)
    requires Rooted(headers, genesis) && cached0 <= headers.Keys && k > 0
    requires Walking(headers, genesis, cached0, cached, hash, number, ancestor, budget, h, n, k, left)
    requires h != if n in canonical then canonical[n] else ZERO_HASH
    ensures left == 0 || !(h in cached || OnFile(headers, h, n)) ==>
      !Misled(headers, genesis, canonical, cached0, hash, number, ancestor, budget)
  {
  }

  class HeaderChain {
    var headers: Store
    var canonical: map<nat, Hash>
    var current: Header
    var cached: set<Hash>
    const genesis: Hash

    /** The canonical numbering is exactly the ancestor path of the current header. */
    ghost predicate Valid()
      reads this
    {
      && Rooted(headers, genesis) && IsPath(headers, canonical, current.hash) && headers[current.hash] == current
      && cached <= headers.Keys
    }

    constructor (g: Header)
      requires g.number == 0 && g.hash != ZERO_HASH && g.parent != g.hash
      ensures Valid() && headers == map[g.hash := g] && current == g && genesis == g.hash
    {
      headers, canonical, current, genesis, cached := map[g.hash := g], map[0 := g.hash], g, g.hash, {};
    }

    function CanonicalHash(n: nat): Hash
      reads this
    {
      if n in canonical then canonical[n] else ZERO_HASH
    }

    /** Renumbers the ancestors of `h` until the numbering agrees with them. */
    method RewriteAncestors(h: Header)
      requires Rooted(headers, genesis) && IsPath(headers, canonical, current.hash)
      requires ParentKnown(headers, h) && h.hash in headers && headers[h.hash] == h && current.number <= h.number
      requires current.hash in headers && headers[current.hash] == current
      modifies this`canonical
      ensures IsPath(headers, canonical[h.number := h.hash], h.hash)
    {
      ghost var prior := canonical;
      var headHash := h.parent;
      var headNumber: nat := h.number - 1;
      while CanonicalHash(headNumber) != headHash
        invariant Rewriting(headers, prior, canonical, h, headNumber, headHash)
        decreases headNumber
      {
        if headNumber == 0 {
          RewriteMeets(headers, genesis, prior, current.hash, canonical, h, headHash);
        }
        RewriteStep(headers, genesis, prior, canonical, h, headNumber, headHash);
        canonical := canonical[headNumber := headHash];
        headHash := headers[headHash].parent;
        headNumber := headNumber - 1;
      }
      assert headHash != ZERO_HASH;
      RewriteDone(headers, prior, current.hash, canonical, h, headNumber, headHash);
    }

    /**
     * Files a header whose parent is known and makes it the head if its number is higher, or equal
     * and the coin says so. Either way the numbering is the ancestor path of the current header.
     */
    method WriteHeader(h: Header, coin: bool) returns (canon: bool)
      requires Valid() && ParentKnown(headers, h) && h.hash != ZERO_HASH && h.hash != headers[genesis].parent
      requires h.hash in headers ==> headers[h.hash] == h
      modifies this
      ensures Valid() && headers == old(headers)[h.hash := h] && h.hash in cached
      ensures canon == (h.number > old(current).number || (h.number == old(current).number && coin))
      ensures current == (if canon then h else old(current)) && (!canon ==> canonical == old(canonical))
    {
      RootedGrows(headers, genesis, h);
      PathGrows(headers, headers[h.hash := h], canonical, current.hash);
      headers := headers[h.hash := h];
      canon := h.number > current.number || (h.number == current.number && coin);
      if canon {
        canonical := DeleteFrom(canonical, h.number + 1);
        RewriteAncestors(h);
        canonical := canonical[h.number := h.hash];
        current := h;
      }
      CacheAdd(h.hash);
    }

    /** Caches a header; others may have to go. */
    method CacheAdd(hash: Hash)
      modifies `cached
      ensures hash in cached && cached <= old(cached) + {hash}
    {
      var gone: set<Hash> := *;
      cached := (cached - gone) + {hash};
    }

    /** Reads a header: from the cache by its hash alone, or from the store by hash and number. */
    method GetHeader(hash: Hash, number: int) returns (header: Option<Header>)
      requires cached <= headers.Keys
      modifies `cached
      ensures header == if hash in old(cached) || OnFile(headers, hash, number) then Some(headers[hash]) else None
      ensures if hash in old(cached) || header.None? then cached == old(cached) else hash in cached && cached <= old(cached) + {hash}
    {
      if hash in cached {
        return Some(headers[hash]);
      }
      if !OnFile(headers, hash, number) {
        return None;
      }
      CacheAdd(hash);
      return Some(headers[hash]);
    }

    /**
     * The `ancestor`-th ancestor of a block, using the canonical numbering as soon as it reaches it.
     * The answer is zero or exactly what following parent links gives, unless the input misleads it.
     * `budget` limits the blocks visited off the canonical chain; for a known block zero means that it
     * was used up.
     */
    method GetAncestor(hash: Hash, number: nat, ancestor: nat, budget: nat) returns (hash': Hash, number': nat, budget': nat)
      requires Valid()
      modifies `cached
      ensures (hash' == ZERO_HASH || Up(headers, hash, ancestor) == Some(hash'))
          <==> !Misled(headers, genesis, canonical, old(cached), hash, number, ancestor, budget)
      ensures hash' != ZERO_HASH ==> ancestor <= number && number' == number - ancestor
      ensures OnFile(headers, hash, number) && ancestor <= number && hash' == ZERO_HASH ==> budget' == 0 && budget < ancestor
      ensures budget' <= budget && Valid()
    {
      if ancestor > number {
        return ZERO_HASH, 0, budget;
      }
      if ancestor == 1 {
        var header := GetHeader(hash, number);
        if header.None? {
          return ZERO_HASH, 0, budget;
        }
        assert Up(headers, hash, 1) == Up(headers, headers[hash].parent, 0);
        assert OnFile(headers, hash, number) ==> ParentKnown(headers, headers[hash]);
        return header.value.parent, number - 1, budget;
      }
      var h := hash;
      var n: nat, k: nat := number, ancestor;
      budget' := budget;
      while k != 0
        invariant Valid() && Walking(headers, genesis, old(cached), cached, hash, number, ancestor, budget, h, n, k, budget')
        decreases k
      {
        if CanonicalHash(n) == h {
          WalkAnswers(headers, genesis, canonical, current.hash, old(cached), cached, hash, number, ancestor, budget, h, n, k, budget');
          return CanonicalHash(n - k), n - k, budget';
        }
        WalkMisses(headers, genesis, canonical, old(cached), cached, hash, number, ancestor, budget, h, n, k, budget');
        if budget' == 0 {
          return ZERO_HASH, 0, budget';
        }
        budget' := budget' - 1;
        ghost var cached1 := cached;
        var header := GetHeader(h, n);
        if header.None? {
          return ZERO_HASH, 0, budget';
        }
        WalkStep(headers, genesis, canonical, old(cached), cached1, cached, hash, number, ancestor, budget, h, n, k, budget' + 1);
        k := k - 1;
        h := header.value.parent;
        n := n - 1;
      }
      return h, n, budget';
    }
  }
}
