/**
 * The block chain (core/blockchain.go): writing full blocks, reorganising the canonical chain onto
 * another branch, and the index from transactions to the blocks that hold them.
 */
module BlockChain {
  import opened Types
  import opened HeaderChain

  /** The transactions of each stored block, by hash. */
  type Bodies = map<Hash, seq<Hash>>

  /** Blocks are filed under their hash; only genesis has number zero. */
  ghost predicate Filed(headers: Store, bodies: Bodies, genesis: Hash) {
    && ZERO_HASH !in headers && genesis in headers && headers[genesis].parent !in headers && headers.Keys == bodies.Keys
    && (forall h :: h in headers ==> headers[h].hash == h)
    && (forall h :: h in headers && headers[h].number == 0 ==> h == genesis)
  }

  /** No block is its own ancestor: hashes can be put in an order in which parents come first. */
  ghost predicate Acyclic(headers: Store, depth: Hash -> nat) {
    forall h :: h in headers ==> depth(headers[h].parent) < depth(h)
  }

  /** `chain` lists `from` and its ancestors, each the parent of the one before it. */
  ghost predicate Traces(headers: Store, chain: seq<Header>, from: Header) {
    && (forall i :: 0 <= i < |chain| ==> chain[i].hash in headers && headers[chain[i].hash] == chain[i])
    && (|chain| > 0 ==> chain[0] == from)
    && (forall i {:trigger LinkAt(chain, i)} :: 0 < i < |chain| ==> LinkAt(chain, i))
  }

  /** And each has the number before. */
  ghost predicate Descends(headers: Store, chain: seq<Header>, from: Header) {
    Traces(headers, chain, from) && |chain| <= from.number + 1 && forall i :: 0 <= i < |chain| ==> chain[i].number == from.number - i
  }

  ghost predicate HasPath(headers: Store, head: Hash) {
    exists p :: IsPath(headers, p, head)
  }

  ghost predicate LinkAt(chain: seq<Header>, i: nat) {
    0 < i < |chain| && chain[i].hash == chain[i - 1].parent
  }

  /** The hash that comes after `chain`. */
  function NextDown(chain: seq<Header>, from: Header): Hash {
    if chain == [] then from.hash else chain[|chain| - 1].parent
  }

  lemma TracesNext(headers: Store, chain: seq<Header>, from: Header, next: Header)
    requires Traces(headers, chain, from)
    requires next.hash == NextDown(chain, from) && next.hash in headers && headers[next.hash] == next
    requires from.hash in headers && headers[from.hash] == from
    ensures Traces(headers, chain + [next], from)
  {
    var more := chain + [next];
    forall i | 0 < i < |more| ensures LinkAt(more, i) {
      assert i < |chain| ==> LinkAt(chain, i);
    }
  }

  lemma DescendsNext(headers: Store, chain: seq<Header>, from: Header, next: Header)
    requires Descends(headers, chain, from) && |chain| <= from.number
    requires next.hash == NextDown(chain, from) && OnFile(headers, next.hash, from.number - |chain|) && headers[next.hash] == next
    requires from.hash in headers && headers[from.hash] == from
    ensures Descends(headers, chain + [next], from)
  {
    TracesNext(headers, chain, from, next);
  }

  /** A path to `from` runs through every block of its chain, and through the one that comes after. */
  lemma {:induction false} PathRunsThrough(headers: Store, p: map<nat, Hash>, from: Header, chain: seq<Header>)
    requires Descends(headers, chain, from) && IsPath(headers, p, from.hash) && headers[from.hash] == from && |chain| <= from.number
    ensures p[from.number - |chain|] == NextDown(chain, from)
  {
    if chain != [] {
      var rest := chain[..|chain| - 1];
      assert Descends(headers, rest, from) by {
        forall i | 0 < i < |rest| ensures LinkAt(rest, i) {
          assert LinkAt(chain, i);
        }
      }
      PathRunsThrough(headers, p, from, rest);
      assert |chain| > 1 ==> LinkAt(chain, |chain| - 1);
      assert Linked(headers, p, from.number - |chain| + 1);
    }
  }

  /**
   * The two branches of a reorganisation: from the old head and from the new block down to, but
   * without, the block they have in common.
   */
  ghost predicate Fork(headers: Store, canonical: map<nat, Hash>, oldHead: Header, newHead: Header,
                       oldChain: seq<Header>, newChain: seq<Header>) {
    && Descends(headers, oldChain, oldHead) && Descends(headers, newChain, newHead)
    && |oldChain| <= oldHead.number && |newChain| == newHead.number - oldHead.number + |oldChain|
    && oldHead.number - |oldChain| in canonical
    && NextDown(newChain, newHead) == canonical[oldHead.number - |oldChain|]
    && (forall i :: 0 <= i < |newChain| && newChain[i].number in canonical ==> newChain[i].hash != canonical[newChain[i].number])
  }

  /** The numbering after the blocks of `chain` from the last down to index `i` are inserted. */
  function InsertChain(canonical: map<nat, Hash>, chain: seq<Header>, i: nat): map<nat, Hash>
    decreases |chain| - i
  {
    if i >= |chain| then canonical else InsertChain(canonical, chain, i + 1)[chain[i].number := chain[i].hash]
  }

  lemma {:induction false} InsertedAt(headers: Store, canonical: map<nat, Hash>, chain: seq<Header>, from: Header, i: nat, m: nat)
    requires Descends(headers, chain, from) && i <= |chain|
    ensures var c := InsertChain(canonical, chain, i);
            if from.number - |chain| < m <= from.number - i then m in c && c[m] == chain[from.number - m].hash
            else (m in c <==> m in canonical) && (m in c ==> c[m] == canonical[m])
    decreases |chain| - i
  {
    if i < |chain| {
      InsertedAt(headers, canonical, chain, from, i + 1, m);
    }
  }

  /** A numbering up to `n`. */
  function Cut(canonical: map<nat, Hash>, n: nat): map<nat, Hash> {
    map m | m in canonical && m <= n :: canonical[m]
  }

  /** With the new branch inserted down from `i`, the numbering up to the branch's `i`-th block is its path. */
  lemma ForkPath(headers: Store, canonical: map<nat, Hash>, oldHead: Header, newHead: Header,
                 oldChain: seq<Header>, newChain: seq<Header>, i: nat)
    requires Fork(headers, canonical, oldHead, newHead, oldChain, newChain) && i < |newChain|
    requires IsPath(headers, canonical, oldHead.hash) && headers[oldHead.hash] == oldHead
    ensures IsPath(headers, Cut(InsertChain(canonical, newChain, i), newChain[i].number), newChain[i].hash)
  {
    var c := Cut(InsertChain(canonical, newChain, i), newChain[i].number);
    var base := oldHead.number - |oldChain|;
    forall m: nat
      ensures m in c <==> m <= newHead.number - i
      ensures m in c ==> c[m] in headers && headers[c[m]].number == m
      ensures base < m <= newHead.number - i ==> c[m] == newChain[newHead.number - m].hash
      ensures m <= base ==> m in c && m in canonical && c[m] == canonical[m]
    {
      InsertedAt(headers, canonical, newChain, newHead, i, m);
    }
    forall m: nat | m in c && m > 0 ensures Linked(headers, c, m) {
      if m <= base {
        assert Linked(headers, canonical, m);
      } else if m > base + 1 {
        assert LinkAt(newChain, newHead.number - m + 1);
      }
    }
  }

  // ----- The transaction index -----

  /** The index holds exactly the transactions of the canonical blocks, at their blocks' numbers. */
  ghost predicate Indexed(bodies: Bodies, canonical: map<nat, Hash>, lookup: map<Hash, nat>) {
    && (forall n: nat, t :: Holds(bodies, canonical, n, t) ==> t in lookup && lookup[t] == n)
    && (forall t :: t in lookup ==> Holds(bodies, canonical, lookup[t], t))
  }

  /** Transaction `t` is in the block numbered `n`. */
  ghost predicate Holds(bodies: Bodies, path: map<nat, Hash>, n: nat, t: Hash) {
    n in path && path[n] in bodies && t in bodies[path[n]]
  }

  /** No transaction is in two blocks of a path. */
  ghost predicate NoRepeats(bodies: Bodies, path: map<nat, Hash>) {
    forall m: nat, n: nat, t :: Holds(bodies, path, m, t) && Holds(bodies, path, n, t) ==> m == n
  }

  function IndexBlock(lookup: map<Hash, nat>, txs: seq<Hash>, number: nat): map<Hash, nat> {
    lookup + map t | t in txs :: number
  }

  /** The blocks of `chain` are stored. */
  ghost predicate Bodied(bodies: Bodies, chain: seq<Header>) {
    forall j :: 0 <= j < |chain| ==> chain[j].hash in bodies
  }

  /** The index after the blocks of `chain` from the last down to index `i` are entered. */
  ghost function IndexChain(lookup: map<Hash, nat>, bodies: Bodies, chain: seq<Header>, i: nat): map<Hash, nat>
    requires Bodied(bodies, chain)
    decreases |chain| - i
  {
    if i >= |chain| then lookup
    else IndexBlock(IndexChain(lookup, bodies, chain, i + 1), bodies[chain[i].hash], chain[i].number)
  }

  /** The transactions of the blocks of `chain` from index `i` on. */
  ghost function TxsOf(bodies: Bodies, chain: seq<Header>, i: nat): set<Hash>
    requires Bodied(bodies, chain)
  {
    set j, t | i <= j < |chain| && t in bodies[chain[j].hash] :: t
  }

  lemma TxsFrom(bodies: Bodies, chain: seq<Header>, i: nat)
    requires i < |chain| && Bodied(bodies, chain)
    ensures TxsOf(bodies, chain, i) == TxsOf(bodies, chain, i + 1) + set t | t in bodies[chain[i].hash]
  {
  }

  /** Entering a chain sets its own transactions, each to a block that holds it, and no others. */
  lemma {:induction false} IndexedAt(lookup: map<Hash, nat>, bodies: Bodies, chain: seq<Header>, i: nat, t: Hash)
    requires Bodied(bodies, chain)
    ensures var l := IndexChain(lookup, bodies, chain, i);
            if t in TxsOf(bodies, chain, i) then
              t in l && exists j :: i <= j < |chain| && t in bodies[chain[j].hash] && l[t] == chain[j].number
            else (t in l <==> t in lookup) && (t in l ==> l[t] == lookup[t])
    decreases |chain| - i
  {
    if i < |chain| {
      IndexedAt(lookup, bodies, chain, i + 1, t);
    }
  }

  /** The index after a reorganisation and the entry of the new head. */
  ghost function Reindexed(lookup: map<Hash, nat>, bodies: Bodies, oldChain: seq<Header>, newChain: seq<Header>): map<Hash, nat>
    requires Bodied(bodies, newChain)
    requires Bodied(bodies, oldChain)
    requires |newChain| > 0
  {
    var gone := TxsOf(bodies, oldChain, 0) - TxsOf(bodies, newChain, 1);
    IndexBlock(IndexChain(lookup, bodies, newChain, 1) - gone, bodies[newChain[0].hash], newChain[0].number)
  }

  lemma OldBranch(headers: Store, canonical: map<nat, Hash>, oldHead: Header, newHead: Header,
                  oldChain: seq<Header>, newChain: seq<Header>, n: nat)
    requires Fork(headers, canonical, oldHead, newHead, oldChain, newChain)
    requires IsPath(headers, canonical, oldHead.hash) && headers[oldHead.hash] == oldHead
    requires oldHead.number - |oldChain| < n <= oldHead.number
    ensures canonical[n] == oldChain[oldHead.number - n].hash
  {
    var k := oldHead.number - n;
    var part := oldChain[..k];
    assert Descends(headers, part, oldHead) by {
      forall i | 0 < i < |part| ensures LinkAt(part, i) {
        assert LinkAt(oldChain, i);
      }
    }
    PathRunsThrough(headers, canonical, oldHead, part);
    assert k > 0 ==> LinkAt(oldChain, k);
  }

  /** The index of a transaction that stays, moves with the new branch, or goes with the old one. */
  lemma ReindexedAt(lookup: map<Hash, nat>, bodies: Bodies, oldChain: seq<Header>, newChain: seq<Header>, t: Hash)
    requires Bodied(bodies, newChain)
    requires Bodied(bodies, oldChain)
    requires |newChain| > 0
    ensures var l := Reindexed(lookup, bodies, oldChain, newChain);
            if t in TxsOf(bodies, newChain, 0) then
              t in l && exists j :: 0 <= j < |newChain| && t in bodies[newChain[j].hash] && l[t] == newChain[j].number
            else if t in TxsOf(bodies, oldChain, 0) then t !in l
            else (t in l <==> t in lookup) && (t in l ==> l[t] == lookup[t])
  {
    IndexedAt(lookup, bodies, newChain, 1, t);
    assert t in TxsOf(bodies, newChain, 0) <==> t in bodies[newChain[0].hash] || t in TxsOf(bodies, newChain, 1);
  }

  /** `path` is the old numbering up to `base` and the blocks of `chain` above it. */
  ghost predicate Spliced(path: map<nat, Hash>, canonical: map<nat, Hash>, chain: seq<Header>, head: Header, base: int) {
    && base == head.number - |chain|
    && (forall m: nat {:trigger m in path} :: base < m <= head.number ==> m in path && path[m] == chain[head.number - m].hash)
    && (forall m: nat {:trigger m in path} :: m <= base ==> (m in path <==> m in canonical) && (m in path ==> path[m] == canonical[m]))
    && (forall m: nat {:trigger m in path} :: m > head.number ==> m !in path)
  }

  /** What a reorganisation is given, for the two lemmas on the index below. */
  ghost predicate Reorganises(headers: Store, bodies: Bodies, canonical: map<nat, Hash>, lookup: map<Hash, nat>,
                              oldHead: Header, newHead: Header, oldChain: seq<Header>, newChain: seq<Header>, path: map<nat, Hash>) {
    && Fork(headers, canonical, oldHead, newHead, oldChain, newChain) && headers.Keys == bodies.Keys
    && IsPath(headers, canonical, oldHead.hash) && headers[oldHead.hash] == oldHead
    && Indexed(bodies, canonical, lookup) && NoRepeats(bodies, path)
    && Spliced(path, canonical, newChain, newHead, oldHead.number - |oldChain|) && |newChain| > 0
  }

  lemma ChainsHaveBodies(headers: Store, bodies: Bodies, canonical: map<nat, Hash>, lookup: map<Hash, nat>,
                         oldHead: Header, newHead: Header, oldChain: seq<Header>, newChain: seq<Header>, path: map<nat, Hash>)
    requires Reorganises(headers, bodies, canonical, lookup, oldHead, newHead, oldChain, newChain, path)
    ensures Bodied(bodies, newChain)
    ensures Bodied(bodies, oldChain)
    ensures |newChain| > 0
  {
    assert forall h :: h in headers ==> h in bodies.Keys;
  }

  /** A transaction of the old branch is on the old path above the common block. */
  lemma OnOldBranch(headers: Store, bodies: Bodies, canonical: map<nat, Hash>, lookup: map<Hash, nat>,
                    oldHead: Header, newHead: Header, oldChain: seq<Header>, newChain: seq<Header>, path: map<nat, Hash>, t: Hash)
    requires Reorganises(headers, bodies, canonical, lookup, oldHead, newHead, oldChain, newChain, path)
    requires Bodied(bodies, oldChain)
    ensures t in TxsOf(bodies, oldChain, 0) <==> t in lookup && lookup[t] > oldHead.number - |oldChain|
  {
    if t in TxsOf(bodies, oldChain, 0) {
      var j :| 0 <= j < |oldChain| && t in bodies[oldChain[j].hash];
      OldBranch(headers, canonical, oldHead, newHead, oldChain, newChain, oldHead.number - j);
      assert Holds(bodies, canonical, oldHead.number - j, t);
    }
    if t in lookup && lookup[t] > oldHead.number - |oldChain| {
      assert Holds(bodies, canonical, lookup[t], t);
      OldBranch(headers, canonical, oldHead, newHead, oldChain, newChain, lookup[t]);
      assert t in bodies[oldChain[oldHead.number - lookup[t]].hash];
    }
  }

  /** A transaction of the new branch is on the new path, at the number of its block. */
  lemma OnNewBranch(bodies: Bodies, canonical: map<nat, Hash>, newHead: Header, newChain: seq<Header>, path: map<nat, Hash>,
                    base: int, n: nat, t: Hash)
    requires Bodied(bodies, newChain)
    requires Spliced(path, canonical, newChain, newHead, base) && base >= 0 && base < n <= newHead.number
    ensures Holds(bodies, path, n, t) <==> t in bodies[newChain[newHead.number - n].hash]
    ensures Holds(bodies, path, n, t) ==> t in TxsOf(bodies, newChain, 0)
  {
    assert n in path;
  }

  lemma ReindexedOnPath(headers: Store, bodies: Bodies, canonical: map<nat, Hash>, lookup: map<Hash, nat>,
                        oldHead: Header, newHead: Header, oldChain: seq<Header>, newChain: seq<Header>, path: map<nat, Hash>, t: Hash)
    requires Reorganises(headers, bodies, canonical, lookup, oldHead, newHead, oldChain, newChain, path)
    requires Bodied(bodies, newChain)
    requires Bodied(bodies, oldChain)
    requires |newChain| > 0
    ensures var l := Reindexed(lookup, bodies, oldChain, newChain);
            && (t in l ==> Holds(bodies, path, l[t], t))
            && forall n: nat :: Holds(bodies, path, n, t) ==> t in l
  {
    var base := oldHead.number - |oldChain|;
    var l := Reindexed(lookup, bodies, oldChain, newChain);
    ReindexedAt(lookup, bodies, oldChain, newChain, t);
    OnOldBranch(headers, bodies, canonical, lookup, oldHead, newHead, oldChain, newChain, path, t);
    if t in TxsOf(bodies, newChain, 0) {
      var j :| 0 <= j < |newChain| && t in bodies[newChain[j].hash] && l[t] == newChain[j].number;
      OnNewBranch(bodies, canonical, newHead, newChain, path, base, newHead.number - j, t);
    } else {
      if t in l {
        assert Holds(bodies, canonical, lookup[t], t);
        assert lookup[t] in path;
      }
      forall n: nat | Holds(bodies, path, n, t) ensures t in l {
        if base < n <= newHead.number {
          OnNewBranch(bodies, canonical, newHead, newChain, path, base, n, t);
        }
        assert Holds(bodies, canonical, n, t);
      }
    }
  }

  /** Reorganising keeps the index exact: it holds the transactions of the new path and no others. */
  lemma ForkIndex(headers: Store, bodies: Bodies, canonical: map<nat, Hash>, lookup: map<Hash, nat>,
                  oldHead: Header, newHead: Header, oldChain: seq<Header>, newChain: seq<Header>, path: map<nat, Hash>)
    requires Reorganises(headers, bodies, canonical, lookup, oldHead, newHead, oldChain, newChain, path)
    ensures Bodied(bodies, newChain)
    ensures Bodied(bodies, oldChain)
    ensures |newChain| > 0
    ensures Indexed(bodies, path, Reindexed(lookup, bodies, oldChain, newChain))
  {
    ChainsHaveBodies(headers, bodies, canonical, lookup, oldHead, newHead, oldChain, newChain, path);
    var l := Reindexed(lookup, bodies, oldChain, newChain);
    forall t
      ensures t in l ==> Holds(bodies, path, l[t], t)
      ensures forall n: nat :: Holds(bodies, path, n, t) ==> t in l
    {
      ReindexedOnPath(headers, bodies, canonical, lookup, oldHead, newHead, oldChain, newChain, path, t);
    }
  }

  /** Filing another block leaves the blocks on file, the path and the index as they are. */
  lemma StoreKept(headers: Store, bodies: Bodies, genesis: Hash, canonical: map<nat, Hash>, head: Hash, lookup: map<Hash, nat>,
                  h: Header, txs: seq<Hash>)
    requires Filed(headers, bodies, genesis) && IsPath(headers, canonical, head)
    requires h.hash != ZERO_HASH && h.number > 0 && (h.hash in headers ==> headers[h.hash] == h && bodies[h.hash] == txs)
    requires h.hash != headers[genesis].parent
    ensures Filed(headers[h.hash := h], bodies[h.hash := txs], genesis)
    ensures IsPath(headers[h.hash := h], canonical, head)
    ensures Indexed(bodies, canonical, lookup) ==> Indexed(bodies[h.hash := txs], canonical, lookup)
  {
    PathGrows(headers, headers[h.hash := h], canonical, head);
    var more := bodies[h.hash := txs];
    forall n: nat, t ensures Holds(more, canonical, n, t) <==> Holds(bodies, canonical, n, t) {
      assert n in canonical ==> canonical[n] in bodies.Keys;
    }
  }

  /** A child of the head extends the index by one block, exactly if it repeats no transaction. */
  lemma ChildExtendsIff(headers: Store, bodies: Bodies, canonical: map<nat, Hash>, lookup: map<Hash, nat>, head: Hash, h: Header)
    requires IsPath(headers, canonical, head) && headers.Keys == bodies.Keys && Indexed(bodies, canonical, lookup)
    requires h.hash in headers && headers[h.hash] == h && h.parent == head && h.number == headers[head].number + 1
    ensures h.hash in bodies
    ensures var path := canonical[h.number := h.hash];
            Indexed(bodies, path, IndexBlock(lookup, bodies[h.hash], h.number)) <==> NoRepeats(bodies, path)
  {
    assert h.hash in bodies.Keys;
    var path := canonical[h.number := h.hash];
    var l := IndexBlock(lookup, bodies[h.hash], h.number);
    if Indexed(bodies, path, l) {
      IndexedOnce(bodies, path, l);
    }
    if NoRepeats(bodies, path) {
      ChildExtends(headers, bodies, canonical, lookup, head, h);
    }
  }

  /** A head whose parent is the old head extends the path and the index by one block. */
  lemma ChildExtends(headers: Store, bodies: Bodies, canonical: map<nat, Hash>, lookup: map<Hash, nat>, head: Hash, h: Header)
    requires IsPath(headers, canonical, head) && headers.Keys == bodies.Keys && Indexed(bodies, canonical, lookup)
    requires h.hash in headers && headers[h.hash] == h && h.parent == head && h.number == headers[head].number + 1
    requires NoRepeats(bodies, canonical[h.number := h.hash])
    ensures h.hash in bodies
    ensures Indexed(bodies, canonical[h.number := h.hash], IndexBlock(lookup, bodies[h.hash], h.number))
  {
    assert h.hash in bodies.Keys;
    var path, l := canonical[h.number := h.hash], IndexBlock(lookup, bodies[h.hash], h.number);
    forall n: nat, t | Holds(bodies, path, n, t) ensures t in l && l[t] == n {
      if t in bodies[h.hash] {
        assert Holds(bodies, path, h.number, t);
      } else {
        assert Holds(bodies, canonical, n, t);
      }
    }
    forall t | t in l ensures Holds(bodies, path, l[t], t) {
      assert t !in bodies[h.hash] ==> Holds(bodies, canonical, lookup[t], t);
    }
  }

  class BlockChain {
    const genesis: Hash
    var headers: Store
    var bodies: Bodies
    var canonical: map<nat, Hash>
    var lookup: map<Hash, nat>
    var currentBlock: Header
    var currentHeader: Header
    var currentFastBlock: Header
    var cached: set<Hash>
    ghost const depth: Hash -> nat

    /** The canonical numbering is exactly the path from genesis to the head with nothing above it, and all heads agree. */
    ghost predicate Chained()
      reads this
    {
      OnPath() && cached <= headers.Keys
    }

    ghost predicate OnPath()
      reads `headers, `bodies, `canonical, `currentBlock, `currentHeader, `currentFastBlock
    {
      && OnDisk() && IsPath(headers, canonical, currentBlock.hash) && headers[currentBlock.hash] == currentBlock
      && currentHeader == currentBlock && currentFastBlock == currentBlock
    }

    ghost predicate OnDisk()
      reads `headers, `bodies
    {
      Filed(headers, bodies, genesis) && Acyclic(headers, depth)
    }

    constructor (g: Header, txs: seq<Hash>, ghost depth: Hash -> nat)
      requires g.number == 0 && g.hash != ZERO_HASH && txs == [] && depth(g.parent) < depth(g.hash)
      ensures Chained() && Indexed(bodies, canonical, lookup) && currentBlock == g && this.depth == depth
      ensures genesis == g.hash && headers == map[g.hash := g] && canonical == map[0 := g.hash] && cached == {}
    {
      this.depth, cached := depth, {};
      genesis, headers, bodies, canonical, lookup := g.hash, map[g.hash := g], map[g.hash := txs], map[0 := g.hash], map[];
      currentBlock, currentHeader, currentFastBlock := g, g, g;
    }

    function CanonicalHash(n: nat): Hash
      reads this
    {
      if n in canonical then canonical[n] else ZERO_HASH
    }

    /** Makes `h` the head of the numbering; the other heads follow unless it was numbered already. */
    method Insert(h: Header)
      modifies this`canonical, this`currentBlock, this`currentHeader, this`currentFastBlock
      ensures canonical == old(canonical)[h.number := h.hash] && currentBlock == h
      ensures if old(CanonicalHash(h.number)) != h.hash then currentHeader == h && currentFastBlock == h
              else currentHeader == old(currentHeader) && currentFastBlock == old(currentFastBlock)
    {
      var updateHeads := CanonicalHash(h.number) != h.hash;
      canonical := canonical[h.number := h.hash];
      currentBlock := h;
      if updateHeads {
        currentHeader := h;
        currentFastBlock := h;
      }
    }

    method WriteTxLookupEntries(txs: seq<Hash>, number: nat)
      modifies this`lookup
      ensures lookup == IndexBlock(old(lookup), txs, number)
    {
      for i := 0 to |txs|
        invariant lookup == IndexBlock(old(lookup), txs[..i], number)
      {
        assert txs[..i + 1] == txs[..i] + [txs[i]];
        lookup := lookup[txs[i] := number];
      }
      assert txs[..|txs|] == txs;
    }

    /** Caches a block; others may have to go. */
    method CacheAdd(hash: Hash) returns (ghost lost: bool)
      modifies `cached
      ensures hash in cached && cached <= old(cached) + {hash} && (!lost ==> cached == old(cached) + {hash})
    {
      var gone: set<Hash> := *;
      lost := !(old(cached) <= (cached - gone) + {hash});
      cached := (cached - gone) + {hash};
    }

    /** Reads a block: from the cache by its hash alone, or from the store by hash and number. */
    method GetBlock(hash: Hash, number: int) returns (block: Option<Header>, ghost lost: bool)
      requires cached <= headers.Keys
      modifies `cached
      ensures block == if hash in old(cached) || OnFile(headers, hash, number) then Some(headers[hash]) else None
      ensures cached <= headers.Keys && cached <= old(cached) + {hash}
      ensures (!lost ==> old(cached) <= cached) && (block.Some? ==> hash in cached)
    {
      if hash in cached {
        return Some(headers[hash]), false;
      }
      if !OnFile(headers, hash, number) {
        return None, false;
      }
      lost := CacheAdd(hash);
      return Some(headers[hash]), lost;
    }

    /** Walks from the head down to a number. */
    method WalkDown(to: nat) returns (chain: seq<Header>, ghost lost: bool)
      requires Chained() && to <= currentBlock.number
      modifies `cached
      ensures cached <= headers.Keys && |chain| == currentBlock.number - to
      ensures WalkedDown(headers, canonical, old(cached), cached, currentBlock, chain, lost)
    {
      chain, lost := [], false;
      var block := currentBlock;
      while block.number != to
        invariant cached <= headers.Keys && WalkedDown(headers, canonical, old(cached), cached, currentBlock, chain, lost)
        invariant block == headers[NextDown(chain, currentBlock)] && block.number >= to
        decreases block.number
      {
        ghost var gone, was := false, cached;
        assert Linked(headers, canonical, block.number);
        var next;
        next, gone := GetBlock(block.parent, block.number - 1);
        DownNext(headers, bodies, genesis, canonical, old(cached), was, cached, currentBlock, chain, block, lost, gone);
        lost := lost || gone;
        chain, block := chain + [block], next.value;
      }
    }

    /** Walks from another block down to a number, if all that lies between is found. */
    method WalkFrom(from: Header, to: nat) returns (ok: bool, chain: seq<Header>, ghost lost: bool)
      requires OnDisk() && cached <= headers.Keys && from.hash in headers && headers[from.hash] == from
      modifies `cached
      ensures cached <= headers.Keys
      ensures if ok then FoundDown(headers, old(cached), depth, cached, to, from, chain, lost) && OnFile(headers, NextDown(chain, from), to)
              else GaveUp(headers, old(cached), to, from, chain, lost)
    {
      chain, lost := [], false;
      var block := from;
      while block.number != to
        invariant cached <= headers.Keys && FoundDown(headers, old(cached), depth, cached, to, from, chain, lost)
        invariant block.hash == NextDown(chain, from) && block.hash in headers && headers[block.hash] == block
        decreases depth(block.hash)
      {
        var next;
        ghost var gone, was := false, cached;
        next, gone := GetBlock(block.parent, block.number - 1);
        if next.None? {
          DownMissed(headers, old(cached), depth, was, to, from, chain, block, lost);
          return false, chain + [block], lost;
        }
        DownFound(headers, old(cached), depth, was, cached, to, from, chain, block, lost, gone);
        lost := lost || gone;
        chain, block := chain + [block], next.value;
      }
      ok := true;
    }

    /** Walks from the one of the two blocks with the higher number down to the number of the other. */
    method LevelOut(newHead: Header) returns (ok: bool, oldChain: seq<Header>, newChain: seq<Header>, ghost lost: bool)
      requires Chained() && newHead.hash in headers && headers[newHead.hash] == newHead
      modifies `cached
      ensures cached <= headers.Keys
      ensures ok ==> InStep(headers, canonical, old(cached), cached, depth, currentBlock, newHead, oldChain, newChain, |newChain|, lost)
      ensures !ok ==> !HasPath(headers, newHead.hash) && (lost || !Reachable(headers, canonical, old(cached), currentBlock, newHead))
    {
      oldChain, newChain := [], [];
      if currentBlock.number > newHead.number {
        oldChain, lost := WalkDown(newHead.number);
        ok := true;
        OldLevel(headers, canonical, old(cached), cached, depth, currentBlock, newHead, oldChain, lost);
      } else {
        ok, newChain, lost := WalkFrom(newHead, currentBlock.number);
        if ok {
          NewLevel(headers, canonical, old(cached), cached, depth, currentBlock, newHead, newChain, lost);
        } else {
          NoLevel(headers, bodies, genesis, canonical, old(cached), currentBlock, newHead, newChain, lost);
        }
      }
    }

    /**
     * Walks from the old head and from the new block, in step, to the block they have in common. That is
     * found if and only if the new block reaches the numbering, unless the cache loses blocks meanwhile;
     * and always if a path leads to the new block, and then along that path.
     */
    method FindFork(newHead: Header) returns (ok: bool, oldChain: seq<Header>, newChain: seq<Header>, ghost lost: bool)
      requires Chained() && newHead.hash in headers && headers[newHead.hash] == newHead
      modifies `cached
      ensures cached <= headers.Keys
      ensures ok ==> Joins(headers, canonical, currentBlock, newHead, oldChain, newChain)
      ensures ok ==> Reachable(headers, canonical, old(cached), currentBlock, newHead)
      ensures !ok ==> lost || !Reachable(headers, canonical, old(cached), currentBlock, newHead)
      ensures HasPath(headers, newHead.hash) ==> ok && Fork(headers, canonical, currentBlock, newHead, oldChain, newChain)
    {
      ok, oldChain, newChain, lost := LevelOut(newHead);
      ghost var k := |newChain|;
      if ok {
        ok, oldChain, newChain, lost := WalkInStep(newHead, oldChain, newChain, old(cached), k, lost);
        if ok {
          InStepMeets(headers, bodies, genesis, canonical, old(cached), cached, depth, currentBlock, newHead, oldChain, newChain, k, lost);
        }
      }
    }

    /** Walks down on both sides until the walks meet. */
    method WalkInStep(newHead: Header, oldStart: seq<Header>, newStart: seq<Header>, ghost before: set<Hash>, ghost k: nat, ghost was: bool)
      returns (ok: bool, oldChain: seq<Header>, newChain: seq<Header>, ghost lost: bool)
      requires Chained() && newHead.hash in headers && headers[newHead.hash] == newHead
      requires InStep(headers, canonical, before, cached, depth, currentBlock, newHead, oldStart, newStart, k, was)
      modifies `cached
      ensures cached <= headers.Keys
      ensures ok ==> InStep(headers, canonical, before, cached, depth, currentBlock, newHead, oldChain, newChain, k, lost)
      ensures ok ==> NextDown(oldChain, currentBlock) == NextDown(newChain, newHead)
      ensures !ok ==> !HasPath(headers, newHead.hash) && (lost || !Reachable(headers, canonical, before, currentBlock, newHead))
    {
      ok, oldChain, newChain, lost := true, oldStart, newStart, was;
      while ok && NextDown(oldChain, currentBlock) != NextDown(newChain, newHead)
        invariant cached <= headers.Keys
        invariant ok ==> InStep(headers, canonical, before, cached, depth, currentBlock, newHead, oldChain, newChain, k, lost)
        invariant !ok ==> !HasPath(headers, newHead.hash) && (lost || !Reachable(headers, canonical, before, currentBlock, newHead))
        decreases ok, currentBlock.number - |oldChain|
      {
        ok, oldChain, newChain, lost := StepDown(newHead, oldChain, newChain, before, k, lost);
      }
    }

    /** One step down on both sides. */
    method StepDown(newHead: Header, oldChain: seq<Header>, newChain: seq<Header>, ghost before: set<Hash>, ghost k: nat, ghost was: bool)
      returns (ok: bool, oldNext: seq<Header>, newNext: seq<Header>, ghost lost: bool)
      requires Chained() && newHead.hash in headers && headers[newHead.hash] == newHead
      requires InStep(headers, canonical, before, cached, depth, currentBlock, newHead, oldChain, newChain, k, was)
      requires NextDown(oldChain, currentBlock) != NextDown(newChain, newHead)
      modifies `cached
      ensures cached <= headers.Keys
      ensures |oldNext| == |oldChain| + 1
      ensures ok ==> InStep(headers, canonical, before, cached, depth, currentBlock, newHead, oldNext, newNext, k, lost)
      ensures !ok ==> !HasPath(headers, newHead.hash) && (lost || !Reachable(headers, canonical, before, currentBlock, newHead))
    {
      var ob, nb := headers[NextDown(oldChain, currentBlock)], headers[NextDown(newChain, newHead)];
      ghost var known := before + Passed(canonical, ob.number, currentBlock.number);
      var below, under;
      below, under, lost := LookUpBoth(ob, nb, known, was);
      ok, oldNext, newNext := under.Some?, oldChain + [ob], newChain + [nb];
      if ok {
        InStepNext(headers, bodies, genesis, canonical, before, old(cached), cached, depth, currentBlock, newHead, oldChain, newChain, k, was, lost,
                   ob, nb, known + {ob.parent});
      } else {
        InStepFails(headers, bodies, genesis, canonical, before, old(cached), depth, currentBlock, newHead, oldChain, newChain, k, was, lost,
                    ob, nb, known + {ob.parent});
      }
    }

    /** Looks up the parents of two blocks; `known` are the blocks that are cached but for losses. */
    method LookUpBoth(ob: Header, nb: Header, ghost known: set<Hash>, ghost was: bool) returns (below: Option<Header>, under: Option<Header>, ghost lost: bool)
      requires cached <= headers.Keys && depth(nb.parent) < depth(nb.hash) && Kept(known, cached, depth, nb.hash, was)
      modifies `cached
      ensures cached <= headers.Keys && (was ==> lost)
      ensures below == if ob.parent in old(cached) || OnFile(headers, ob.parent, ob.number - 1) then Some(headers[ob.parent]) else None
      ensures below.None? ==> under.None?
      ensures under.Some? ==> nb.parent in headers && under.value == headers[nb.parent]
      ensures under.Some? ==> Found(headers, known + {ob.parent}, nb) && Kept(known + {ob.parent}, cached, depth, nb.parent, lost)
      ensures below.Some? && under.None? ==> !OnFile(headers, nb.parent, nb.number - 1) && (lost || !Found(headers, known + {ob.parent}, nb))
    {
      below, lost := GetBlock(ob.parent, ob.number - 1);
      lost := lost || was;
      if below.None? {
        return None, None, lost;
      }
      ghost var gone;
      under, gone := GetBlock(nb.parent, nb.number - 1);
      lost := lost || (under.Some? && gone);
    }

    /** The transactions of a list of blocks. */
    method Collect(chain: seq<Header>) returns (txs: set<Hash>)
      requires Bodied(bodies, chain)
      ensures txs == TxsOf(bodies, chain, 0)
    {
      txs := {};
      for i := 0 to |chain|
        invariant forall t :: t in txs <==> exists j :: 0 <= j < i && t in bodies[chain[j].hash]
      {
        txs := txs + set t | t in bodies[chain[i].hash];
      }
    }

    /** Inserts and indexes one block of a branch. */
    method InsertBlock(h: Header) returns (txs: set<Hash>)
      requires h.hash in bodies && h.hash != ZERO_HASH
      modifies this`canonical, this`lookup, this`currentBlock, this`currentHeader, this`currentFastBlock
      ensures canonical == old(canonical)[h.number := h.hash] && lookup == IndexBlock(old(lookup), bodies[h.hash], h.number)
      ensures currentBlock == h && txs == set t | t in bodies[h.hash]
      ensures (old(h.number in canonical) ==> old(canonical)[h.number] != h.hash) ==> currentHeader == h && currentFastBlock == h
    {
      Insert(h);
      WriteTxLookupEntries(bodies[h.hash], h.number);
      txs := set t | t in bodies[h.hash];
    }

    /** Inserts the new branch without its head, from the common block upwards, and indexes it. */
    method InsertBranch(newChain: seq<Header>) returns (added: set<Hash>)
      requires currentHeader == currentBlock && currentFastBlock == currentBlock
      requires Bodied(bodies, newChain) && ZERO_HASH !in bodies
      modifies this`canonical, this`lookup, this`currentBlock, this`currentHeader, this`currentFastBlock
      ensures canonical == InsertChain(old(canonical), newChain, 1) && lookup == IndexChain(old(lookup), bodies, newChain, 1)
      ensures added == TxsOf(bodies, newChain, 1)
      ensures currentBlock == if |newChain| > 1 then newChain[1] else old(currentBlock)
      ensures AllNew(old(canonical), newChain) ==> currentHeader == currentFastBlock == currentBlock
    {
      added := {};
      var i := |newChain| - 1;
      ghost var novel := AllNew(canonical, newChain);
      while i >= 1
        invariant -1 <= i < |newChain| && (i == -1 ==> newChain == [])
        invariant canonical == InsertChain(old(canonical), newChain, i + 1) && lookup == IndexChain(old(lookup), bodies, newChain, i + 1)
        invariant added == TxsOf(bodies, newChain, i + 1)
        invariant novel ==> currentHeader == currentBlock && currentFastBlock == currentBlock
        invariant currentBlock == if i + 1 < |newChain| then newChain[i + 1] else old(currentBlock)
      {
        assert novel ==> NewNumber(old(canonical), newChain, i);
        TxsFrom(bodies, newChain, i);
        var txs := InsertBlock(newChain[i]);
        added := added + txs;
        i := i - 1;
      }
    }

    /**
     * Moves the canonical chain onto the branch of `newHead`, which itself is not inserted yet. A
     * failing reorganisation changes nothing but the cache.
     */
    method Reorg(newHead: Header) returns (ok: bool, oldChain: seq<Header>, newChain: seq<Header>, ghost lost: bool)
      requires Chained() && newHead.hash in headers && headers[newHead.hash] == newHead
      modifies this`canonical, this`lookup, this`currentBlock, this`currentHeader, this`currentFastBlock, this`cached
      ensures cached <= headers.Keys
      ensures !ok ==> unchanged(this`canonical, this`lookup, this`currentBlock, this`currentHeader, this`currentFastBlock)
      ensures !ok ==> lost || !Reachable(headers, canonical, old(cached), currentBlock, newHead)
      ensures ok ==> Reachable(headers, old(canonical), old(cached), old(currentBlock), newHead)
      ensures ok ==> Joins(headers, old(canonical), old(currentBlock), newHead, oldChain, newChain)
      ensures ok ==> Bodied(bodies, newChain) && Bodied(bodies, oldChain)
      ensures ok ==> Switched(bodies, old(canonical), old(lookup), old(currentBlock), oldChain, newChain, canonical, lookup, currentBlock)
      ensures HasPath(headers, newHead.hash) ==> ok && Fork(headers, old(canonical), old(currentBlock), newHead, oldChain, newChain)
      ensures HasPath(headers, newHead.hash) ==>
        canonical == Moved(old(canonical), old(currentBlock), newChain) && currentHeader == currentFastBlock == currentBlock
    {
      ok, oldChain, newChain, lost := FindFork(newHead);
      if ok {
        BranchStored(headers, bodies, currentBlock, newHead, oldChain, newChain);
        SwitchTo(newHead, oldChain, newChain);
      }
    }

    /** Rewrites the canonical chain and the lookup entries from one branch to the other. */
    method SwitchTo(newHead: Header, oldChain: seq<Header>, newChain: seq<Header>)
      requires OnPath() && Bodied(bodies, oldChain) && Bodied(bodies, newChain)
      modifies this`canonical, this`lookup, this`currentBlock, this`currentHeader, this`currentFastBlock
      ensures Switched(bodies, old(canonical), old(lookup), old(currentBlock), oldChain, newChain, canonical, lookup, currentBlock)
      ensures Fork(headers, old(canonical), old(currentBlock), newHead, oldChain, newChain) ==>
        canonical == Moved(old(canonical), old(currentBlock), newChain) && currentHeader == currentFastBlock == currentBlock
    {
      if Fork(headers, canonical, currentBlock, newHead, oldChain, newChain) {
        ForkMoves(headers, canonical, currentBlock, newHead, oldChain, newChain);
      }
      Rewrite(oldChain, newChain);
    }

    method Rewrite(oldChain: seq<Header>, newChain: seq<Header>)
      requires currentHeader == currentBlock && currentFastBlock == currentBlock && ZERO_HASH !in bodies
      requires Bodied(bodies, oldChain) && Bodied(bodies, newChain)
      modifies this`canonical, this`lookup, this`currentBlock, this`currentHeader, this`currentFastBlock
      ensures Switched(bodies, old(canonical), old(lookup), old(currentBlock), oldChain, newChain, canonical, lookup, currentBlock)
      ensures AllNew(old(canonical), newChain) ==> currentHeader == currentFastBlock == currentBlock
    {
      var deleted := Collect(oldChain);
      var added := InsertBranch(newChain);
      lookup := lookup - (deleted - added);
      canonical := DeleteFrom(canonical, currentBlock.number + 1);
    }

    /**
     * Writes a block with its state. A block that is not above the head is ignored. If an ancestor path
     * leads to the block it becomes the head, the numbering is that path, and the index is exact again
     * unless the path repeats a transaction. Without a path it becomes the head nevertheless if it names
     * the head as its parent or reaches the numbering through the cache, and the numbering is no path
     * then; otherwise it is stored and refused. `lost` says that the cache lost blocks meanwhile.
     */
    method WriteBlockWithState(h: Header, txs: seq<Hash>) returns (status: WriteStatus, ghost lost: bool)
      requires Chained() && h.hash != ZERO_HASH && (h.hash in headers ==> headers[h.hash] == h && bodies[h.hash] == txs)
      requires depth(h.parent) < depth(h.hash) && h.hash != headers[genesis].parent
      modifies this
      ensures OnDisk() && cached <= headers.Keys && (status.Ignored? <==> h.number <= old(currentBlock).number)
      ensures status.Ignored? ==> unchanged(this)
      ensures !status.Ignored? ==> headers == old(headers)[h.hash := h] && bodies == old(bodies)[h.hash := txs]
      ensures status.Canonical? ==> currentBlock == h && (Chained() <==> HasPath(headers, h.hash))
      ensures !status.Canonical? ==> Chained() && canonical == old(canonical) && lookup == old(lookup) && currentBlock == old(currentBlock)
      ensures status.Refused? ==> h.parent != old(currentBlock).hash && !HasPath(headers, h.hash)
      ensures status.Refused? ==> lost || !Reachable(headers, old(canonical), old(cached), old(currentBlock), h)
      ensures status.Canonical? ==> h.parent == old(currentBlock).hash || Reachable(headers, old(canonical), old(cached), old(currentBlock), h)
      ensures old(Indexed(bodies, canonical, lookup)) && Chained() ==>
        (Indexed(bodies, canonical, lookup) <==> NoRepeats(bodies, canonical))
    {
      lost := false;
      if h.number <= currentBlock.number {
        return Ignored, lost;
      }
      Store(h, txs);
      var ok;
      ok, lost := Attach(h);
      if !ok {
        return Refused, lost;
      }
      ghost var gone := CacheAdd(h.hash);
      return Canonical, lost;
    }

    /** A block above the head becomes the head: at once if it is its child, and else by a reorganisation. */
    method Attach(h: Header) returns (ok: bool, ghost lost: bool)
      requires Chained() && h.hash in headers && headers[h.hash] == h && h.number > currentBlock.number
      modifies this`canonical, this`lookup, this`currentBlock, this`currentHeader, this`currentFastBlock, this`cached
      ensures cached <= headers.Keys && (ok ==> currentBlock == h && (OnPath() <==> HasPath(headers, h.hash)))
      ensures !ok ==> h.parent != currentBlock.hash && unchanged(this`canonical, this`lookup, this`currentBlock, this`currentHeader, this`currentFastBlock)
      ensures !ok ==> !HasPath(headers, h.hash) && (lost || !Reachable(headers, canonical, old(cached), currentBlock, h))
      ensures ok ==> h.parent == old(currentBlock).hash || Reachable(headers, old(canonical), old(cached), old(currentBlock), h)
      ensures ok && OnPath() && old(Indexed(bodies, canonical, lookup)) ==>
        (Indexed(bodies, canonical, lookup) <==> NoRepeats(bodies, canonical))
    {
      if h.parent != currentBlock.hash {
        ok, lost := ReorgOnto(h);
      } else {
        ExtendBy(h);
        ok, lost := true, false;
      }
    }

    /** Files a block. */
    method Store(h: Header, txs: seq<Hash>)
      requires Chained() && h.hash != ZERO_HASH && (h.hash in headers ==> headers[h.hash] == h && bodies[h.hash] == txs)
      requires depth(h.parent) < depth(h.hash) && h.hash != headers[genesis].parent && h.number > 0
      modifies `headers, `bodies
      ensures Chained() && headers == old(headers)[h.hash := h] && bodies == old(bodies)[h.hash := txs]
      ensures old(Indexed(bodies, canonical, lookup)) ==> Indexed(bodies, canonical, lookup)
    {
      StoreKept(headers, bodies, genesis, canonical, currentBlock.hash, lookup, h, txs);
      headers, bodies := headers[h.hash := h], bodies[h.hash := txs];
    }

    /** A child of the head becomes the head. */
    method ExtendBy(h: Header)
      requires Chained() && h.hash in headers && headers[h.hash] == h
      requires h.parent == currentBlock.hash && h.number > currentBlock.number
      modifies this`canonical, this`lookup, this`currentBlock, this`currentHeader, this`currentFastBlock
      ensures currentBlock == h && (Chained() <==> HasPath(headers, h.hash))
      ensures old(Indexed(bodies, canonical, lookup)) && Chained() ==>
        (Indexed(bodies, canonical, lookup) <==> NoRepeats(bodies, canonical))
    {
      assert h.hash in bodies.Keys;
      ChildPathIff(headers, canonical, currentBlock.hash, h);
      ChildHasPath(headers, canonical, currentBlock.hash, h);
      if h.number == currentBlock.number + 1 && Indexed(bodies, canonical, lookup) {
        ChildExtendsIff(headers, bodies, canonical, lookup, currentBlock.hash, h);
      }
      Settle(h);
    }

    /** Indexes a block and makes it the head. */
    method Settle(h: Header)
      requires h.hash in bodies
      modifies this`canonical, this`lookup, this`currentBlock, this`currentHeader, this`currentFastBlock
      ensures canonical == old(canonical)[h.number := h.hash] && currentBlock == h && lookup == IndexBlock(old(lookup), bodies[h.hash], h.number)
      ensures h.hash != ZERO_HASH && h.number !in old(canonical) ==> currentHeader == h && currentFastBlock == h
    {
      WriteTxLookupEntries(bodies[h.hash], h.number);
      Insert(h);
    }

    /** A block of another branch becomes the head, if its ancestors are found. */
    method ReorgOnto(h: Header) returns (ok: bool, ghost lost: bool)
      requires Chained() && h.hash in headers && headers[h.hash] == h && h.number > currentBlock.number
      modifies this`canonical, this`lookup, this`currentBlock, this`currentHeader, this`currentFastBlock, this`cached
      ensures cached <= headers.Keys && (ok ==> currentBlock == h && (Chained() <==> HasPath(headers, h.hash)))
      ensures !ok ==> Chained() && unchanged(this`canonical, this`lookup, this`currentBlock, this`currentHeader, this`currentFastBlock)
      ensures !ok ==> !HasPath(headers, h.hash) && (lost || !Reachable(headers, canonical, old(cached), currentBlock, h))
      ensures ok ==> Reachable(headers, old(canonical), old(cached), old(currentBlock), h)
      ensures ok && HasPath(headers, h.hash) && old(Indexed(bodies, canonical, lookup)) ==>
        (Indexed(bodies, canonical, lookup) <==> NoRepeats(bodies, canonical))
    {
      ghost var c, l, head := canonical, lookup, currentBlock;
      var oldChain, newChain;
      ok, oldChain, newChain, lost := Reorg(h);
      if ok {
        if HasPath(headers, h.hash) {
          ForkSettles(headers, bodies, c, l, head, h, oldChain, newChain);
        }
        assert h.hash in bodies.Keys;
        Settle(h);
      }
    }
  }

  datatype WriteStatus = Ignored | Refused | Canonical

  /** The new head's parent, if it is inserted, and otherwise the old head. */
  function BelowHead(newChain: seq<Header>, oldHead: Header): Header {
    if |newChain| > 1 then newChain[1] else oldHead
  }

  /** What a reorganisation makes of the numbering, of the index and of the head. */
  ghost predicate Switched(bodies: Bodies, canonical: map<nat, Hash>, lookup: map<Hash, nat>, oldHead: Header,
                           oldChain: seq<Header>, newChain: seq<Header>, c: map<nat, Hash>, l: map<Hash, nat>, head: Header)
    requires Bodied(bodies, oldChain) && Bodied(bodies, newChain)
  {
    && head == BelowHead(newChain, oldHead)
    && c == Pruned(InsertChain(canonical, newChain, 1), head.number + 1)
    && l == IndexChain(lookup, bodies, newChain, 1) - (TxsOf(bodies, oldChain, 0) - TxsOf(bodies, newChain, 1))
  }

  /** The numbering after a reorganisation, which leaves out the new head. */
  function Moved(canonical: map<nat, Hash>, oldHead: Header, newChain: seq<Header>): map<nat, Hash> {
    Cut(InsertChain(canonical, newChain, 1), BelowHead(newChain, oldHead).number)
  }

  /** The walks down from the two heads have come to the same number. */
  ghost predicate Levelled(headers: Store, canonical: map<nat, Hash>, oldHead: Header, newHead: Header,
                           oldChain: seq<Header>, newChain: seq<Header>) {
    && Descends(headers, oldChain, oldHead) && Descends(headers, newChain, newHead)
    && |oldChain| <= oldHead.number && |newChain| == newHead.number - oldHead.number + |oldChain|
    && OnFile(headers, NextDown(oldChain, oldHead), oldHead.number - |oldChain|)
    && OnFile(headers, NextDown(newChain, newHead), newHead.number - |newChain|)
    && oldHead.number - |oldChain| in canonical && canonical[oldHead.number - |oldChain|] == NextDown(oldChain, oldHead)
    && (forall i :: 0 <= i < |newChain| && newChain[i].number in canonical ==> newChain[i].hash != canonical[newChain[i].number])
  }

  /** The walk from the old head goes along the canonical numbering. */
  ghost predicate OnOldPath(headers: Store, canonical: map<nat, Hash>, oldHead: Header, oldChain: seq<Header>) {
    && Descends(headers, oldChain, oldHead) && |oldChain| <= oldHead.number
    && OnFile(headers, NextDown(oldChain, oldHead), oldHead.number - |oldChain|)
    && oldHead.number - |oldChain| in canonical && canonical[oldHead.number - |oldChain|] == NextDown(oldChain, oldHead)
  }

  /** The two walks have come to the same block. */
  ghost predicate Joins(headers: Store, canonical: map<nat, Hash>, oldHead: Header, newHead: Header, oldChain: seq<Header>, newChain: seq<Header>) {
    && OnOldPath(headers, canonical, oldHead, oldChain) && Traces(headers, newChain, newHead)
    && NextDown(newChain, newHead) == canonical[oldHead.number - |oldChain|]
  }

  // ----- What the walks find -----

  /** A look-up finds the parent of a block. */
  ghost predicate Found(headers: Store, known: set<Hash>, block: Header) {
    block.parent in known || OnFile(headers, block.parent, block.number - 1)
  }

  /** The hashes of a numbering from `lo` up to, but without, `hi`. */
  ghost function Passed(canonical: map<nat, Hash>, lo: int, hi: nat): set<Hash> {
    set m: nat | m in canonical && lo <= m < hi :: canonical[m]
  }

  lemma PassedNext(canonical: map<nat, Hash>, lo: nat, hi: nat)
    requires 0 < lo <= hi && lo - 1 in canonical
    ensures Passed(canonical, lo - 1, hi) == Passed(canonical, lo, hi) + {canonical[lo - 1]}
  {
  }

  /** The walk from the head goes along the numbering, and the blocks it has passed are cached, but for losses. */
  ghost predicate WalkedDown(headers: Store, canonical: map<nat, Hash>, before: set<Hash>, cached: set<Hash>, head: Header, chain: seq<Header>, lost: bool) {
    && OnOldPath(headers, canonical, head, chain)
    && cached <= before + Passed(canonical, head.number - |chain|, head.number)
    && (!lost ==> before + Passed(canonical, head.number - |chain|, head.number) <= cached)
  }

  lemma DownNext(headers: Store, bodies: Bodies, genesis: Hash, canonical: map<nat, Hash>, before: set<Hash>, was: set<Hash>, cached: set<Hash>,
                 head: Header, chain: seq<Header>, block: Header, lost: bool, gone: bool)
    requires Filed(headers, bodies, genesis) && IsPath(headers, canonical, head.hash) && headers[head.hash] == head
    requires WalkedDown(headers, canonical, before, was, head, chain, lost) && |chain| < head.number && block == headers[NextDown(chain, head)]
    requires cached <= was + {block.parent} && block.parent in cached && (!gone ==> was <= cached)
    ensures WalkedDown(headers, canonical, before, cached, head, chain + [block], lost || gone)
  {
    OldStep(headers, bodies, genesis, canonical, head, chain);
    PassedNext(canonical, block.number, head.number);
  }

  /** The number at which the walks fall into step. */
  function Level(head: Header, from: Header): nat {
    if from.number < head.number then from.number else head.number
  }

  /**
   * What is cached when the walk from `from`, which falls into step at its `k`-th block, looks up the
   * parent of its `i`-th: the blocks cached before, and those that the walk from the head has passed.
   */
  ghost function Known(canonical: map<nat, Hash>, cached: set<Hash>, head: Header, from: Header, k: nat, i: nat): set<Hash> {
    if i < k then cached else cached + Passed(canonical, Level(head, from) - (i - k) - 1, head.number)
  }

  /** In step, the walk from the head is at another block. */
  ghost predicate Misses(canonical: map<nat, Hash>, to: nat, chain: seq<Header>, k: nat, i: nat)
    requires k <= i < |chain|
  {
    i - k <= to && (to - (i - k) in canonical ==> canonical[to - (i - k)] != chain[i].hash)
  }

  /** A walk that falls into step at its `k`-th block and meets the walk from the head nowhere. */
  ghost predicate Walks(headers: Store, canonical: map<nat, Hash>, head: Header, from: Header, chain: seq<Header>, k: nat) {
    && Traces(headers, chain, from) && k <= |chain|
    && (forall i :: 0 <= i < k ==> chain[i].number != Level(head, from))
    && (k < |chain| ==> chain[k].number == Level(head, from))
    && (forall i :: k <= i < |chain| ==> Misses(canonical, Level(head, from), chain, k, i))
  }

  ghost predicate FoundAt(headers: Store, canonical: map<nat, Hash>, cached: set<Hash>, head: Header, from: Header,
                          chain: seq<Header>, k: nat, i: nat)
    requires i < |chain|
  {
    Found(headers, Known(canonical, cached, head, from, k, i), chain[i])
  }

  /** The walk finds every block on its way, and the last parent is the block at which the other walk is. */
  ghost predicate Reaches(headers: Store, canonical: map<nat, Hash>, cached: set<Hash>, head: Header, from: Header, chain: seq<Header>, k: nat) {
    && Walks(headers, canonical, head, from, chain, k)
    && (forall i :: 0 <= i < |chain| ==> FoundAt(headers, canonical, cached, head, from, chain, k, i))
    && |chain| - k <= Level(head, from) && Level(head, from) - (|chain| - k) in canonical
    && canonical[Level(head, from) - (|chain| - k)] == NextDown(chain, from)
  }

  /** The walk does not find the next block, or the other walk has come to genesis. */
  ghost predicate Stuck(headers: Store, canonical: map<nat, Hash>, cached: set<Hash>, head: Header, from: Header, chain: seq<Header>, k: nat) {
    && Walks(headers, canonical, head, from, chain, k) && chain != []
    && (|chain| - 1 - k == Level(head, from) || !FoundAt(headers, canonical, cached, head, from, chain, k, |chain| - 1))
  }

  /** The walks down from the head and from `from` meet. */
  ghost predicate Reachable(headers: Store, canonical: map<nat, Hash>, cached: set<Hash>, head: Header, from: Header) {
    exists chain, k: nat :: Reaches(headers, canonical, cached, head, from, chain, k)
  }

  /** Two traces of the same block agree as far as both go. */
  lemma {:induction false} SameTrace(headers: Store, from: Header, a: seq<Header>, b: seq<Header>, i: nat)
    requires Traces(headers, a, from) && Traces(headers, b, from) && i < |b|
    ensures i < |a| ==> a[i] == b[i]
    ensures i == |a| && from.hash in headers ==> NextDown(a, from) == b[i].hash
  {
    if 0 < i <= |a| {
      SameTrace(headers, from, a, b, i - 1);
      assert LinkAt(b, i);
      assert i < |a| ==> LinkAt(a, i);
    }
  }

  /** A walk that is stuck reaches nothing. */
  lemma StuckFails(headers: Store, canonical: map<nat, Hash>, cached: set<Hash>, head: Header, from: Header, chain: seq<Header>, k: nat)
    requires Stuck(headers, canonical, cached, head, from, chain, k)
    requires IsPath(headers, canonical, head.hash) && from.hash in headers && headers[from.hash] == from
    ensures !Reachable(headers, canonical, cached, head, from)
  {
    forall other, l: nat ensures !Reaches(headers, canonical, cached, head, from, other, l) {
      if Traces(headers, other, from) {
        forall i: nat | i < |chain|
          ensures i < |other| ==> other[i] == chain[i]
          ensures i == |other| ==> NextDown(other, from) == chain[i].hash
        {
          SameTrace(headers, from, other, chain, i);
        }
        StuckBefore(headers, canonical, cached, head, from, chain, k, other, l);
      }
    }
  }

  lemma StuckBefore(headers: Store, canonical: map<nat, Hash>, cached: set<Hash>, head: Header, from: Header, chain: seq<Header>, k: nat,
                    other: seq<Header>, l: nat)
    requires Stuck(headers, canonical, cached, head, from, chain, k)
    requires IsPath(headers, canonical, head.hash) && from.hash in headers && headers[from.hash] == from
    requires forall i :: 0 <= i < |chain| && i < |other| ==> other[i] == chain[i]
    requires |other| < |chain| ==> NextDown(other, from) == chain[|other|].hash
    ensures !Reaches(headers, canonical, cached, head, from, other, l)
  {
    if k <= |other| < |chain| {
      assert Misses(canonical, Level(head, from), chain, k, |other|);
    } else if |chain| <= |other| && (k == |chain| <= l || k == l) {
      assert FoundAt(headers, canonical, cached, head, from, other, l, |chain| - 1)
          <==> FoundAt(headers, canonical, cached, head, from, chain, k, |chain| - 1);
    }
  }

  /** Every block on file whose parent is among `known` has the number after it. */
  ghost predicate Numbered(headers: Store, known: set<Hash>) {
    forall h :: h in headers && headers[h].parent in known ==> OnFile(headers, headers[h].parent, headers[h].number - 1)
  }

  /** Where the children of cached and of canonical blocks have the right numbers, what is accepted has a path. */
  lemma NumberedReach(headers: Store, canonical: map<nat, Hash>, cached: set<Hash>, head: Header, from: Header)
    requires Numbered(headers, cached + canonical.Values) && IsPath(headers, canonical, head.hash)
    requires headers[head.hash] == head && from.number > head.number
    requires from.parent == head.hash || Reachable(headers, canonical, cached, head, from)
    requires from.hash in headers && headers[from.hash] == from
    ensures HasPath(headers, from.hash)
  {
    if from.parent == head.hash {
      assert canonical[head.number] in canonical.Values;
      ChildHasPath(headers, canonical, head.hash, from);
      return;
    }
    var chain: seq<Header>, k: nat :| Reaches(headers, canonical, cached, head, from, chain, k);
    var base := Level(head, from) - (|chain| - k);
    CutPath(headers, canonical, head.hash, base);
    forall i | 0 <= i < |chain| ensures OnFile(headers, chain[i].parent, chain[i].number - 1) {
      assert FoundAt(headers, canonical, cached, head, from, chain, k, i);
      assert headers[chain[i].hash] == chain[i];
    }
    TracedPath(headers, Cut(canonical, base), canonical[base], from, chain);
  }

  /** The cache holds `known`, but for losses, and otherwise only blocks that are not below `at`. */
  ghost predicate Kept(known: set<Hash>, cached: set<Hash>, depth: Hash -> nat, at: Hash, lost: bool) {
    (forall x {:trigger x in cached} :: x in cached ==> x in known || depth(x) >= depth(at)) && (!lost ==> known <= cached)
  }

  /** The walk from `from` has found its way so far, and has not come to the number `to`. */
  ghost predicate FoundDown(headers: Store, before: set<Hash>, depth: Hash -> nat, cached: set<Hash>, to: nat, from: Header, chain: seq<Header>, lost: bool) {
    && Traces(headers, chain, from) && Kept(before, cached, depth, NextDown(chain, from), lost)
    && (forall i :: 0 <= i < |chain| ==> chain[i].number != to && Found(headers, before, chain[i]))
  }

  /** The walk does not find the parent of its last block. */
  ghost predicate GaveUp(headers: Store, before: set<Hash>, to: nat, from: Header, chain: seq<Header>, lost: bool) {
    && Traces(headers, chain, from) && (forall i :: 0 <= i < |chain| ==> chain[i].number != to)
    && chain != [] && !Found(headers, if lost then {} else before, chain[|chain| - 1])
  }

  lemma DownFound(headers: Store, before: set<Hash>, depth: Hash -> nat, was: set<Hash>, cached: set<Hash>, to: nat,
                  from: Header, chain: seq<Header>, block: Header, lost: bool, gone: bool)
    requires FoundDown(headers, before, depth, was, to, from, chain, lost) && Acyclic(headers, depth) && block.number != to
    requires block.hash == NextDown(chain, from) && block.hash in headers && headers[block.hash] == block
    requires from.hash in headers && headers[from.hash] == from && Found(headers, was, block)
    requires cached <= was + {block.parent} && (!gone ==> was <= cached)
    ensures FoundDown(headers, before, depth, cached, to, from, chain + [block], lost || gone)
  {
    TracesNext(headers, chain, from, block);
  }

  lemma DownMissed(headers: Store, before: set<Hash>, depth: Hash -> nat, was: set<Hash>, to: nat,
                   from: Header, chain: seq<Header>, block: Header, lost: bool)
    requires FoundDown(headers, before, depth, was, to, from, chain, lost) && block.number != to
    requires block.hash == NextDown(chain, from) && block.hash in headers && headers[block.hash] == block
    requires from.hash in headers && headers[from.hash] == from && !Found(headers, was, block)
    ensures GaveUp(headers, before, to, from, chain + [block], lost)
  {
    TracesNext(headers, chain, from, block);
  }

  /** Both walks are in step, have found their way and have not met. */
  ghost predicate Lockstep(headers: Store, canonical: map<nat, Hash>, cached: set<Hash>, head: Header, from: Header,
                           oldChain: seq<Header>, newChain: seq<Header>, k: nat) {
    && OnOldPath(headers, canonical, head, oldChain) && Walks(headers, canonical, head, from, newChain, k)
    && (forall i :: 0 <= i < |newChain| ==> FoundAt(headers, canonical, cached, head, from, newChain, k, i))
    && |newChain| - k == Level(head, from) - (head.number - |oldChain|) && NextDown(newChain, from) in headers
    && (k == |newChain| ==> headers[NextDown(newChain, from)].number == Level(head, from))
  }

  lemma LockNext(headers: Store, bodies: Bodies, genesis: Hash, canonical: map<nat, Hash>, cached: set<Hash>, head: Header, from: Header,
                 oldChain: seq<Header>, newChain: seq<Header>, k: nat)
    requires Filed(headers, bodies, genesis) && IsPath(headers, canonical, head.hash) && headers[head.hash] == head
    requires Lockstep(headers, canonical, cached, head, from, oldChain, newChain, k) && from.hash in headers && headers[from.hash] == from
    requires NextDown(oldChain, head) != NextDown(newChain, from)
    ensures var ob, nb := headers[NextDown(oldChain, head)], headers[NextDown(newChain, from)];
            var known := cached + Passed(canonical, ob.number, head.number) + {ob.parent};
            && (ob.number == 0 ==> ob.parent !in headers)
            && (ob.number == 0 || !Found(headers, known, nb) ==> Stuck(headers, canonical, cached, head, from, newChain + [nb], k))
            && (ob.number > 0 ==> OnFile(headers, ob.parent, ob.number - 1) && known == cached + Passed(canonical, ob.number - 1, head.number))
            && (ob.number > 0 && Found(headers, known, nb) && nb.parent in headers ==>
              Lockstep(headers, canonical, cached, head, from, oldChain + [ob], newChain + [nb], k))
  {
    var ob, nb := headers[NextDown(oldChain, head)], headers[NextDown(newChain, from)];
    OldStep(headers, bodies, genesis, canonical, head, oldChain);
    if ob.number > 0 {
      PassedNext(canonical, ob.number, head.number);
    }
    var more := newChain + [nb];
    TracesNext(headers, newChain, from, nb);
    forall i | k <= i < |more| ensures Misses(canonical, Level(head, from), more, k, i) {
      assert i < |newChain| ==> Misses(canonical, Level(head, from), newChain, k, i);
    }
    forall i | 0 <= i < |newChain| ensures FoundAt(headers, canonical, cached, head, from, more, k, i) {
      assert FoundAt(headers, canonical, cached, head, from, newChain, k, i);
    }
  }

  /** The state of the two walks: `before` was cached at the start, and `cached` is now. */
  ghost predicate InStep(headers: Store, canonical: map<nat, Hash>, before: set<Hash>, cached: set<Hash>, depth: Hash -> nat,
                         head: Header, from: Header, oldChain: seq<Header>, newChain: seq<Header>, k: nat, lost: bool) {
    && Lockstep(headers, canonical, before, head, from, oldChain, newChain, k)
    && Kept(before + Passed(canonical, head.number - |oldChain|, head.number), cached, depth, NextDown(newChain, from), lost)
  }

  /** Along a path a trace goes down one number at a time. */
  lemma {:induction false} TraceDescends(headers: Store, bodies: Bodies, genesis: Hash, from: Header, chain: seq<Header>)
    requires Filed(headers, bodies, genesis) && HasPath(headers, from.hash) && headers[from.hash] == from && Traces(headers, chain, from)
    ensures Descends(headers, chain, from)
  {
    if |chain| > 1 {
      var rest, last := chain[..|chain| - 1], chain[|chain| - 1];
      assert LinkAt(chain, |chain| - 1);
      assert Traces(headers, rest, from) by {
        forall i | 0 < i < |rest| ensures LinkAt(rest, i) {
          assert LinkAt(chain, i);
        }
      }
      TraceDescends(headers, bodies, genesis, from, rest);
      if |rest| <= from.number {
        NextOnFile(headers, from, rest);
      }
    }
  }

  /** Along a path the walks in step are at the same number. */
  lemma PathLevels(headers: Store, bodies: Bodies, genesis: Hash, canonical: map<nat, Hash>, cached: set<Hash>, head: Header, from: Header,
                   oldChain: seq<Header>, newChain: seq<Header>, k: nat)
    requires Filed(headers, bodies, genesis) && IsPath(headers, canonical, head.hash) && headers[head.hash] == head
    requires Lockstep(headers, canonical, cached, head, from, oldChain, newChain, k)
    requires HasPath(headers, from.hash) && headers[from.hash] == from
    ensures Levelled(headers, canonical, head, from, oldChain, newChain)
  {
    TraceDescends(headers, bodies, genesis, from, newChain);
    if |newChain| <= from.number {
      NextOnFile(headers, from, newChain);
    }
    forall i | 0 <= i < |newChain| && newChain[i].number in canonical ensures newChain[i].hash != canonical[newChain[i].number] {
      assert i >= k ==> Misses(canonical, Level(head, from), newChain, k, i);
    }
  }

  lemma OldLevel(headers: Store, canonical: map<nat, Hash>, before: set<Hash>, cached: set<Hash>, depth: Hash -> nat,
                 head: Header, from: Header, oldChain: seq<Header>, lost: bool)
    requires WalkedDown(headers, canonical, before, cached, head, oldChain, lost) && |oldChain| == head.number - from.number
    requires from.hash in headers && headers[from.hash] == from
    ensures InStep(headers, canonical, before, cached, depth, head, from, oldChain, [], 0, lost)
  {
  }

  lemma NewLevel(headers: Store, canonical: map<nat, Hash>, before: set<Hash>, cached: set<Hash>, depth: Hash -> nat,
                 head: Header, from: Header, newChain: seq<Header>, lost: bool)
    requires IsPath(headers, canonical, head.hash) && headers[head.hash] == head && from.number >= head.number
    requires FoundDown(headers, before, depth, cached, head.number, from, newChain, lost)
    requires OnFile(headers, NextDown(newChain, from), head.number)
    ensures InStep(headers, canonical, before, cached, depth, head, from, [], newChain, |newChain|, lost)
  {
    assert Passed(canonical, head.number, head.number) == {};
    assert before + {} == before;
    forall i | 0 <= i < |newChain| ensures FoundAt(headers, canonical, before, head, from, newChain, |newChain|, i) {
    }
  }

  lemma {:induction false} StaysAbove(headers: Store, from: Header, chain: seq<Header>, to: nat)
    requires Descends(headers, chain, from) && from.number >= to && forall i :: 0 <= i < |chain| ==> chain[i].number != to
    ensures |chain| > 0 ==> chain[|chain| - 1].number > to
  {
    if |chain| > 1 {
      var rest := chain[..|chain| - 1];
      assert Descends(headers, rest, from) by {
        forall i | 0 < i < |rest| ensures LinkAt(rest, i) {
          assert LinkAt(chain, i);
        }
      }
      StaysAbove(headers, from, rest, to);
    }
  }

  lemma NoLevel(headers: Store, bodies: Bodies, genesis: Hash, canonical: map<nat, Hash>, before: set<Hash>,
                head: Header, from: Header, newChain: seq<Header>, lost: bool)
    requires Filed(headers, bodies, genesis) && IsPath(headers, canonical, head.hash) && headers[head.hash] == head
    requires from.hash in headers && headers[from.hash] == from && from.number >= head.number
    requires GaveUp(headers, before, head.number, from, newChain, lost)
    ensures !HasPath(headers, from.hash) && (lost || !Reachable(headers, canonical, before, head, from))
  {
    if HasPath(headers, from.hash) {
      TraceDescends(headers, bodies, genesis, from, newChain);
      StaysAbove(headers, from, newChain, head.number);
      NextOnFile(headers, from, newChain);
    } else if !lost {
      StuckFails(headers, canonical, before, head, from, newChain, |newChain|);
    }
  }

  lemma InStepNext(headers: Store, bodies: Bodies, genesis: Hash, canonical: map<nat, Hash>, before: set<Hash>, was: set<Hash>, cached: set<Hash>,
                   depth: Hash -> nat, head: Header, from: Header, oldChain: seq<Header>, newChain: seq<Header>, k: nat, lost: bool, more: bool,
                   ob: Header, nb: Header, known: set<Hash>)
    requires Filed(headers, bodies, genesis) && IsPath(headers, canonical, head.hash) && headers[head.hash] == head
    requires InStep(headers, canonical, before, was, depth, head, from, oldChain, newChain, k, lost)
    requires from.hash in headers && headers[from.hash] == from && NextDown(oldChain, head) != NextDown(newChain, from)
    requires ob == headers[NextDown(oldChain, head)] && nb == headers[NextDown(newChain, from)]
    requires known == before + Passed(canonical, ob.number, head.number) + {ob.parent}
    requires ob.parent in headers && nb.parent in headers && Found(headers, known, nb) && Kept(known, cached, depth, nb.parent, more)
    ensures InStep(headers, canonical, before, cached, depth, head, from, oldChain + [ob], newChain + [nb], k, more)
  {
    LockNext(headers, bodies, genesis, canonical, before, head, from, oldChain, newChain, k);
  }

  lemma InStepFails(headers: Store, bodies: Bodies, genesis: Hash, canonical: map<nat, Hash>, before: set<Hash>, was: set<Hash>,
                    depth: Hash -> nat, head: Header, from: Header, oldChain: seq<Header>, newChain: seq<Header>, k: nat, lost: bool, more: bool,
                    ob: Header, nb: Header, known: set<Hash>)
    requires Filed(headers, bodies, genesis) && IsPath(headers, canonical, head.hash) && headers[head.hash] == head
    requires InStep(headers, canonical, before, was, depth, head, from, oldChain, newChain, k, lost)
    requires from.hash in headers && headers[from.hash] == from && NextDown(oldChain, head) != NextDown(newChain, from)
    requires ob == headers[NextDown(oldChain, head)] && nb == headers[NextDown(newChain, from)]
    requires known == before + Passed(canonical, ob.number, head.number) + {ob.parent}
    requires || !OnFile(headers, ob.parent, ob.number - 1)
             || (!OnFile(headers, nb.parent, nb.number - 1) && (more || !Found(headers, known, nb)))
    ensures !HasPath(headers, from.hash) && (more || !Reachable(headers, canonical, before, head, from))
  {
    LockNext(headers, bodies, genesis, canonical, before, head, from, oldChain, newChain, k);
    if HasPath(headers, from.hash) {
      PathLevels(headers, bodies, genesis, canonical, before, head, from, oldChain, newChain, k);
      LevelStep(headers, bodies, genesis, canonical, head, from, oldChain, newChain);
      NextOnFile(headers, from, newChain + [nb]);
    } else if Stuck(headers, canonical, before, head, from, newChain + [nb], k) {
      StuckFails(headers, canonical, before, head, from, newChain + [nb], k);
    }
  }

  lemma InStepMeets(headers: Store, bodies: Bodies, genesis: Hash, canonical: map<nat, Hash>, before: set<Hash>, cached: set<Hash>,
                    depth: Hash -> nat, head: Header, from: Header, oldChain: seq<Header>, newChain: seq<Header>, k: nat, lost: bool)
    requires Filed(headers, bodies, genesis) && IsPath(headers, canonical, head.hash) && headers[head.hash] == head
    requires InStep(headers, canonical, before, cached, depth, head, from, oldChain, newChain, k, lost)
    requires NextDown(oldChain, head) == NextDown(newChain, from) && from.hash in headers && headers[from.hash] == from
    ensures Joins(headers, canonical, head, from, oldChain, newChain) && Reachable(headers, canonical, before, head, from)
    ensures HasPath(headers, from.hash) ==> Fork(headers, canonical, head, from, oldChain, newChain)
  {
    assert Reaches(headers, canonical, before, head, from, newChain, k);
    if HasPath(headers, from.hash) {
      PathLevels(headers, bodies, genesis, canonical, before, head, from, oldChain, newChain, k);
    }
  }

  /** Along a path the next block down is on file. */
  lemma NextOnFile(headers: Store, from: Header, chain: seq<Header>)
    requires HasPath(headers, from.hash) && from.hash in headers && headers[from.hash] == from
    requires Descends(headers, chain, from) && |chain| <= from.number
    ensures OnFile(headers, NextDown(chain, from), from.number - |chain|)
  {
    var p :| IsPath(headers, p, from.hash);
    PathRunsThrough(headers, p, from, chain);
  }

  lemma StepOnFile(headers: Store, from: Header, chain: seq<Header>, block: Header)
    requires HasPath(headers, from.hash) && from.hash in headers && headers[from.hash] == from
    requires Descends(headers, chain, from) && block.number == from.number - |chain| && block.number > 0
    requires block.hash == NextDown(chain, from) && block.hash in headers && headers[block.hash] == block
    ensures Descends(headers, chain + [block], from) && OnFile(headers, block.parent, block.number - 1)
  {
    DescendsNext(headers, chain, from, block);
    NextOnFile(headers, from, chain + [block]);
  }

  /** One step further down along the canonical numbering; genesis has no parent on file. */
  lemma OldStep(headers: Store, bodies: Bodies, genesis: Hash, canonical: map<nat, Hash>, oldHead: Header, oldChain: seq<Header>)
    requires Filed(headers, bodies, genesis) && OnOldPath(headers, canonical, oldHead, oldChain)
    requires IsPath(headers, canonical, oldHead.hash) && headers[oldHead.hash] == oldHead
    ensures var ob := headers[NextDown(oldChain, oldHead)];
            && Descends(headers, oldChain + [ob], oldHead)
            && (ob.number > 0 ==> OnOldPath(headers, canonical, oldHead, oldChain + [ob]) && OnFile(headers, ob.parent, ob.number - 1))
            && (ob.number == 0 ==> ob.parent !in headers)
  {
    var ob := headers[NextDown(oldChain, oldHead)];
    DescendsNext(headers, oldChain, oldHead, ob);
    if ob.number > 0 {
      assert Linked(headers, canonical, ob.number);
    }
  }

  /** A numbering cut at one of its numbers is the path of the block there. */
  lemma CutPath(headers: Store, canonical: map<nat, Hash>, head: Hash, n: nat)
    requires IsPath(headers, canonical, head) && n in canonical
    ensures IsPath(headers, Cut(canonical, n), canonical[n])
  {
    forall m: nat | m in Cut(canonical, n) && m > 0 ensures Linked(headers, Cut(canonical, n), m) {
      assert Linked(headers, canonical, m);
    }
  }

  /** From a path to where a trace ends there is one to where it begins. */
  lemma {:induction false} TracedPath(headers: Store, p: map<nat, Hash>, end: Hash, from: Header, chain: seq<Header>)
    requires Traces(headers, chain, from) && IsPath(headers, p, end) && NextDown(chain, from) == end
    requires forall i :: 0 <= i < |chain| ==> OnFile(headers, chain[i].parent, chain[i].number - 1)
    requires from.hash in headers && headers[from.hash] == from
    ensures HasPath(headers, from.hash)
    decreases |chain|
  {
    if chain == [] {
      assert IsPath(headers, p, from.hash);
    } else {
      var last, rest := chain[|chain| - 1], chain[..|chain| - 1];
      assert |chain| > 1 ==> LinkAt(chain, |chain| - 1);
      ChildPathIff(headers, p, end, last);
      assert Traces(headers, rest, from) by {
        forall i | 0 < i < |rest| ensures LinkAt(rest, i) {
          assert LinkAt(chain, i);
        }
      }
      TracedPath(headers, p[last.number := last.hash], last.hash, from, rest);
    }
  }

  /** A child of the head has a path if and only if it has the next number. */
  lemma ChildHasPath(headers: Store, canonical: map<nat, Hash>, head: Hash, h: Header)
    requires IsPath(headers, canonical, head) && h.hash in headers && headers[h.hash] == h
    requires h.parent == head && h.number > headers[head].number
    ensures HasPath(headers, h.hash) <==> h.number == headers[head].number + 1
  {
    ChildPathIff(headers, canonical, head, h);
    if HasPath(headers, h.hash) {
      var p :| IsPath(headers, p, h.hash);
      assert Linked(headers, p, h.number);
    }
  }

  /** One step further down on both sides, as far as it is known before the parents are looked up. */
  lemma LevelStep(headers: Store, bodies: Bodies, genesis: Hash, canonical: map<nat, Hash>, oldHead: Header, newHead: Header,
                  oldChain: seq<Header>, newChain: seq<Header>)
    requires Filed(headers, bodies, genesis) && Levelled(headers, canonical, oldHead, newHead, oldChain, newChain)
    requires IsPath(headers, canonical, oldHead.hash) && headers[oldHead.hash] == oldHead
    requires newHead.hash in headers && headers[newHead.hash] == newHead
    requires NextDown(oldChain, oldHead) != NextDown(newChain, newHead)
    ensures var ob, nb := headers[NextDown(oldChain, oldHead)], headers[NextDown(newChain, newHead)];
            && ob.number == nb.number > 0 && ob.number - 1 in canonical && canonical[ob.number - 1] == ob.parent
            && Descends(headers, oldChain + [ob], oldHead) && Descends(headers, newChain + [nb], newHead)
            && (forall i :: 0 <= i < |newChain + [nb]| && (newChain + [nb])[i].number in canonical ==>
              (newChain + [nb])[i].hash != canonical[(newChain + [nb])[i].number])
  {
    var ob, nb := headers[NextDown(oldChain, oldHead)], headers[NextDown(newChain, newHead)];
    DescendsNext(headers, oldChain, oldHead, ob);
    DescendsNext(headers, newChain, newHead, nb);
    assert Linked(headers, canonical, ob.number);
  }

  /** The numbering with the new branch inserted has no gaps. */
  lemma NoGaps(headers: Store, canonical: map<nat, Hash>, oldHead: Header, newHead: Header,
               oldChain: seq<Header>, newChain: seq<Header>)
    requires Fork(headers, canonical, oldHead, newHead, oldChain, newChain)
    requires IsPath(headers, canonical, oldHead.hash) && headers[oldHead.hash] == oldHead
    ensures Gapless(InsertChain(canonical, newChain, 1))
  {
    var c := InsertChain(canonical, newChain, 1);
    if |newChain| > 0 {
      forall m: nat ensures m in c <==> m <= oldHead.number || m < newHead.number {
        InsertedAt(headers, canonical, newChain, newHead, 1, m);
      }
    }
  }

  /** Along a fork every block of the new branch is new to the numbering, and pruning removes all that is above. */
  lemma ForkMoves(headers: Store, canonical: map<nat, Hash>, oldHead: Header, newHead: Header, oldChain: seq<Header>, newChain: seq<Header>)
    requires Fork(headers, canonical, oldHead, newHead, oldChain, newChain) && ZERO_HASH !in headers
    requires IsPath(headers, canonical, oldHead.hash) && headers[oldHead.hash] == oldHead
    ensures AllNew(canonical, newChain)
    ensures Pruned(InsertChain(canonical, newChain, 1), BelowHead(newChain, oldHead).number + 1) == Moved(canonical, oldHead, newChain)
  {
    forall j | 0 <= j < |newChain| ensures NewNumber(canonical, newChain, j) {
      NotNumbered(headers, canonical, oldHead, newHead, oldChain, newChain, j);
    }
    NoGaps(headers, canonical, oldHead, newHead, oldChain, newChain);
    PrunedIsCut(InsertChain(canonical, newChain, 1), BelowHead(newChain, oldHead).number);
  }

  ghost predicate Gapless(canonical: map<nat, Hash>) {
    forall m: nat, n: nat :: m <= n && n in canonical ==> m in canonical
  }

  /** Where there are no gaps, pruning above `n` removes all that is above it. */
  lemma {:induction false} PrunedIsCut(canonical: map<nat, Hash>, n: nat)
    requires forall m: nat, k: nat :: n < m <= k && k in canonical ==> m in canonical
    ensures Pruned(canonical, n + 1) == Cut(canonical, n)
    decreases |canonical|
  {
    if n + 1 in canonical {
      assert canonical.Keys == (canonical - {n + 1}).Keys + {n + 1};
      PrunedIsCut(canonical - {n + 1}, n + 1);
      assert Cut(canonical - {n + 1}, n + 1) == Cut(canonical, n);
    }
  }

  /**
   * Once the new head is inserted too, the numbering is its path if and only if it is not below the
   * old head, or its parent was inserted before it: what lies above is removed only when something
   * was inserted.
   */
  lemma ForkSettlesIff(headers: Store, canonical: map<nat, Hash>, oldHead: Header, newHead: Header,
                       oldChain: seq<Header>, newChain: seq<Header>)
    requires Fork(headers, canonical, oldHead, newHead, oldChain, newChain) && |newChain| > 0
    requires IsPath(headers, canonical, oldHead.hash) && headers[oldHead.hash] == oldHead
    ensures IsPath(headers, Moved(canonical, oldHead, newChain)[newHead.number := newHead.hash], newHead.hash)
        <==> newHead.number >= oldHead.number || |newChain| > 1
    ensures newHead.number >= oldHead.number || |newChain| > 1 ==>
      Moved(canonical, oldHead, newChain)[newHead.number := newHead.hash] == Cut(InsertChain(canonical, newChain, 0), newHead.number)
    ensures newHead.number > oldHead.number ==> newHead.number !in Moved(canonical, oldHead, newChain)
  {
    var c := Moved(canonical, oldHead, newChain)[newHead.number := newHead.hash];
    ForkPath(headers, canonical, oldHead, newHead, oldChain, newChain, 0);
    if newHead.number >= oldHead.number || |newChain| > 1 {
      forall m: nat ensures m in InsertChain(canonical, newChain, 1) ==> m <= oldHead.number || m < newHead.number {
        InsertedAt(headers, canonical, newChain, newHead, 1, m);
      }
      assert c == Cut(InsertChain(canonical, newChain, 0), newHead.number);
    } else {
      assert InsertChain(canonical, newChain, 1) == canonical;
      assert oldHead.number in c;
    }
  }

  /** An index that is exact has every transaction once. */
  lemma IndexedOnce(bodies: Bodies, canonical: map<nat, Hash>, lookup: map<Hash, nat>)
    requires Indexed(bodies, canonical, lookup)
    ensures NoRepeats(bodies, canonical)
  {
  }

  /** The index is exact for the new path if and only if that repeats no transaction. */
  lemma ForkIndexIff(headers: Store, bodies: Bodies, canonical: map<nat, Hash>, lookup: map<Hash, nat>,
                     oldHead: Header, newHead: Header, oldChain: seq<Header>, newChain: seq<Header>)
    requires Fork(headers, canonical, oldHead, newHead, oldChain, newChain) && headers.Keys == bodies.Keys && |newChain| > 0
    requires IsPath(headers, canonical, oldHead.hash) && headers[oldHead.hash] == oldHead && Indexed(bodies, canonical, lookup)
    ensures Bodied(bodies, newChain)
    ensures Bodied(bodies, oldChain)
    ensures var path := Cut(InsertChain(canonical, newChain, 0), newHead.number);
            Indexed(bodies, path, Reindexed(lookup, bodies, oldChain, newChain)) <==> NoRepeats(bodies, path)
  {
    BranchStored(headers, bodies, oldHead, newHead, oldChain, newChain);
    var path := Cut(InsertChain(canonical, newChain, 0), newHead.number);
    SplicedPath(headers, canonical, oldHead, newHead, oldChain, newChain);
    var l := Reindexed(lookup, bodies, oldChain, newChain);
    if Indexed(bodies, path, l) {
      IndexedOnce(bodies, path, l);
    }
    if NoRepeats(bodies, path) {
      ForkIndex(headers, bodies, canonical, lookup, oldHead, newHead, oldChain, newChain, path);
    }
  }

  /** What a reorganisation and the new head above it make of the numbering and of the index. */
  lemma ForkSettles(headers: Store, bodies: Bodies, canonical: map<nat, Hash>, lookup: map<Hash, nat>,
                    oldHead: Header, newHead: Header, oldChain: seq<Header>, newChain: seq<Header>)
    requires Fork(headers, canonical, oldHead, newHead, oldChain, newChain) && headers.Keys == bodies.Keys
    requires IsPath(headers, canonical, oldHead.hash) && headers[oldHead.hash] == oldHead && newHead.number > oldHead.number
    ensures Bodied(bodies, newChain)
    ensures Bodied(bodies, oldChain)
    ensures newHead.number !in Moved(canonical, oldHead, newChain) && |newChain| > 0
    ensures var path := Moved(canonical, oldHead, newChain)[newHead.number := newHead.hash];
            IsPath(headers, path, newHead.hash) &&
            (Indexed(bodies, canonical, lookup) ==>
              (Indexed(bodies, path, Reindexed(lookup, bodies, oldChain, newChain)) <==> NoRepeats(bodies, path)))
  {
    BranchStored(headers, bodies, oldHead, newHead, oldChain, newChain);
    ForkSettlesIff(headers, canonical, oldHead, newHead, oldChain, newChain);
    if Indexed(bodies, canonical, lookup) {
      ForkIndexIff(headers, bodies, canonical, lookup, oldHead, newHead, oldChain, newChain);
    }
  }

  lemma SplicedPath(headers: Store, canonical: map<nat, Hash>, oldHead: Header, newHead: Header,
                    oldChain: seq<Header>, newChain: seq<Header>)
    requires Fork(headers, canonical, oldHead, newHead, oldChain, newChain)
    ensures Spliced(Cut(InsertChain(canonical, newChain, 0), newHead.number), canonical, newChain, newHead, oldHead.number - |oldChain|)
  {
    var path := Cut(InsertChain(canonical, newChain, 0), newHead.number);
    forall m: nat
      ensures newHead.number - |newChain| < m <= newHead.number ==> m in path && path[m] == newChain[newHead.number - m].hash
      ensures m <= newHead.number - |newChain| ==> (m in path <==> m in canonical) && (m in path ==> path[m] == canonical[m])
    {
      SplicedAt(headers, canonical, newHead, newChain, m);
    }
  }

  lemma SplicedAt(headers: Store, canonical: map<nat, Hash>, newHead: Header, newChain: seq<Header>, m: nat)
    requires Descends(headers, newChain, newHead)
    ensures var path := Cut(InsertChain(canonical, newChain, 0), newHead.number);
            && (newHead.number - |newChain| < m <= newHead.number ==> m in path && path[m] == newChain[newHead.number - m].hash)
            && (m <= newHead.number - |newChain| ==> (m in path <==> m in canonical) && (m in path ==> path[m] == canonical[m]))
  {
    InsertedAt(headers, canonical, newChain, newHead, 0, m);
  }

  lemma BranchStored(headers: Store, bodies: Bodies, oldHead: Header, newHead: Header, oldChain: seq<Header>, newChain: seq<Header>)
    requires Traces(headers, newChain, newHead) && Traces(headers, oldChain, oldHead) && headers.Keys == bodies.Keys
    ensures Bodied(bodies, newChain)
    ensures Bodied(bodies, oldChain)
  {
    assert forall h :: h in headers ==> h in bodies.Keys;
  }

  /** Numbering a child of the head gives its path if and only if it has the next number. */
  lemma ChildPathIff(headers: Store, canonical: map<nat, Hash>, head: Hash, h: Header)
    requires IsPath(headers, canonical, head) && h.hash in headers && headers[h.hash] == h
    requires h.parent == head && h.number > headers[head].number
    ensures IsPath(headers, canonical[h.number := h.hash], h.hash) <==> h.number == headers[head].number + 1
  {
    var path := canonical[h.number := h.hash];
    if h.number == headers[head].number + 1 {
      forall n: nat | n in path && n > 0 ensures Linked(headers, path, n) {
        assert n < h.number ==> Linked(headers, canonical, n);
      }
    } else {
      assert headers[head].number + 1 !in path;
    }
  }

  /** When the blocks after it in a branch are inserted, a block is not yet canonical. */
  ghost predicate NewNumber(canonical: map<nat, Hash>, chain: seq<Header>, i: nat)
    requires i < |chain|
  {
    var c, n := InsertChain(canonical, chain, i + 1), chain[i].number;
    chain[i].hash != ZERO_HASH && (n in c ==> c[n] != chain[i].hash)
  }

  ghost predicate AllNew(canonical: map<nat, Hash>, chain: seq<Header>) {
    forall j :: 0 <= j < |chain| ==> NewNumber(canonical, chain, j)
  }

  lemma NotNumbered(headers: Store, canonical: map<nat, Hash>, oldHead: Header, newHead: Header,
                    oldChain: seq<Header>, newChain: seq<Header>, i: nat)
    requires Fork(headers, canonical, oldHead, newHead, oldChain, newChain) && i < |newChain|
    requires IsPath(headers, canonical, oldHead.hash) && headers[oldHead.hash] == oldHead && ZERO_HASH !in headers
    ensures NewNumber(canonical, newChain, i)
  {
    InsertedAt(headers, canonical, newChain, newHead, i + 1, newChain[i].number);
  }

  /**
   * A block two numbers above its parent, which is cached: it is accepted, unless the cache loses blocks
   * meanwhile, and its number minus one is left out. `r` is refused at first because `x` is missing, and
   * gets into the cache when it is looked up.
   */
  method GapThroughCache(g: Header, x: Header, r: Header, h: Header, ghost depth: Hash -> nat)
    returns (chain: BlockChain, status: WriteStatus, ghost lost: bool)
    requires x.number == 1 && r.number == 2 && h.number == 4 && g.number == 0
    requires x.parent == g.hash && r.parent == x.hash && h.parent == r.hash
    requires depth(ZERO_HASH) < depth(g.parent) < depth(g.hash) < depth(x.hash) < depth(r.hash) < depth(h.hash)
    ensures lost || (status.Canonical? && !chain.Chained())
  {
    chain := OutOfOrder(g, x, r, depth);
    var found, l3 := chain.GetBlock(r.hash, 2);
    NoPathTo(chain.headers[h.hash := h], h);
    ReachesThrough(chain.headers[h.hash := h], chain.canonical, chain.cached, x, r, h);
    status, lost := chain.WriteBlockWithState(h, []);
  }

  /** The chain after a block is written before its parent: the parent is the head, and the block is on file. */
  method OutOfOrder(g: Header, x: Header, r: Header, ghost depth: Hash -> nat) returns (chain: BlockChain)
    requires x.number == 1 && r.number == 2 && g.number == 0 && x.parent == g.hash && r.parent == x.hash
    requires depth(ZERO_HASH) < depth(g.parent) < depth(g.hash) < depth(x.hash) < depth(r.hash)
    ensures fresh(chain) && chain.Chained() && chain.currentBlock == x && chain.depth == depth && chain.genesis == g.hash
    ensures chain.headers == map[g.hash := g, r.hash := r, x.hash := x]
  {
    chain := WithOrphan(g, r, depth);
    var status, lost := chain.WriteBlockWithState(x, []);
    ChildHasPath(chain.headers, map[0 := g.hash], g.hash, x);
  }

  method WithOrphan(g: Header, r: Header, ghost depth: Hash -> nat) returns (chain: BlockChain)
    requires g.number == 0 && r.number > 1 && r.parent != g.hash && depth(ZERO_HASH) < depth(g.parent) < depth(g.hash) < depth(r.hash)
    requires depth(r.parent) < depth(r.hash)
    ensures fresh(chain) && chain.Chained() && chain.currentBlock == g && chain.depth == depth && chain.genesis == g.hash
    ensures chain.headers == map[g.hash := g, r.hash := r] && chain.canonical == map[0 := g.hash]
  {
    chain := new BlockChain(g, [], depth);
    var status, lost := chain.WriteBlockWithState(r, []);
    Orphan(chain.headers, map[0 := g.hash], g, r);
  }

  /** A block whose parent is not on file, beside genesis. */
  lemma Orphan(headers: Store, canonical: map<nat, Hash>, g: Header, r: Header)
    requires headers == map[g.hash := g, r.hash := r] && IsPath(headers, canonical, g.hash) && g.number == 0
    requires r.number > 1 && r.parent !in headers && g.parent !in headers && g.hash != r.hash
    ensures !HasPath(headers, r.hash) && !Reachable(headers, canonical, {}, g, r)
  {
    NoPathTo(headers, r);
    if Reachable(headers, canonical, {}, g, r) {
      NumberedReach(headers, canonical, {}, g, r);
    }
  }

  lemma ReachesThrough(headers: Store, canonical: map<nat, Hash>, cached: set<Hash>, x: Header, r: Header, h: Header)
    requires x.number == 1 && r.number == 2 && h.number == 4 && r.parent == x.hash && h.parent == r.hash
    requires forall b :: b in {x, r, h} ==> b.hash in headers && headers[b.hash] == b
    requires 1 in canonical && canonical[1] == x.hash && r.hash in cached
    ensures Reachable(headers, canonical, cached, x, h)
  {
    assert Reaches(headers, canonical, cached, x, h, [h, r], 2);
  }

  lemma NoPathTo(headers: Store, h: Header)
    requires h.hash in headers && headers[h.hash] == h && h.number > 0 && !OnFile(headers, h.parent, h.number - 1)
    ensures !HasPath(headers, h.hash)
  {
    if HasPath(headers, h.hash) {
      StepOnFile(headers, h, [], h);
    }
  }
}
