/**
 * Building the dependency graph of a block (core/parallel_tx_dag.go): calls to contracts order
 * themselves against every other transaction, transfers against transfers of the same accounts.
 */
module TxDependencies {
  import opened Types
  import opened DagGraph

  /** A path from `i` to `j`, of any length. */
  ghost predicate Reach(out: Edges, i: nat, j: nat)
    decreases if i < j then j - i else 0
  {
    i == j || (i < j && i < |out| && exists k :: k in out[i] && i < k <= j && Reach(out, k, j))
  }

  ghost predicate SubGraph(a: Edges, b: Edges) {
    |a| == |b| && forall i, k: nat :: 0 <= i < |a| && k in a[i] ==> k in b[i]
  }

  lemma {:induction false} ReachTransitive(out: Edges, i: nat, j: nat, k: nat)
    requires Reach(out, i, j) && Reach(out, j, k)
    ensures Reach(out, i, k)
    decreases if i < j then j - i else 0
  {
    if i != j {
      var m :| m in out[i] && i < m <= j && Reach(out, m, j);
      ReachTransitive(out, m, j, k);
      ReachUpward(out, m, k);
    }
  }

  lemma {:induction false} ReachUpward(out: Edges, i: nat, j: nat)
    requires Reach(out, i, j)
    ensures i <= j
  {
  }

  lemma {:induction false} ReachGrows(a: Edges, b: Edges, i: nat, j: nat)
    requires SubGraph(a, b) && Reach(a, i, j)
    ensures Reach(b, i, j)
    decreases if i < j then j - i else 0
  {
    if i != j {
      var m :| m in a[i] && i < m <= j && Reach(a, m, j);
      ReachGrows(a, b, m, j);
    }
  }

  lemma ReachEdge(out: Edges, i: nat, j: nat, k: nat)
    requires Reach(out, i, j) && j < k && j < |out| && k in out[j]
    ensures Reach(out, i, k)
  {
    assert Reach(out, k, k);
    ReachTransitive(out, i, j, k);
  }

  /**
   * A transaction list with what classifies it: the addresses that are precompiled or hold code in
   * the state before the block, and the addresses known to be created by earlier transactions.
   */
  datatype Block = Block(txs: seq<Tx>, code: set<Address>, created: set<Address>) {

    /** The created addresses known when transaction `n` is classified. */
    ghost function CreatedBefore(n: nat): set<Address>
      requires n <= |txs|
    {
      if n == 0 then created
      else
        var tx := txs[n - 1];
        CreatedBefore(n - 1) +
        if tx.from != ZERO_ADDRESS && tx.to.None? then {tx.created} else {}
    }

    /** Transaction `i` creates or calls a contract; all others are plain transfers. */
    ghost predicate Calls(i: nat)
      requires i < |txs|
    {
      txs[i].to.None? || txs[i].to.value in code || txs[i].to.value in CreatedBefore(i)
    }

    /** The accounts a transfer reads and writes. */
    ghost function Touches(i: nat): set<Address>
      requires i < |txs|
    {
      {txs[i].from} + if txs[i].to.Some? then {txs[i].to.value} else {}
    }

    /** Transactions `i` and `j` may not change places. */
    ghost predicate Conflict(i: nat, j: nat)
      requires i < |txs| && j < |txs|
    {
      Calls(i) || Calls(j) || Touches(i) * Touches(j) != {}
    }

    /** Every sender was recovered from its signature. */
    ghost predicate Resolved() {
      forall i :: 0 <= i < |txs| ==> txs[i].from != ZERO_ADDRESS
    }

    /** All conflicts among the first `n` transactions are ordered by a path. */
    ghost predicate Ordered(out: Edges, n: nat)
      requires n <= |txs|
    {
      forall i: nat, j: nat :: i < j < n && Conflict(i, j) ==> Reach(out, i, j)
    }

    /** No edge joins two transactions that could change places. */
    ghost predicate Needed(out: Edges)
    {
      forall i: nat, k: nat :: i < |out| && k in out[i] ==> k < |txs| && i < |txs| && Conflict(i, k)
    }

    /** `latest` is the last call among the first `n` transactions, or -1. */
    ghost predicate LatestCall(n: nat, latest: int)
      requires n <= |txs|
    {
      && -1 <= latest < n && (latest >= 0 ==> Calls(latest))
      && forall i: nat :: latest < i < n ==> !Calls(i)
    }

    /** Every transfer after the latest call can be reached from it. */
    ghost predicate Anchored(out: Edges, n: nat, latest: int) {
      latest >= 0 ==> forall i: nat :: latest < i < n ==> Reach(out, latest, i)
    }

    /** `last` maps each account touched since the latest call to the last transfer touching it. */
    ghost predicate LastTouch(n: nat, latest: int, last: map<Address, nat>)
      requires n <= |txs| && latest >= -1
    {
      && (forall a :: a in last ==> latest < last[a] < n && a in Touches(last[a]))
      && forall i: nat, a :: latest < i < n && a in Touches(i) ==> a in last && i <= last[a]
    }

    ghost predicate Linked(out: Edges, n: nat, latest: int, last: map<Address, nat>)
      requires n <= |txs|
    {
      LatestCall(n, latest) && Ordered(out, n) && Anchored(out, n, latest) && LastTouch(n, latest, last)
    }
  }

  /** Edges that lead only into `n` leave everything known about earlier transactions in place. */
  lemma LinkedGrows(b: Block, was: Edges, out: Edges, n: nat, latest: int, last: map<Address, nat>)
    requires n <= |b.txs| && SubGraph(was, out) && b.Linked(was, n, latest, last)
    ensures b.Linked(out, n, latest, last)
  {
    forall i: nat, j: nat | i < j < n && b.Conflict(i, j) ensures Reach(out, i, j) {
      ReachGrows(was, out, i, j);
    }
    if latest >= 0 {
      forall i: nat | latest < i < n ensures Reach(out, latest, i) {
        ReachGrows(was, out, latest, i);
      }
    }
  }

  /** A call with an edge from each transaction since the latest call is ordered after everything. */
  lemma CallOrdered(b: Block, out: Edges, n: nat, latest: int, last: map<Address, nat>)
    requires n < |b.txs| == |out| && b.Linked(out, n, latest, last) && b.Calls(n)
    requires forall i: nat :: latest < i < n ==> n in out[i]
    requires latest == n - 1 && n > 0 ==> n in out[n - 1]
    ensures b.Linked(out, n + 1, n, map[])
  {
    forall i: nat | i < n ensures Reach(out, i, n) {
      assert Reach(out, n, n);
      if i <= latest {
        assert i < latest ==> b.Conflict(i, latest);
        if latest < n - 1 {
          ReachTransitive(out, i, latest, latest + 1);
          ReachEdge(out, i, latest + 1, n);
        } else {
          ReachEdge(out, i, latest, n);
        }
      }
    }
  }

  /** A transfer hanging below the last transfers of its accounts, or else below the latest call. */
  lemma TransferOrdered(b: Block, out: Edges, n: nat, latest: int, last: map<Address, nat>)
    requires n < |b.txs| == |out| && b.Linked(out, n, latest, last) && !b.Calls(n)
    requires forall a :: a in b.Touches(n) && a in last ==> n in out[last[a]]
    requires latest >= 0 && (forall a :: a in b.Touches(n) ==> a !in last) ==> n in out[latest]
    ensures b.Linked(out, n + 1, latest, last[b.txs[n].from := n][b.txs[n].to.value := n])
  {
    if latest >= 0 {
      if a :| a in b.Touches(n) && a in last {
        ReachEdge(out, latest, last[a], n);
      } else {
        ReachEdge(out, latest, latest, n);
      }
    }
    forall i: nat | i < n && b.Conflict(i, n) ensures Reach(out, i, n) {
      ConflictReached(b, out, n, latest, last, i);
    }
  }

  /** An earlier transaction that conflicts with a linked transfer has a path to it. */
  lemma ConflictReached(b: Block, out: Edges, n: nat, latest: int, last: map<Address, nat>, i: nat)
    requires n < |b.txs| == |out| && b.Linked(out, n, latest, last) && !b.Calls(n) && i < n && b.Conflict(i, n)
    requires forall a :: a in b.Touches(n) && a in last ==> n in out[last[a]]
    requires latest >= 0 ==> Reach(out, latest, n)
    ensures Reach(out, i, n)
  {
    if i <= latest {
      assert i < latest ==> b.Conflict(i, latest);
      ReachTransitive(out, i, latest, n);
    } else {
      var a :| a in b.Touches(i) * b.Touches(n);
      assert i < last[a] ==> b.Conflict(i, last[a]);
      ReachEdge(out, i, last[a], n);
    }
  }

  /** Everything `emitted` depends on has been emitted too. */
  ghost predicate PredClosed(out: Edges, emitted: set<nat>) {
    forall j :: j in emitted ==> PredsIn(out, j, emitted)
  }

  lemma {:induction false} AncestorEmitted(out: Edges, emitted: set<nat>, i: nat, j: nat)
    requires PredClosed(out, emitted) && PredsIn(out, j, emitted)
    requires Reach(out, i, j) && i != j
    ensures i in emitted
    decreases if i < j then j - i else 0
  {
    var m :| m in out[i] && i < m <= j && Reach(out, m, j);
    if m != j {
      AncestorEmitted(out, emitted, m, j);
    }
  }

  /**
   * What a layer of a complete graph means for the executor: whatever a member conflicts with and
   * comes earlier in the block was emitted before, members do not conflict with each other, and a
   * contract call is alone.
   */
  lemma LayerIndependent(b: Block, out: Edges, emitted: set<nat>, layer: seq<nat>)
    requires |out| == |b.txs| && b.Ordered(out, |b.txs|)
    requires PredClosed(out, emitted) && IsLayer(out, emitted, layer)
    ensures forall i: nat, j: nat :: j in layer && i < j && b.Conflict(i, j) ==> i in emitted
    ensures forall i: nat, j: nat :: i in layer && j in layer && i != j ==> !b.Conflict(i, j)
    ensures forall j: nat :: j in layer && b.Calls(j) ==> layer == [j]
  {
    forall i: nat, j: nat | j in layer && i < j && b.Conflict(i, j) ensures i in emitted {
      AncestorEmitted(out, emitted, i, j);
    }
    forall i: nat, j: nat | i in layer && j in layer && i != j ensures !b.Conflict(i, j) {
      assert b.Conflict(i, j) == b.Conflict(j, i);
    }
    forall j: nat | j in layer && b.Calls(j) ensures layer == [j] {
      var a :| 0 <= a < |layer| && layer[a] == j;
      if |layer| > 1 {
        var other := layer[if a == 0 then 1 else 0];
        assert other in layer && b.Conflict(j, other);
      }
    }
  }

  /** The graph of a block together with the indices of its contract calls. */
  class TxDag {
    var dag: Dag
    var contracts: set<nat>

    constructor ()
      ensures contracts == {} && fresh(dag)
    {
      dag := new Dag(0);
      contracts := {};
    }

    /** Classifies transaction `i` and notes the address it creates. */
    method IsContractCall(ghost b: Block, i: nat, tx: Tx, code: set<Address>, cache: set<Address>)
      returns (call: bool, cache': set<Address>)
      requires i < |b.txs| && tx == b.txs[i] && code == b.code && cache == b.CreatedBefore(i)
      requires tx.from != ZERO_ADDRESS
      ensures call == b.Calls(i) && cache' == b.CreatedBefore(i + 1)
    {
      cache' := cache;
      if tx.to.None? {
        cache' := cache' + {tx.created};
        call := true;
      } else if tx.to.value in cache {
        call := true;
      } else {
        call := tx.to.value in code;
      }
    }

    /** Adds one edge between conflicting transactions. */
    method Link(ghost b: Block, i: nat, n: nat)
      requires i < n < |b.txs| == dag.v && dag.Building() && b.Conflict(i, n) && b.Needed(dag.outEdges)
      modifies dag
      ensures dag.Building() && dag.v == old(dag.v) && b.Needed(dag.outEdges)
      ensures SubGraph(old(dag.outEdges), dag.outEdges) && n in dag.outEdges[i]
    {
      dag.AddEdge(i, n);
    }

    /** Adds the edges into the contract call at `n`. */
    method LinkCall(ghost b: Block, n: nat, latest: int, ghost last: map<Address, nat>)
      requires n < |b.txs| == dag.v && dag.Building() && b.Calls(n) && -1 <= latest < n
      requires b.Needed(dag.outEdges)
      modifies dag
      ensures dag.Building() && dag.v == old(dag.v) && b.Needed(dag.outEdges)
      ensures old(b.Linked(dag.outEdges, n, latest, last)) ==> b.Linked(dag.outEdges, n + 1, n, map[])
    {
      ghost var was := dag.outEdges;
      if n > 0 {
        if n - latest > 1 {
          var begin := latest + 1;
          while begin < n
            invariant latest < begin <= n && dag.Building() && dag.v == old(dag.v)
            invariant SubGraph(was, dag.outEdges) && b.Needed(dag.outEdges)
            invariant forall i: nat :: latest < i < begin ==> n in dag.outEdges[i]
          {
            Link(b, begin, n);
            begin := begin + 1;
          }
        } else if n - latest == 1 {
          Link(b, latest, n);
        }
      }
      if b.Linked(was, n, latest, last) {
        LinkedGrows(b, was, dag.outEdges, n, latest, last);
        CallOrdered(b, dag.outEdges, n, latest, last);
      }
    }

    /** Adds the edges into the transfer at `n`. */
    method LinkTransfer(ghost b: Block, n: nat, tx: Tx, latest: int, last: map<Address, nat>)
      requires n < |b.txs| == dag.v && dag.Building() && !b.Calls(n) && -1 <= latest < n
      requires tx == b.txs[n] && (forall a :: a in last ==> last[a] < n && a in b.Touches(last[a]))
      requires b.Needed(dag.outEdges) && (latest >= 0 ==> b.Calls(latest))
      modifies dag
      ensures dag.Building() && dag.v == old(dag.v) && b.Needed(dag.outEdges)
      ensures old(b.Linked(dag.outEdges, n, latest, last)) ==>
                b.Linked(dag.outEdges, n + 1, latest, last[tx.from := n][tx.to.value := n])
    {
      ghost var was := dag.outEdges;
      var dependFound := 0;
      if tx.from in last {
        Link(b, last[tx.from], n);
        dependFound := dependFound + 1;
      }
      if tx.to.value in last {
        Link(b, last[tx.to.value], n);
        dependFound := dependFound + 1;
      }
      if dependFound == 0 && latest >= 0 {
        Link(b, latest, n);
      }
      if b.Linked(was, n, latest, last) {
        LinkedGrows(b, was, dag.outEdges, n, latest, last);
        TransferOrdered(b, dag.outEdges, n, latest, last);
      }
    }

    /**
     * Builds the graph of a block. Every edge joins conflicting transactions; and when all senders
     * are resolved, every two conflicting transactions are joined by a path.
     */
    method MakeDagGraph(b: Block) returns (cache: set<Address>)
      requires contracts == {}
      modifies this
      ensures fresh(dag) && dag.Building() && dag.v == |b.txs| && cache == b.CreatedBefore(|b.txs|)
      ensures forall i: nat :: i in contracts <==>
                i < |b.txs| && b.txs[i].from != ZERO_ADDRESS && b.Calls(i)
      ensures b.Needed(dag.outEdges)
      ensures b.Resolved() ==> b.Ordered(dag.outEdges, |b.txs|)
    {
      dag := new Dag(|b.txs|);
      cache := b.created;
      var last: map<Address, nat> := map[];
      var latest := -1;
      var n := 0;
      while n < |b.txs|
        invariant 0 <= n <= |b.txs| && fresh(dag) && dag.Building() && dag.v == |b.txs|
        invariant Built(b, n, cache, latest, last)
      {
        cache, latest, last := AddTx(b, n, cache, latest, last);
        n := n + 1;
      }
    }

    /** The graph and the bookkeeping of its construction after the first `n` transactions. */
    ghost predicate Built(b: Block, n: nat, cache: set<Address>, latest: int, last: map<Address, nat>)
      reads this, dag
      requires n <= |b.txs|
    {
      && cache == b.CreatedBefore(n) && -1 <= latest < n && (latest >= 0 ==> b.Calls(latest))
      && (forall a :: a in last ==> last[a] < n && a in b.Touches(last[a]))
      && (forall i: nat :: i in contracts <==> i < n && b.txs[i].from != ZERO_ADDRESS && b.Calls(i))
      && b.Needed(dag.outEdges) && (b.Resolved() ==> b.Linked(dag.outEdges, n, latest, last))
    }

    /** Adds one transaction to the graph. */
    method AddTx(b: Block, n: nat, cache: set<Address>, latest: int, last: map<Address, nat>)
      returns (cache': set<Address>, latest': int, last': map<Address, nat>)
      requires n < |b.txs| && dag.Building() && dag.v == |b.txs| && Built(b, n, cache, latest, last)
      modifies `contracts, dag
      ensures dag.Building() && dag.v == |b.txs| && Built(b, n + 1, cache', latest', last')
    {
      cache', latest', last' := cache, latest, last;
      var tx := b.txs[n];
      if tx.from != ZERO_ADDRESS {
        var call;
        call, cache' := IsContractCall(b, n, tx, b.code, cache);
        if call {
          contracts := contracts + {n};
          LinkCall(b, n, latest, last);
          latest' := n;
          last' := map[];
        } else {
          LinkTransfer(b, n, tx, latest, last);
          last' := last[tx.from := n][tx.to.value := n];
        }
      }
    }
  }
}
