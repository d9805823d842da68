/**
 * The dependency graph of core/dag: vertices 0..v-1, edges kept with multiplicity, handed out in
 * layers. A layer is everything whose predecessors have all been handed out before.
 */
module DagGraph {

  type Edges = seq<seq<nat>>

  /** Every edge leads to a higher vertex of the graph; such a graph is acyclic. */
  ghost predicate Forward(out: Edges) {
    forall i, k: nat :: 0 <= i < |out| && k in out[i] ==> i < k < |out|
  }

  /** How many edges lead into `j` from the first `n` vertices, leaving out those in `done`. */
  ghost function Pending(out: Edges, done: set<nat>, j: nat, n: nat): nat
    requires n <= |out|
  {
    if n == 0 then 0
    else Pending(out, done, j, n - 1) + if n - 1 in done then 0 else multiset(out[n - 1])[j]
  }

  /** All direct predecessors of `j` lie in `s`. */
  ghost predicate PredsIn(out: Edges, j: nat, s: set<nat>) {
    forall i :: 0 <= i < |out| && j in out[i] ==> i in s
  }

  /** The next layer once `emitted` has been handed out. */
  ghost predicate IsLayer(out: Edges, emitted: set<nat>, layer: seq<nat>) {
    && (forall j: nat :: j in layer <==> j < |out| && j !in emitted && PredsIn(out, j, emitted))
    && forall a, b :: 0 <= a < b < |layer| ==> layer[a] != layer[b]
  }

  ghost function Elems(s: seq<nat>): set<nat> {
    set x | x in s
  }

  lemma ElemsSnoc(s: seq<nat>, p: nat)
    requires p < |s|
    requires forall a, b :: 0 <= a < b < |s| ==> s[a] != s[b]
    ensures Elems(s[..p + 1]) == Elems(s[..p]) + {s[p]}
    ensures s[p] in Elems(s) && s[p] !in Elems(s[..p])
  {
    assert s[..p + 1] == s[..p] + [s[p]];
  }

  lemma {:induction false} PendingZero(out: Edges, done: set<nat>, j: nat, n: nat)
    requires n <= |out|
    ensures Pending(out, done, j, n) == 0 <==> forall i :: 0 <= i < n && j in out[i] ==> i in done
  {
    if n > 0 {
      PendingZero(out, done, j, n - 1);
      assert j in out[n - 1] <==> multiset(out[n - 1])[j] > 0;
    }
  }

  /** A correct in-degree is zero exactly when no predecessor outside `done` is left. */
  lemma DegreesZero(out: Edges, done: set<nat>, degree: seq<int>)
    requires |degree| == |out|
    requires forall j :: 0 <= j < |out| ==> degree[j] == Pending(out, done, j, |out|)
    ensures forall j :: 0 <= j < |out| ==> (degree[j] == 0 <==> PredsIn(out, j, done))
  {
    forall j | 0 <= j < |out| ensures degree[j] == 0 <==> PredsIn(out, j, done) {
      PendingZero(out, done, j, |out|);
    }
  }

  /** The vertices whose in-degree falls to zero when more vertices are done are the next layer. */
  lemma NextIsLayer(out: Edges, before: set<nat>, done: set<nat>, degree: seq<int>, degree': seq<int>, next: seq<nat>)
    requires |degree| == |degree'| == |out| && Closed(out, before, done)
    requires forall j :: 0 <= j < |out| ==> degree[j] == Pending(out, before, j, |out|) && degree'[j] == Pending(out, done, j, |out|)
    requires forall j: nat :: j in next <==> j < |out| && degree[j] > 0 && degree'[j] == 0
    requires forall a, b :: 0 <= a < b < |next| ==> next[a] != next[b]
    ensures IsLayer(out, done, next)
  {
    DegreesZero(out, before, degree);
    DegreesZero(out, done, degree');
  }

  lemma {:induction false} PendingAdd(out: Edges, done: set<nat>, x: nat, j: nat, n: nat)
    requires n <= |out| && x !in done
    ensures Pending(out, done, j, n) ==
            Pending(out, done + {x}, j, n) + if x < n then multiset(out[x])[j] else 0
  {
    if n > 0 {
      PendingAdd(out, done, x, j, n - 1);
    }
  }

  lemma {:induction false} PendingNoSource(out: Edges, done: set<nat>, j: nat, n: nat)
    requires n <= |out|
    requires forall i :: 0 <= i < n ==> |out[i]| == 0
    ensures Pending(out, done, j, n) == 0
  {
    if n > 0 {
      PendingNoSource(out, done, j, n - 1);
    }
  }

  /** Appending an edge raises the count of its target by one and no other. */
  lemma {:induction false} PendingEdge(out: Edges, from: nat, to: nat, j: nat, n: nat)
    requires n <= |out| && from < |out|
    ensures Pending(out[from := out[from] + [to]], {}, j, n) ==
            Pending(out, {}, j, n) + if from < n && j == to then 1 else 0
  {
    if n > 0 {
      PendingEdge(out, from, to, j, n - 1);
    }
  }

  /** In a forward graph the lowest vertex not yet handed out is always in the next layer. */
  lemma LayerProgress(out: Edges, emitted: set<nat>, layer: seq<nat>, j: nat)
    requires Forward(out) && IsLayer(out, emitted, layer)
    requires j < |out| && j !in emitted
    ensures layer != []
    decreases j
  {
    if PredsIn(out, j, emitted) {
      assert j in layer;
    } else {
      var i :| 0 <= i < |out| && j in out[i] && i !in emitted;
      LayerProgress(out, emitted, layer, i);
    }
  }

  lemma {:induction false} DistinctSize(s: seq<nat>)
    requires forall a, b :: 0 <= a < b < |s| ==> s[a] != s[b]
    ensures |Elems(s)| == |s|
  {
    if s == [] {
      assert Elems(s) == {};
    } else {
      var rest := s[..|s| - 1];
      DistinctSize(rest);
      assert s == rest + [s[|s| - 1]];
      assert Elems(s) == Elems(rest) + {s[|s| - 1]};
      assert s[|s| - 1] !in rest;
    }
  }

  /** The vertices of a graph with `n` of them. */
  ghost function Below(n: nat): (s: set<nat>)
    ensures |s| == n
    ensures forall i: nat :: i in s <==> i < n
  {
    if n == 0 then {} else Below(n - 1) + {n - 1}
  }

  lemma SubsetSize(a: set<nat>, b: set<nat>)
    requires a <= b
    ensures |b| == |a| + |b - a| && (|a| == |b| ==> a == b)
  {
    assert b == a + (b - a);
    assert |b| == |a| + |b - a|;
  }

  /** A vertex is handed out exactly when its predecessors were handed out in earlier layers. */
  ghost predicate Closed(out: Edges, done: set<nat>, emitted: set<nat>) {
    forall j: nat :: j in emitted <==> j < |out| && PredsIn(out, j, done)
  }

  lemma LayerClosed(out: Edges, done: set<nat>, before: set<nat>, layer: seq<nat>)
    requires done <= before && IsLayer(out, before, layer)
    requires before == {} || Closed(out, done, before)
    ensures Closed(out, before, before + Elems(layer))
  {
    forall j | j in before ensures PredsIn(out, j, before) {
      assert PredsIn(out, j, done);
    }
  }

  /** The graph with the cursor of its layered traversal. */
  class Dag {
    var v: nat
    var consumed: nat
    var inDegree: seq<int>
    var outEdges: Edges
    var nextList: seq<nat>
    ghost var done: set<nat>      // handed out before the latest layer
    ghost var emitted: set<nat>   // handed out so far, the latest layer included

    ghost predicate Shape()
      reads this
    {
      |inDegree| == v && |outEdges| == v && Forward(outEdges)
    }

    /** Before the first layer is asked for: in-degrees count the edges in, duplicates included. */
    ghost predicate Counting()
      reads this
    {
      && |inDegree| == v && |outEdges| == v && consumed == 0 && nextList == [] && done == {} && emitted == {}
      && forall j :: 0 <= j < v ==> inDegree[j] == Pending(outEdges, {}, j, v)
    }

    ghost predicate Building()
      reads this
    {
      Counting() && Forward(outEdges)
    }

    ghost predicate Walking()
      reads this
    {
      && Shape()
      && (forall j :: 0 <= j < v ==> inDegree[j] == Pending(outEdges, done, j, v))
      && emitted == done + Elems(nextList)
      && (forall j :: j in nextList ==> j !in done)
      && (forall a, b :: 0 <= a < b < |nextList| ==> nextList[a] != nextList[b])
      && (emitted == {} || Closed(outEdges, done, emitted)) && done <= emitted
      && (nextList == [] ==> emitted == {} || consumed == v)
      && (forall j :: j in emitted ==> j < v)
      && consumed == |emitted|
    }

    constructor (n: nat)
      ensures Building() && v == n && outEdges == seq(n, _ => [])
    {
      v := n;
      consumed := 0;
      inDegree := seq(n, _ => 0);
      outEdges := seq(n, _ => []);
      nextList := [];
      done := {};
      emitted := {};
      new;
      forall j | 0 <= j < v ensures inDegree[j] == Pending(outEdges, {}, j, v) {
        PendingNoSource(outEdges, {}, j, v);
      }
    }

    method AddEdge(from: nat, to: nat)
      requires Counting() && from < v && to < v
      modifies this
      ensures Counting() && v == old(v) && (old(Building()) && from < to ==> Building())
      ensures outEdges == old(outEdges)[from := old(outEdges)[from] + [to]]
    {
      ghost var was := outEdges;
      outEdges := outEdges[from := outEdges[from] + [to]];
      inDegree := inDegree[to := inDegree[to] + 1];
      forall j | 0 <= j < v ensures inDegree[j] == Pending(outEdges, {}, j, v) {
        PendingEdge(was, from, to, j, v);
      }
    }

    predicate HasNext()
      reads this
    {
      consumed < v
    }

    /** Lowers the in-degree of every target of `x`, collecting the vertices that become free. */
    method Release(x: nat, ghost prior: set<nat>)
      requires Shape() && x < v && x !in prior
      requires forall j :: 0 <= j < v ==> inDegree[j] == Pending(outEdges, prior, j, v)
      requires forall j :: j in nextList ==> j < v && inDegree[j] == 0
      requires forall a, b :: 0 <= a < b < |nextList| ==> nextList[a] != nextList[b]
      modifies this`inDegree, this`nextList
      ensures Shape()
      ensures forall j :: 0 <= j < v ==> inDegree[j] == Pending(outEdges, prior + {x}, j, v)
      ensures forall j :: 0 <= j < v && old(inDegree[j]) == 0 ==> inDegree[j] == 0
      ensures forall j: nat :: j in nextList <==>
                j in old(nextList) || (j < v && old(inDegree[j]) > 0 && inDegree[j] == 0)
      ensures forall a, b :: 0 <= a < b < |nextList| ==> nextList[a] != nextList[b]
    {
      ghost var deg := inDegree;
      var q := 0;
      forall j | 0 <= j < v
        ensures deg[j] == Pending(outEdges, prior + {x}, j, v) + multiset(outEdges[x])[j]
      {
        PendingAdd(outEdges, prior, x, j, v);
      }
      while q < |outEdges[x]|
        invariant 0 <= q <= |outEdges[x]| && |inDegree| == v
        invariant forall j :: 0 <= j < v ==> inDegree[j] == deg[j] - multiset(outEdges[x][..q])[j]
        invariant forall j: nat :: j in nextList <==>
                    j in old(nextList) || (j < v && deg[j] > 0 && inDegree[j] == 0)
        invariant forall a, b :: 0 <= a < b < |nextList| ==> nextList[a] != nextList[b]
      {
        var y := outEdges[x][q];
        assert y in outEdges[x];
        assert outEdges[x][..q + 1] == outEdges[x][..q] + [y];
        assert outEdges[x] == outEdges[x][..q + 1] + outEdges[x][q + 1..];
        assert multiset(outEdges[x])[y] >= multiset(outEdges[x][..q + 1])[y];
        inDegree := inDegree[y := inDegree[y] - 1];
        if inDegree[y] == 0 {
          nextList := nextList + [y];
        }
        q := q + 1;
      }
      assert outEdges[x][..q] == outEdges[x];
    }

    /** Collects the vertices without predecessors, as the very first layer. */
    method FirstLayer()
      requires Walking() && nextList == [] && emitted == {}
      modifies this`nextList
      ensures IsLayer(outEdges, {}, nextList)
    {
      var i := 0;
      while i < v
        invariant 0 <= i <= v
        invariant forall j: nat :: j in nextList <==> j < i && inDegree[j] == 0
        invariant forall a, b :: 0 <= a < b < |nextList| ==> nextList[a] != nextList[b]
      {
        if inDegree[i] == 0 {
          nextList := nextList + [i];
        }
        i := i + 1;
      }
      DegreesZero(outEdges, {}, inDegree);
    }

    /** Releases the successors of every vertex of `preList`, in order. */
    method ReleaseAll(preList: seq<nat>)
      requires Shape() && nextList == []
      requires forall j :: 0 <= j < v ==> inDegree[j] == Pending(outEdges, done, j, v)
      requires forall j :: j in preList ==> j < v && j !in done
      requires forall a, b :: 0 <= a < b < |preList| ==> preList[a] != preList[b]
      modifies this`inDegree, this`nextList, this`done
      ensures Shape() && done == old(done) + Elems(preList)
      ensures forall j :: 0 <= j < v ==> inDegree[j] == Pending(outEdges, done, j, v)
      ensures forall j :: 0 <= j < v && old(inDegree[j]) == 0 ==> inDegree[j] == 0
      ensures forall j: nat :: j in nextList <==> j < v && old(inDegree[j]) > 0 && inDegree[j] == 0
      ensures forall a, b :: 0 <= a < b < |nextList| ==> nextList[a] != nextList[b]
    {
      var p := 0;
      while p < |preList|
        invariant 0 <= p <= |preList| && Shape()
        invariant done == old(done) + Elems(preList[..p])
        invariant forall j :: 0 <= j < v ==> inDegree[j] == Pending(outEdges, done, j, v)
        invariant forall j :: 0 <= j < v && old(inDegree[j]) == 0 ==> inDegree[j] == 0
        invariant forall j: nat :: j in nextList <==> j < v && old(inDegree[j]) > 0 && inDegree[j] == 0
        invariant forall a, b :: 0 <= a < b < |nextList| ==> nextList[a] != nextList[b]
      {
        var x := preList[p];
        ElemsSnoc(preList, p);
        assert x !in done;
        Release(x, done);
        done := done + {x};
        p := p + 1;
      }
      assert preList[..p] == preList;
    }

    /** Collects the vertices that the latest layer leaves without predecessors. */
    method NextLayer()
      requires Walking() && nextList != []
      modifies this`inDegree, this`nextList, this`done
      ensures Shape() && done == emitted
      ensures forall j :: 0 <= j < v ==> inDegree[j] == Pending(outEdges, done, j, v)
      ensures IsLayer(outEdges, emitted, nextList)
    {
      assert nextList[0] in emitted;
      ReleaseNext();
    }

    method ReleaseNext()
      requires Shape() && Closed(outEdges, done, done + Elems(nextList))
      requires forall j :: 0 <= j < v ==> inDegree[j] == Pending(outEdges, done, j, v)
      requires forall j :: j in nextList ==> j < v && j !in done
      requires forall a, b :: 0 <= a < b < |nextList| ==> nextList[a] != nextList[b]
      modifies this`inDegree, this`nextList, this`done
      ensures Shape() && done == old(done) + Elems(old(nextList)) && IsLayer(outEdges, done, nextList)
      ensures forall j :: 0 <= j < v ==> inDegree[j] == Pending(outEdges, done, j, v)
    {
      var preList := nextList;
      nextList := [];
      ReleaseAll(preList);
      NextIsLayer(outEdges, old(done), done, old(inDegree), inDegree, nextList);
    }

    /**
     * Hands out the next layer: all vertices, each once, that were not handed out yet and whose
     * predecessors all were. While vertices are left the layer is not empty.
     */
    method Next() returns (layer: seq<nat>)
      requires Walking() && HasNext()
      modifies this
      ensures Walking() && v == old(v) && outEdges == old(outEdges)
      ensures IsLayer(outEdges, old(emitted), layer) && layer != []
      ensures emitted == old(emitted) + Elems(layer) && |emitted| == |old(emitted)| + |layer|
    {
      ghost var before := emitted;
      if |nextList| == 0 {
        FirstLayer();
      } else {
        NextLayer();
      }
      layer := nextList;
      consumed := consumed + |nextList|;
      emitted := before + Elems(layer);
      DistinctSize(layer);
      assert before !! Elems(layer);
      LeftOver(before, layer);
      LayerClosed(outEdges, old(done), before, layer);
    }

    /** A vertex is left as long as fewer than `v` were handed out, so the layer has a member. */
    lemma LeftOver(before: set<nat>, layer: seq<nat>)
      requires Shape() && IsLayer(outEdges, before, layer)
      requires |before| < v && forall j :: j in before ==> j < v
      ensures layer != []
    {
      SubsetSize(before, Below(v));
      var left := Below(v) - before;
      assert |left| > 0;
      var j :| j in left;
      LayerProgress(outEdges, before, layer, j);
    }
  }
}
