/**
 * Binary heaps as container/heap keeps them in a slice, for any order given by an integer rank. The
 * pool's lists use one over nonces and one over prices (core/tx_list.go).
 */
module Heap {

  function Parent(i: nat): (p: nat)
    requires i > 0
    ensures p < i && (i == 2 * p + 1 || i == 2 * p + 2)
  {
    (i - 1) / 2
  }

  ghost predicate Edge<T>(h: seq<T>, rank: T -> int, i: nat)
    requires 0 < i < |h|
  {
    rank(h[Parent(i)]) <= rank(h[i])
  }

  ghost predicate IsHeap<T>(h: seq<T>, rank: T -> int) {
    forall i: nat {:trigger Edge(h, rank, i)} :: 0 < i < |h| ==> Edge(h, rank, i)
  }

  /** The first of a heap has the least rank. */
  lemma {:induction false} RootIsLeast<T>(h: seq<T>, rank: T -> int, i: nat)
    requires IsHeap(h, rank) && i < |h|
    ensures rank(h[0]) <= rank(h[i])
  {
    if i > 0 {
      assert Edge(h, rank, i);
      RootIsLeast(h, rank, Parent(i));
    }
  }

  function Swap<T>(h: seq<T>, i: nat, j: nat): seq<T>
    requires i < |h| && j < |h|
  {
    h[i := h[j]][j := h[i]]
  }

  lemma SwapKeeps<T>(h: seq<T>, i: nat, j: nat)
    requires i < |h| && j < |h|
    ensures |Swap(h, i, j)| == |h| && multiset(Swap(h, i, j)) == multiset(h)
  {
  }

  /** Among the first `n`, every edge from a parent at `low` or later is ordered, save those below `hole` and that into `loose`. */
  ghost predicate Ordered<T>(h: seq<T>, rank: T -> int, n: nat, low: nat, hole: int, loose: nat)
    requires n <= |h|
  {
    forall e: nat {:trigger Edge(h, rank, e)} ::
      0 < e < n && low <= Parent(e) && Parent(e) != hole && e != loose ==> Edge(h, rank, e)
  }

  /** The entries below `i` are ordered with the entry above it. */
  ghost predicate Bridged<T>(h: seq<T>, rank: T -> int, n: nat, low: nat, i: nat)
    requires n <= |h| && i < |h|
  {
    i > 0 && low <= Parent(i) ==>
      && (2 * i + 1 < n ==> rank(h[Parent(i)]) <= rank(h[2 * i + 1]))
      && (2 * i + 2 < n ==> rank(h[Parent(i)]) <= rank(h[2 * i + 2]))
  }

  /** Moves an entry up to where its parent is no greater. */
  method Up<T>(h: seq<T>, rank: T -> int, j: nat) returns (r: seq<T>)
    requires j < |h| && Ordered(h, rank, |h|, 0, -1, j) && Bridged(h, rank, |h|, 0, j)
    ensures IsHeap(r, rank) && multiset(r) == multiset(h) && |r| == |h|
  {
    var k: nat := j;
    r := h;
    while k > 0 && rank(r[k]) < rank(r[Parent(k)])
      invariant k < |r| == |h| && multiset(r) == multiset(h)
      invariant Ordered(r, rank, |r|, 0, -1, k) && Bridged(r, rank, |r|, 0, k)
      decreases k
    {
      SwapKeeps(r, k, Parent(k));
      UpStep(r, rank, k);
      r := Swap(r, k, Parent(k));
      k := Parent(k);
    }
    assert k > 0 ==> Edge(r, rank, k);
  }

  lemma UpStep<T>(h: seq<T>, rank: T -> int, j: nat)
    requires 0 < j < |h| && Ordered(h, rank, |h|, 0, -1, j) && Bridged(h, rank, |h|, 0, j)
    requires rank(h[j]) < rank(h[Parent(j)])
    ensures var s := Swap(h, j, Parent(j));
            Ordered(s, rank, |h|, 0, -1, Parent(j)) && Bridged(s, rank, |h|, 0, Parent(j))
  {
    var p := Parent(j);
    var s := Swap(h, j, p);
    forall e: nat | 0 < e < |h| && e != p ensures Edge(s, rank, e) {
      if e != j {
        assert Edge(h, rank, e);
      }
    }
    assert p > 0 ==> Edge(h, rank, p);
    assert 2 * p + 1 < |h| && 2 * p + 1 != j ==> Edge(h, rank, 2 * p + 1);
    assert 2 * p + 2 < |h| && 2 * p + 2 != j ==> Edge(h, rank, 2 * p + 2);
  }

  /** The child of `i` among the first `n` that has the least rank. */
  predicate LeastChild<T>(h: seq<T>, rank: T -> int, n: nat, i: nat, j: nat)
    requires n <= |h|
  {
    && 2 * i + 1 <= j <= 2 * i + 2 && j < n
    && rank(h[j]) <= rank(h[2 * i + 1]) && (2 * i + 2 < n ==> rank(h[j]) <= rank(h[2 * i + 2]))
  }

  lemma DownStep<T>(h: seq<T>, rank: T -> int, n: nat, low: nat, i: nat, j: nat, loose: nat)
    requires i < n <= |h| && low <= i && LeastChild(h, rank, n, i, j) && rank(h[j]) < rank(h[i])
    requires Ordered(h, rank, n, low, i, loose) && Bridged(h, rank, n, low, i) && (loose == i || loose == 0)
    ensures var s := Swap(h, i, j); Ordered(s, rank, n, low, j, 0) && Bridged(s, rank, n, low, j)
  {
    var s := Swap(h, i, j);
    assert Parent(j) == i && Edge(s, rank, j);
    forall e: nat | 0 < e < n && low <= Parent(e) && Parent(e) != j ensures Edge(s, rank, e) {
      if e == i {
        assert Bridged(h, rank, n, low, i);
      } else if Parent(e) == i {
        assert e == 2 * i + 1 || e == 2 * i + 2;
      } else {
        assert Edge(h, rank, e);
      }
    }
    assert 2 * j + 1 < n ==> Edge(h, rank, 2 * j + 1);
    assert 2 * j + 2 < n ==> Edge(h, rank, 2 * j + 2);
  }

  lemma NoChildBelow<T>(h: seq<T>, rank: T -> int, n: nat, low: nat, i: nat, loose: nat)
    requires i < n <= |h| && Ordered(h, rank, n, low, i, loose)
    requires 2 * i + 1 < n ==> rank(h[i]) <= rank(h[2 * i + 1])
    requires 2 * i + 2 < n ==> rank(h[i]) <= rank(h[2 * i + 2])
    ensures Ordered(h, rank, n, low, -1, loose)
  {
    forall e: nat | 0 < e < n && low <= Parent(e) && e != loose ensures Edge(h, rank, e) {
      assert Parent(e) == i ==> e == 2 * i + 1 || e == 2 * i + 2;
    }
  }

  /**
   * Moves an entry down, among the first `n`, to where its children are no smaller. If it did not
   * move, the edge into it is as it was.
   */
  method Down<T>(h: seq<T>, rank: T -> int, i0: nat, n: nat, ghost low: nat) returns (r: seq<T>, moved: bool)
    requires i0 < n <= |h| && low <= i0 && Ordered(h, rank, n, low, i0, i0) && Bridged(h, rank, n, low, i0)
    ensures |r| == |h| && r[n..] == h[n..] && multiset(r) == multiset(h)
    ensures moved ==> Ordered(r, rank, n, low, -1, 0)
    ensures !moved ==> r == h && Ordered(r, rank, n, low, -1, i0)
  {
    var i: nat := i0;
    r := h;
    while true
      invariant Sinking(h, r, rank, n, low, i0, i)
      decreases n - i
    {
      if 2 * i + 1 >= n {
        NoChildBelow(r, rank, n, low, i, if i == i0 then i0 else 0);
        break;
      }
      var j: nat := 2 * i + 1;
      if j + 1 < n && rank(r[j + 1]) < rank(r[j]) {
        j := j + 1;
      }
      if rank(r[j]) >= rank(r[i]) {
        NoChildBelow(r, rank, n, low, i, if i == i0 then i0 else 0);
        break;
      }
      SinkStep(h, r, rank, n, low, i0, i, j);
      r := Swap(r, i, j);
      i := j;
    }
    moved := i > i0;
  }

  /** The entry that was at `i0` of `h` is at `i` of `r`, and only it may be out of order. */
  ghost predicate Sinking<T>(h: seq<T>, r: seq<T>, rank: T -> int, n: nat, low: nat, i0: nat, i: nat) {
    && i0 <= i < n <= |h| == |r| && low <= i0 && r[n..] == h[n..] && multiset(r) == multiset(h) && (i == i0 ==> r == h)
    && Ordered(r, rank, n, low, i, if i == i0 then i0 else 0) && Bridged(r, rank, n, low, i)
  }

  lemma SinkStep<T>(h: seq<T>, r: seq<T>, rank: T -> int, n: nat, low: nat, i0: nat, i: nat, j: nat)
    requires Sinking(h, r, rank, n, low, i0, i) && LeastChild(r, rank, n, i, j) && rank(r[j]) < rank(r[i])
    ensures Sinking(h, Swap(r, i, j), rank, n, low, i0, j)
  {
    SwapKeeps(r, i, j);
    DownStep(r, rank, n, low, i, j, if i == i0 then i0 else 0);
  }

  method Push<T>(h: seq<T>, rank: T -> int, x: T) returns (r: seq<T>)
    requires IsHeap(h, rank)
    ensures IsHeap(r, rank) && multiset(r) == multiset(h) + multiset{x} && |r| == |h| + 1
  {
    var s := h + [x];
    forall e: nat | 0 < e < |s| && e != |h| ensures Edge(s, rank, e) {
      assert Edge(h, rank, e);
    }
    r := Up(s, rank, |h|);
  }

  /** Moves the last entry to `i`, whose own goes last. */
  lemma Replaced<T>(h: seq<T>, rank: T -> int, i: nat)
    requires IsHeap(h, rank) && i < |h| - 1
    ensures var s, n := Swap(h, i, |h| - 1), |h| - 1;
            Ordered(s, rank, n, 0, i, i) && Bridged(s, rank, n, 0, i)
  {
    var s, n := Swap(h, i, |h| - 1), |h| - 1;
    forall e: nat | 0 < e < n && Parent(e) != i && e != i ensures Edge(s, rank, e) {
      assert Edge(h, rank, e);
    }
    assert i > 0 ==> Edge(h, rank, i);
    assert 2 * i + 1 < n ==> Edge(h, rank, 2 * i + 1);
    assert 2 * i + 2 < n ==> Edge(h, rank, 2 * i + 2);
  }

  lemma Shortened<T>(h: seq<T>, t: seq<T>, rank: T -> int, loose: nat)
    requires |h| > 0 && t == h[..|h| - 1]
    ensures Ordered(h, rank, |t|, 0, -1, loose) ==> Ordered(t, rank, |t|, 0, -1, loose)
    ensures loose < |t| && Bridged(h, rank, |t|, 0, loose) ==> Bridged(t, rank, |t|, 0, loose)
    ensures multiset(t) == multiset(h) - multiset{h[|h| - 1]}
  {
    assert h == t + [h[|h| - 1]];
    assert forall e: nat {:trigger Edge(t, rank, e)} :: 0 < e < |t| ==> Edge(t, rank, e) == Edge(h, rank, e);
  }

  /** Takes out the entry of least rank. */
  method Pop<T>(h: seq<T>, rank: T -> int) returns (r: seq<T>, x: T)
    requires IsHeap(h, rank) && |h| > 0
    ensures x == h[0] && IsHeap(r, rank) && multiset(r) == multiset(h) - multiset{x} && |r| == |h| - 1
  {
    var n := |h| - 1;
    if n == 0 {
      assert h == [h[0]];
      return [], h[0];
    }
    Replaced(h, rank, 0);
    SwapKeeps(h, 0, n);
    var s, _ := Down(Swap(h, 0, n), rank, 0, n, 0);
    assert s[n] == s[n..][0] == h[0];
    Shortened(s, s[..n], rank, 0);
    return s[..n], s[n];
  }

  /** Takes out the entry at an index. */
  method Remove<T>(h: seq<T>, rank: T -> int, i: nat) returns (r: seq<T>)
    requires IsHeap(h, rank) && i < |h|
    ensures IsHeap(r, rank) && multiset(r) == multiset(h) - multiset{h[i]} && |r| == |h| - 1
  {
    var n := |h| - 1;
    if i == n {
      assert Ordered(h, rank, n, 0, -1, 0);
      Shortened(h, h[..n], rank, 0);
      return h[..n];
    }
    Replaced(h, rank, i);
    SwapKeeps(h, i, n);
    var s, moved := Down(Swap(h, i, n), rank, i, n, 0);
    assert s[n] == s[n..][0] == h[i];
    r := s[..n];
    if moved {
      Shortened(s, r, rank, 0);
    } else {
      Shortened(s, r, rank, i);
      r := Up(r, rank, i);
    }
  }

  /** Turns any sequence into a heap. */
  method Init<T>(h: seq<T>, rank: T -> int) returns (r: seq<T>)
    ensures IsHeap(r, rank) && multiset(r) == multiset(h) && |r| == |h|
  {
    r := h;
    var n := |h|;
    var i: nat := n / 2;
    while i > 0
      invariant i <= n / 2 && |r| == n && multiset(r) == multiset(h) && Ordered(r, rank, n, i, -1, 0)
    {
      i := i - 1;
      assert Bridged(r, rank, n, i, i);
      var moved;
      r, moved := Down(r, rank, i, n, i);
    }
    assert forall e: nat {:trigger Edge(r, rank, e)} :: 0 < e < n ==> Edge(r, rank, e);
  }

  ghost predicate Sorted<T>(s: seq<T>, rank: T -> int) {
    forall i, j :: 0 <= i < j < |s| ==> rank(s[i]) <= rank(s[j])
  }

  /** What sort.Sort promises: the same entries, by rank. */
  method Sort<T>(s: seq<T>, rank: T -> int) returns (r: seq<T>)
    ensures Sorted(r, rank) && multiset(r) == multiset(s) && |r| == |s|
  {
    var h := Init(s, rank);
    r := [];
    while |h| > 0
      invariant IsHeap(h, rank) && Sorted(r, rank) && multiset(r) + multiset(h) == multiset(s) && |r| + |h| == |s|
      invariant forall x, y :: x in r && y in h ==> rank(x) <= rank(y)
    {
      forall y | y in h ensures rank(h[0]) <= rank(y) {
        var i :| 0 <= i < |h| && h[i] == y;
        RootIsLeast(h, rank, i);
      }
      ghost var before := h;
      var x;
      h, x := Pop(h, rank);
      forall y | y in h ensures y in before {
        assert y in multiset(h);
      }
      r := r + [x];
    }
  }

  // ----- Sequences without repeats -----

  /** A sequence that holds the elements of a set once each. */
  lemma NoRepeats<T>(s: seq<T>, t: set<T>)
    requires multiset(s) == multiset(t)
    ensures |s| == |t| && (forall i, j :: 0 <= i < j < |s| ==> s[i] != s[j]) && (forall x :: x in s <==> x in t)
  {
    forall x ensures x in s <==> x in t {
      assert x in s <==> x in multiset(s);
    }
    forall i, j | 0 <= i < j < |s| ensures s[i] != s[j] {
      assert s == s[..j] + s[j..];
      assert s[i] in multiset(s[..j]) && s[j] in multiset(s[j..]);
      assert multiset(s)[s[j]] <= 1;
    }
    assert |multiset(s)| == |s|;
  }

  lemma {:induction false} HoldsOnce<T>(s: seq<T>, t: set<T>)
    requires (forall i, j :: 0 <= i < j < |s| ==> s[i] != s[j]) && (forall x :: x in s <==> x in t)
    ensures multiset(s) == multiset(t)
  {
    if s == [] {
      assert t == {};
    } else {
      var x, rest := s[|s| - 1], s[..|s| - 1];
      assert s == rest + [x];
      HoldsOnce(rest, t - {x});
    }
  }
}
