/** Transactions of one account by nonce, and the plain sorted sequence they stand for. */
module NonceOrder {
  import opened Types

  type Items = map<nat, Tx>

  predicate Keyed(items: Items) {
    forall n :: n in items ==> items[n].nonce == n
  }

  function Below(items: Items, nonce: nat): Items {
    map n | n in items && n < nonce :: items[n]
  }

  function From(items: Items, nonce: nat): Items {
    map n | n in items && n >= nonce :: items[n]
  }

  ghost predicate IsLeast(s: set<nat>, n: nat) {
    n in s && forall m :: m in s ==> n <= m
  }

  lemma {:induction false} HasLeast(s: set<nat>)
    requires s != {}
    ensures exists n :: IsLeast(s, n)
  {
    var x :| x in s;
    var rest := s - {x};
    assert forall m :: m in s ==> m == x || m in rest;
    if rest == {} {
      assert IsLeast(s, x);
    } else {
      HasLeast(rest);
      var y :| IsLeast(rest, y);
      assert IsLeast(s, if x < y then x else y);
    }
  }

  function Least(s: set<nat>): (n: nat)
    requires s != {}
    ensures n in s && forall m :: m in s ==> n <= m
  {
    HasLeast(s);
    var n :| n in s && forall m :: m in s ==> n <= m;
    n
  }

  /** The contents in the order of their nonces. */
  function Flat(items: Items): seq<Tx>
    decreases |items|
  {
    if items == map[] then []
    else
      var n := Least(items.Keys);
      [items[n]] + Flat(items - {n})
  }

  ghost predicate Increasing(txs: seq<Tx>) {
    forall i, j :: 0 <= i < j < |txs| ==> txs[i].nonce < txs[j].nonce
  }

  /** `txs` holds the transactions of `items`, each once. */
  ghost predicate Lists(txs: seq<Tx>, items: Items) {
    && |txs| == |items|
    && (forall i :: 0 <= i < |txs| ==> txs[i].nonce in items && items[txs[i].nonce] == txs[i])
    && (forall i, j :: 0 <= i < j < |txs| ==> txs[i].nonce != txs[j].nonce)
  }

  lemma Prepended(items: Items, n: nat, txs: seq<Tx>)
    requires Keyed(items) && n in items && (forall m :: m in items ==> n <= m)
    requires Lists(txs, items - {n}) && Increasing(txs)
    ensures Lists([items[n]] + txs, items) && Increasing([items[n]] + txs)
  {
    assert items.Keys == (items - {n}).Keys + {n};
    assert forall i :: 0 <= i < |txs| ==> txs[i].nonce in items - {n};
  }

  lemma {:induction false} FlatLists(items: Items)
    requires Keyed(items)
    ensures Lists(Flat(items), items) && Increasing(Flat(items))
    decreases |items|
  {
    if items != map[] {
      var n := Least(items.Keys);
      FlatLists(items - {n});
      Prepended(items, n, Flat(items - {n}));
    }
  }

  /** A listing in increasing order is the sorted sequence. */
  lemma {:induction false} FlatUnique(items: Items, txs: seq<Tx>)
    requires Keyed(items) && Lists(txs, items) && Increasing(txs)
    ensures txs == Flat(items)
    decreases |items|
  {
    if items == map[] {
      assert txs == [];
    } else {
      var n := Least(items.Keys);
      ListsAll(txs, items, n);
      assert txs[0].nonce == n;
      var rest := items - {n};
      assert items.Keys == rest.Keys + {n};
      FlatUnique(rest, txs[1..]);
    }
  }

  /** Whatever lists as many distinct transactions as there are lists them all. */
  lemma {:induction false} ListsAll(txs: seq<Tx>, items: Items, n: nat)
    requires Lists(txs, items) && n in items
    ensures exists i :: 0 <= i < |txs| && txs[i].nonce == n
    decreases |txs|
  {
    if |txs| > 0 {
      var last := txs[|txs| - 1];
      if last.nonce != n {
        var rest := items - {last.nonce};
        assert items.Keys == rest.Keys + {last.nonce};
        var init := txs[..|txs| - 1];
        ListsAll(init, rest, n);
        var i :| 0 <= i < |init| && init[i].nonce == n;
        assert txs[i].nonce == n;
      }
    }
  }

  lemma Concatenated(items: Items, nonce: nat, a: seq<Tx>, b: seq<Tx>)
    requires Keyed(items) && Increasing(a) && Increasing(b)
    requires Lists(a, Below(items, nonce)) && Lists(b, From(items, nonce))
    ensures |items| == |a| + |b| && Lists(a + b, items) && Increasing(a + b)
  {
    assert items.Keys == Below(items, nonce).Keys + From(items, nonce).Keys;
    var txs := a + b;
    assert forall i :: 0 <= i < |txs| ==> txs[i].nonce in items && items[txs[i].nonce] == txs[i];
    forall i, j | 0 <= i < j < |txs| ensures txs[i].nonce < txs[j].nonce {
      if i < |a| <= j {
        assert a[i].nonce < nonce <= b[j - |a|].nonce;
      }
    }
  }

  /** Splitting the contents at a nonce splits the sorted sequence. */
  lemma FlatSplit(items: Items, nonce: nat)
    requires Keyed(items)
    ensures Flat(items) == Flat(Below(items, nonce)) + Flat(From(items, nonce))
    ensures |items| == |Below(items, nonce)| + |From(items, nonce)|
  {
    var low, high := Below(items, nonce), From(items, nonce);
    FlatLists(low);
    FlatLists(high);
    Concatenated(items, nonce, Flat(low), Flat(high));
    FlatUnique(items, Flat(low) + Flat(high));
  }

  /** A sorted sequence cut at one of its nonces: what lies below is the front part. */
  lemma FlatCut(items: Items, k: nat)
    requires Keyed(items) && k < |Flat(items)|
    ensures Flat(Below(items, Flat(items)[k].nonce)) == Flat(items)[..k]
    ensures |Below(items, Flat(items)[k].nonce)| == k
  {
    FlatLists(items);
    var flat := Flat(items);
    var cut := flat[k].nonce;
    var low, high := Below(items, cut), From(items, cut);
    FlatSplit(items, cut);
    FlatLists(low);
    FlatLists(high);
    var m := |low|;
    assert forall i :: 0 <= i < m ==> flat[i] == Flat(low)[i] && flat[i].nonce < cut;
    assert m < |flat| ==> flat[m] == Flat(high)[0] && flat[m].nonce >= cut;
  }
}
