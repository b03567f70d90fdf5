/** Adding up, over the values of a map, the multiset of handles each value owns. */
module Tallies {
  type Handles = multiset<nat>

  ghost function Pick<K(!new), V>(m: map<K, V>): (k: K)
    requires m != map[]
    ensures k in m
  {
    var k :| k in m; k
  }

  ghost function Tally<K(!new), V>(m: map<K, V>, owned: V -> Handles): Handles
    decreases |m|
  {
    if m == map[] then multiset{} else owned(m[Pick(m)]) + Tally(m - {Pick(m)}, owned)
  }

  /** The order of picking does not matter. */
  lemma {:induction false} TallyRemove<K(!new), V>(m: map<K, V>, owned: V -> Handles, k: K)
    requires k in m
    ensures Tally(m, owned) == owned(m[k]) + Tally(m - {k}, owned)
    decreases |m|
  {
    var p := Pick(m);
    if k != p {
      TallyRemove(m - {p}, owned, k);
      TallyRemove(m - {k}, owned, p);
      assert m - {p} - {k} == m - {k} - {p};
    }
  }

  ghost function Worth<K(!new), V>(m: map<K, V>, owned: V -> Handles, k: K): Handles {
    if k in m then owned(m[k]) else multiset{}
  }

  lemma TallyAt<K(!new), V>(m: map<K, V>, owned: V -> Handles, k: K)
    ensures Tally(m, owned) == Worth(m, owned, k) + Tally(m - {k}, owned)
  {
    hide Tally;
    if k in m {
      TallyRemove(m, owned, k);
    } else {
      assert m - {k} == m;
    }
  }

  lemma TallyPut<K(!new), V>(m: map<K, V>, owned: V -> Handles, k: K, v: V)
    ensures Tally(m[k := v], owned) + Worth(m, owned, k) == Tally(m, owned) + owned(v)
  {
    hide Tally;
    TallyRemove(m[k := v], owned, k);
    assert m[k := v] - {k} == m - {k};
    TallyAt(m, owned, k);
  }

  lemma TallyNone<K(!new), V>(m: map<K, V>, owned: V -> Handles)
    requires m.Keys == {}
    ensures Tally(m, owned) == multiset{}
  {
    assert m == map[];
  }

  /** A map cut in two: each key goes to either side, or its value's worth is divided between both. */
  ghost predicate Splits<K(!new), V>(m: map<K, V>, a: map<K, V>, b: map<K, V>, owned: V -> Handles) {
    && a.Keys <= m.Keys && b.Keys <= m.Keys
    && forall k :: Worth(m, owned, k) == Worth(a, owned, k) + Worth(b, owned, k)
  }

  lemma SplitsLess<K(!new), V>(m: map<K, V>, a: map<K, V>, b: map<K, V>, owned: V -> Handles, k: K)
    requires Splits(m, a, b, owned)
    ensures Splits(m - {k}, a - {k}, b - {k}, owned)
  {
    forall j
      ensures Worth(m - {k}, owned, j) == Worth(a - {k}, owned, j) + Worth(b - {k}, owned, j)
    {
      assert Worth(m, owned, j) == Worth(a, owned, j) + Worth(b, owned, j);
    }
  }

  lemma {:induction false} TallySplit<K(!new), V>(m: map<K, V>, a: map<K, V>, b: map<K, V>, owned: V -> Handles)
    requires Splits(m, a, b, owned)
    ensures Tally(m, owned) == Tally(a, owned) + Tally(b, owned)
    decreases |m|
  {
    hide Tally, Worth;
    if m.Keys == {} {
      TallyNone(m, owned);
      TallyNone(a, owned);
      TallyNone(b, owned);
    } else {
      var k :| k in m.Keys;
      SplitsLess(m, a, b, owned, k);
      TallySplit(m - {k}, a - {k}, b - {k}, owned);
      TallyAt(m, owned, k);
      TallyAt(a, owned, k);
      TallyAt(b, owned, k);
      assert Worth(m, owned, k) == Worth(a, owned, k) + Worth(b, owned, k);
    }
  }

  /** The first `n` handles, each once. */
  ghost function FirstHandles(n: nat): Handles {
    if n == 0 then multiset{} else FirstHandles(n - 1) + multiset{n - 1}
  }

  lemma {:induction false} FirstHandlesOnce(n: nat, h: nat)
    ensures FirstHandles(n)[h] == if h < n then 1 else 0
  {
    if n > 0 {
      FirstHandlesOnce(n - 1, h);
    }
  }

  // ---- worklists over a map whose entries are taken out one by one ----

  /** A worklist `ids` over `all`, of which `done` is finished. */
  ghost predicate Remaining<K(!new)>(ids: set<K>, done: set<K>, all: set<K>) {
    ids !! done && ids + done == all
  }

  lemma Another<K(!new)>(ids: set<K>, done: set<K>, all: set<K>, k: K)
    requires Remaining(ids, done, all) && k in ids
    ensures k in all && k !in done && Remaining(ids - {k}, done + {k}, all)
    ensures |ids - {k}| < |ids|
  {
  }

  lemma AllDone<K(!new), V>(done: set<K>, gone: map<K, V>)
    requires Remaining({}, done, gone.Keys)
    ensures done == gone.Keys && (gone - done).Keys == {}
  {
  }

  lemma Untouched<K(!new), V>(was: map<K, V>, gone: map<K, V>)
    ensures was - {} == was && gone - {} == gone && Remaining(gone.Keys, {}, gone.Keys)
  {
  }

  lemma Nothing(hs: Handles)
    ensures hs + multiset{} == hs
  {
  }

  lemma OneMore<K(!new), V>(was: map<K, V>, gone: map<K, V>, done: set<K>, owned: V -> Handles, k: K)
    requires k in gone && k !in done
    ensures was - done - {k} == was - (done + {k})
    ensures Tally(gone - done, owned) == owned(gone[k]) + Tally(gone - (done + {k}), owned)
  {
    hide Tally;
    TallyRemove(gone - done, owned, k);
    assert gone - done - {k} == gone - (done + {k});
  }
}
