/** Capacity trimming of an insertion-ordered table: the entries with the smallest stamps go first. */
module AgeTrim {
  import opened Collections

  /** The order lists each key of the table once. */
  ghost predicate Lists<K(!new)>(order: seq<K>, keys: set<K>)
  {
    Distinct(order) && forall k :: k in order <==> k in keys
  }

  lemma {:induction false} ListsSize<K(!new)>(order: seq<K>, keys: set<K>)
    requires Lists(order, keys)
    ensures |order| == |keys|
  {
    if order == [] {
      assert keys == {};
    } else {
      var n := |order| - 1;
      var init, last := order[..n], order[n];
      assert order == init + [last];
      ListsSize(init, keys - {last});
    }
  }

  /** A stable sort places an entry after all entries that are not younger. */
  function InsertStable<K(==)>(sorted: seq<K>, x: K, stamp: map<K, int>): (r: seq<K>)
    requires x in stamp && forall k <- sorted :: k in stamp
    ensures forall k <- r :: k in stamp
    ensures multiset(r) == multiset(sorted) + multiset{x}
    ensures forall k <- r :: k == x || k in sorted
  {
    if sorted == [] then [x]
    else
      var n := |sorted| - 1;
      assert sorted == sorted[..n] + [sorted[n]];
      if stamp[x] >= stamp[sorted[n]] then sorted + [x]
      else InsertStable(sorted[..n], x, stamp) + [sorted[n]]
  }

  function SortByAge<K(==)>(order: seq<K>, stamp: map<K, int>): (r: seq<K>)
    requires forall k <- order :: k in stamp
    ensures forall k <- r :: k in stamp
    ensures multiset(r) == multiset(order)
  {
    if order == [] then []
    else
      var n := |order| - 1;
      assert order == order[..n] + [order[n]];
      InsertStable(SortByAge(order[..n], stamp), order[n], stamp)
  }

  /** The entries with one stamp, in their order. */
  function Having<K>(s: seq<K>, stamp: map<K, int>, v: int): seq<K>
    requires forall k <- s :: k in stamp
  {
    if s == [] then []
    else
      var n := |s| - 1;
      Having(s[..n], stamp, v) + if stamp[s[n]] == v then [s[n]] else []
  }

  lemma HavingSnoc<K>(s: seq<K>, x: K, stamp: map<K, int>, v: int)
    requires x in stamp && forall k <- s :: k in stamp
    ensures Having(s + [x], stamp, v) == Having(s, stamp, v) + if stamp[x] == v then [x] else []
  {
    assert (s + [x])[..|s|] == s;
  }

  lemma {:induction false} InsertKeepsOrder<K(!new)>(sorted: seq<K>, x: K, stamp: map<K, int>, v: int)
    requires x in stamp && forall k <- sorted :: k in stamp
    ensures Having(InsertStable(sorted, x, stamp), stamp, v)
         == Having(sorted, stamp, v) + if stamp[x] == v then [x] else []
  {
    hide Having;
    var n := |sorted| - 1;
    if sorted == [] || stamp[x] >= stamp[sorted[n]] {
      HavingSnoc(sorted, x, stamp, v);
      assert [] + [x] == [x];
    } else {
      var init, last := sorted[..n], sorted[n];
      InsertKeepsOrder(init, x, stamp, v);
      assert sorted == init + [last];
      HavingSnoc(init, last, stamp, v);
      HavingSnoc(InsertStable(init, x, stamp), last, stamp, v);
    }
  }

  /** Entries of the same age keep the order in which they were inserted. */
  lemma {:induction false} SortIsStable<K(!new)>(order: seq<K>, stamp: map<K, int>, v: int)
    requires forall k <- order :: k in stamp
    ensures Having(SortByAge(order, stamp), stamp, v) == Having(order, stamp, v)
  {
    if order != [] {
      var n := |order| - 1;
      SortIsStable(order[..n], stamp, v);
      InsertKeepsOrder(SortByAge(order[..n], stamp), order[n], stamp, v);
    }
  }

  predicate ByAge<K(==)>(s: seq<K>, stamp: map<K, int>)
    requires forall k <- s :: k in stamp
  {
    forall i, j :: 0 <= i < j < |s| ==> stamp[s[i]] <= stamp[s[j]]
  }

  lemma {:induction false} InsertSorted<K(!new)>(sorted: seq<K>, x: K, stamp: map<K, int>)
    requires x in stamp && (forall k <- sorted :: k in stamp) && ByAge(sorted, stamp)
    ensures ByAge(InsertStable(sorted, x, stamp), stamp)
  {
    var n := |sorted| - 1;
    if sorted != [] && stamp[x] < stamp[sorted[n]] {
      var init := sorted[..n];
      InsertSorted(init, x, stamp);
      var r := InsertStable(init, x, stamp);
      forall k | k in r ensures stamp[k] <= stamp[sorted[n]] {
        if k != x {
          var i :| 0 <= i < n && init[i] == k;
          assert sorted[i] == k;
        }
      }
    }
  }

  lemma {:induction false} SortSorted<K(!new)>(order: seq<K>, stamp: map<K, int>)
    requires forall k <- order :: k in stamp
    ensures ByAge(SortByAge(order, stamp), stamp)
  {
    if order != [] {
      var n := |order| - 1;
      SortSorted(order[..n], stamp);
      InsertSorted(SortByAge(order[..n], stamp), order[n], stamp);
    }
  }

  /** An entry inserted last and not older than any other sorts last. */
  lemma YoungestIsLast<K(!new)>(order: seq<K>, stamp: map<K, int>)
    requires (forall k <- order :: k in stamp) && Youngest(order, stamp)
    ensures var sorted := SortByAge(order, stamp);
            sorted != [] && sorted[|sorted| - 1] == order[|order| - 1]
  {
    var n := |order| - 1;
    var before := SortByAge(order[..n], stamp);
    if before != [] {
      var m := before[|before| - 1];
      assert m in multiset(before);
      assert m in order[..n];
    }
  }

  lemma SortDistinct<K(!new)>(order: seq<K>, stamp: map<K, int>)
    requires Distinct(order) && forall k <- order :: k in stamp
    ensures Distinct(SortByAge(order, stamp))
  {
    var r := SortByAge(order, stamp);
    forall i, j | 0 <= i < j < |r| ensures r[i] != r[j] {
      Once(order, r[i]);
      assert multiset(r)[r[i]] == multiset(order)[r[i]];
      if r[i] == r[j] {
        Twice(r, i, j);
      }
    }
  }

  lemma Twice<K(!new)>(s: seq<K>, i: nat, j: nat)
    requires i < j < |s| && s[i] == s[j]
    ensures multiset(s)[s[i]] >= 2
  {
    assert s == s[..i] + [s[i]] + s[i + 1..j] + [s[j]] + s[j + 1..];
  }

  lemma {:induction false} Once<K(!new)>(s: seq<K>, x: K)
    requires Distinct(s)
    ensures multiset(s)[x] <= 1
  {
    if s != [] {
      var n := |s| - 1;
      assert s == s[..n] + [s[n]];
      Once(s[..n], x);
      assert s[n] !in s[..n];
      assert multiset(s[..n])[s[n]] == 0;
    }
  }

  function Without<K(==,!new)>(order: seq<K>, gone: set<K>): (r: seq<K>)
    ensures forall k :: k in r <==> k in order && k !in gone
    ensures Distinct(order) ==> Distinct(r)
    ensures order != [] && order[|order| - 1] !in gone ==> r != [] && r[|r| - 1] == order[|order| - 1]
  {
    if order == [] then []
    else
      var n := |order| - 1;
      assert order == order[..n] + [order[n]];
      Without(order[..n], gone) + if order[n] in gone then [] else [order[n]]
  }

  lemma ListsAdd<K(!new)>(order: seq<K>, keys: set<K>, k: K)
    requires Lists(order, keys) && k !in keys
    ensures Lists(order + [k], keys + {k})
  {
  }

  lemma ListsWithout<K(!new)>(order: seq<K>, keys: set<K>, gone: set<K>)
    requires Lists(order, keys)
    ensures Lists(Without(order, gone), keys - gone)
  {
  }

  lemma SortLists<K(!new)>(order: seq<K>, stamp: map<K, int>)
    requires Lists(order, stamp.Keys)
    ensures var sorted := SortByAge(order, stamp);
            Lists(sorted, stamp.Keys) && ByAge(sorted, stamp) && |sorted| == |order|
  {
    var sorted := SortByAge(order, stamp);
    SortSorted(order, stamp);
    SortDistinct(order, stamp);
    assert |multiset(sorted)| == |multiset(order)|;
    forall k ensures k in sorted <==> k in stamp.Keys {
      assert k in sorted <==> k in multiset(sorted);
      assert k in order <==> k in multiset(order);
    }
  }

  function Firsts<K(==)>(s: seq<K>, n: nat): set<K>
    requires n <= |s|
  {
    set i | 0 <= i < n :: s[i]
  }

  lemma NoFirsts<K(!new)>(s: seq<K>)
    ensures Firsts(s, 0) == {}
  {
  }

  lemma FirstsStep<K(!new)>(s: seq<K>, keys: set<K>, n: nat)
    requires Lists(s, keys) && n < |s|
    ensures s[n] in keys && s[n] !in Firsts(s, n)
    ensures Firsts(s, n + 1) == Firsts(s, n) + {s[n]}
  {
  }

  lemma FirstsOldest<K(!new)>(s: seq<K>, stamp: map<K, int>, n: nat)
    requires Lists(s, stamp.Keys) && ByAge(s, stamp) && n <= |s|
    ensures OldestWent(stamp, Firsts(s, n))
    ensures n < |s| ==> s[|s| - 1] !in Firsts(s, n)
  {
    forall e, k | e in Firsts(s, n) && k in stamp && k !in Firsts(s, n) ensures stamp[e] <= stamp[k] {
      var i :| 0 <= i < n && s[i] == e;
      assert k in s;
      var j :| 0 <= j < |s| && s[j] == k;
      assert j >= n;
    }
  }

  /** Deletes the oldest entries beyond the limit. */
  method TrimOldEntries<K(==,!new)>(order: seq<K>, stamp: map<K, int>, maxEntries: nat)
    returns (kept: seq<K>, gone: set<K>)
    requires Lists(order, stamp.Keys) && maxEntries > 0
    ensures gone <= stamp.Keys && Lists(kept, stamp.Keys - gone)
    ensures |gone| == if |order| <= maxEntries then 0 else |order| - maxEntries
    ensures |kept| == |order| - |gone|
    ensures OldestWent(stamp, gone)
    ensures |gone| <= |SortByAge(order, stamp)| && gone == Firsts(SortByAge(order, stamp), |gone|)
    ensures Youngest(order, stamp) ==> order[|order| - 1] !in gone
  {
    NoneWent(stamp);
    hide Distinct, SortByAge, ByAge, Firsts, Youngest, OldestWent, Without;
    kept, gone := order, {};
    assert stamp.Keys - gone == stamp.Keys;
    ListsSize(order, stamp.Keys);
    NoFirsts(SortByAge(order, stamp));
    if |order| <= maxEntries { return; }
    SortLists(order, stamp);
    var sorted := SortByAge(order, stamp);
    var removeCount := |order| - maxEntries;
    kept, gone := DeleteFirsts(order, stamp.Keys, sorted, removeCount);
    ListsSize(kept, stamp.Keys - gone);
    assert |stamp.Keys - gone| == |stamp.Keys| - |gone|;
    FirstsOldest(sorted, stamp, removeCount);
    if Youngest(order, stamp) {
      YoungestIsLast(order, stamp);
    }
  }

  method DeleteFirsts<K(==,!new)>(order: seq<K>, keys: set<K>, sorted: seq<K>, n: nat)
    returns (kept: seq<K>, gone: set<K>)
    requires Lists(order, keys) && Lists(sorted, keys) && n <= |sorted|
    ensures gone == Firsts(sorted, n) && gone <= keys && |gone| == n
    ensures Lists(kept, keys - gone)
  {
    hide Distinct, Firsts, Lists, Without;
    kept, gone := order, {};
    assert keys - gone == keys;
    NoFirsts(sorted);
    for i := 0 to n
      invariant gone == Firsts(sorted, i) && gone <= keys && |gone| == i
      invariant Lists(kept, keys - gone)
    {
      FirstsStep(sorted, keys, i);
      ListsWithout(kept, keys - gone, {sorted[i]});
      kept := Without(kept, {sorted[i]});
      assert keys - gone - {sorted[i]} == keys - (gone + {sorted[i]});
      gone := gone + {sorted[i]};
    }
  }

  /** No entry that went is younger than one that stays. */
  ghost predicate OldestWent<K(!new)>(stamp: map<K, int>, gone: set<K>)
  {
    forall e, k :: e in gone && e in stamp && k in stamp && k !in gone ==> stamp[e] <= stamp[k]
  }

  lemma NoneWent<K(!new)>(stamp: map<K, int>)
    ensures OldestWent(stamp, {})
  {
  }

  /** The entry inserted last is not older than any other. */
  predicate Youngest<K(==)>(order: seq<K>, stamp: map<K, int>)
    requires forall k <- order :: k in stamp
  {
    order != [] && forall k <- order :: stamp[k] <= stamp[order[|order| - 1]]
  }
}
