/** Last-seen tables that forget what is older than a window, against a recount of the whole history. */
module SlidingSet {
  import opened Wrappers

  /** Some keys were seen together at one time. */
  datatype Visit<K> = Visit(keys: set<K>, at: int)

  /** The table after a visit: the keys are stamped, then everything older than the window is purged. */
  function Touch<K>(table: map<K, int>, v: Visit<K>, window: int): map<K, int>
  {
    map k | k in table.Keys + v.keys && (k in v.keys || v.at - table[k] <= window) ::
      if k in v.keys then v.at else table[k]
  }

  function Fold<K>(visits: seq<Visit<K>>, window: int): map<K, int>
  {
    if visits == [] then map[]
    else Touch(Fold(visits[..|visits| - 1], window), visits[|visits| - 1], window)
  }

  predicate InOrder<K>(visits: seq<Visit<K>>)
  {
    forall i, j :: 0 <= i <= j < |visits| ==> visits[i].at <= visits[j].at
  }

  /** The keys of all visits not older than the window at a given time. */
  function Recount<K>(visits: seq<Visit<K>>, now: int, window: int): set<K>
  {
    set i, k | 0 <= i < |visits| && now - visits[i].at <= window && k in visits[i].keys :: k
  }

  /** When a key was last seen. */
  function Latest<K>(visits: seq<Visit<K>>, k: K): Option<int>
  {
    if visits == [] then None
    else
      var last := visits[|visits| - 1];
      if k in last.keys then Some(last.at) else Latest(visits[..|visits| - 1], k)
  }

  lemma {:induction false} LatestIsLast<K>(visits: seq<Visit<K>>, k: K)
    requires InOrder(visits)
    ensures Latest(visits, k).Some? ==>
              exists i :: 0 <= i < |visits| && k in visits[i].keys && visits[i].at == Latest(visits, k).value
    ensures forall i :: 0 <= i < |visits| && k in visits[i].keys ==>
              Latest(visits, k).Some? && visits[i].at <= Latest(visits, k).value
  {
    if visits != [] {
      var n := |visits| - 1;
      var before := visits[..n];
      LatestIsLast(before, k);
      if k !in visits[n].keys {
        forall i | 0 <= i < |visits| && k in visits[i].keys
          ensures Latest(visits, k).Some? && visits[i].at <= Latest(visits, k).value
        {
          assert before[i] == visits[i];
        }
        if Latest(visits, k).Some? {
          var i :| 0 <= i < n && k in before[i].keys && before[i].at == Latest(before, k).value;
          assert k in visits[i].keys;
        }
      } else {
        assert visits[n].at == Latest(visits, k).value;
      }
    }
  }

  /** A key is in the table, with the time of its latest visit, just when that visit is inside the window. */
  lemma {:induction false} FoldAt<K>(visits: seq<Visit<K>>, window: int, k: K)
    requires visits != [] && InOrder(visits) && window >= 0
    ensures var now, latest := visits[|visits| - 1].at, Latest(visits, k);
            && (k in Fold(visits, window) <==> latest.Some? && now - latest.value <= window)
            && (k in Fold(visits, window) ==> Fold(visits, window)[k] == latest.value)
  {
    var n := |visits| - 1;
    var before := visits[..n];
    if before != [] {
      FoldAt(before, window, k);
      assert before[n - 1].at <= visits[n].at;
    }
  }

  /** The incremental table holds exactly the keys a recount of the whole history finds inside the window. */
  lemma FoldIsRecount<K>(visits: seq<Visit<K>>, window: int)
    requires visits != [] && InOrder(visits) && window >= 0
    ensures Fold(visits, window).Keys == Recount(visits, visits[|visits| - 1].at, window)
  {
    hide Fold, Latest;
    var now := visits[|visits| - 1].at;
    var table, recount := Fold(visits, window).Keys, Recount(visits, now, window);
    forall k | k in table ensures k in recount {
      FoldAt(visits, window, k);
      LatestIsLast(visits, k);
    }
    forall k | k in recount ensures k in table {
      FoldAt(visits, window, k);
      LatestIsLast(visits, k);
      var i :| 0 <= i < |visits| && now - visits[i].at <= window && k in visits[i].keys;
    }
  }

  /** Stamping the keys and then deleting stale entries one by one. */
  method Stamp<K(==)>(table: map<K, int>, v: Visit<K>, window: int) returns (r: map<K, int>)
    requires window >= 0
    ensures r == Touch(table, v, window)
  {
    r := table;
    var keys := v.keys;
    while keys != {}
      invariant keys <= v.keys && r.Keys == table.Keys + (v.keys - keys)
      invariant forall k :: k in r ==> r[k] == if k in v.keys - keys then v.at else table[k]
    {
      var k :| k in keys;
      r := r[k := v.at];
      keys := keys - {k};
    }
    r := PurgeSeenMap(r, v.at, window);
  }

  method PurgeSeenMap<K(==)>(seen: map<K, int>, now: int, window: int) returns (r: map<K, int>)
    ensures r == map k | k in seen && now - seen[k] <= window :: seen[k]
  {
    r := seen;
    var todo := seen.Keys;
    while todo != {}
      invariant todo <= seen.Keys
      invariant forall k :: k in r <==> k in seen && (k in todo || now - seen[k] <= window)
      invariant forall k :: k in r ==> r[k] == seen[k]
    {
      var k :| k in todo;
      if now - r[k] > window {
        r := r - {k};
      }
      todo := todo - {k};
    }
  }
}
