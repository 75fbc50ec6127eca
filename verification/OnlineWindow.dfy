/** The online-user cache: who had traffic on which node inside a sliding window. */
module OnlineWindow {
  import opened Wrappers
  import opened SlidingSet
  import opened ReportRouting

  /** The users a report attributes to one tracked node: by protocol when the report carries any, and otherwise every
      node of the machine mirrors them all. */
  function Attributed(c: Context, rs: seq<Record>, node: nat): set<nat>
    requires c.tracked != []
  {
    set i | 0 <= i < |rs| && ResolveUser(rs[i], c.tags) != 0
            && (HasProtocolSplit(rs) ==> ResolveTarget(rs[i], BuildProtocolNodeMap(c.tracked)) == node)
          :: ResolveUser(rs[i], c.tags)
  }

  /** Each node's reports so far: the users of each and its time. */
  type History = map<nat, seq<Visit<nat>>>

  /** A record without a protocol says nothing about the node: when no record names one, every node of the machine is
      attributed every user of the report; otherwise each user counts for the node its records are routed to. */
  lemma AttributedIs(c: Context, rs: seq<Record>, node: nat, u: nat)
    requires c.tracked != []
    ensures (forall r <- rs :: r.proto.Unknown?) ==>
              (u in Attributed(c, rs, node) <==> u != 0 && exists r <- rs :: ResolveUser(r, c.tags) == u)
    ensures (exists r <- rs :: !r.proto.Unknown?) ==>
              (u in Attributed(c, rs, node) <==>
               u != 0 && exists r <- rs ::
                 ResolveUser(r, c.tags) == u && ResolveTarget(r, BuildProtocolNodeMap(c.tracked)) == node)
  {
    hide ResolveUser, ResolveTarget;
    assert forall i :: 0 <= i < |rs| ==> rs[i] in rs;
  }

  function UsersOf(m: map<nat, set<nat>>, node: nat): set<nat>
  {
    if node in m then m[node] else {}
  }

  /** The users of the first n records that go to one node. */
  function RoutedTo(c: Context, split: bool, rs: seq<Record>, n: nat, node: nat): set<nat>
    requires c.tracked != [] && n <= |rs|
  {
    if n == 0 then {}
    else
      var r := rs[n - 1];
      var target := if split then ResolveTarget(r, BuildProtocolNodeMap(c.tracked)) else c.tracked[0].id;
      RoutedTo(c, split, rs, n - 1, node)
      + if ResolveUser(r, c.tags) != 0 && target == node then {ResolveUser(r, c.tags)} else {}
  }

  lemma {:induction false} RoutedMember(c: Context, split: bool, rs: seq<Record>, n: nat, node: nat, u: nat)
    requires c.tracked != [] && n <= |rs|
    ensures u in RoutedTo(c, split, rs, n, node) <==>
            exists i :: 0 <= i < n && ResolveUser(rs[i], c.tags) == u != 0
              && (if split then ResolveTarget(rs[i], BuildProtocolNodeMap(c.tracked)) else c.tracked[0].id) == node
  {
    hide ResolveUser, ResolveTarget;
    if n > 0 {
      RoutedMember(c, split, rs, n - 1, node, u);
    }
  }

  lemma RoutedIsAttributed(c: Context, rs: seq<Record>, node: nat)
    requires c.tracked != []
    ensures var split := HasProtocolSplit(rs);
            Attributed(c, rs, node) == RoutedTo(c, split, rs, |rs|, if split then node else c.tracked[0].id)
  {
    hide ResolveUser, ResolveTarget, HasProtocolSplit;
    var split := HasProtocolSplit(rs);
    var routed := RoutedTo(c, split, rs, |rs|, if split then node else c.tracked[0].id);
    forall u ensures u in Attributed(c, rs, node) <==> u in routed {
      RoutedMember(c, split, rs, |rs|, if split then node else c.tracked[0].id, u);
    }
  }

  lemma NoneRouted(c: Context, rs: seq<Record>)
    requires c.tracked != []
    ensures forall split, node :: RoutedTo(c, split, rs, 0, node) == {}
  {
  }

  /** One more record adds its user to its node. */
  lemma RoutedStep(c: Context, split: bool, rs: seq<Record>, i: nat)
    requires c.tracked != [] && i < |rs|
    ensures var uid := ResolveUser(rs[i], c.tags);
            var target := if split then ResolveTarget(rs[i], BuildProtocolNodeMap(c.tracked)) else c.tracked[0].id;
            forall node :: RoutedTo(c, split, rs, i + 1, node) ==
              if uid != 0 && target == node then RoutedTo(c, split, rs, i, node) + {uid}
              else RoutedTo(c, split, rs, i, node)
  {
    hide ResolveUser, ResolveTarget, BuildProtocolNodeMap;
  }

  /** Routes the users of a report, then mirrors them when the report carries no protocol. */
  method CollectUsers(c: Context, rs: seq<Record>) returns (m: map<nat, set<nat>>)
    requires Tracked(c.tracked)
    ensures forall i :: 0 <= i < |c.tracked| ==> UsersOf(m, c.tracked[i].id) == Attributed(c, rs, c.tracked[i].id)
  {
    hide ResolveUser, ResolveTarget, HasProtocolSplit, BuildProtocolNodeMap, Attributed, RoutedTo;
    NoneRouted(c, rs);
    var split := HasProtocolSplit(rs);
    var targets := BuildProtocolNodeMap(c.tracked);
    m := map[];
    for i := 0 to |rs|
      invariant forall node :: UsersOf(m, node) == RoutedTo(c, split, rs, i, node)
    {
      var uid := ResolveUser(rs[i], c.tags);
      RoutedStep(c, split, rs, i);
      if uid == 0 { continue; }
      var target := if split then ResolveTarget(rs[i], targets) else c.tracked[0].id;
      ghost var before := m;
      m := m[target := UsersOf(m, target) + {uid}];
      forall node ensures UsersOf(m, node) == RoutedTo(c, split, rs, i + 1, node) {
        assert UsersOf(before, node) == RoutedTo(c, split, rs, i, node);
      }
    }
    ghost var routed := m;
    if !split {
      var reporter := UsersOf(m, c.tracked[0].id);
      for i := 1 to |c.tracked|
        invariant forall j :: 0 <= j < i ==> UsersOf(m, c.tracked[j].id) == reporter
      {
        m := m[c.tracked[i].id := reporter];
      }
    }
    forall i | 0 <= i < |c.tracked| ensures UsersOf(m, c.tracked[i].id) == Attributed(c, rs, c.tracked[i].id) {
      RoutedIsAttributed(c, rs, c.tracked[i].id);
    }
  }

  // ----- The cache -----

  /** The shared cache: a count per listed node, the users behind it, when it was set, and the users in all. */
  datatype Cache = Cache(counts: map<nat, nat>, nodeUsers: map<nat, set<nat>>, updatedAt: map<nat, int>,
                         users: set<nat>, total: nat)

  const EMPTY := Cache(map[], map[], map[], {}, 0)

  predicate CacheOk(c: Cache)
  {
    && c.nodeUsers.Keys <= c.counts.Keys
    && (forall n :: n in c.counts ==> c.counts[n] == |UsersOf(c.nodeUsers, n)|)
    && c.total == |c.users|
  }

  function Union(m: map<nat, set<nat>>): set<nat>
  {
    set n, u | n in m && u in m[n] :: u
  }

  lemma SameSize(union: set<nat>, existing: set<nat>)
    ensures |union * existing| == |union| <==> union <= existing
  {
    var kept, lost := union * existing, union - existing;
    assert union == kept + lost;
    assert |union| == |kept| + |lost|;
    if |lost| == 0 {
      assert lost == {};
    } else {
      var u :| u in lost;
    }
  }

  function Stale(c: Cache, n: nat, now: int, ttl: int): bool
  {
    n !in c.updatedAt || c.updatedAt[n] == 0 || now - c.updatedAt[n] > ttl
  }

  /** What pruning makes of a node's part. */
  predicate PrunedFrom(cache: Cache, before: Cache, n: nat, now: int, ttl: int)
  {
    && UsersOf(cache.nodeUsers, n) == (if Stale(before, n, now, ttl) then {} else UsersOf(before.nodeUsers, n))
    && (n in before.updatedAt ==> n in cache.updatedAt && cache.updatedAt[n] == before.updatedAt[n])
  }

  /** Empties the nodes that have not been updated for too long. */
  method PruneStaleNodes(c: Cache, now: int, ttl: int) returns (r: Cache)
    requires CacheOk(c)
    ensures CacheOk(r) && r.counts.Keys == c.counts.Keys && r.updatedAt == c.updatedAt
    ensures forall n :: PrunedFrom(r, c, n, now, ttl)
  {
    r := c;
    var todo := c.counts.Keys;
    while todo != {}
      invariant todo <= c.counts.Keys && CacheOk(r) && r.counts.Keys == c.counts.Keys && r.updatedAt == c.updatedAt
      invariant forall n :: n in c.counts && n in todo ==> UsersOf(r.nodeUsers, n) == UsersOf(c.nodeUsers, n)
      invariant forall n :: n in c.counts && n !in todo ==>
                  UsersOf(r.nodeUsers, n) == if Stale(c, n, now, ttl) then {} else UsersOf(c.nodeUsers, n)
    {
      var n :| n in todo;
      if Stale(r, n, now, ttl) {
        r := r.(nodeUsers := r.nodeUsers[n := {}], counts := r.counts[n := 0]);
      }
      todo := todo - {n};
    }
  }

  // ----- The module's state -----

  class Online {
    const windowMs: int
    const ttlMs: int
    var lastSeen: map<nat, map<nat, int>>
    var full: Option<Cache>
    var ts: int
    /** Every report's users per node, and the time of the last event. */
    ghost var visits: History
    ghost var clock: int

    constructor (windowMs: int, ttlMs: int)
      requires windowMs >= 30000 && ttlMs >= 15000
      ensures Valid() && full == None && visits == map[] && clock == 0
      ensures this.windowMs == windowMs && this.ttlMs == ttlMs
    {
      this.windowMs, this.ttlMs := windowMs, ttlMs;
      lastSeen, full, ts := map[], None, 0;
      visits, clock := map[], 0;
    }

    /** The last-seen tables are folds of all visits, and the users of every node are what the visits make of them at
        the last report, as long as the cache has not expired. */
    ghost predicate Valid()
      reads this
    {
      && windowMs >= 30000 && ttlMs >= 15000 && ts <= clock
      && SeenOk(lastSeen, visits, windowMs, ts)
      && (full.Some? ==> CacheOk(full.value))
      && Live(full, visits, ts, clock, ttlMs, windowMs)
    }

    /** A report of one machine. Afterwards every node, of this machine or another, holds exactly the users its visits
        make it hold: recounted over the window for the nodes of this machine, as of its last report for another, and
        none when that is too long ago. Nodes of other machines stay listed, unless the whole cache had expired; every
        count is the size of its set. The total is that of the union less users no longer in the user table, so it is
        the size of the union exactly when all users the history makes online are in the user table. */
    method UpdateOnlineCache(c: Context, rs: seq<Record>, existing: set<nat>, now: int)
      requires Valid() && Tracked(c.tracked) && 0 < now && clock <= now
      modifies this
      ensures Valid() && clock == ts == now && full.Some?
      ensures visits == Visited(old(visits), c, rs, now)
      ensures forall i :: 0 <= i < |c.tracked| ==>
                var n := c.tracked[i].id;
                n in visits && UsersOf(full.value.nodeUsers, n) == Recount(visits[n], now, windowMs)
      ensures forall n :: UsersOf(full.value.nodeUsers, n) == LiveUsers(VisitsOf(visits, n), now, ttlMs, windowMs)
      ensures full.value.counts.Keys == Started(old(full), old(ts), now, ttlMs).counts.Keys + Ids(c)
      ensures full.value.users == OnlineUsers(visits, now, ttlMs, windowMs) * existing
      ensures full.value.total == |OnlineUsers(visits, now, ttlMs, windowMs) * existing|
      ensures var online := OnlineUsers(Visited(old(visits), c, rs, now), now, ttlMs, windowMs);
              && Union(full.value.nodeUsers) == online
              && (full.value.total == |online| <==> online <= existing)
    {
      hide Attributed, Recount, SeenOk, Union, LiveUsers, OnlineUsers, Visited, Outside, Refreshed, PrunedFrom, Live,
        Started;
      ghost var last := ts;
      var cache := EnsureFull(now);
      ghost var start := cache;
      var users := CollectUsers(c, rs);
      var seen;
      ghost var vs;
      seen, cache, vs := TrackNodes(lastSeen, visits, last, cache, c, users, windowMs, now);
      VisitedIs(visits, vs, start, cache, c, rs, users, windowMs, now);
      ghost var tracked := cache;
      cache := PruneStaleNodes(cache, now, ttlMs);
      var online := Union(cache.nodeUsers) * existing;
      SameSize(Union(cache.nodeUsers), existing);
      AllLive(old(full), last, clock, tracked, cache, visits, vs, c, users, windowMs, ttlMs, now);
      WithTotal(cache, online, vs, now, ttlMs, windowMs);
      cache := cache.(users := online, total := |online|);
      lastSeen, full, ts := seen, Some(cache), now;
      visits, clock := vs, now;
    }

    /** A cache not refreshed for too long starts over. */
    method EnsureFull(now: int) returns (cache: Cache)
      requires full.Some? ==> CacheOk(full.value)
      modifies this`full, this`ts
      ensures full == Some(cache) && CacheOk(cache)
      ensures cache == Started(old(full), old(ts), now, ttlMs)
    {
      if full.None? || now - ts > ttlMs {
        full, ts := Some(EMPTY), now;
      }
      cache := full.value;
    }

    /** Reading the cache after it has expired zeroes every count; otherwise nothing changes. */
    method GetOnlineCache(now: int) returns (r: Option<Cache>)
      requires Valid() && clock <= now
      modifies this`full, this`clock
      ensures Valid() && r == full && clock == now
      ensures old(full).Some? && now - ts > ttlMs ==>
                full.Some? && full.value.total == 0 && full.value.counts.Keys == old(full).value.counts.Keys
                && forall n :: n in full.value.counts ==> full.value.counts[n] == 0
      ensures old(full).None? || now - ts <= ttlMs ==> full == old(full)
    {
      hide SeenOk;
      clock := now;
      if full.Some? && now - ts > ttlMs {
        full := Some(Cache(map n | n in full.value.counts :: 0, map[], map[], {}, 0));
      }
      return full;
    }
  }

  // ----- What the history makes of a node -----

  /** The users a node holds at a given time: those of the window at its last report, unless that is too long ago. */
  function LiveUsers(vs: seq<Visit<nat>>, at: int, ttl: int, window: int): set<nat>
  {
    if vs != [] && at - vs[|vs| - 1].at <= ttl then Recount(vs, vs[|vs| - 1].at, window) else {}
  }

  function OnlineUsers(visits: History, at: int, ttl: int, window: int): set<nat>
  {
    set n, u | n in visits && u in LiveUsers(visits[n], at, ttl, window) :: u
  }

  /** The history after a report. */
  function Visited(visits: History, c: Context, rs: seq<Record>, now: int): History
    requires c.tracked != []
  {
    map n | n in visits.Keys + Ids(c) ::
      if n in Ids(c) then VisitsOf(visits, n) + [Visit(Attributed(c, rs, n), now)] else visits[n]
  }

  /** A node's part of the cache is what its visits make of it. */
  ghost predicate NodeLive(cache: Cache, vs: seq<Visit<nat>>, n: nat, at: int, ttl: int, window: int)
  {
    var live := LiveUsers(vs, at, ttl, window);
    && UsersOf(cache.nodeUsers, n) == live
    && (live != {} ==> n in cache.updatedAt && cache.updatedAt[n] == vs[|vs| - 1].at)
  }

  ghost predicate Live(full: Option<Cache>, visits: History, ts: int, clock: int, ttl: int, window: int)
  {
    && (forall n :: LastIn(VisitsOf(visits, n), ts))
    && (full.None? ==> visits == map[])
    && (full.Some? && clock - ts <= ttl ==> forall n :: NodeLive(full.value, VisitsOf(visits, n), n, ts, ttl, window))
  }

  predicate LastIn(vs: seq<Visit<nat>>, ts: int)
  {
    vs != [] ==> 0 < vs[|vs| - 1].at <= ts
  }

  /** What a node of another machine holds after pruning is still what its visits make of it. */
  lemma StaysLive(full: Option<Cache>, ts: int, clock: int, cache: Cache, vs: seq<Visit<nat>>, n: nat,
                  window: int, ttl: int, now: int)
    requires ts <= clock <= now && LastIn(vs, ts) && (full.None? ==> vs == [])
    requires full.Some? && clock - ts <= ttl ==> NodeLive(full.value, vs, n, ts, ttl, window)
    requires PrunedFrom(cache, Started(full, ts, now, ttl), n, now, ttl)
    ensures NodeLive(cache, vs, n, now, ttl, window)
  {
    hide Recount;
  }

  /** What a node of this machine holds is the window's recount. */
  lemma BecomesLive(tracked: Cache, cache: Cache, visits: History, vs: History,
                    n: nat, users: set<nat>, window: int, ttl: int, now: int)
    requires Refreshed(tracked, visits, vs, n, users, window, now) && PrunedFrom(cache, tracked, n, now, ttl)
    requires 0 < now && ttl >= 0
    ensures NodeLive(cache, VisitsOf(vs, n), n, now, ttl, window) && LastIn(VisitsOf(vs, n), now)
    ensures n in vs && UsersOf(cache.nodeUsers, n) == Recount(vs[n], now, window)
  {
    hide Recount;
  }

  lemma VisitedIs(visits: History, vs: History, start: Cache, tracked: Cache,
                  c: Context, rs: seq<Record>, users: map<nat, set<nat>>, window: int, now: int)
    requires Tracked(c.tracked) && Outside(tracked, start, visits, vs, Ids(c))
    requires forall i :: 0 <= i < |c.tracked| ==> UsersOf(users, c.tracked[i].id) == Attributed(c, rs, c.tracked[i].id)
    requires forall i :: 0 <= i < |c.tracked| ==>
               Refreshed(tracked, visits, vs, c.tracked[i].id, UsersOf(users, c.tracked[i].id), window, now)
    ensures vs == Visited(visits, c, rs, now)
    ensures tracked.counts.Keys == start.counts.Keys + Ids(c)
  {
    hide Attributed, Recount, Outside;
    var after := Visited(visits, c, rs, now);
    forall n ensures n in vs <==> n in after
      ensures n in vs ==> vs[n] == after[n]
      ensures n in tracked.counts <==> n in start.counts || n in Ids(c)
    {
      if n in Ids(c) {
        var i :| 0 <= i < |c.tracked| && c.tracked[i].id == n;
      } else {
        OutsideAt(tracked, start, visits, vs, Ids(c), n);
      }
    }
  }

  /** The union over all nodes is what the history makes online. */
  lemma UnionIsOnline(cache: Cache, visits: History, at: int, ttl: int, window: int)
    requires forall n :: NodeLive(cache, VisitsOf(visits, n), n, at, ttl, window)
    ensures Union(cache.nodeUsers) == OnlineUsers(visits, at, ttl, window)
    ensures forall n :: UsersOf(cache.nodeUsers, n) == LiveUsers(VisitsOf(visits, n), at, ttl, window)
  {
    hide Recount, LiveUsers;
    var union, online := Union(cache.nodeUsers), OnlineUsers(visits, at, ttl, window);
    assert LiveUsers([], at, ttl, window) == {} by { NeverSeen(at, ttl, window); }
    forall n ensures UsersOf(cache.nodeUsers, n) == LiveUsers(VisitsOf(visits, n), at, ttl, window) {
      assert NodeLive(cache, VisitsOf(visits, n), n, at, ttl, window);
    }
    forall u ensures u in union <==> u in online {
      if u in union {
        var n :| n in cache.nodeUsers && u in cache.nodeUsers[n];
        assert u in LiveUsers(VisitsOf(visits, n), at, ttl, window);
        assert n in visits;
      }
      if u in online {
        var n :| n in visits && u in LiveUsers(visits[n], at, ttl, window);
        assert u in UsersOf(cache.nodeUsers, n);
      }
    }
  }

  lemma NeverSeen(at: int, ttl: int, window: int)
    ensures LiveUsers([], at, ttl, window) == {}
  {
  }

  /** After a report every node holds what the history makes of it. */
  lemma AllLive(full: Option<Cache>, ts: int, clock: int, tracked: Cache, cache: Cache,
                visits: History, vs: History, c: Context,
                users: map<nat, set<nat>>, window: int, ttl: int, now: int)
    requires Live(full, visits, ts, clock, ttl, window) && ts <= clock <= now && 0 < now && ttl >= 0
    requires Outside(tracked, Started(full, ts, now, ttl), visits, vs, Ids(c))
    requires forall i :: 0 <= i < |c.tracked| ==>
               Refreshed(tracked, visits, vs, c.tracked[i].id, UsersOf(users, c.tracked[i].id), window, now)
    requires forall n :: PrunedFrom(cache, tracked, n, now, ttl)
    ensures Live(Some(cache), vs, now, now, ttl, window)
    ensures Union(cache.nodeUsers) == OnlineUsers(vs, now, ttl, window)
    ensures forall n :: UsersOf(cache.nodeUsers, n) == LiveUsers(VisitsOf(vs, n), now, ttl, window)
    ensures forall i :: 0 <= i < |c.tracked| ==>
              var n := c.tracked[i].id;
              n in vs && UsersOf(cache.nodeUsers, n) == Recount(vs[n], now, window)
  {
    hide Recount, Union, OnlineUsers, LiveUsers, Outside, Refreshed, NodeLive, LastIn, PrunedFrom;
    forall n ensures NodeLive(cache, VisitsOf(vs, n), n, now, ttl, window) && LastIn(VisitsOf(vs, n), now) {
      if n in Ids(c) {
        var i :| 0 <= i < |c.tracked| && c.tracked[i].id == n;
        BecomesLive(tracked, cache, visits, vs, n, UsersOf(users, n), window, ttl, now);
      } else {
        OtherLive(full, ts, clock, tracked, cache, visits, vs, Ids(c), n, window, ttl, now);
      }
    }
    UnionIsOnline(cache, vs, now, ttl, window);
    forall i | 0 <= i < |c.tracked|
      ensures var n := c.tracked[i].id; n in vs && UsersOf(cache.nodeUsers, n) == Recount(vs[n], now, window)
    {
      var n := c.tracked[i].id;
      BecomesLive(tracked, cache, visits, vs, n, UsersOf(users, n), window, ttl, now);
    }
  }

  lemma WithTotal(cache: Cache, online: set<nat>, visits: History, at: int, ttl: int, window: int)
    requires Live(Some(cache), visits, at, at, ttl, window) && CacheOk(cache)
    ensures var done := cache.(users := online, total := |online|);
            Live(Some(done), visits, at, at, ttl, window) && CacheOk(done)
  {
    hide LiveUsers, LastIn;
    var done := cache.(users := online, total := |online|);
    if ttl >= 0 {
      forall n ensures NodeLive(done, VisitsOf(visits, n), n, at, ttl, window) {
        assert NodeLive(cache, VisitsOf(visits, n), n, at, ttl, window);
      }
    }
  }

  lemma OtherLive(full: Option<Cache>, ts: int, clock: int, tracked: Cache, cache: Cache,
                  visits: History, vs: History, ids: set<nat>, n: nat,
                  window: int, ttl: int, now: int)
    requires Live(full, visits, ts, clock, ttl, window) && ts <= clock <= now && n !in ids
    requires Outside(tracked, Started(full, ts, now, ttl), visits, vs, ids) && PrunedFrom(cache, tracked, n, now, ttl)
    ensures NodeLive(cache, VisitsOf(vs, n), n, now, ttl, window) && LastIn(VisitsOf(vs, n), now)
  {
    hide Recount, Outside, NodeLive;
    OutsideAt(tracked, Started(full, ts, now, ttl), visits, vs, ids, n);
    assert LastIn(VisitsOf(visits, n), ts);
    StaysLive(full, ts, clock, cache, VisitsOf(vs, n), n, window, ttl, now);
  }

  /** A run after which the total is not the size of the union: user 7 has just had traffic on node 1 but is no longer
      in the user table. */
  method LostUserRun() returns (o: Online)
    ensures fresh(o) && o.Valid() && o.full.Some?
    ensures Union(o.full.value.nodeUsers) == {7} && o.full.value.total == 0
  {
    hide Union, OnlineUsers, Visited;
    o := new Online(60000, 60000);
    var c := Context([Node(1, Vless)], map[]);
    var rs := [Record(7, None, Vless, TrafficMeter.Uplink, 1)];
    o.UpdateOnlineCache(c, rs, {}, 1);
    OnlySeven(c, rs);
  }

  lemma OnlySeven(c: Context, rs: seq<Record>)
    requires c == Context([Node(1, Vless)], map[]) && rs == [Record(7, None, Vless, TrafficMeter.Uplink, 1)]
    ensures OnlineUsers(Visited(map[], c, rs, 1), 1, 60000, 60000) == {7}
  {
    assert rs[0].proto == Vless && ResolveUser(rs[0], c.tags) == 7;
    assert ResolveTarget(rs[0], BuildProtocolNodeMap(c.tracked)) == 1;
    assert Attributed(c, rs, 1) == {7};
    var visits: History := Visited(map[], c, rs, 1);
    assert c.tracked[0].id == 1 && Ids(c) == {1};
    assert VisitsOf(map[], 1) + [Visit({7}, 1)] == [Visit({7}, 1)];
    assert visits == map[1 := [Visit({7}, 1)]];
    assert visits[1][0].keys == {7};
    assert LiveUsers(visits[1], 1, 60000, 60000) == {7};
  }

  /** The cache a report starts from: an expired one starts over. */
  function Started(full: Option<Cache>, ts: int, now: int, ttl: int): Cache
  {
    if full.Some? && now - ts <= ttl then full.value else EMPTY
  }

  function Ids(c: Context): set<nat>
  {
    set i | 0 <= i < |c.tracked| :: c.tracked[i].id
  }

  function VisitsOf(visits: History, n: nat): seq<Visit<nat>>
  {
    if n in visits then visits[n] else []
  }

  function SeenBy(lastSeen: map<nat, map<nat, int>>, n: nat): map<nat, int>
  {
    if n in lastSeen then lastSeen[n] else map[]
  }

  /** Every node's last-seen table is the fold of all its visits. */
  ghost predicate SeenOk(lastSeen: map<nat, map<nat, int>>, visits: History, window: int, clock: int)
  {
    forall n :: NodeOk(SeenBy(lastSeen, n), VisitsOf(visits, n), window, clock)
  }

  predicate NodeOk(seen: map<nat, int>, vs: seq<Visit<nat>>, window: int, clock: int)
  {
    && seen == Fold(vs, window) && InOrder(vs)
    && (vs != [] ==> vs[|vs| - 1].at <= clock)
  }

  lemma NodeStep(seen: map<nat, int>, vs: seq<Visit<nat>>, window: int, clock: int, v: Visit<nat>)
    requires NodeOk(seen, vs, window, clock) && clock <= v.at && window >= 0
    ensures NodeOk(Touch(seen, v, window), vs + [v], window, v.at)
    ensures Touch(seen, v, window).Keys == Recount(vs + [v], v.at, window)
  {
    assert (vs + [v])[..|vs|] == vs;
    assert Fold(vs + [v], window) == Touch(seen, v, window);
    hide Touch, Fold, Recount;
    FoldIsRecount(vs + [v], window);
  }

  /** The loop over the nodes of the machine: stamp, purge, and publish the window's users. */
  method TrackNodes(lastSeen: map<nat, map<nat, int>>, ghost visits: History, ghost clock: int,
                    before: Cache, c: Context, users: map<nat, set<nat>>, window: int, now: int)
    returns (seen: map<nat, map<nat, int>>, cache: Cache, ghost vs: History)
    requires SeenOk(lastSeen, visits, window, clock) && CacheOk(before) && Tracked(c.tracked)
    requires clock <= now && 0 < now && window >= 0
    ensures SeenOk(seen, vs, window, now) && CacheOk(cache)
    ensures forall i :: 0 <= i < |c.tracked| ==>
              Refreshed(cache, visits, vs, c.tracked[i].id, UsersOf(users, c.tracked[i].id), window, now)
    ensures Outside(cache, before, visits, vs, Ids(c))
  {
    hide Recount, SeenOk, CacheOk;
    ghost var ids := Ids(c);
    seen, cache, vs := lastSeen, before, visits;
    SeenLater(seen, vs, window, clock, now);
    for i := 0 to |c.tracked|
      invariant SeenOk(seen, vs, window, now) && CacheOk(cache)
      invariant forall j :: i <= j < |c.tracked| ==> VisitsOf(vs, c.tracked[j].id) == VisitsOf(visits, c.tracked[j].id)
      invariant forall j :: 0 <= j < i ==>
                  Refreshed(cache, visits, vs, c.tracked[j].id, UsersOf(users, c.tracked[j].id), window, now)
      invariant Outside(cache, before, visits, vs, ids)
    {
      var n := c.tracked[i].id;
      ghost var cache0, vs0 := cache, vs;
      seen, cache, vs := TrackOne(seen, vs, cache, n, UsersOf(users, n), window, now);
      OneOutside(cache, cache0, before, visits, vs, vs0, ids, n);
      forall j | 0 <= j < i
        ensures Refreshed(cache, visits, vs, c.tracked[j].id, UsersOf(users, c.tracked[j].id), window, now)
      {
        OneRefreshed(cache, cache0, visits, vs, vs0, c.tracked[j].id, n, UsersOf(users, c.tracked[j].id), window, now);
      }
    }
  }

  /** A node's part of the cache after a report. */
  ghost predicate Refreshed(cache: Cache, visits: History, vs: History,
                            n: nat, users: set<nat>, window: int, now: int)
  {
    && n in vs && vs[n] == VisitsOf(visits, n) + [Visit(users, now)]
    && UsersOf(cache.nodeUsers, n) == Recount(vs[n], now, window)
    && n in cache.updatedAt && cache.updatedAt[n] == now && n in cache.counts
  }

  lemma OneRefreshed(cache: Cache, cache0: Cache, visits: History, vs: History,
                     vs0: History, m: nat, n: nat, users: set<nat>, window: int, now: int)
    requires m != n && Refreshed(cache0, visits, vs0, m, users, window, now)
    requires m in vs0 && vs == vs0[n := VisitsOf(vs, n)]
    requires cache.nodeUsers == cache0.nodeUsers[n := UsersOf(cache.nodeUsers, n)]
    requires n in cache.updatedAt && cache.updatedAt == cache0.updatedAt[n := cache.updatedAt[n]]
    requires cache0.counts.Keys <= cache.counts.Keys
    ensures Refreshed(cache, visits, vs, m, users, window, now)
  {
  }

  /** Nothing has changed for the nodes of other machines. */
  ghost predicate Outside(cache: Cache, before: Cache, visits: History, vs: History, ids: set<nat>)
  {
    && cache.nodeUsers - ids == before.nodeUsers - ids && cache.counts - ids == before.counts - ids
    && cache.updatedAt - ids == before.updatedAt - ids && vs - ids == visits - ids
  }

  lemma OneOutside(cache: Cache, cache0: Cache, before: Cache, visits: History, vs: History,
                   vs0: History, ids: set<nat>, n: nat)
    requires n in ids && Outside(cache0, before, visits, vs0, ids)
    requires n in cache.nodeUsers && cache.nodeUsers == cache0.nodeUsers[n := cache.nodeUsers[n]]
    requires n in cache.counts && cache.counts == cache0.counts[n := cache.counts[n]]
    requires n in cache.updatedAt && cache.updatedAt == cache0.updatedAt[n := cache.updatedAt[n]]
    requires n in vs && vs == vs0[n := vs[n]]
    ensures Outside(cache, before, visits, vs, ids)
  {
  }

  lemma OutsideAt(cache: Cache, before: Cache, visits: History, vs: History, ids: set<nat>, n: nat)
    requires n !in ids && Outside(cache, before, visits, vs, ids)
    ensures VisitsOf(vs, n) == VisitsOf(visits, n) && UsersOf(cache.nodeUsers, n) == UsersOf(before.nodeUsers, n)
    ensures n in cache.counts <==> n in before.counts
    ensures n in vs <==> n in visits
    ensures n in cache.updatedAt <==> n in before.updatedAt
    ensures n in cache.updatedAt ==> cache.updatedAt[n] == before.updatedAt[n]
    ensures forall now, ttl :: Stale(cache, n, now, ttl) == Stale(before, n, now, ttl)
  {
    assert n in cache.nodeUsers <==> n in cache.nodeUsers - ids;
    assert n in before.nodeUsers <==> n in before.nodeUsers - ids;
    assert n in cache.counts <==> n in cache.counts - ids;
    assert n in before.counts <==> n in before.counts - ids;
    assert n in cache.updatedAt <==> n in cache.updatedAt - ids;
    assert n in before.updatedAt <==> n in before.updatedAt - ids;
    assert n in vs <==> n in vs - ids;
    assert n in visits <==> n in visits - ids;
  }

  lemma SeenLater(lastSeen: map<nat, map<nat, int>>, visits: History, window: int,
                  clock: int, now: int)
    requires SeenOk(lastSeen, visits, window, clock) && clock <= now
    ensures SeenOk(lastSeen, visits, window, now)
  {
    forall n ensures NodeOk(SeenBy(lastSeen, n), VisitsOf(visits, n), window, now) {
      assert NodeOk(SeenBy(lastSeen, n), VisitsOf(visits, n), window, clock);
    }
  }

  method TrackOne(lastSeen: map<nat, map<nat, int>>, ghost visits: History, before: Cache,
                  n: nat, users: set<nat>, window: int, now: int)
    returns (seen: map<nat, map<nat, int>>, cache: Cache, ghost vs: History)
    requires SeenOk(lastSeen, visits, window, now) && CacheOk(before) && window >= 0
    ensures SeenOk(seen, vs, window, now) && CacheOk(cache)
    ensures vs == visits[n := VisitsOf(visits, n) + [Visit(users, now)]]
    ensures var online := Recount(vs[n], now, window);
            cache == before.(nodeUsers := before.nodeUsers[n := online], updatedAt := before.updatedAt[n := now],
                             counts := before.counts[n := |online|])
  {
    hide Touch, Recount, Fold, NodeOk;
    var v := Visit(users, now);
    assert NodeOk(SeenBy(lastSeen, n), VisitsOf(visits, n), window, now);
    NodeStep(SeenBy(lastSeen, n), VisitsOf(visits, n), window, now, v);
    var table := Stamp(SeenBy(lastSeen, n), v, window);
    vs := visits[n := VisitsOf(visits, n) + [v]];
    seen := lastSeen[n := table];
    forall m ensures NodeOk(SeenBy(seen, m), VisitsOf(vs, m), window, now) {
      assert NodeOk(SeenBy(lastSeen, m), VisitsOf(visits, m), window, now);
    }
    var windowUsers := table.Keys;
    cache := before.(nodeUsers := before.nodeUsers[n := windowUsers], updatedAt := before.updatedAt[n := now],
                     counts := before.counts[n := |windowUsers|]);
  }
}
