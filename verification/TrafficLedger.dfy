/** The four traffic tables and everything ever recorded in them. */
module TrafficLedger {
  import opened Collections
  import opened Wrappers

  datatype Bytes = Bytes(up: int, down: int)

  const NONE := Bytes(0, 0)

  function Plus(a: Bytes, b: Bytes): Bytes
  {
    Bytes(a.up + b.up, a.down + b.down)
  }

  /** One recording: for whom, through which node, on which day, at which second, how much. */
  datatype Entry = Entry(user: nat, node: nat, day: int, at: int, bytes: Bytes)

  datatype DayKey = DayKey(user: nat, node: nat, day: int)

  datatype Tables = Tables(raw: seq<Entry>, daily: map<DayKey, Bytes>, userTotal: map<nat, Bytes>,
                           siteTotal: Option<Bytes>)

  const EMPTY := Tables([], map[], map[], None)

  // ----- Sums over a list of recordings -----

  function SumAll(es: seq<Entry>): Bytes
  {
    if es == [] then NONE else Plus(SumAll(es[..|es| - 1]), es[|es| - 1].bytes)
  }

  function SumUser(es: seq<Entry>, u: nat): Bytes
  {
    if es == [] then NONE
    else var e := es[|es| - 1]; Plus(SumUser(es[..|es| - 1], u), if e.user == u then e.bytes else NONE)
  }

  function SumPair(es: seq<Entry>, u: nat, n: nat): Bytes
  {
    if es == [] then NONE
    else
      var e := es[|es| - 1];
      Plus(SumPair(es[..|es| - 1], u, n), if e.user == u && e.node == n then e.bytes else NONE)
  }

  function KeyOf(e: Entry): DayKey
  {
    DayKey(e.user, e.node, e.day)
  }

  function SumDay(es: seq<Entry>, d: DayKey): Bytes
  {
    if es == [] then NONE
    else var e := es[|es| - 1]; Plus(SumDay(es[..|es| - 1], d), if KeyOf(e) == d then e.bytes else NONE)
  }

  function Since(es: seq<Entry>, limit: int): seq<Entry>
  {
    if es == [] then []
    else Since(es[..|es| - 1], limit) + if es[|es| - 1].at >= limit then [es[|es| - 1]] else []
  }

  lemma SumAllSnoc(es: seq<Entry>, e: Entry)
    ensures SumAll(es + [e]) == Plus(SumAll(es), e.bytes)
  {
    assert (es + [e])[..|es|] == es;
  }

  lemma SumUserSnoc(es: seq<Entry>, e: Entry, u: nat)
    ensures SumUser(es + [e], u) == Plus(SumUser(es, u), if e.user == u then e.bytes else NONE)
  {
    assert (es + [e])[..|es|] == es;
  }

  lemma SumPairSnoc(es: seq<Entry>, e: Entry, u: nat, n: nat)
    ensures SumPair(es + [e], u, n) == Plus(SumPair(es, u, n), if e.user == u && e.node == n then e.bytes else NONE)
  {
    assert (es + [e])[..|es|] == es;
  }

  lemma SumDaySnoc(es: seq<Entry>, e: Entry, d: DayKey)
    ensures SumDay(es + [e], d) == Plus(SumDay(es, d), if KeyOf(e) == d then e.bytes else NONE)
  {
    assert (es + [e])[..|es|] == es;
  }

  lemma SinceSnoc(es: seq<Entry>, e: Entry, limit: int)
    ensures Since(es + [e], limit) == Since(es, limit) + if e.at >= limit then [e] else []
  {
    assert (es + [e])[..|es|] == es;
  }

  lemma PlusSwap(a: Bytes, b: Bytes, c: Bytes)
    ensures Plus(Plus(a, b), c) == Plus(Plus(a, c), b) == Plus(a, Plus(b, c))
    ensures Plus(a, NONE) == a == Plus(NONE, a)
  {
  }

  // ----- The tables -----

  function Of<K>(m: map<K, Bytes>, k: K): Bytes
  {
    if k in m then m[k] else NONE
  }

  /** Insert, or add to the row already there. */
  function Upsert<K>(m: map<K, Bytes>, k: K, b: Bytes): map<K, Bytes>
  {
    m[k := Plus(Of(m, k), b)]
  }

  function Insert(t: Tables, e: Entry): Tables
  {
    Tables(t.raw + [e], Upsert(t.daily, KeyOf(e), e.bytes), Upsert(t.userTotal, e.user, e.bytes),
           Some(Plus(if t.siteTotal.Some? then t.siteTotal.value else NONE, e.bytes)))
  }

  function Cleaned(t: Tables, rawLimit: int, dayLimit: int): Tables
  {
    t.(raw := Since(t.raw, rawLimit), daily := map d | d in t.daily && d.day >= dayLimit :: t.daily[d])
  }

  /** The tables against everything ever recorded, after deletions up to the given limits: user and site totals count
      what was recorded since there are totals, daily rows all that is recent enough, raw rows are the recent
      recordings themselves. The old recordings are those from before there were totals. */
  ghost predicate Agrees(t: Tables, early: seq<Entry>, all: seq<Entry>, rawLimit: int, dayLimit: int)
  {
    && t.raw == Since(early + all, rawLimit)
    && (forall d :: Of(t.daily, d) == if d.day >= dayLimit then SumDay(early + all, d) else NONE)
    && (forall d :: d in t.daily ==> d.day >= dayLimit)
    && (forall e <- early + all :: e.day >= dayLimit ==> KeyOf(e) in t.daily)
    && (forall e <- all :: e.user in t.userTotal)
    && (forall u :: u in t.userTotal ==> exists e <- all :: e.user == u)
    && (forall u :: Of(t.userTotal, u) == SumUser(all, u))
    && SumAll(all) == (if t.siteTotal.Some? then t.siteTotal.value else NONE)
  }

  lemma EmptyAgrees(rawLimit: int, dayLimit: int)
    ensures Agrees(EMPTY, [], [], rawLimit, dayLimit)
  {
  }

  lemma InsertAgrees(t: Tables, early: seq<Entry>, all: seq<Entry>, rawLimit: int, dayLimit: int, e: Entry)
    requires Agrees(t, early, all, rawLimit, dayLimit) && e.at >= rawLimit && e.day >= dayLimit
    ensures Agrees(Insert(t, e), early, all + [e], rawLimit, dayLimit)
  {
    hide SumAll, SumUser, SumDay, Since, Plus;
    var t', every := Insert(t, e), early + all;
    assert early + (all + [e]) == every + [e];
    SumAllSnoc(all, e);
    SinceSnoc(every, e, rawLimit);
    PlusSwap(e.bytes, NONE, NONE);
    forall d ensures Of(t'.daily, d) == if d.day >= dayLimit then SumDay(every + [e], d) else NONE {
      SumDaySnoc(every, e, d);
      PlusSwap(SumDay(every, d), NONE, NONE);
      assert Of(t.daily, d) == if d.day >= dayLimit then SumDay(every, d) else NONE;
    }
    forall u ensures Of(t'.userTotal, u) == SumUser(all + [e], u) {
      SumUserSnoc(all, e, u);
      PlusSwap(SumUser(all, u), NONE, NONE);
      assert Of(t.userTotal, u) == SumUser(all, u);
    }
  }

  lemma {:induction false} SinceTwice(es: seq<Entry>, a: int, b: int)
    ensures Since(Since(es, a), b) == Since(es, Max(a, b))
  {
    if es != [] {
      var n := |es| - 1;
      SinceTwice(es[..n], a, b);
      if es[n].at >= a {
        SinceSnoc(Since(es[..n], a), es[n], b);
      } else {
        assert Since(es, a) == Since(es[..n], a);
      }
    }
  }

  lemma CleanAgrees(t: Tables, early: seq<Entry>, all: seq<Entry>, rawLimit: int, dayLimit: int, raw: int, day: int)
    requires Agrees(t, early, all, rawLimit, dayLimit)
    ensures Agrees(Cleaned(t, raw, day), early, all, Max(rawLimit, raw), Max(dayLimit, day))
  {
    var every := early + all;
    SinceTwice(every, rawLimit, raw);
    hide Since, SumDay, SumUser;
    var t' := Cleaned(t, raw, day);
    forall d ensures Of(t'.daily, d) == if d.day >= Max(dayLimit, day) then SumDay(every, d) else NONE {
      assert Of(t.daily, d) == if d.day >= dayLimit then SumDay(every, d) else NONE;
    }
  }

  // ----- The totals of the four tables -----

  function TotalUsers(m: map<nat, Bytes>, us: seq<nat>): Bytes
  {
    if us == [] then NONE else Plus(Of(m, us[0]), TotalUsers(m, us[1..]))
  }

  function TotalDays(m: map<DayKey, Bytes>, ds: seq<DayKey>): Bytes
  {
    if ds == [] then NONE else Plus(Of(m, ds[0]), TotalDays(m, ds[1..]))
  }

  function SumUsers(es: seq<Entry>, us: seq<nat>): Bytes
  {
    if us == [] then NONE else Plus(SumUser(es, us[0]), SumUsers(es, us[1..]))
  }

  function SumDays(es: seq<Entry>, ds: seq<DayKey>): Bytes
  {
    if ds == [] then NONE else Plus(SumDay(es, ds[0]), SumDays(es, ds[1..]))
  }

  lemma {:induction false} SumUsersSnoc(es: seq<Entry>, e: Entry, us: seq<nat>)
    requires Distinct(us)
    ensures SumUsers(es + [e], us) == Plus(SumUsers(es, us), if e.user in us then e.bytes else NONE)
  {
    hide SumUser, Plus;
    PlusSwap(NONE, NONE, NONE);
    if us != [] {
      SumUserSnoc(es, e, us[0]);
      PlusSwap(SumUser(es, us[0]), e.bytes, SumUsers(es, us[1..]));
      PlusSwap(SumUser(es, us[0]), SumUsers(es, us[1..]), e.bytes);
      PlusSwap(SumUser(es, us[0]), NONE, NONE);
      PlusSwap(SumUsers(es, us[1..]), NONE, NONE);
      PlusSwap(SumUsers(es, us), NONE, NONE);
      SumUsersSnoc(es, e, us[1..]);
      assert us[0] !in us[1..];
      assert e.user in us <==> e.user == us[0] || e.user in us[1..];
    }
  }

  lemma {:induction false} SumDaysSnoc(es: seq<Entry>, e: Entry, ds: seq<DayKey>)
    requires Distinct(ds)
    ensures SumDays(es + [e], ds) == Plus(SumDays(es, ds), if KeyOf(e) in ds then e.bytes else NONE)
  {
    hide SumDay, Plus;
    PlusSwap(NONE, NONE, NONE);
    if ds != [] {
      SumDaySnoc(es, e, ds[0]);
      PlusSwap(SumDay(es, ds[0]), e.bytes, SumDays(es, ds[1..]));
      PlusSwap(SumDay(es, ds[0]), SumDays(es, ds[1..]), e.bytes);
      PlusSwap(SumDay(es, ds[0]), NONE, NONE);
      PlusSwap(SumDays(es, ds[1..]), NONE, NONE);
      PlusSwap(SumDays(es, ds), NONE, NONE);
      SumDaysSnoc(es, e, ds[1..]);
      assert ds[0] !in ds[1..];
      assert KeyOf(e) in ds <==> KeyOf(e) == ds[0] || KeyOf(e) in ds[1..];
    }
  }

  lemma {:induction false} SumsCover(es: seq<Entry>, us: seq<nat>, ds: seq<DayKey>)
    requires Distinct(us) && Distinct(ds)
    requires forall i :: 0 <= i < |es| ==> es[i].user in us && KeyOf(es[i]) in ds
    ensures SumUsers(es, us) == SumAll(es) == SumDays(es, ds)
  {
    if es == [] {
      SumsEmpty(us, ds);
    } else {
      hide SumUsers, SumDays, SumUser, SumDay, SumAll, Plus, Distinct;
      var n := |es| - 1;
      var init, last := es[..n], es[n];
      assert es == init + [last];
      SumsCover(init, us, ds);
      SumAllSnoc(init, last);
      SumUsersSnoc(init, last, us);
      SumDaysSnoc(init, last, ds);
    }
  }

  lemma {:induction false} SumsEmpty(us: seq<nat>, ds: seq<DayKey>)
    ensures SumUsers([], us) == NONE == SumDays([], ds)
  {
    if us != [] {
      SumsEmpty(us[1..], ds);
    } else if ds != [] {
      SumsEmpty(us, ds[1..]);
    }
  }

  lemma {:induction false} TotalUsersAre(t: Tables, all: seq<Entry>, us: seq<nat>)
    requires forall u :: Of(t.userTotal, u) == SumUser(all, u)
    ensures TotalUsers(t.userTotal, us) == SumUsers(all, us)
  {
    if us != [] {
      TotalUsersAre(t, all, us[1..]);
    }
  }

  lemma {:induction false} TotalDaysAre(t: Tables, all: seq<Entry>, dayLimit: int, ds: seq<DayKey>)
    requires forall d :: Of(t.daily, d) == if d.day >= dayLimit then SumDay(all, d) else NONE
    requires forall i :: 0 <= i < |ds| ==> ds[i].day >= dayLimit
    ensures TotalDays(t.daily, ds) == SumDays(all, ds)
  {
    if ds != [] {
      TotalDaysAre(t, all, dayLimit, ds[1..]);
    }
  }

  lemma {:induction false} SinceAll(es: seq<Entry>, limit: int)
    requires forall i :: 0 <= i < |es| ==> es[i].at >= limit
    ensures Since(es, limit) == es
  {
    if es != [] {
      SinceAll(es[..|es| - 1], limit);
    }
  }

  /** Per-user and site totals always agree with each other and with everything ever recorded, whatever was cleaned up
      in between. */
  lemma TotalsAgree(t: Tables, early: seq<Entry>, all: seq<Entry>, rawLimit: int, dayLimit: int, us: seq<nat>)
    requires Agrees(t, early, all, rawLimit, dayLimit)
    requires Distinct(us) && forall i :: 0 <= i < |all| ==> all[i].user in us
    ensures TotalUsers(t.userTotal, us) == SumAll(all) == (if t.siteTotal.Some? then t.siteTotal.value else NONE)
  {
    var ds := DayKeys(all);
    DayKeysCover(all);
    SumsCover(all, us, ds);
    TotalUsersAre(t, all, us);
  }

  /** While nothing recorded has been cleaned up, raw and daily rows have the same total, user and site totals have the
      same total, and all four agree when nothing is older than the totals. */
  lemma FourTablesAgree(t: Tables, early: seq<Entry>, all: seq<Entry>, rawLimit: int, dayLimit: int,
                        us: seq<nat>, ds: seq<DayKey>)
    requires Agrees(t, early, all, rawLimit, dayLimit)
    requires forall e <- early + all :: e.at >= rawLimit && e.day >= dayLimit && e.user in us && KeyOf(e) in ds
    requires Distinct(us) && Distinct(ds)
    requires forall i :: 0 <= i < |ds| ==> ds[i].day >= dayLimit
    ensures SumAll(t.raw) == TotalDays(t.daily, ds) == SumAll(early + all)
    ensures TotalUsers(t.userTotal, us) == SumAll(all) == (if t.siteTotal.Some? then t.siteTotal.value else NONE)
    ensures early == [] ==> SumAll(early + all) == SumAll(all)
  {
    hide SumAll, SumDay, SumUser, SumUsers, SumDays, TotalUsers, TotalDays, Plus;
    var every := early + all;
    assert forall i :: 0 <= i < |every| ==> every[i] in every;
    SinceAll(every, rawLimit);
    SumsCover(every, us, ds);
    TotalDaysAre(t, every, dayLimit, ds);
    assert forall i :: 0 <= i < |all| ==> all[i] == every[|early| + i];
    SumsCover(all, us, ds);
    TotalUsersAre(t, all, us);
    assert early == [] ==> every == all;
  }

  // ----- A user's daily rows -----

  /** What is recorded for one user on days from a limit on. */
  function SumUserSince(es: seq<Entry>, u: nat, limit: int): Bytes
  {
    if es == [] then NONE
    else
      var e := es[|es| - 1];
      Plus(SumUserSince(es[..|es| - 1], u, limit), if e.user == u && e.day >= limit then e.bytes else NONE)
  }

  /** The daily rows of a user, each once, add up to what the user's recordings come to. */
  lemma {:induction false} UserDays(es: seq<Entry>, u: nat, limit: int, ds: seq<DayKey>)
    requires Distinct(ds) && forall d <- ds :: d.user == u && d.day >= limit
    requires forall i :: 0 <= i < |es| && es[i].user == u && es[i].day >= limit ==> KeyOf(es[i]) in ds
    ensures SumDays(es, ds) == SumUserSince(es, u, limit)
  {
    if es == [] {
      SumsEmpty([], ds);
    } else {
      hide SumDays, SumUserSince, Distinct, Plus;
      var init, last := es[..|es| - 1], es[|es| - 1];
      assert forall i :: 0 <= i < |init| ==> init[i] == es[i];
      UserDays(init, u, limit, ds);
      assert es == init + [last];
      assert KeyOf(last) in ds <==> last.user == u && last.day >= limit;
      SumDaysSnoc(init, last, ds);
      SumUserSinceSnoc(init, last, u, limit);
    }
  }

  lemma SumUserSinceSnoc(es: seq<Entry>, e: Entry, u: nat, limit: int)
    ensures SumUserSince(es + [e], u, limit)
         == Plus(SumUserSince(es, u, limit), if e.user == u && e.day >= limit then e.bytes else NONE)
  {
    assert (es + [e])[..|es|] == es;
  }

  lemma {:induction false} NoneOfUser(a: seq<Entry>, b: seq<Entry>, u: nat, limit: int)
    requires forall i :: 0 <= i < |b| ==> b[i].user != u
    ensures SumUserSince(a + b, u, limit) == SumUserSince(a, u, limit)
    decreases |b|
  {
    hide SumUserSince, Plus;
    if b == [] {
      assert a + b == a;
    } else {
      var init, last := b[..|b| - 1], b[|b| - 1];
      assert forall i :: 0 <= i < |init| ==> init[i] == b[i];
      NoneOfUser(a, init, u, limit);
      assert b == init + [last];
      Assoc(a, init, [last]);
      SumUserSinceSnoc(a + init, last, u, limit);
      PlusSwap(SumUserSince(a, u, limit), NONE, NONE);
    }
  }

  lemma {:induction false} TotalDaysSnoc(m: map<DayKey, Bytes>, ds: seq<DayKey>, d: DayKey)
    ensures TotalDays(m, ds + [d]) == Plus(TotalDays(m, ds), Of(m, d))
  {
    if ds == [] {
      assert ds + [d] == [d];
    } else {
      assert (ds + [d])[1..] == ds[1..] + [d];
      TotalDaysSnoc(m, ds[1..], d);
    }
  }

  /** The keys of the daily rows a list of recordings makes. */
  function DayKeys(es: seq<Entry>): (ds: seq<DayKey>)
    ensures Distinct(ds)
  {
    if es == [] then []
    else
      var before, d := DayKeys(es[..|es| - 1]), KeyOf(es[|es| - 1]);
      if d in before then before else before + [d]
  }

  lemma {:induction false} DayKeysCover(es: seq<Entry>)
    ensures forall i :: 0 <= i < |es| ==> KeyOf(es[i]) in DayKeys(es)
  {
    if es != [] {
      var n := |es| - 1;
      DayKeysCover(es[..n]);
      forall i | 0 <= i < |es| ensures KeyOf(es[i]) in DayKeys(es) {
        if i < n { assert es[..n][i] == es[i]; }
      }
    }
  }

  // ----- The repository -----

  class Repository {
    var t: Tables
    /** The recordings from before there were user and site totals, and those since. */
    ghost const early: seq<Entry>
    ghost var all: seq<Entry>
    ghost var rawLimit: int
    ghost var dayLimit: int
    ghost var today: int
    ghost var clock: int

    constructor (ghost today: int, ghost clock: int)
      ensures Valid() && t == EMPTY && early == [] && all == [] && this.today == today && this.clock == clock
    {
      t, early, all := EMPTY, [], [];
      rawLimit, dayLimit := clock, today;
      this.today, this.clock := today, clock;
      new;
      EmptyAgrees(clock, today);
    }

    /** A repository over tables that hold history already but no totals yet. */
    constructor Over(t: Tables, ghost early: seq<Entry>, ghost rawLimit: int, ghost dayLimit: int,
                     ghost today: int, ghost clock: int)
      requires Agrees(t, early, [], rawLimit, dayLimit) && rawLimit <= clock && dayLimit <= today
      ensures Valid() && this.t == t && this.early == early && all == []
      ensures this.rawLimit == rawLimit && this.dayLimit == dayLimit && this.today == today && this.clock == clock
    {
      this.t, this.early, all := t, early, [];
      this.rawLimit, this.dayLimit, this.today, this.clock := rawLimit, dayLimit, today, clock;
    }

    ghost predicate Valid()
      reads this
    {
      Agrees(t, early, all, rawLimit, dayLimit) && rawLimit <= clock && dayLimit <= today
    }

    /** One recording, in all four tables at once. */
    method RecordTraffic(user: nat, node: nat, bytes: Bytes, day: int, now: int)
      requires Valid() && today <= day && clock <= now
      modifies this
      ensures Valid() && today == day && clock == now
      ensures t == Insert(old(t), Entry(user, node, day, now, bytes))
      ensures t.raw == old(t).raw + [Entry(user, node, day, now, bytes)]
      ensures forall u, n, d :: Of(t.daily, DayKey(u, n, d)) ==
                if u == user && n == node && d == day then Plus(Of(old(t).daily, DayKey(u, n, d)), bytes)
                else Of(old(t).daily, DayKey(u, n, d))
      ensures forall u :: Of(t.userTotal, u) ==
                if u == user then Plus(Of(old(t).userTotal, u), bytes) else Of(old(t).userTotal, u)
      ensures t.siteTotal == Some(Plus(if old(t).siteTotal.Some? then old(t).siteTotal.value else NONE, bytes))
      ensures all == old(all) + [Entry(user, node, day, now, bytes)]
      ensures rawLimit == old(rawLimit) && dayLimit == old(dayLimit)
    {
      hide Agrees;
      var e := Entry(user, node, day, now, bytes);
      InsertAgrees(t, early, all, rawLimit, dayLimit, e);
      var raw := t.raw + [e];
      var daily := t.daily[KeyOf(e) := Plus(Of(t.daily, KeyOf(e)), bytes)];
      var userTotal := t.userTotal[user := Plus(Of(t.userTotal, user), bytes)];
      var site := if t.siteTotal.Some? then t.siteTotal.value else NONE;
      t := Tables(raw, daily, userTotal, Some(Plus(site, bytes)));
      all, today, clock := all + [e], day, now;
    }

    /** A user's traffic is everything recorded for the user since there are totals, whether or not it was cleaned up.
        A user without any such recording has what the daily rows still show of earlier ones. */
    method GetUserTraffic(user: nat) returns (b: Bytes)
      requires Valid()
      ensures b == if exists e <- all :: e.user == user then SumUser(all, user)
                   else SumUserSince(early, user, dayLimit)
    {
      hide SumUser, SumDay, Since, SumUserSince;
      assert Of(t.userTotal, user) == SumUser(all, user);
      if user in t.userTotal {
        return t.userTotal[user];
      }
      b := SumDailyOf(user);
      assert forall i :: 0 <= i < |all| ==> all[i] in all;
      NoneOfUser(early, all, user, dayLimit);
    }

    /** Adds up the daily rows of a user in whatever order they come. */
    method SumDailyOf(user: nat) returns (b: Bytes)
      requires Valid()
      ensures b == SumUserSince(early + all, user, dayLimit)
    {
      hide SumUser, SumDay, Since, SumUserSince, SumDays, TotalDays, SumAll, Plus;
      b := NONE;
      ghost var ds: seq<DayKey> := [];
      NoDays(t.daily);
      var todo := t.daily.Keys;
      while todo != {}
        invariant todo <= t.daily.Keys && Distinct(ds) && b == TotalDays(t.daily, ds)
        invariant forall d :: d in ds <==> d in t.daily && d !in todo && d.user == user
      {
        var d :| d in todo;
        if d.user == user {
          TotalDaysSnoc(t.daily, ds, d);
          b := Plus(b, t.daily[d]);
          ds := ds + [d];
        }
        todo := todo - {d};
      }
      assert forall i :: 0 <= i < |ds| ==> ds[i] in ds;
      assert forall i :: 0 <= i < |early + all| ==> (early + all)[i] in early + all;
      TotalDaysAre(t, early + all, dayLimit, ds);
      UserDays(early + all, user, dayLimit, ds);
    }

    /** History cleanup with at least one day of raw rows and thirty of daily rows kept; it never touches a user or
        site total, and today's rows stay. */
    method CleanupTrafficHistory(rawRetention: Option<int>, dailyRetention: Option<int>, day: int, now: int)
      returns (rawDeleted: nat, dailyDeleted: nat)
      requires Valid() && today <= day && clock <= now
      modifies this
      ensures Valid() && today == day && clock == now && all == old(all)
      ensures t.userTotal == old(t).userTotal && t.siteTotal == old(t).siteTotal
      ensures t == Cleaned(old(t), now - Days(rawRetention, 1, 30) * 86400, day - (Days(dailyRetention, 30, 120) - 1))
      ensures forall e :: e in t.raw <==> e in old(t).raw && e.at >= now - Days(rawRetention, 1, 30) * 24 * 60 * 60
      ensures forall d :: d in t.daily <==> d in old(t).daily && d.day > day - Days(dailyRetention, 30, 120)
      ensures forall d :: d in t.daily ==> t.daily[d] == old(t).daily[d]
      ensures rawLimit == Max(old(rawLimit), now - Days(rawRetention, 1, 30) * 86400)
      ensures dayLimit == Max(old(dayLimit), day - (Days(dailyRetention, 30, 120) - 1))
      ensures rawDeleted == |old(t).raw| - |t.raw| && dailyDeleted == |old(t).daily| - |t.daily|
    {
      hide Agrees;
      hide Since;
      var rawDays, dailyDays := Days(rawRetention, 1, 30), Days(dailyRetention, 30, 120);
      var rawCutoff, dailyCutoff := now - rawDays * 86400, day - (dailyDays - 1);
      CleanAgrees(t, early, all, rawLimit, dayLimit, rawCutoff, dailyCutoff);
      var cleaned := Cleaned(t, rawCutoff, dailyCutoff);
      SinceShorter(t.raw, rawCutoff);
      SinceKeeps(t.raw, rawCutoff);
      assert |cleaned.daily| <= |t.daily| by {
        assert cleaned.daily.Keys <= t.daily.Keys;
        SubsetSize(cleaned.daily.Keys, t.daily.Keys);
      }
      rawDeleted, dailyDeleted := |t.raw| - |cleaned.raw|, |t.daily| - |cleaned.daily|;
      t := cleaned;
      rawLimit, dayLimit, today, clock := Max(rawLimit, rawCutoff), Max(dayLimit, dailyCutoff), day, now;
    }
  }

  lemma NoDays(m: map<DayKey, Bytes>)
    ensures TotalDays(m, []) == NONE
  {
  }

  /** A retention setting: missing, unreadable or zero means the default, and there is a minimum. */
  function Days(parsed: Option<int>, min: int, default: int): (n: int)
    requires default >= min
    ensures parsed.None? || parsed.value == 0 ==> n == default
    ensures parsed.Some? && parsed.value != 0 ==> n >= min && n >= parsed.value && (n == min || n == parsed.value)
  {
    Max(min, if parsed.Some? && parsed.value != 0 then parsed.value else default)
  }

  lemma {:induction false} SinceKeeps(es: seq<Entry>, limit: int)
    ensures forall e :: e in Since(es, limit) <==> e in es && e.at >= limit
  {
    if es != [] {
      var n := |es| - 1;
      SinceKeeps(es[..n], limit);
      assert es == es[..n] + [es[n]];
    }
  }

  lemma {:induction false} SinceShorter(es: seq<Entry>, limit: int)
    ensures |Since(es, limit)| <= |es|
  {
    if es != [] {
      SinceShorter(es[..|es| - 1], limit);
    }
  }
}
