/** The farm's tables, the history of what happened to them, and the accounts that tie the two together. */
module FarmLedger {
  import opened Collections

  const GB: int := 1073741824
  const YIELD_GB: int := 5
  const GROW_MS: int := 20 * 3600 * 1000
  const TOTAL_PLOTS: nat := 4
  const STEAL_PER_GB: int := 1
  const STEAL_MAX_PER_PLOT_GB: int := 2
  const STEAL_DAILY_LIMIT: nat := 5

  datatype Plot = Plot(user: nat, slot: nat)

  /** A row of the steal table; the planting time ties it to one crop. */
  datatype Steal = Steal(thief: nat, victim: nat, slot: nat, plantedAt: int, gb: int, day: string)

  /** Planting times of standing crops, seed stocks, steal rows and traffic quotas (negative means unlimited). */
  datatype Tables = Tables(plots: map<Plot, int>, seeds: map<nat, int>, steals: seq<Steal>, quota: map<nat, int>)

  datatype Event =
    | Granted(user: nat, n: nat)
    | Planted(user: nat)
    | Harvested(user: nat, netGb: int, paid: bool)
    | Stole(thief: nat, victim: nat, paid: bool)

  // ----- Sums over the steal table -----

  predicate FromCrop(r: Steal, victim: nat, slot: nat, plantedAt: int)
  {
    r.victim == victim && r.slot == slot && r.plantedAt == plantedAt
  }

  /** Total GB stolen from one crop. */
  function StolenFrom(steals: seq<Steal>, victim: nat, slot: nat, plantedAt: int): int
  {
    if steals == [] then 0
    else
      var n := |steals| - 1;
      StolenFrom(steals[..n], victim, slot, plantedAt)
      + if FromCrop(steals[n], victim, slot, plantedAt) then steals[n].gb else 0
  }

  function StealCount(steals: seq<Steal>, thief: nat, day: string): nat
  {
    if steals == [] then 0
    else
      var n := |steals| - 1;
      StealCount(steals[..n], thief, day) + if steals[n].thief == thief && steals[n].day == day then 1 else 0
  }

  /** The daily count is the number of the thief's rows of that day. */
  lemma {:induction false} StealCountIs(steals: seq<Steal>, thief: nat, day: string)
    ensures StealCount(steals, thief, day)
         == |set i | 0 <= i < |steals| && steals[i].thief == thief && steals[i].day == day|
  {
    var rows := set i | 0 <= i < |steals| && steals[i].thief == thief && steals[i].day == day;
    if steals == [] {
      assert rows == {};
    } else {
      var n := |steals| - 1;
      var init := steals[..n];
      StealCountIs(init, thief, day);
      var before := set i | 0 <= i < |init| && init[i].thief == thief && init[i].day == day;
      assert rows == before + if steals[n].thief == thief && steals[n].day == day then {n} else {};
    }
  }

  predicate Stands(r: Steal, plots: map<Plot, int>)
  {
    Plot(r.victim, r.slot) in plots && plots[Plot(r.victim, r.slot)] == r.plantedAt
  }

  /** GB stolen from the crops of one owner that are still standing. */
  function Standing(steals: seq<Steal>, plots: map<Plot, int>, owner: nat): int
  {
    if steals == [] then 0
    else
      var n := |steals| - 1;
      Standing(steals[..n], plots, owner)
      + if steals[n].victim == owner && Stands(steals[n], plots) then steals[n].gb else 0
  }

  lemma StealSnoc(steals: seq<Steal>, r: Steal)
    ensures forall v, s, p :: StolenFrom(steals + [r], v, s, p) ==
              StolenFrom(steals, v, s, p) + if FromCrop(r, v, s, p) then r.gb else 0
    ensures forall t, d :: StealCount(steals + [r], t, d) ==
              StealCount(steals, t, d) + if r.thief == t && r.day == d then 1 else 0
    ensures forall plots, u :: Standing(steals + [r], plots, u)
                            == Standing(steals, plots, u) + if r.victim == u && Stands(r, plots) then r.gb else 0
  {
    assert (steals + [r])[..|steals|] == steals;
  }

  /** Taking a crop away takes away exactly what was stolen from it. */
  lemma {:induction false} StandingWithout(steals: seq<Steal>, plots: map<Plot, int>, p: Plot, u: nat)
    requires p in plots
    ensures Standing(steals, plots, u)
         == Standing(steals, plots - {p}, u) + if p.user == u then StolenFrom(steals, p.user, p.slot, plots[p]) else 0
  {
    if steals != [] {
      StandingWithout(steals[..|steals| - 1], plots, p, u);
    }
  }

  /** A new crop starts with nothing stolen, since every steal is from an earlier planting. */
  lemma {:induction false} StandingWith(steals: seq<Steal>, plots: map<Plot, int>, p: Plot, now: int, u: nat)
    requires p !in plots
    requires forall i :: 0 <= i < |steals| ==> steals[i].plantedAt < now
    ensures Standing(steals, plots[p := now], u) == Standing(steals, plots, u)
  {
    if steals != [] {
      StandingWith(steals[..|steals| - 1], plots, p, now, u);
    }
  }

  // ----- Accounts over the history -----

  /** Per user: GB credited to the user's quota, GB that came from the user's crops whoever got them, harvests,
      plantings and seeds granted. */
  datatype Tally = Tally(credit: int, from: int, harvests: nat, plantings: nat, granted: nat)

  function Account(h: seq<Event>, u: nat): Tally
  {
    if h == [] then Tally(0, 0, 0, 0, 0)
    else Post(Account(h[..|h| - 1], u), h[|h| - 1], u)
  }

  function Post(t: Tally, e: Event, u: nat): Tally
  {
    match e
    case Granted(user, n) => if user == u then t.(granted := t.granted + n) else t
    case Planted(user) => if user == u then t.(plantings := t.plantings + 1) else t
    case Harvested(user, netGb, paid) =>
      if user == u then
        t.(credit := t.credit + if paid then netGb else 0, from := t.from + netGb, harvests := t.harvests + 1)
      else t
    case Stole(thief, victim, paid) =>
      t.(credit := t.credit + if thief == u && paid then STEAL_PER_GB else 0,
         from := t.from + if victim == u then STEAL_PER_GB else 0)
  }

  lemma AccountSnoc(h: seq<Event>, e: Event)
    ensures forall u :: Account(h + [e], u) == Post(Account(h, u), e, u)
  {
    assert (h + [e])[..|h|] == h;
  }

  // ----- Invariants -----

  /** What the steal table never breaks: nobody steals from himself, from an unripe crop, twice from one crop, more
      than the cap from one crop, or more than the daily number. */
  ghost predicate StealsOk(steals: seq<Steal>, clock: int)
  {
    && (forall i :: 0 <= i < |steals| ==> StealOk(steals[i], clock))
    && (forall i, j :: 0 <= i < j < |steals| ==> !SameTheft(steals[i], steals[j]))
    && (forall v, s, p :: 0 <= StolenFrom(steals, v, s, p) <= STEAL_MAX_PER_PLOT_GB)
    && (forall t, d :: StealCount(steals, t, d) <= STEAL_DAILY_LIMIT)
  }

  predicate StealOk(r: Steal, clock: int)
  {
    r.gb == STEAL_PER_GB && r.thief != r.victim && r.plantedAt + GROW_MS <= clock
  }

  /** The key of the table's uniqueness constraint. */
  predicate SameTheft(a: Steal, b: Steal)
  {
    a.thief == b.thief && FromCrop(a, b.victim, b.slot, b.plantedAt)
  }

  predicate PlotsOk(plots: map<Plot, int>, clock: int)
  {
    forall p :: p in plots ==> p.slot < TOTAL_PLOTS && plots[p] <= clock
  }

  function SeedsOf(t: Tables, u: nat): int
  {
    if u in t.seeds then t.seeds[u] else 0
  }

  function Owned(plots: map<Plot, int>, u: nat): set<Plot>
  {
    set p | p in plots && p.user == u
  }

  predicate Finite(t: Tables, u: nat)
  {
    u in t.quota && t.quota[u] >= 0
  }

  /** One user's accounts since the opening tables. */
  predicate Balanced(o: Tables, t: Tables, a: Tally, u: nat)
  {
    && (u in t.quota <==> u in o.quota)
    && (u in o.quota ==> t.quota[u] == o.quota[u] + GB * a.credit)
    && a.credit >= 0 && (!Finite(o, u) ==> a.credit == 0)
    && a.from == YIELD_GB * a.harvests + Standing(t.steals, t.plots, u) - Standing(o.steals, o.plots, u)
    && |Owned(t.plots, u)| == |Owned(o.plots, u)| + a.plantings - a.harvests
    && SeedsOf(t, u) == SeedsOf(o, u) + a.granted - a.plantings
    && SeedsOf(t, u) >= 0
  }

  /** An event's payment goes exactly to users with a finite quota. */
  predicate PaidOk(o: Tables, e: Event)
  {
    match e
    case Harvested(user, netGb, paid) =>
      && YIELD_GB - STEAL_MAX_PER_PLOT_GB <= netGb <= YIELD_GB
      && (paid <==> Finite(o, user))
    case Stole(thief, victim, paid) => thief != victim && (paid <==> Finite(o, thief))
    case _ => true
  }

  ghost predicate FarmOk(o: Tables, t: Tables, h: seq<Event>, clock: int)
  {
    && StealsOk(t.steals, clock) && PlotsOk(t.plots, clock)
    && StealsOk(o.steals, clock)
    && (forall i :: 0 <= i < |h| ==> PaidOk(o, h[i]))
    && forall u :: Balanced(o, t, Account(h, u), u)
  }

  /** Tables a run may start from. */
  ghost predicate OpeningOk(o: Tables, clock: int)
  {
    StealsOk(o.steals, clock) && PlotsOk(o.plots, clock) && forall u :: SeedsOf(o, u) >= 0
  }

  lemma Opening(o: Tables, clock: int)
    requires OpeningOk(o, clock)
    ensures FarmOk(o, o, [], clock)
  {
  }

  lemma Later(o: Tables, t: Tables, h: seq<Event>, clock: int, now: int)
    requires FarmOk(o, t, h, clock) && clock <= now
    ensures FarmOk(o, t, h, now)
  {
  }

  // ----- One operation keeps the invariants -----

  function Credited(quota: map<nat, int>, u: nat, gb: int): map<nat, int>
  {
    if u in quota && quota[u] >= 0 then quota[u := quota[u] + GB * gb] else quota
  }

  lemma OwnedWithout(plots: map<Plot, int>, p: Plot, u: nat)
    requires p in plots
    ensures |Owned(plots, u)| == |Owned(plots - {p}, u)| + if p.user == u then 1 else 0
  {
    if p.user == u {
      assert Owned(plots, u) == Owned(plots - {p}, u) + {p};
    } else {
      assert Owned(plots, u) == Owned(plots - {p}, u);
    }
  }

  lemma OwnedWith(plots: map<Plot, int>, p: Plot, now: int, u: nat)
    requires p !in plots
    ensures |Owned(plots[p := now], u)| == |Owned(plots, u)| + if p.user == u then 1 else 0
  {
    if p.user == u {
      assert Owned(plots[p := now], u) == Owned(plots, u) + {p};
    } else {
      assert Owned(plots[p := now], u) == Owned(plots, u);
    }
  }

  lemma GrantStep(o: Tables, t: Tables, h: seq<Event>, now: int, user: nat, n: nat)
    requires FarmOk(o, t, h, now)
    ensures FarmOk(o, t.(seeds := t.seeds[user := SeedsOf(t, user) + n]), h + [Granted(user, n)], now)
  {
    hide StealsOk, Standing, Account;
    var t' := t.(seeds := t.seeds[user := SeedsOf(t, user) + n]);
    AccountSnoc(h, Granted(user, n));
    forall u ensures Balanced(o, t', Account(h + [Granted(user, n)], u), u) {
      assert Balanced(o, t, Account(h, u), u);
    }
  }

  lemma PlantStep(o: Tables, t: Tables, h: seq<Event>, now: int, p: Plot)
    requires FarmOk(o, t, h, now) && p.slot < TOTAL_PLOTS && p !in t.plots && SeedsOf(t, p.user) > 0
    ensures var t' := t.(seeds := t.seeds[p.user := SeedsOf(t, p.user) - 1], plots := t.plots[p := now]);
            FarmOk(o, t', h + [Planted(p.user)], now)
  {
    var t' := t.(seeds := t.seeds[p.user := SeedsOf(t, p.user) - 1], plots := t.plots[p := now]);
    AccountSnoc(h, Planted(p.user));
    hide Standing, Account, Owned, StolenFrom, StealCount;
    forall u ensures Balanced(o, t', Account(h + [Planted(p.user)], u), u) {
      assert Balanced(o, t, Account(h, u), u);
      forall i | 0 <= i < |t.steals| ensures t.steals[i].plantedAt < now { assert StealOk(t.steals[i], now); }
      StandingWith(t.steals, t.plots, p, now, u);
      OwnedWith(t.plots, p, now, u);
    }
  }

  lemma HarvestStep(o: Tables, t: Tables, h: seq<Event>, now: int, p: Plot)
    requires FarmOk(o, t, h, now) && p in t.plots
    ensures var net := YIELD_GB - StolenFrom(t.steals, p.user, p.slot, t.plots[p]);
            var t' := t.(plots := t.plots - {p}, quota := Credited(t.quota, p.user, net));
            FarmOk(o, t', h + [Harvested(p.user, net, Finite(t, p.user))], now)
  {
    var net := YIELD_GB - StolenFrom(t.steals, p.user, p.slot, t.plots[p]);
    var e := Harvested(p.user, net, Finite(t, p.user));
    var t' := t.(plots := t.plots - {p}, quota := Credited(t.quota, p.user, net));
    assert 0 <= StolenFrom(t.steals, p.user, p.slot, t.plots[p]) <= STEAL_MAX_PER_PLOT_GB;
    hide Standing, Account, Owned, StealsOk, StolenFrom;
    AccountSnoc(h, e);
    assert Balanced(o, t, Account(h, p.user), p.user);
    FiniteKept(o, t, h, p.user);
    forall u ensures Balanced(o, t', Account(h + [e], u), u) {
      assert Balanced(o, t, Account(h, u), u);
      StandingWithout(t.steals, t.plots, p, u);
      OwnedWithout(t.plots, p, u);
    }
  }

  /** Payments never turn a finite quota into an unlimited one or back. */
  lemma FiniteKept(o: Tables, t: Tables, h: seq<Event>, u: nat)
    requires Balanced(o, t, Account(h, u), u)
    ensures Finite(t, u) <==> Finite(o, u)
  {
    hide Standing, Account, Owned;
  }

  lemma StealStep(o: Tables, t: Tables, h: seq<Event>, now: int, r: Steal)
    requires FarmOk(o, t, h, now) && StealOk(r, now) && Stands(r, t.plots)
    requires StolenFrom(t.steals, r.victim, r.slot, r.plantedAt) + STEAL_PER_GB <= STEAL_MAX_PER_PLOT_GB
    requires StealCount(t.steals, r.thief, r.day) < STEAL_DAILY_LIMIT
    requires forall i :: 0 <= i < |t.steals| ==> !SameTheft(t.steals[i], r)
    ensures var t' := t.(steals := t.steals + [r], quota := Credited(t.quota, r.thief, STEAL_PER_GB));
            FarmOk(o, t', h + [Stole(r.thief, r.victim, Finite(t, r.thief))], now)
  {
    var e := Stole(r.thief, r.victim, Finite(t, r.thief));
    var t' := t.(steals := t.steals + [r], quota := Credited(t.quota, r.thief, STEAL_PER_GB));
    StealSnoc(t.steals, r);
    hide Standing, StolenFrom, StealCount, Account, Owned;
    AccountSnoc(h, e);
    StealRow(t.steals, r, now);
    assert Balanced(o, t, Account(h, r.thief), r.thief);
    FiniteKept(o, t, h, r.thief);
    hide StealsOk;
    forall u ensures Balanced(o, t', Account(h + [e], u), u) {
      assert Balanced(o, t, Account(h, u), u);
    }
  }

  lemma StealRow(steals: seq<Steal>, r: Steal, now: int)
    requires StealsOk(steals, now) && StealOk(r, now)
    requires StolenFrom(steals, r.victim, r.slot, r.plantedAt) + STEAL_PER_GB <= STEAL_MAX_PER_PLOT_GB
    requires StealCount(steals, r.thief, r.day) < STEAL_DAILY_LIMIT
    requires forall i :: 0 <= i < |steals| ==> !SameTheft(steals[i], r)
    ensures StealsOk(steals + [r], now)
  {
    StealSnoc(steals, r);
    hide StolenFrom, StealCount;
  }

  // ----- Conservation -----

  /** At most the cap is missing from each standing crop. */
  lemma {:induction false} StandingBound(steals: seq<Steal>, plots: map<Plot, int>, u: nat)
    requires forall v, s, p :: 0 <= StolenFrom(steals, v, s, p) <= STEAL_MAX_PER_PLOT_GB
    ensures 0 <= Standing(steals, plots, u) <= STEAL_MAX_PER_PLOT_GB * |Owned(plots, u)|
    decreases |plots|
  {
    if plots.Keys == {} {
      NothingStands(steals, plots, u);
    } else {
      var p :| p in plots.Keys;
      StandingWithout(steals, plots, p, u);
      OwnedWithout(plots, p, u);
      assert |plots - {p}| < |plots| by {
        assert (plots - {p}).Keys == plots.Keys - {p};
        assert |plots.Keys - {p}| == |plots.Keys| - 1;
      }
      StandingBound(steals, plots - {p}, u);
    }
  }

  lemma {:induction false} NothingStands(steals: seq<Steal>, plots: map<Plot, int>, u: nat)
    requires plots.Keys == {}
    ensures Standing(steals, plots, u) == 0
  {
    if steals != [] {
      NothingStands(steals[..|steals| - 1], plots, u);
    }
  }

  /** What one owner's crops have paid out, to whomever, never exceeds the yield of the crops standing at the start
      and of every seed the owner ever had. */
  lemma OwnerBound(o: Tables, t: Tables, h: seq<Event>, clock: int, u: nat)
    requires FarmOk(o, t, h, clock)
    ensures Account(h, u).from <= YIELD_GB * (|Owned(o.plots, u)| + SeedsOf(o, u) + Account(h, u).granted)
  {
    StandingBound(t.steals, t.plots, u);
    StandingBound(o.steals, o.plots, u);
    hide Standing, Account, Owned, StealsOk;
    assert Balanced(o, t, Account(h, u), u);
  }

  function TotalCredit(h: seq<Event>, us: seq<nat>): int
  {
    if us == [] then 0 else Account(h, us[0]).credit + TotalCredit(h, us[1..])
  }

  function TotalFrom(h: seq<Event>, us: seq<nat>): int
  {
    if us == [] then 0 else Account(h, us[0]).from + TotalFrom(h, us[1..])
  }

  function TotalQuota(quota: map<nat, int>, us: seq<nat>): int
    requires forall u <- us :: u in quota
  {
    if us == [] then 0 else quota[us[0]] + TotalQuota(quota, us[1..])
  }

  /** Five GB for each harvest, plus what is stolen from crops that still stand now but was not at the start. */
  function TotalDue(o: Tables, t: Tables, h: seq<Event>, us: seq<nat>): int
  {
    if us == [] then 0
    else
      var u := us[0];
      YIELD_GB * Account(h, u).harvests + Standing(t.steals, t.plots, u) - Standing(o.steals, o.plots, u)
      + TotalDue(o, t, h, us[1..])
  }

  predicate Involves(us: seq<nat>, e: Event)
  {
    match e
    case Stole(thief, victim, _) => thief in us && victim in us
    case Harvested(user, _, _) => user in us
    case _ => true
  }

  /** How much one event adds to the totals. */
  lemma {:induction false} TotalsSnoc(h: seq<Event>, e: Event, us: seq<nat>)
    requires Distinct(us)
    ensures TotalCredit(h + [e], us) == TotalCredit(h, us) +
              (match e
               case Harvested(user, net, paid) => if user in us && paid then net else 0
               case Stole(thief, _, paid) => if thief in us && paid then STEAL_PER_GB else 0
               case _ => 0)
    ensures TotalFrom(h + [e], us) == TotalFrom(h, us) +
              (match e
               case Harvested(user, net, _) => if user in us then net else 0
               case Stole(_, victim, _) => if victim in us then STEAL_PER_GB else 0
               case _ => 0)
  {
    hide Account;
    AccountSnoc(h, e);
    if us != [] {
      TotalsSnoc(h, e, us[1..]);
      assert us[0] !in us[1..];
      assert forall u :: u in us <==> u == us[0] || u in us[1..];
    }
  }

  /** Stealing is zero-sum: among finite users, what quotas received is what crops gave. */
  lemma {:induction false} ZeroSum(o: Tables, h: seq<Event>, us: seq<nat>)
    requires Distinct(us) && (forall u <- us :: Finite(o, u))
    requires forall i :: 0 <= i < |h| ==> PaidOk(o, h[i]) && Involves(us, h[i])
    ensures TotalCredit(h, us) == TotalFrom(h, us)
  {
    if h == [] {
      NoTotals(us);
    } else {
      var n := |h| - 1;
      ZeroSum(o, h[..n], us);
      assert h == h[..n] + [h[n]];
      TotalsSnoc(h[..n], h[n], us);
      assert PaidOk(o, h[n]) && Involves(us, h[n]);
    }
  }

  lemma {:induction false} NoTotals(us: seq<nat>)
    ensures TotalCredit([], us) == 0 && TotalFrom([], us) == 0
  {
    if us != [] {
      NoTotals(us[1..]);
    }
  }

  lemma {:induction false} TotalsBalanced(o: Tables, t: Tables, h: seq<Event>, us: seq<nat>)
    requires forall u :: Balanced(o, t, Account(h, u), u)
    requires (forall u <- us :: u in o.quota) && (forall u <- us :: u in t.quota)
    ensures TotalQuota(t.quota, us) == TotalQuota(o.quota, us) + GB * TotalCredit(h, us)
    ensures TotalFrom(h, us) == TotalDue(o, t, h, us)
  {
    hide Account, Standing, Owned;
    if us != [] {
      TotalsBalanced(o, t, h, us[1..]);
      assert Balanced(o, t, Account(h, us[0]), us[0]);
    }
  }

  /** The conservation law: over any run by finite users, the quotas have grown by exactly five GB for each harvested
      crop plus what has been stolen from crops that still stand. */
  lemma Conservation(o: Tables, t: Tables, h: seq<Event>, clock: int, us: seq<nat>)
    requires FarmOk(o, t, h, clock)
    requires Distinct(us) && (forall u <- us :: u in o.quota && o.quota[u] >= 0)
    requires forall i :: 0 <= i < |h| ==> Involves(us, h[i])
    ensures forall u <- us :: u in t.quota
    ensures TotalQuota(t.quota, us) - TotalQuota(o.quota, us) == GB * TotalDue(o, t, h, us)
  {
    hide Account, StealsOk, Standing, Owned;
    forall u | u in us ensures u in t.quota { assert Balanced(o, t, Account(h, u), u); }
    ZeroSum(o, h, us);
    TotalsBalanced(o, t, h, us);
  }

  /** Crops standing at the start and seeds ever obtained, over several users. */
  function TotalSupply(o: Tables, h: seq<Event>, us: seq<nat>): int
  {
    if us == [] then 0
    else |Owned(o.plots, us[0])| + SeedsOf(o, us[0]) + Account(h, us[0]).granted + TotalSupply(o, h, us[1..])
  }

  /** Nothing is credited that no crop gave, whether or not everybody's quota is finite. */
  lemma {:induction false} CreditComesFromCrops(o: Tables, h: seq<Event>, us: seq<nat>)
    requires Distinct(us) && forall i :: 0 <= i < |h| ==> PaidOk(o, h[i]) && Involves(us, h[i])
    ensures TotalCredit(h, us) <= TotalFrom(h, us)
  {
    if h == [] {
      NoTotals(us);
    } else {
      var n := |h| - 1;
      CreditComesFromCrops(o, h[..n], us);
      assert h == h[..n] + [h[n]];
      TotalsSnoc(h[..n], h[n], us);
      assert PaidOk(o, h[n]) && Involves(us, h[n]);
    }
  }

  /** No schedule of planting, harvesting and stealing credits more than five GB per crop and seed there ever was. */
  lemma TotalBound(o: Tables, t: Tables, h: seq<Event>, clock: int, us: seq<nat>)
    requires FarmOk(o, t, h, clock)
    requires Distinct(us) && forall i :: 0 <= i < |h| ==> Involves(us, h[i])
    ensures TotalCredit(h, us) <= YIELD_GB * TotalSupply(o, h, us)
  {
    hide FarmOk, Account;
    assert forall i :: 0 <= i < |h| ==> PaidOk(o, h[i]) by { Paid(o, t, h, clock); }
    CreditComesFromCrops(o, h, us);
    TotalFromBound(o, t, h, clock, us);
  }

  lemma Paid(o: Tables, t: Tables, h: seq<Event>, clock: int)
    requires FarmOk(o, t, h, clock)
    ensures forall i :: 0 <= i < |h| ==> PaidOk(o, h[i])
  {
    hide StealsOk, Balanced, PaidOk;
  }

  lemma {:induction false} TotalFromBound(o: Tables, t: Tables, h: seq<Event>, clock: int, us: seq<nat>)
    requires FarmOk(o, t, h, clock)
    ensures TotalFrom(h, us) <= YIELD_GB * TotalSupply(o, h, us)
  {
    hide FarmOk, Account, Owned;
    if us != [] {
      OwnerBound(o, t, h, clock, us[0]);
      TotalFromBound(o, t, h, clock, us[1..]);
    }
  }

  // ----- One crop -----

  /** GB stolen from one crop by one thief. */
  function StolenBy(steals: seq<Steal>, thief: nat, victim: nat, slot: nat, plantedAt: int): int
  {
    if steals == [] then 0
    else
      var n := |steals| - 1;
      StolenBy(steals[..n], thief, victim, slot, plantedAt)
      + if steals[n].thief == thief && FromCrop(steals[n], victim, slot, plantedAt) then steals[n].gb else 0
  }

  /** Everyone who has stolen from one crop. */
  function Thieves(steals: seq<Steal>, victim: nat, slot: nat, plantedAt: int): set<nat>
  {
    set i | 0 <= i < |steals| && FromCrop(steals[i], victim, slot, plantedAt) :: steals[i].thief
  }

  /** Each thief of a crop has one share of it, and nobody else has any. */
  lemma {:induction false} OneShareEach(steals: seq<Steal>, victim: nat, slot: nat, plantedAt: int)
    requires forall i :: 0 <= i < |steals| ==> steals[i].gb == STEAL_PER_GB
    requires forall i, j :: 0 <= i < j < |steals| ==> !SameTheft(steals[i], steals[j])
    ensures var thieves := Thieves(steals, victim, slot, plantedAt);
            && (forall u :: StolenBy(steals, u, victim, slot, plantedAt) == if u in thieves then STEAL_PER_GB else 0)
            && StolenFrom(steals, victim, slot, plantedAt) == STEAL_PER_GB * |thieves|
  {
    if steals != [] {
      hide FromCrop, SameTheft, Thieves;
      var n := |steals| - 1;
      OneShareEach(steals[..n], victim, slot, plantedAt);
      ThievesStep(steals, victim, slot, plantedAt);
    }
  }

  /** The last steal from a crop brings a new thief. */
  lemma ThievesStep(steals: seq<Steal>, victim: nat, slot: nat, plantedAt: int)
    requires steals != [] && forall i, j :: 0 <= i < j < |steals| ==> !SameTheft(steals[i], steals[j])
    ensures var n := |steals| - 1;
            var before := Thieves(steals[..n], victim, slot, plantedAt);
            var after := Thieves(steals, victim, slot, plantedAt);
            if FromCrop(steals[n], victim, slot, plantedAt) then
              after == before + {steals[n].thief} && steals[n].thief !in before
            else after == before
  {
    var n := |steals| - 1;
    var init := steals[..n];
    assert forall i :: 0 <= i < n ==> init[i] == steals[i] && !SameTheft(steals[i], steals[n]);
    var before, after := Thieves(init, victim, slot, plantedAt), Thieves(steals, victim, slot, plantedAt);
    forall u
      ensures u in after <==> u in before || (FromCrop(steals[n], victim, slot, plantedAt) && u == steals[n].thief)
    {
      if u in before {
        var i :| 0 <= i < n && FromCrop(init[i], victim, slot, plantedAt) && init[i].thief == u;
        assert steals[i].thief == u;
      }
    }
  }

  /** After any run a crop has lost at most two GB, to at most two thieves, one GB to each and none to its owner. */
  lemma CropLosses(o: Tables, t: Tables, h: seq<Event>, clock: int, victim: nat, slot: nat, plantedAt: int, thief: nat)
    requires FarmOk(o, t, h, clock)
    ensures 0 <= StolenBy(t.steals, thief, victim, slot, plantedAt) <= 1
    ensures StolenBy(t.steals, victim, victim, slot, plantedAt) == 0
    ensures StolenFrom(t.steals, victim, slot, plantedAt) == |Thieves(t.steals, victim, slot, plantedAt)| <= 2
  {
    hide Balanced, Account, StolenFrom, StolenBy, StealCount;
    assert forall i :: 0 <= i < |t.steals| ==> StealOk(t.steals[i], clock);
    OneShareEach(t.steals, victim, slot, plantedAt);
    assert 0 <= StolenFrom(t.steals, victim, slot, plantedAt) <= STEAL_MAX_PER_PLOT_GB;
  }
}
