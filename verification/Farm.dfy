/** The farm game: daily seeds, planting, harvesting and stealing over the database tables. */
module Farm {
  import opened Collections
  import opened Wrappers
  import opened FarmLedger

  datatype Failure =
    | InvalidPlot | PlotLocked | PlotOccupied | NoSeeds
    | NothingPlanted | NotMature
    | InvalidTarget | DailyLimitReached | AlreadyEmpty | RobbedOut | AlreadyStolen

  datatype Grant = Grant(granted: nat, full: bool, seeds: int)

  datatype Harvest = Skipped | Unripe | Gained(netGb: int, stolenGb: int)

  const PLOTS_BY_LEVEL: seq<nat> := [1, 2, 3, 4]

  function UnlockedPlots(trustLevel: int): (n: nat)
    ensures 1 <= n <= TOTAL_PLOTS
    ensures n == if trustLevel <= 0 then 1 else if trustLevel == 1 then 2 else if trustLevel == 2 then 3 else 4
  {
    PLOTS_BY_LEVEL[if trustLevel < 0 then 0 else if trustLevel > 3 then 3 else trustLevel]
  }

  class Database {
    var t: Tables
    ghost var opening: Tables
    ghost var history: seq<Event>
    ghost var clock: int

    constructor (t: Tables, ghost clock: int)
      requires OpeningOk(t, clock)
      ensures Valid() && this.t == opening == t && history == [] && this.clock == clock
    {
      this.t, opening, history, this.clock := t, t, [], clock;
      new;
      Opening(t, clock);
    }

    ghost predicate Valid()
      reads this
    {
      FarmOk(opening, t, history, clock)
    }

    /** Daily check-in: as many seeds as the level has plots, never beyond that many in stock. */
    method GrantDailySeeds(user: nat, trustLevel: int) returns (g: Grant)
      requires Valid()
      modifies this`t, this`history
      ensures Valid()
      ensures var cap, cur := UnlockedPlots(trustLevel), if user in old(t).seeds then old(t).seeds[user] else 0;
              && g.full == (cur >= cap) && g.granted == (if cur >= cap then 0 else cap - cur)
              && t == old(t).(seeds := t.seeds) && SeedsOf(t, user) == g.seeds == Max(cur, cap)
              && forall u :: u != user ==> SeedsOf(t, u) == SeedsOf(old(t), u)
      ensures history == if g.full then old(history) else old(history) + [Granted(user, g.granted)]
    {
      hide FarmOk;
      SeedsNatural(user);
      var cap := UnlockedPlots(trustLevel);
      var cur := SeedsOf(t, user);
      if cur >= cap { return Grant(0, true, cur); }
      var next := Min(cap, cur + cap);
      GrantStep(opening, t, history, clock, user, next - cur);
      t := t.(seeds := t.seeds[user := next]);
      history := history + [Granted(user, next - cur)];
      return Grant(next - cur, false, next);
    }

    lemma SeedsNatural(user: nat)
      requires Valid()
      ensures SeedsOf(t, user) >= 0
    {
      hide StealsOk, Account, Standing, Owned;
      assert Balanced(opening, t, Account(history, user), user);
    }

    /** Planting spends one seed and no quota. */
    method Plant(user: nat, trustLevel: int, slot: nat, now: int) returns (r: Result<int, Failure>)
      requires Valid() && clock <= now
      modifies this
      ensures Valid() && opening == old(opening) && clock == now
      ensures r == if slot >= 4 then Err(InvalidPlot)
                   else if slot >= UnlockedPlots(trustLevel) then Err(PlotLocked)
                   else if Plot(user, slot) in old(t).plots then Err(PlotOccupied)
                   else if user !in old(t).seeds || old(t).seeds[user] <= 0 then Err(NoSeeds)
                   else Ok(old(t).seeds[user] - 1)
      ensures r.Err? ==> t == old(t) && history == old(history)
      ensures r.Ok? ==>
                && t == old(t).(seeds := old(t).seeds[user := r.value], plots := old(t).plots[Plot(user, slot) := now])
                && history == old(history) + [Planted(user)]
    {
      hide FarmOk;
      Later(opening, t, history, clock, now);
      clock := now;
      if slot >= TOTAL_PLOTS { return Err(InvalidPlot); }
      if slot >= UnlockedPlots(trustLevel) { return Err(PlotLocked); }
      if Plot(user, slot) in t.plots { return Err(PlotOccupied); }
      var seeds := SeedsOf(t, user);
      if seeds <= 0 { return Err(NoSeeds); }
      PlantStep(opening, t, history, now, Plot(user, slot));
      t := t.(seeds := t.seeds[user := seeds - 1], plots := t.plots[Plot(user, slot) := now]);
      history := history + [Planted(user)];
      return Ok(seeds - 1);
    }

    /** Harvesting one plot. The clamps on the stolen amount never bite: a ripe crop yields exactly five GB less what
        was stolen from it, at least three. Only a finite quota is raised. */
    method HarvestOne(user: nat, slot: nat, now: int) returns (h: Harvest)
      requires Valid() && clock <= now
      modifies this
      ensures Valid() && opening == old(opening) && clock == now
      ensures var p := Plot(user, slot);
              h == if p !in old(t).plots then Skipped
                   else if now < old(t).plots[p] + 20 * 60 * 60 * 1000 then Unripe
                   else
                     var stolen := StolenFrom(old(t).steals, user, slot, old(t).plots[p]);
                     Gained(5 - stolen, stolen)
      ensures !h.Gained? ==> t == old(t) && history == old(history)
      ensures h.Gained? ==>
                && 3 <= h.netGb <= 5
                && t == old(t).(plots := old(t).plots - {Plot(user, slot)}, quota := t.quota)
                && t.quota == (if user in old(t).quota && old(t).quota[user] >= 0
                               then old(t).quota[user := old(t).quota[user] + h.netGb * 1024 * 1024 * 1024]
                               else old(t).quota)
                && t.quota == Credited(old(t).quota, user, h.netGb)
                && history == old(history) + [Harvested(user, h.netGb, Finite(old(t), user))]
    {
      hide FarmOk;
      Later(opening, t, history, clock, now);
      clock := now;
      var p := Plot(user, slot);
      if p !in t.plots { return Skipped; }
      var plantedAt := t.plots[p];
      if now < plantedAt + GROW_MS { return Unripe; }
      var sum := StolenFrom(t.steals, user, slot, plantedAt);
      StolenBound(user, slot, plantedAt);
      var stolen := Min(STEAL_MAX_PER_PLOT_GB, sum);
      var netGb := Max(0, YIELD_GB - stolen);
      HarvestStep(opening, t, history, now, p);
      history := history + [Harvested(user, netGb, Finite(t, user))];
      t := t.(plots := t.plots - {p});
      if netGb > 0 {
        t := t.(quota := Credited(t.quota, user, netGb));
      }
      return Gained(netGb, stolen);
    }

    lemma StolenBound(victim: nat, slot: nat, plantedAt: int)
      requires Valid()
      ensures 0 <= StolenFrom(t.steals, victim, slot, plantedAt) <= STEAL_MAX_PER_PLOT_GB
    {
      hide StolenFrom;
    }

    /** The single-plot request. */
    method HarvestPlot(user: nat, slot: nat, now: int) returns (r: Result<int, Failure>)
      requires Valid() && clock <= now
      modifies this
      ensures Valid() && opening == old(opening) && clock == now
      ensures r == if slot >= TOTAL_PLOTS then Err(InvalidPlot)
                   else if Plot(user, slot) !in old(t).plots then Err(NothingPlanted)
                   else if now < old(t).plots[Plot(user, slot)] + GROW_MS then Err(NotMature)
                   else Ok(YIELD_GB - StolenFrom(old(t).steals, user, slot, old(t).plots[Plot(user, slot)]))
      ensures r.Err? ==> t == old(t) && history == old(history)
      ensures r.Ok? ==>
                && t == old(t).(plots := old(t).plots - {Plot(user, slot)},
                                quota := Credited(old(t).quota, user, r.value))
                && history == old(history) + [Harvested(user, r.value, Finite(old(t), user))]
    {
      hide FarmOk;
      if slot >= TOTAL_PLOTS {
        Later(opening, t, history, clock, now);
        clock := now;
        return Err(InvalidPlot);
      }
      var h := HarvestOne(user, slot, now);
      match h
      case Skipped => return Err(NothingPlanted);
      case Unripe => return Err(NotMature);
      case Gained(netGb, _) => return Ok(netGb);
    }

    /** Harvesting everything ripe: after it the user's remaining crops are exactly the unripe ones, and the quota has
        grown by the reported amount. */
    method HarvestAll(user: nat, now: int) returns (count: nat, totalGb: int)
      requires Valid() && clock <= now
      modifies this
      ensures Valid() && opening == old(opening) && clock == now
      ensures t.steals == old(t).steals && t.seeds == old(t).seeds
      ensures t.plots == RipeRemoved(old(t).plots, user, now, TOTAL_PLOTS)
      ensures count == RipeCount(old(t).plots, user, now, TOTAL_PLOTS)
      ensures totalGb == RipeYield(old(t), user, now, TOTAL_PLOTS)
      ensures t.quota == Credited(old(t).quota, user, totalGb)
      ensures old(history) <= history && |history| == |old(history)| + count
      ensures forall i :: |old(history)| <= i < |history| ==> history[i].Harvested? && history[i].user == user
    {
      hide FarmOk;
      Later(opening, t, history, clock, now);
      clock, count, totalGb := now, 0, 0;
      ghost var start := t;
      for slot := 0 to TOTAL_PLOTS
        invariant Valid() && opening == old(opening) && clock == now
        invariant t.steals == start.steals && t.seeds == start.seeds
        invariant t.plots == RipeRemoved(start.plots, user, now, slot)
        invariant count == RipeCount(start.plots, user, now, slot)
        invariant totalGb == RipeYield(start, user, now, slot) >= 0
        invariant t.quota == Credited(start.quota, user, totalGb)
        invariant old(history) <= history && |history| == |old(history)| + count
        invariant forall i :: |old(history)| <= i < |history| ==> history[i].Harvested? && history[i].user == user
      {
        RemovedAt(start.plots, user, now, slot);
        var h := HarvestOne(user, slot, now);
        if h.Gained? && h.netGb > 0 {
          count, totalGb := count + 1, totalGb + h.netGb;
        }
      }
    }

    /** Stealing one GB from a ripe crop: the error is the first check that fails, and a success adds one row and one
        GB. The day is read three times, so the row's day is that of the first or of the last reading; the daily
        limit holds across midnight all the same. */
    method StealPlot(thief: nat, victim: nat, slot: nat, now: int, dayBefore: string, day: string, dayInside: string)
      returns (r: Result<int, Failure>)
      requires Valid() && clock <= now
      requires day == dayBefore || day == dayInside
      modifies this
      ensures Valid() && opening == old(opening) && clock == now
      ensures var p := Plot(victim, slot);
              r == if victim == thief then Err(InvalidTarget)
                   else if slot >= 4 then Err(InvalidPlot)
                   else if StealCount(old(t).steals, thief, dayBefore) >= 5 then Err(DailyLimitReached)
                   else if p !in old(t).plots then Err(AlreadyEmpty)
                   else if now < old(t).plots[p] + 20 * 60 * 60 * 1000 then Err(NotMature)
                   else if StolenFrom(old(t).steals, victim, slot, old(t).plots[p]) + 1 > 2 then Err(RobbedOut)
                   else if StealCount(old(t).steals, thief, dayInside) >= 5 then Err(DailyLimitReached)
                   else if exists s <- old(t).steals ::
                             s.thief == thief && s.victim == victim && s.slot == slot && s.plantedAt == old(t).plots[p]
                   then Err(AlreadyStolen)
                   else Ok(1)
      ensures r.Err? ==> t == old(t) && history == old(history)
      ensures r.Ok? ==>
                && (var row := Steal(thief, victim, slot, old(t).plots[Plot(victim, slot)], 1, day);
                    t == old(t).(steals := old(t).steals + [row], quota := t.quota))
                && t.quota == (if thief in old(t).quota && old(t).quota[thief] >= 0
                               then old(t).quota[thief := old(t).quota[thief] + 1024 * 1024 * 1024]
                               else old(t).quota)
                && history == old(history) + [Stole(thief, victim, Finite(old(t), thief))]
    {
      hide FarmOk;
      Later(opening, t, history, clock, now);
      clock := now;
      if victim == thief { return Err(InvalidTarget); }
      if slot >= TOTAL_PLOTS { return Err(InvalidPlot); }
      if StealCount(t.steals, thief, dayBefore) >= STEAL_DAILY_LIMIT { return Err(DailyLimitReached); }
      var p := Plot(victim, slot);
      if p !in t.plots { return Err(AlreadyEmpty); }
      if now < t.plots[p] + GROW_MS { return Err(NotMature); }
      if StolenFrom(t.steals, victim, slot, t.plots[p]) + STEAL_PER_GB > STEAL_MAX_PER_PLOT_GB {
        return Err(RobbedOut);
      }
      if StealCount(t.steals, thief, dayInside) >= STEAL_DAILY_LIMIT { return Err(DailyLimitReached); }
      var row := Steal(thief, victim, slot, t.plots[p], STEAL_PER_GB, day);
      if exists i :: 0 <= i < |t.steals| && SameTheft(t.steals[i], row) { return Err(AlreadyStolen); }
      StealStep(opening, t, history, now, row);
      history := history + [Stole(thief, victim, Finite(t, thief))];
      t := t.(steals := t.steals + [row], quota := Credited(t.quota, thief, STEAL_PER_GB));
      return Ok(STEAL_PER_GB);
    }
  }

  // ----- What harvesting everything comes to -----

  predicate Ripe(plots: map<Plot, int>, p: Plot, now: int)
  {
    p in plots && plots[p] + GROW_MS <= now
  }

  function RipeRemoved(plots: map<Plot, int>, user: nat, now: int, n: nat): map<Plot, int>
  {
    map p | p in plots && !(p.user == user && p.slot < n && Ripe(plots, p, now)) :: plots[p]
  }

  function RipeCount(plots: map<Plot, int>, user: nat, now: int, n: nat): nat
  {
    if n == 0 then 0 else RipeCount(plots, user, now, n - 1) + if Ripe(plots, Plot(user, n - 1), now) then 1 else 0
  }

  function RipeYield(t: Tables, user: nat, now: int, n: nat): int
  {
    if n == 0 then 0
    else
      var p := Plot(user, n - 1);
      RipeYield(t, user, now, n - 1)
      + if Ripe(t.plots, p, now) then YIELD_GB - StolenFrom(t.steals, user, n - 1, t.plots[p]) else 0
  }

  lemma RemovedAt(plots: map<Plot, int>, user: nat, now: int, n: nat)
    ensures var r, p := RipeRemoved(plots, user, now, n), Plot(user, n);
            && (p in r <==> p in plots) && (p in r ==> r[p] == plots[p])
            && RipeRemoved(plots, user, now, n + 1) == if Ripe(plots, p, now) then r - {p} else r
  {
  }
}
