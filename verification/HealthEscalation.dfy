/** How failing agent reports of a node turn into restarts, one alarm and an offline mark. */
module HealthEscalation {
  import opened Collections

  const FAIL_THRESHOLD: nat := 3

  datatype Settings = Settings(autoRestart: bool, maxRestarts: int)

  /** What the node's remark says: nothing, the service is down, it looks blocked, or an earlier zero-traffic mark that
      is kept (and may or may not use the word for blocked). */
  datatype Remark = Clear | ServiceDown | SuspectBlocked | ZeroTraffic(blocked: bool)

  /** One report, with the node's row as it is read when the report is handled. */
  datatype Report = Report(serviceAlive: bool, cnReachable: bool, hasTraffic: bool,
                           rowActive: bool, rowRemark: Remark, awsBound: bool, agentOnline: bool)

  datatype Action = Restart(attempt: nat) | AlarmBlocked(swapIp: bool) | AlarmDown | Recovered

  /** A silent report leaves the node's row alone; any other writes its state and remark. */
  datatype Effect = Silent | Marked(active: bool, remark: Remark)

  /** Consecutive failures and restarts of one node; a missing counter counts as zero. */
  datatype Counters = Counters(fails: nat, restarts: nat)

  const ZERO := Counters(0, 0)

  function Verdict(r: Report): (bool, Remark)
  {
    if !r.serviceAlive then (false, ServiceDown)
    else if !r.cnReachable then (false, SuspectBlocked)
    else if r.rowRemark.ZeroTraffic? then
      if r.hasTraffic then (true, Clear) else (false, r.rowRemark)
    else (true, Clear)
  }

  predicate Failing(r: Report)
  {
    !Verdict(r).0
  }

  predicate SaysBlocked(m: Remark)
  {
    m.SuspectBlocked? || (m.ZeroTraffic? && m.blocked)
  }

  /** A report fails when the service is down, when it cannot be reached, or when nobody uses a node that has been
      marked for lack of traffic. */
  lemma FailingIs(r: Report)
    ensures Failing(r) <==>
            || !r.serviceAlive
            || !r.cnReachable
            || (r.rowRemark.ZeroTraffic? && !r.hasTraffic)
  {
  }

  datatype Outcome = Outcome(counters: Counters, actions: seq<Action>, effect: Effect)

  /** The node's counters, the actions and the row update after one report. */
  function Handle(s: Settings, c: Counters, r: Report): Outcome
  {
    var (ok, remark) := Verdict(r);
    if ok then
      Outcome(ZERO, if c.fails >= FAIL_THRESHOLD || !r.rowActive then [Recovered] else [], Marked(true, remark))
    else
      var fails := c.fails + 1;
      if fails < FAIL_THRESHOLD then Outcome(c.(fails := fails), [], Silent)
      else if fails > FAIL_THRESHOLD then Outcome(c.(fails := fails), [], Marked(false, remark))
      else if SaysBlocked(remark) then Outcome(c.(fails := fails), [AlarmBlocked(r.awsBound)], Marked(false, remark))
      else if r.serviceAlive then Outcome(c.(fails := fails), [AlarmDown], Marked(false, remark))
      else
        var restarts := c.restarts + 1;
        if s.autoRestart && restarts <= s.maxRestarts && r.agentOnline then
          Outcome(Counters(0, restarts), [Restart(restarts)], Marked(false, remark))
        else Outcome(Counters(fails, restarts), [AlarmDown], Marked(false, remark))
  }

  // ----- Runs of one node -----

  function CountersAfter(s: Settings, start: Counters, rs: seq<Report>): Counters
  {
    if rs == [] then start
    else Handle(s, CountersAfter(s, start, rs[..|rs| - 1]), rs[|rs| - 1]).counters
  }

  function ActionsOf(s: Settings, start: Counters, rs: seq<Report>): seq<Action>
  {
    if rs == [] then []
    else
      var n := |rs| - 1;
      ActionsOf(s, start, rs[..n]) + Handle(s, CountersAfter(s, start, rs[..n]), rs[n]).actions
  }

  lemma RunSnoc(s: Settings, start: Counters, rs: seq<Report>, r: Report)
    ensures CountersAfter(s, start, rs + [r]) == Handle(s, CountersAfter(s, start, rs), r).counters
    ensures ActionsOf(s, start, rs + [r])
         == ActionsOf(s, start, rs) + Handle(s, CountersAfter(s, start, rs), r).actions
  {
    assert (rs + [r])[..|rs|] == rs;
  }

  /** Everything before the last healthy report is forgotten. */
  lemma {:induction false} HealthyForgets(s: Settings, start: Counters, before: seq<Report>, healthy: Report,
      after: seq<Report>)
    requires !Failing(healthy)
    ensures var rs := before + [healthy] + after;
            && CountersAfter(s, start, rs) == CountersAfter(s, ZERO, after)
            && ActionsOf(s, start, rs) == ActionsOf(s, start, before + [healthy]) + ActionsOf(s, ZERO, after)
  {
    hide CountersAfter, ActionsOf, Handle;
    var head := before + [healthy];
    if after == [] {
      assert head + after == head;
      HealthyResets(s, start, before, healthy);
    } else {
      var n := |after| - 1;
      var init, last := after[..n], after[n];
      HealthyForgets(s, start, before, healthy, init);
      assert head + after == (head + init) + [last];
      assert after == init + [last];
      RunSnoc(s, start, head + init, last);
      RunSnoc(s, ZERO, init, last);
      Assoc(ActionsOf(s, start, head), ActionsOf(s, ZERO, init), Handle(s, CountersAfter(s, ZERO, init), last).actions);
    }
  }

  lemma HealthyResets(s: Settings, start: Counters, before: seq<Report>, healthy: Report)
    requires !Failing(healthy)
    ensures CountersAfter(s, start, before + [healthy]) == ZERO == CountersAfter(s, ZERO, [])
    ensures forall actions: seq<Action> :: actions + ActionsOf(s, ZERO, []) == actions
  {
    RunSnoc(s, start, before, healthy);
    forall actions: seq<Action> ensures actions + ActionsOf(s, ZERO, []) == actions {
      assert ActionsOf(s, ZERO, []) == [];
    }
  }

  predicate Alarm(a: Action) { a.AlarmDown? || a.AlarmBlocked? }

  predicate AllFailing(rs: seq<Report>)
  {
    forall i :: 0 <= i < |rs| ==> Failing(rs[i])
  }

  /** Numbered restarts, no more than allowed, and then at most one alarm. */
  predicate RestartsThenAlarm(s: Settings, actions: seq<Action>)
  {
    && (forall i :: 0 <= i < |actions| - 1 ==> actions[i] == Restart(i + 1))
    && (actions != [] ==>
          var last := actions[|actions| - 1];
          Alarm(last) || last == Restart(|actions|))
    && |actions| - (if actions != [] && Alarm(actions[|actions| - 1]) then 1 else 0) <= Max(0, s.maxRestarts)
  }

  /** Between two healthy reports, whatever failing reports arrive: at most maxRestarts restarts, numbered in order,
      then at most one alarm, and nothing after it. */
  lemma {:induction false} StretchActions(s: Settings, rs: seq<Report>)
    requires AllFailing(rs)
    ensures var actions, c := ActionsOf(s, ZERO, rs), CountersAfter(s, ZERO, rs);
            && RestartsThenAlarm(s, actions)
            && if actions != [] && Alarm(actions[|actions| - 1]) then c.fails >= FAIL_THRESHOLD
               else c.fails < FAIL_THRESHOLD && c.restarts == |actions|
  {
    if rs != [] {
      hide Handle, RestartsThenAlarm;
      var n := |rs| - 1;
      StretchActions(s, rs[..n]);
      assert Failing(rs[n]);
      StretchStep(s, ActionsOf(s, ZERO, rs[..n]), CountersAfter(s, ZERO, rs[..n]), rs[n]);
    }
  }

  lemma StretchStep(s: Settings, actions: seq<Action>, c: Counters, r: Report)
    requires Failing(r) && RestartsThenAlarm(s, actions)
    requires if actions != [] && Alarm(actions[|actions| - 1]) then c.fails >= FAIL_THRESHOLD
             else c.fails < FAIL_THRESHOLD && c.restarts == |actions|
    ensures var o := Handle(s, c, r);
            var actions' := actions + o.actions;
            && RestartsThenAlarm(s, actions')
            && if actions' != [] && Alarm(actions'[|actions'| - 1]) then o.counters.fails >= FAIL_THRESHOLD
               else o.counters.fails < FAIL_THRESHOLD && o.counters.restarts == |actions'|
  {
    var o := Handle(s, c, r);
    if o.actions == [] {
      assert actions + o.actions == actions;
    } else {
      assert |o.actions| == 1;
    }
  }

  /** The same inside any longer run: the actions since the last healthy report are restarts, then at most one alarm. */
  lemma SinceHealthy(s: Settings, before: seq<Report>, healthy: Report, after: seq<Report>)
    requires !Failing(healthy) && AllFailing(after)
    ensures var head := ActionsOf(s, ZERO, before + [healthy]);
            var all := ActionsOf(s, ZERO, before + [healthy] + after);
            head <= all && RestartsThenAlarm(s, all[|head|..])
  {
    HealthyForgets(s, ZERO, before, healthy, after);
    StretchActions(s, after);
    hide ActionsOf, RestartsThenAlarm;
    var head, tail := ActionsOf(s, ZERO, before + [healthy]), ActionsOf(s, ZERO, after);
    assert (head + tail)[|head|..] == tail;
  }

  /** How many reports in a row have failed at the end of a run. */
  function Streak(rs: seq<Report>): (n: nat)
    ensures n <= |rs| && AllFailing(rs[|rs| - n..])
    ensures n < |rs| ==> !Failing(rs[|rs| - n - 1])
  {
    var n := |rs| - 1;
    if rs == [] || !Failing(rs[n]) then 0
    else
      var k := Streak(rs[..n]);
      assert rs[n - k..] == rs[..n][n - k..] + [rs[n]];
      k + 1
  }

  /** An alarm has been raised since the last healthy report. */
  predicate Alarmed(s: Settings, rs: seq<Report>)
  {
    exists a <- ActionsOf(s, ZERO, rs[|rs| - Streak(rs)..]) :: Alarm(a)
  }

  lemma SinceStretch(s: Settings, rs: seq<Report>)
    ensures CountersAfter(s, ZERO, rs) == CountersAfter(s, ZERO, rs[|rs| - Streak(rs)..])
  {
    hide CountersAfter;
    var k := |rs| - Streak(rs);
    if k > 0 {
      assert rs == rs[..k - 1] + [rs[k - 1]] + rs[k..];
      HealthyForgets(s, ZERO, rs[..k - 1], rs[k - 1], rs[k..]);
    } else {
      assert rs[0..] == rs;
    }
  }

  /** While restarts still answer a failing stretch, every third report of it has used up one. */
  lemma {:induction false} ThirdReports(s: Settings, rs: seq<Report>)
    requires AllFailing(rs)
    ensures var c := CountersAfter(s, ZERO, rs);
            c.fails < FAIL_THRESHOLD ==> c == Counters(|rs| % 3, |rs| / 3)
  {
    if rs != [] {
      ThirdReports(s, rs[..|rs| - 1]);
      assert Failing(rs[|rs| - 1]);
    }
  }

  lemma AlarmedFails(s: Settings, rs: seq<Report>)
    ensures Alarmed(s, rs) <==> CountersAfter(s, ZERO, rs).fails >= FAIL_THRESHOLD
    ensures !Alarmed(s, rs) ==> CountersAfter(s, ZERO, rs) == Counters(Streak(rs) % 3, Streak(rs) / 3)
  {
    hide CountersAfter, ActionsOf, Streak;
    var stretch := rs[|rs| - Streak(rs)..];
    SinceStretch(s, rs);
    ThirdReports(s, stretch);
    StretchActions(s, stretch);
    var actions := ActionsOf(s, ZERO, stretch);
    if actions != [] && Alarm(actions[|actions| - 1]) {
      assert actions[|actions| - 1] in actions;
    }
  }

  /** What the n-th report of a failing stretch leads to when no alarm has been raised in it. */
  function StretchAction(s: Settings, n: nat, r: Report): seq<Action>
  {
    var blocked := !r.cnReachable || (r.rowRemark.ZeroTraffic? && r.rowRemark.blocked);
    if n % 3 != 0 then []
    else if r.serviceAlive then if blocked then [AlarmBlocked(r.awsBound)] else [AlarmDown]
    else if s.autoRestart && n / 3 <= s.maxRestarts && r.agentOnline then [Restart(n / 3)]
    else [AlarmDown]
  }

  lemma NextByCounters(s: Settings, c: Counters, k: nat, r: Report)
    requires c.fails < FAIL_THRESHOLD ==> c == Counters(k % 3, k / 3)
    ensures Failing(r) ==>
              Handle(s, c, r).actions == if c.fails >= FAIL_THRESHOLD then [] else StretchAction(s, k + 1, r)
    ensures !Failing(r) ==>
              Handle(s, c, r).actions == if c.fails >= FAIL_THRESHOLD || !r.rowActive then [Recovered] else []
  {
    if k % 3 == 2 {
      assert (k + 1) % 3 == 0 && (k + 1) / 3 == k / 3 + 1;
    } else {
      assert (k + 1) % 3 == k % 3 + 1;
    }
  }

  /** What any report after any run leads to, told from the reports alone. Nothing follows a failing one once its
      stretch has had an alarm; otherwise every third one in a row is answered by the next restart, while that is
      allowed and the service is what is down, and by an alarm that names the cause when not. */
  lemma AlarmAtThirdFailure(s: Settings, rs: seq<Report>, r: Report)
    ensures ActionsOf(s, ZERO, rs + [r]) == ActionsOf(s, ZERO, rs) +
              if !Failing(r) then if Alarmed(s, rs) || !r.rowActive then [Recovered] else []
              else if Alarmed(s, rs) then []
              else StretchAction(s, Streak(rs) + 1, r)
  {
    hide CountersAfter, ActionsOf, Streak, Alarmed, Handle, StretchAction, Failing;
    RunSnoc(s, ZERO, rs, r);
    AlarmedFails(s, rs);
    NextByCounters(s, CountersAfter(s, ZERO, rs), Streak(rs), r);
  }

  // ----- What a report writes to the row -----

  /** The row a report leaves, told from the reports alone. A good report makes the node active with a clear remark. The
      first two failures of a stretch leave the row alone; every third one, and every one after an alarm, marks the node
      inactive and names the cause, keeping an earlier zero-traffic remark. */
  lemma RowWritten(s: Settings, rs: seq<Report>, r: Report)
    ensures Handle(s, CountersAfter(s, ZERO, rs), r).effect ==
            if r.serviceAlive && r.cnReachable && (!r.rowRemark.ZeroTraffic? || r.hasTraffic) then Marked(true, Clear)
            else if !Alarmed(s, rs) && (Streak(rs) + 1) % 3 != 0 then Silent
            else Marked(false, if !r.serviceAlive then ServiceDown else if !r.cnReachable then SuspectBlocked
                               else r.rowRemark)
  {
    hide CountersAfter, Streak, Alarmed;
    AlarmedFails(s, rs);
    EffectByCounters(s, CountersAfter(s, ZERO, rs), Streak(rs), r);
  }

  lemma EffectByCounters(s: Settings, c: Counters, k: nat, r: Report)
    requires c.fails < FAIL_THRESHOLD ==> c == Counters(k % 3, k / 3)
    ensures Handle(s, c, r).effect ==
            if r.serviceAlive && r.cnReachable && (!r.rowRemark.ZeroTraffic? || r.hasTraffic) then Marked(true, Clear)
            else if c.fails < FAIL_THRESHOLD && (k + 1) % 3 != 0 then Silent
            else Marked(false, if !r.serviceAlive then ServiceDown else if !r.cnReachable then SuspectBlocked
                               else r.rowRemark)
  {
    if k % 3 == 2 {
      assert (k + 1) % 3 == 0;
    } else {
      assert (k + 1) % 3 == k % 3 + 1;
    }
  }

  /** The service runs but cannot be reached. */
  predicate Unreachable(r: Report)
  {
    r.serviceAlive && !r.cnReachable
  }

  /** After a healthy report, a running node that cannot be reached raises exactly one alarm for being blocked, at the
      third report, and is never restarted. */
  lemma {:induction false} UnreachableStretch(s: Settings, rs: seq<Report>)
    requires forall i :: 0 <= i < |rs| ==> Unreachable(rs[i])
    ensures ActionsOf(s, ZERO, rs) == if |rs| < 3 then [] else [AlarmBlocked(rs[2].awsBound)]
    ensures CountersAfter(s, ZERO, rs) == Counters(|rs|, 0)
  {
    if rs != [] {
      hide Handle;
      var n := |rs| - 1;
      UnreachableStretch(s, rs[..n]);
      assert Unreachable(rs[n]);
      UnreachableStep(s, n, rs[n]);
      assert n >= 3 ==> rs[..n][2] == rs[2];
      assert [] + ActionsOf(s, ZERO, []) == [];
    }
  }

  lemma UnreachableStep(s: Settings, n: nat, r: Report)
    requires Unreachable(r)
    ensures Handle(s, Counters(n, 0), r)
         == Outcome(Counters(n + 1, 0), if n == 2 then [AlarmBlocked(r.awsBound)] else [],
                    if n < 2 then Silent else Marked(false, SuspectBlocked))
  {
  }

  /** The same inside any longer run, with what the row says from the third report on. */
  lemma UnreachableAfter(s: Settings, before: seq<Report>, healthy: Report, rs: seq<Report>, r: Report)
    requires !Failing(healthy) && Unreachable(r) && forall i :: 0 <= i < |rs| ==> Unreachable(rs[i])
    ensures var run := before + [healthy] + rs;
            && ActionsOf(s, ZERO, run)
               == ActionsOf(s, ZERO, before + [healthy]) + (if |rs| < 3 then [] else [AlarmBlocked(rs[2].awsBound)])
            && Handle(s, CountersAfter(s, ZERO, run), r).effect
               == if |rs| < 2 then Silent else Marked(false, SuspectBlocked)
  {
    hide Handle, ActionsOf, CountersAfter, Failing;
    HealthyForgets(s, ZERO, before, healthy, rs);
    UnreachableStretch(s, rs);
    UnreachableStep(s, |rs|, r);
  }

  /** The node's row. */
  datatype Row = Row(active: bool, remark: Remark)

  function Written(row: Row, e: Effect): Row
  {
    if e.Silent? then row else Row(e.active, e.remark)
  }

  function RowAfter(s: Settings, c: Counters, row: Row, rs: seq<Report>): Row
    decreases |rs|
  {
    if rs == [] then row
    else
      var o := Handle(s, c, rs[0]);
      RowAfter(s, o.counters, Written(row, o.effect), rs[1..])
  }

  /** A row marked for lack of traffic stays inactive with that remark, whatever the counters, as long as the node is
      fine but unused; the first report with traffic makes it active and clear again. */
  lemma {:induction false} ZeroTrafficStays(s: Settings, c: Counters, row: Row, rs: seq<Report>, used: Report)
    requires row.remark.ZeroTraffic? && !row.active
    requires forall r <- rs + [used] :: r.serviceAlive && r.cnReachable && r.rowRemark == row.remark
    requires (forall r <- rs :: !r.hasTraffic) && used.hasTraffic
    ensures RowAfter(s, c, row, rs) == row && RowAfter(s, c, row, rs + [used]) == Row(true, Clear)
    decreases |rs|
  {
    if rs == [] {
      assert [] + [used] == [used] && [used][1..] == [];
      assert used in rs + [used];
    } else {
      hide RowAfter;
      var r, all := rs[0], rs + [used];
      assert all[0] == r && all[1..] == rs[1..] + [used] && r in rs && r in all;
      assert forall x <- rs[1..] + [used] :: x in all;
      UnusedKeeps(s, c, row, r);
      RowStep(s, c, row, rs);
      RowStep(s, c, row, all);
      ZeroTrafficStays(s, Handle(s, c, r).counters, row, rs[1..], used);
    }
  }

  lemma RowStep(s: Settings, c: Counters, row: Row, rs: seq<Report>)
    requires rs != []
    ensures var o := Handle(s, c, rs[0]);
            RowAfter(s, c, row, rs) == RowAfter(s, o.counters, Written(row, o.effect), rs[1..])
  {
    hide Handle;
  }

  lemma UnusedKeeps(s: Settings, c: Counters, row: Row, r: Report)
    requires row.remark.ZeroTraffic? && !row.active
    requires r.serviceAlive && r.cnReachable && r.rowRemark == row.remark && !r.hasTraffic
    ensures Written(row, Handle(s, c, r).effect) == row
  {
  }

  predicate PureDown(r: Report)
  {
    !r.serviceAlive && r.agentOnline
  }

  /** With automatic restarts on and the agent online, a service that stays down is restarted at every third report and
      the alarm comes exactly at report 3 * (maxRestarts + 1); a negative setting counts as none. */
  lemma {:induction false} ServiceDownStretch(s: Settings, rs: seq<Report>)
    requires s.autoRestart && forall i :: 0 <= i < |rs| ==> PureDown(rs[i])
    ensures DownState(s, |rs|, CountersAfter(s, ZERO, rs), ActionsOf(s, ZERO, rs))
  {
    if rs != [] {
      hide Handle, DownState;
      var n := |rs| - 1;
      ServiceDownStretch(s, rs[..n]);
      assert PureDown(rs[n]);
      DownStep(s, n, CountersAfter(s, ZERO, rs[..n]), ActionsOf(s, ZERO, rs[..n]), rs[n]);
    } else {
      NothingDown(s);
    }
  }

  /** Where a node is after n reports of a service that stays down. */
  predicate DownState(s: Settings, n: nat, c: Counters, actions: seq<Action>)
  {
    var m := Max(0, s.maxRestarts);
    if n < 3 * (m + 1) then
      c == Counters(n % 3, n / 3) && |actions| == n / 3 && forall i :: 0 <= i < |actions| ==> actions[i].Restart?
    else
      c == Counters(n - 3 * m, m + 1) && |actions| == m + 1 && actions[m] == AlarmDown
  }

  lemma NothingDown(s: Settings)
    ensures DownState(s, 0, ZERO, [])
  {
  }

  lemma DownStep(s: Settings, n: nat, c: Counters, actions: seq<Action>, r: Report)
    requires s.autoRestart && PureDown(r) && DownState(s, n, c, actions)
    ensures var o := Handle(s, c, r);
            DownState(s, n + 1, o.counters, actions + o.actions)
  {
    var o := Handle(s, c, r);
    if o.actions == [] {
      assert actions + o.actions == actions;
    }
  }

  /** The failure counter never exceeds the number of reports that have failed in a row. */
  lemma {:induction false} FailsAreConsecutive(s: Settings, rs: seq<Report>)
    ensures var c := CountersAfter(s, ZERO, rs);
            c.fails <= |rs| && AllFailing(rs[|rs| - c.fails..])
  {
    if rs != [] {
      var n := |rs| - 1;
      FailsAreConsecutive(s, rs[..n]);
      var before, c := CountersAfter(s, ZERO, rs[..n]), CountersAfter(s, ZERO, rs);
      if c.fails > 0 {
        assert rs[|rs| - c.fails..] == rs[..n][n - before.fails..] + [rs[n]];
      }
    }
  }

  /** A node's own reports mark it inactive only at a third or later consecutive failure. */
  lemma InactiveAfterThree(s: Settings, rs: seq<Report>, r: Report)
    requires var e := Handle(s, CountersAfter(s, ZERO, rs), r).effect; e.Marked? && !e.active
    ensures |rs| >= FAIL_THRESHOLD - 1 && AllFailing(rs[|rs| - 2..] + [r])
  {
    FailsAreConsecutive(s, rs);
    var c := CountersAfter(s, ZERO, rs);
    var tail := rs[|rs| - c.fails..];
    assert rs[|rs| - 2] == tail[c.fails - 2] && rs[|rs| - 1] == tail[c.fails - 1];
  }

  /** Exactly the rows of the given nodes have been written. */
  ghost predicate RowsMarked(active0: map<nat, bool>, remark0: map<nat, Remark>, active: map<nat, bool>,
                             remark: map<nat, Remark>,
                             nodes: seq<nat>, ok: bool, m: Remark)
  {
    forall n ::
      if n in nodes then n in active && active[n] == ok && n in remark && remark[n] == m
      else
        && (n in active <==> n in active0) && (n in active ==> active[n] == active0[n])
        && (n in remark <==> n in remark0) && (n in remark ==> remark[n] == remark0[n])
  }

  // ----- The module's tables -----

  class Monitor {
    const settings: Settings
    var failCount: map<nat, nat>
    var restartCount: map<nat, nat>
    /** The nodes' rows as this module writes them. */
    var active: map<nat, bool>
    var remark: map<nat, Remark>
    /** The reports handled so far and the actions taken, per node. */
    ghost var reports: map<nat, seq<Report>>
    ghost var actions: map<nat, seq<Action>>

    constructor (settings: Settings)
      ensures Valid() && this.settings == settings && reports == map[] && actions == map[]
    {
      this.settings := settings;
      failCount, restartCount, active, remark := map[], map[], map[], map[];
      reports, actions := map[], map[];
    }

    function CountersOf(node: nat): Counters
      reads this
    {
      Counters(if node in failCount then failCount[node] else 0, if node in restartCount then restartCount[node] else 0)
    }

    ghost function ReportsOf(node: nat): seq<Report>
      reads this
    {
      if node in reports then reports[node] else []
    }

    ghost function ActionsTaken(node: nat): seq<Action>
      reads this
    {
      if node in actions then actions[node] else []
    }

    /** Every node's counters and actions are those of its own run, whatever the other nodes reported in between. */
    ghost predicate Valid()
      reads this
    {
      forall n :: Tracks(n)
    }

    ghost predicate Tracks(node: nat)
      reads this
    {
      && CountersOf(node) == CountersAfter(settings, ZERO, ReportsOf(node))
      && ActionsTaken(node) == ActionsOf(settings, ZERO, ReportsOf(node))
    }

    /** Handles one report. A row update is mirrored to the nodes of other protocols on the same machine. */
    method UpdateFromAgentReport(node: nat, peers: seq<nat>, r: Report) returns (taken: seq<Action>)
      requires Valid() && node !in peers
      modifies this
      ensures Valid()
      ensures reports == old(reports)[node := old(ReportsOf(node)) + [r]]
      ensures var o := Handle(settings, old(CountersOf(node)), r);
              && taken == o.actions
              && CountersOf(node) == o.counters
              && match o.effect
                 case Silent => active == old(active) && remark == old(remark)
                 case Marked(a, m) => RowsMarked(old(active), old(remark), active, remark, [node] + peers, a, m)
      ensures forall n :: n != node ==> CountersOf(n) == old(CountersOf(n)) && ActionsTaken(n) == old(ActionsTaken(n))
    {
      hide CountersAfter, ActionsOf, Handle, RowsMarked, Verdict, Failing;
      RunSnoc(settings, ZERO, ReportsOf(node), r);
      assert Tracks(node);
      var silent;
      taken, silent := Count(node, r);
      reports := reports[node := ReportsOf(node) + [r]];
      actions := actions[node := ActionsTaken(node) + taken];
      forall n ensures Tracks(n) { assert old(Tracks(n)); }
      if silent { return; }
      var (ok, m) := Verdict(r);
      MarkRows(node, peers, ok, m);
      forall n ensures Tracks(n) { assert old(Tracks(n)); }
    }

    /** Writes the row of the node and mirrors it. */
    method MarkRows(node: nat, peers: seq<nat>, ok: bool, m: Remark)
      modifies this`active, this`remark
      ensures RowsMarked(old(active), old(remark), active, remark, [node] + peers, ok, m)
    {
      active, remark := active[node := ok], remark[node := m];
      for i := 0 to |peers|
        invariant RowsMarked(old(active), old(remark), active, remark, [node] + peers[..i], ok, m)
      {
        active, remark := active[peers[i] := ok], remark[peers[i] := m];
      }
      assert peers[..|peers|] == peers;
    }

    /** The counting and escalation part; true in the second place when the report stays silent. */
    method Count(node: nat, r: Report) returns (taken: seq<Action>, silent: bool)
      modifies this`failCount, this`restartCount
      ensures var o := Handle(settings, old(CountersOf(node)), r);
              && taken == o.actions && CountersOf(node) == o.counters
              && o.effect == if silent then Silent else Marked(Verdict(r).0, Verdict(r).1)
      ensures forall n :: n != node ==> CountersOf(n) == old(CountersOf(n))
    {
      var (ok, m) := Verdict(r);
      var prevFailCount := if node in failCount then failCount[node] else 0;
      taken, silent := [], false;
      if ok {
        if prevFailCount >= FAIL_THRESHOLD || !r.rowActive {
          taken := [Recovered];
        }
        failCount := failCount[node := 0];
        restartCount := restartCount - {node};
        return;
      }
      var newFailCount := prevFailCount + 1;
      failCount := failCount[node := newFailCount];
      if newFailCount == FAIL_THRESHOLD {
        if SaysBlocked(m) {
          taken := [AlarmBlocked(r.awsBound)];
        } else if !r.serviceAlive {
          var attempt := (if node in restartCount then restartCount[node] else 0) + 1;
          restartCount := restartCount[node := attempt];
          if settings.autoRestart && attempt <= settings.maxRestarts && r.agentOnline {
            taken := [Restart(attempt)];
            failCount := failCount[node := 0];
          } else {
            taken := [AlarmDown];
          }
        } else {
          taken := [AlarmDown];
        }
      } else if newFailCount < FAIL_THRESHOLD {
        silent := true;
      }
    }
  }
}
