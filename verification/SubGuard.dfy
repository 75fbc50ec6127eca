/** The subscription guard: the bounded table of per-token states, its eviction rule, and the request entry point. */
module SubGuard {
  import opened Collections
  import opened SlidingSet
  import opened TokenGuard
  import opened AgeTrim

  /** A key of one of the guard's tables. */
  datatype Key = Key(text: string)

  datatype Mode = Off | Observe | Enforce

  datatype Reason = UnknownUa | Token(verdict: Verdict)

  datatype Response = Refused(status: nat, reason: Reason) | Served(observedUnknownUa: bool, logUnknownUa: bool)

  class Guard {
    const c: Config
    const mode: Mode
    var table: map<Key, State>
    var order: seq<Key>
    var logged: map<Key, int>
    var loggedOrder: seq<Key>
    /** The requests of each token since its entry was made. */
    ghost var runs: map<Key, seq<Request>>
    ghost var clock: int

    constructor (options: Options, mode: Mode)
      ensures Valid() && c == Configure(options) && this.mode == mode
      ensures table == map[] && logged == map[] && runs == map[] && clock == 0
    {
      c, this.mode := Configure(options), mode;
      table, order, logged, loggedOrder := map[], [], map[], [];
      runs, clock := map[], 0;
    }

    ghost predicate Valid()
      reads this
    {
      && TokensOk(c, table, order, runs, clock) && |order| <= c.tokenGuardMaxEntries
      && ReportsOk(logged, loggedOrder, clock) && |loggedOrder| <= c.unknownUaLogMaxEntries
    }

    /** One token's rule, field by field. */
    method Decide(before: State, r: Request) returns (state: State, v: Verdict)
      ensures (state, v) == Check(c, before, r)
    {
      hide Touch;
      state := before;
      if state.blockedUntil > r.now { return state, Blocked; }
      if r.now - state.windowStart >= c.tokenWindowMs {
        state := state.(windowStart := r.now, count := 0);
      }
      state := state.(count := state.count + 1);
      if state.count > c.tokenMaxReq {
        return state.(blockedUntil := r.now + c.tokenBanMs, updatedAt := r.now), RateLimited;
      }
      var ips := Stamp(state.seenIps, Visit({r.ip}, r.now), c.behaviorWindowMs);
      var uas := Stamp(state.seenUas, Visit({r.ua}, r.now), c.behaviorWindowMs);
      state := state.(seenIps := ips, seenUas := uas);
      if |ips| > c.behaviorMaxIps || |uas| > c.behaviorMaxUas {
        return state.(blockedUntil := r.now + c.tokenBanMs, updatedAt := r.now), Abusive;
      }
      return state.(updatedAt := r.now), Allowed;
    }

    /** The verdict is the one the token's whole run gives; the table stays within its limit although refusals skip
        the trimming; only a new token can push one out, and then one with the smallest stamp and not itself. */
    method CheckBehavior(token: Key, r: Request) returns (v: Verdict, ghost gone: set<Key>)
      requires Valid() && 0 < r.now && clock <= r.now
      modifies this`table, this`order, this`runs, this`clock
      ensures Valid() && clock == r.now
      ensures |table| <= c.tokenGuardMaxEntries
      ensures Decided(c, old(table), table, old(runs), runs, token, r, v, gone)
    {
      hide VerdictAt, Told, Lists, Extended, TokensOk, ReportsOk, OldestWent;
      gone := {};
      LaterReports(logged, loggedOrder, clock, r.now);
      v := Update(token, r);
      ghost var untrimmed := table;
      NoneWent(Stamps(untrimmed));
      if v.Allowed? {
        gone := TrimTokens(token);
      }
      assert untrimmed == old(table)[token := table[token]];
    }

    /** Finds or makes the entry and decides the request; a new entry goes to the end and is always served. */
    method Update(token: Key, r: Request) returns (v: Verdict)
      requires TokensOk(c, table, order, runs, clock) && 0 < r.now && clock <= r.now
      modifies this`table, this`order, this`runs, this`clock
      ensures TokensOk(c, table, order, runs, clock) && clock == r.now
      ensures |old(table)| == |old(order)| && |table| == |order|
      ensures token in table && table == old(table)[token := table[token]]
      ensures runs == old(runs)[token := Extended(old(runs), token, r)]
      ensures v == VerdictAt(c, runs[token], |runs[token]| - 1)
      ensures Told(c, runs[token], |runs[token]| - 1, v)
      ensures v.Allowed? ==> table[token].updatedAt == clock
      ensures if token in old(table) then order == old(order) else v.Allowed? && order == old(order) + [token]
    {
      hide Check, VerdictAt, Told, StateBefore, Lists, Extended, TokensOk, Fresh;
      Sizes(c, table, order, runs, clock);
      var before := if token in table then table[token] else Fresh(r.now);
      var after;
      after, v := Decide(before, r);
      RunStep(c, table, order, runs, clock, token, r, after, v);
      if token !in table {
        order := order + [token];
      }
      table := table[token := after];
      runs, clock := runs[token := Extended(runs, token, r)], r.now;
      Sizes(c, table, order, runs, clock);
    }

    /** Trimming the token table after a served request. */
    method TrimTokens(token: Key) returns (ghost gone: set<Key>)
      requires TokensOk(c, table, order, runs, clock) && |order| <= c.tokenGuardMaxEntries + 1
      requires token in table && (|order| == c.tokenGuardMaxEntries + 1 ==> order[|order| - 1] == token)
      requires table[token].updatedAt == clock
      modifies this`table, this`order, this`runs
      ensures TokensOk(c, table, order, runs, clock) && |table| == |order| <= c.tokenGuardMaxEntries
      ensures table == old(table) - gone && runs == old(runs) - gone && gone <= old(table).Keys && token !in gone
      ensures if |old(order)| <= c.tokenGuardMaxEntries then gone == {} else |gone| == 1
      ensures OldestWent(Stamps(old(table)), gone)
    {
      hide OldestWent, VerdictAt, StateBefore, Lists, TokensOk, Youngest, Stamps, EntryOk, Distinct;
      var stamp := Stamps(table);
      YoungestToken(c, table, order, runs, clock, token);
      var kept, dropped := TrimOldEntries(order, stamp, c.tokenGuardMaxEntries);
      Dropped(c, table, order, runs, clock, kept, dropped);
      gone, order := dropped, kept;
      table, runs := table - dropped, runs - dropped;
      Sizes(c, table, order, runs, clock);
    }

    /** A user agent outside the allow list is reported on its first request and again after a quiet period; the
        report table is trimmed in the same way and keeps the key just stamped. */
    method ShouldLogUnknownUa(key: Key, now: int) returns (log: bool)
      requires ReportsOk(logged, loggedOrder, now) && |loggedOrder| <= c.unknownUaLogMaxEntries && 0 < now
      modifies this`logged, this`loggedOrder
      ensures ReportsOk(logged, loggedOrder, now) && |loggedOrder| <= c.unknownUaLogMaxEntries
      ensures log <==> key !in old(logged) || now - old(logged)[key] > c.unknownUaLogTtlMs
      ensures key in logged && logged[key] == now
    {
      hide Lists, ReportsOk;
      var known := key in logged;
      log := if known then now - logged[key] > c.unknownUaLogTtlMs else true;
      ReportStep(logged, loggedOrder, now, key);
      if !known {
        loggedOrder := loggedOrder + [key];
      }
      logged := logged[key := now];
      var kept, gone := TrimOldEntries(loggedOrder, logged, c.unknownUaLogMaxEntries);
      DroppedReports(logged, loggedOrder, now, kept, gone);
      assert known ==> gone == {};
      loggedOrder, logged := kept, logged - gone;
    }

    /** The guard as the subscription route calls it. A user agent outside the allow list is refused only in enforce
        mode, before the token is touched; otherwise the answer follows the token's run. The runs of all other tokens
        stay as they were, except that a new token may push out one with the smallest stamp when the table is full. A
        served request outside the list is to be logged when its token, address and user agent were not seen within the
        quiet period. */
    method Apply(token: Key, ua: string, ip: string, listed: bool, now: int) returns (a: Response, ghost gone: set<Key>)
      requires Valid() && 0 < now && clock <= now
      modifies this
      ensures Valid() && old(clock) <= clock <= now
      ensures |table| <= c.tokenGuardMaxEntries && |logged| <= c.unknownUaLogMaxEntries
      ensures var r := Request(ip, if ua == "" then "-" else ua, now);
              if mode.Enforce? && !listed then
                a == Refused(403, UnknownUa) && table == old(table) && runs == old(runs) && gone == {}
              else if a.Served? then
                && Decided(c, old(table), table, old(runs), runs, token, r, Allowed, gone)
                && (a.observedUnknownUa <==> mode.Observe? && !listed)
              else
                && a.status == 429 && a.reason.Token? && !a.reason.verdict.Allowed?
                && Decided(c, old(table), table, old(runs), runs, token, r, a.reason.verdict, gone)
      ensures var key := ReportKey(token, ip, ua);
              if a.Served? && a.observedUnknownUa then
                && (a.logUnknownUa <==> key !in old(logged) || now - old(logged)[key] > c.unknownUaLogTtlMs)
                && key in logged && logged[key] == now
              else (a.Served? ==> !a.logUnknownUa) && logged == old(logged)
    {
      hide Decided, TokensOk, ReportsOk;
      var uaAllowed := mode.Off? || listed;
      gone := {};
      Sizes(c, table, order, runs, clock);
      ReportSizes(logged, loggedOrder, clock);
      if !uaAllowed && mode.Enforce? {
        return Refused(403, UnknownUa), {};
      }
      var r := Request(ip, if ua == "" then "-" else ua, now);
      var v;
      v, gone := CheckBehavior(token, r);
      if !v.Allowed? {
        return Refused(429, Token(v)), gone;
      }
      var log := false;
      if !uaAllowed {
        log := ShouldLogUnknownUa(ReportKey(token, ip, ua), now);
        ReportSizes(logged, loggedOrder, clock);
      }
      return Served(!uaAllowed, log), gone;
    }
  }

  /** What the reports of unlisted user agents are told apart by. */
  function ReportKey(token: Key, ip: string, ua: string): Key
  {
    Key(token.text + ":" + ip + ":" + ua)
  }

  /** A report key tells apart two tokens, two addresses or two user agents when the other two parts agree. */
  lemma ReportKeyTells(token: Key, ip: string, ua: string, token': Key, ip': string, ua': string)
    requires ReportKey(token, ip, ua) == ReportKey(token', ip', ua')
    ensures token == token' && ip == ip' ==> ua == ua'
    ensures token == token' && ua == ua' ==> ip == ip'
    ensures ip == ip' && ua == ua' ==> token == token'
  {
    var s, t := ReportKey(token, ip, ua).text, ReportKey(token', ip', ua').text;
    if token == token' && ip == ip' {
      assert ua == s[|token.text| + |ip| + 2..] == t[|token.text| + |ip| + 2..] == ua';
    }
    if token == token' && ua == ua' {
      assert ip == s[|token.text| + 1..|s| - |ua| - 1] == t[|token.text| + 1..|s| - |ua| - 1] == ip';
    }
    if ip == ip' && ua == ua' {
      assert token.text == s[..|s| - |ip| - |ua| - 2] == t[..|s| - |ip| - |ua| - 2] == token'.text;
    }
  }

  /** The colon between the parts may also stand in an address, so different pairs can share a key. */
  lemma ReportKeysShared()
    ensures ReportKey(Key("t"), "::1", "curl") == ReportKey(Key("t"), ":", "1:curl")
  {
  }

  // ----- What the guard's tables keep -----

  /** What one request that reaches the token table does: the token's run grows by it and gives the verdict, every other
      run stays as it was, and only a new token can push one out, with the smallest stamp, when the table is full. */
  ghost predicate Decided(c: Config, before: map<Key, State>, table: map<Key, State>,
                          earlier: map<Key, seq<Request>>, runs: map<Key, seq<Request>>,
                          token: Key, r: Request, v: Verdict, gone: set<Key>)
  {
    && token in table && table == before[token := table[token]] - gone
    && token in runs && runs == earlier[token := Extended(earlier, token, r)] - gone
    && v == VerdictAt(c, runs[token], |runs[token]| - 1) && Told(c, runs[token], |runs[token]| - 1, v)
    && token !in gone && gone <= before.Keys
    && (gone != {} ==> token !in before && |before| == c.tokenGuardMaxEntries && |gone| == 1)
    && OldestWent(Stamps(before[token := table[token]]), gone)
  }

  /** The run of a token once a request is added to it. */
  function Extended(runs: map<Key, seq<Request>>, token: Key, r: Request): (h: seq<Request>)
    ensures h != [] && h[|h| - 1] == r
  {
    (if token in runs then runs[token] else []) + [r]
  }

  /** An entry is the state its run leads to. */
  predicate EntryOk(c: Config, s: State, h: seq<Request>, clock: int)
  {
    h != [] && Ordered(h) && h[|h| - 1].now <= clock && s == StateBefore(c, h, |h|)
  }

  ghost predicate TokensOk(c: Config, table: map<Key, State>, order: seq<Key>, runs: map<Key, seq<Request>>, clock: int)
  {
    && Lists(order, table.Keys)
    && runs.Keys == table.Keys
    && forall t :: t in table ==> EntryOk(c, table[t], runs[t], clock)
  }

  lemma Sizes(c: Config, table: map<Key, State>, order: seq<Key>, runs: map<Key, seq<Request>>, clock: int)
    requires TokensOk(c, table, order, runs, clock)
    ensures |table| == |order| && runs.Keys == table.Keys
    ensures forall t :: t in table <==> t in runs
  {
    ListsSize(order, table.Keys);
  }

  lemma RunStep(c: Config, table: map<Key, State>, order: seq<Key>, runs: map<Key, seq<Request>>, clock: int,
                token: Key, r: Request, after: State, v: Verdict)
    requires TokensOk(c, table, order, runs, clock) && clock <= r.now && 0 < r.now
    requires (after, v) == Check(c, if token in table then table[token] else Fresh(r.now), r)
    ensures var h := Extended(runs, token, r);
            && TokensOk(c, table[token := after], if token in table then order else order + [token],
                        runs[token := h], r.now)
            && v == VerdictAt(c, h, |h| - 1)
    ensures v.Allowed? ==> after.updatedAt == r.now
    ensures token !in table ==> v.Allowed?
    ensures var h := Extended(runs, token, r); Told(c, h, |h| - 1, v)
  {
    hide Check, StateBefore, VerdictAt, Ordered, Lists, Told;
    if token in table {
      assert EntryOk(c, table[token], runs[token], clock);
      assert table[token := after].Keys == table.Keys;
    } else {
      ListsAdd(order, table.Keys, token);
      assert table[token := after].Keys == table.Keys + {token};
    }
    EmptyRun();
    RunGrows(c, if token in runs then runs[token] else [], if token in table then table[token] else Fresh(r.now),
             r, after, v);
    VerdictTold(c, Extended(runs, token, r), |Extended(runs, token, r)| - 1);
  }

  lemma EmptyRun()
    ensures Ordered([])
  {
  }

  function Stamps(table: map<Key, State>): (stamp: map<Key, int>)
    ensures stamp.Keys == table.Keys
  {
    map t | t in table :: table[t].updatedAt
  }

  /** No stamp is ahead of the clock, so an entry stamped now and listed last is the youngest. */
  lemma YoungestToken(c: Config, table: map<Key, State>, order: seq<Key>, runs: map<Key, seq<Request>>,
                      clock: int, token: Key)
    requires TokensOk(c, table, order, runs, clock) && token in table && table[token].updatedAt == clock
    ensures Lists(order, Stamps(table).Keys) && forall k <- order :: k in Stamps(table)
    ensures order != [] && order[|order| - 1] == token ==> Youngest(order, Stamps(table))
  {
    hide StateBefore, Ordered;
    forall t | t in table ensures table[t].updatedAt <= clock {
      assert EntryOk(c, table[t], runs[t], clock);
      StampBound(c, runs[t], |runs[t]|);
    }
  }

  lemma Dropped(c: Config, table: map<Key, State>, order: seq<Key>, runs: map<Key, seq<Request>>, clock: int,
                kept: seq<Key>, gone: set<Key>)
    requires TokensOk(c, table, order, runs, clock) && Lists(kept, table.Keys - gone)
    ensures TokensOk(c, table - gone, kept, runs - gone, clock)
  {
    hide EntryOk, Lists;
    assert (table - gone).Keys == table.Keys - gone;
  }

  ghost predicate ReportsOk(logged: map<Key, int>, order: seq<Key>, clock: int)
  {
    Lists(order, logged.Keys) && forall k :: k in logged ==> 0 < logged[k] <= clock
  }

  lemma ReportSizes(logged: map<Key, int>, order: seq<Key>, clock: int)
    requires ReportsOk(logged, order, clock)
    ensures |logged| == |order|
  {
    ListsSize(order, logged.Keys);
  }

  lemma LaterReports(logged: map<Key, int>, order: seq<Key>, clock: int, now: int)
    requires ReportsOk(logged, order, clock) && clock <= now
    ensures ReportsOk(logged, order, now)
  {
  }

  lemma ReportStep(logged: map<Key, int>, order: seq<Key>, now: int, key: Key)
    requires ReportsOk(logged, order, now) && 0 < now
    ensures var logged' := logged[key := now];
            var order' := if key in logged then order else order + [key];
            && ReportsOk(logged', order', now) && Lists(order', logged'.Keys)
            && (forall k <- order' :: k in logged')
            && (key !in logged ==> Youngest(order', logged'))
  {
    if key !in logged {
      ListsAdd(order, logged.Keys, key);
    }
    assert logged[key := now].Keys == if key in logged then logged.Keys else logged.Keys + {key};
  }

  lemma DroppedReports(logged: map<Key, int>, order: seq<Key>, now: int, kept: seq<Key>, gone: set<Key>)
    requires ReportsOk(logged, order, now) && Lists(kept, logged.Keys - gone)
    ensures ReportsOk(logged - gone, kept, now)
  {
    hide Lists;
    assert (logged - gone).Keys == logged.Keys - gone;
  }

  /** One more request takes a run, possibly empty, one step further. */
  lemma RunGrows(c: Config, h: seq<Request>, s: State, r: Request, s': State, v: Verdict)
    requires Ordered(h) && 0 < r.now && (h != [] ==> h[|h| - 1].now <= r.now)
    requires s == if h == [] then Fresh(r.now) else StateBefore(c, h, |h|)
    requires (s', v) == Check(c, s, r)
    ensures Ordered(h + [r])
    ensures s' == StateBefore(c, h + [r], |h| + 1) && v == VerdictAt(c, h + [r], |h|)
    ensures v.Allowed? ==> s'.updatedAt == r.now
    ensures h == [] ==> v.Allowed?
  {
    hide Touch;
    if h == [] {
      FreshIsAllowed(c, r);
    } else {
      SamePast(c, h, [r], |h|);
    }
    assert StateBefore(c, h + [r], |h|) == s;
  }
}
