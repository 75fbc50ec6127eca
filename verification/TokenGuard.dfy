/** The subscription guard's rule for one token: a fixed-window limiter, a ban, and sliding sets of addresses and
    user agents, with what it promises over whole runs. */
module TokenGuard {
  import opened Collections
  import opened Wrappers
  import opened SlidingSet

  /** A configured number: an unreadable value gives the fallback, a small one the minimum. */
  function ToInt(parsed: Option<int>, fallback: int, min: int): (n: int)
    requires fallback >= min
    ensures parsed.None? ==> n == fallback
    ensures parsed.Some? ==> n >= min && n >= parsed.value && (n == min || n == parsed.value)
  {
    if parsed.None? then fallback else if parsed.value < min then min else parsed.value
  }

  datatype Settings = Settings(
    tokenWindowMs: int, tokenMaxReq: int, tokenBanMs: int,
    behaviorWindowMs: int, behaviorMaxIps: int, behaviorMaxUas: int,
    unknownUaLogTtlMs: int, tokenGuardMaxEntries: int, unknownUaLogMaxEntries: int)

  predicate Minimums(c: Settings)
  {
    && c.tokenWindowMs >= 1000 && c.tokenMaxReq >= 1 && c.tokenBanMs >= 5000
    && c.behaviorWindowMs >= 5000 && c.behaviorMaxIps >= 2 && c.behaviorMaxUas >= 2
    && c.unknownUaLogTtlMs >= 1000 && c.tokenGuardMaxEntries >= 100 && c.unknownUaLogMaxEntries >= 100
  }

  const DEFAULTS := Settings(60000, 20, 900000, 120000, 6, 4, 600000, 20000, 10000)

  type Config = c: Settings | Minimums(c) witness DEFAULTS

  /** The settings as they are read, each of them possibly unreadable. */
  datatype Options = Options(
    tokenWindowMs: Option<int>, tokenMaxReq: Option<int>, tokenBanMs: Option<int>,
    behaviorWindowMs: Option<int>, behaviorMaxIps: Option<int>, behaviorMaxUas: Option<int>,
    unknownUaLogTtlMs: Option<int>, tokenGuardMaxEntries: Option<int>, unknownUaLogMaxEntries: Option<int>)

  function Configure(o: Options): Config
  {
    var d := DEFAULTS;
    Settings(
      ToInt(o.tokenWindowMs, d.tokenWindowMs, 1000), ToInt(o.tokenMaxReq, d.tokenMaxReq, 1),
      ToInt(o.tokenBanMs, d.tokenBanMs, 5000), ToInt(o.behaviorWindowMs, d.behaviorWindowMs, 5000),
      ToInt(o.behaviorMaxIps, d.behaviorMaxIps, 2), ToInt(o.behaviorMaxUas, d.behaviorMaxUas, 2),
      ToInt(o.unknownUaLogTtlMs, d.unknownUaLogTtlMs, 1000),
      ToInt(o.tokenGuardMaxEntries, d.tokenGuardMaxEntries, 100),
      ToInt(o.unknownUaLogMaxEntries, d.unknownUaLogMaxEntries, 100))
  }

  /** Settings that are not readable take their defaults, readable ones that meet the minimums are kept, and zeros
      become the minimums. */
  lemma ConfigureKeeps(s: Settings)
    requires Minimums(s)
    ensures Configure(Options(None, None, None, None, None, None, None, None, None))
         == Settings(60000, 20, 900000, 120000, 6, 4, 600000, 20000, 10000)
    ensures Configure(Options(Some(s.tokenWindowMs), Some(s.tokenMaxReq), Some(s.tokenBanMs),
                              Some(s.behaviorWindowMs), Some(s.behaviorMaxIps), Some(s.behaviorMaxUas),
                              Some(s.unknownUaLogTtlMs), Some(s.tokenGuardMaxEntries),
                              Some(s.unknownUaLogMaxEntries))) == s
    ensures Configure(Options(Some(0), Some(0), Some(0), Some(0), Some(0), Some(0), Some(0), Some(0), Some(0)))
         == Settings(1000, 1, 5000, 5000, 2, 2, 1000, 100, 100)
  {
  }

  datatype State = State(windowStart: int, count: nat, blockedUntil: int,
                         seenIps: map<string, int>, seenUas: map<string, int>, updatedAt: int)

  datatype Verdict = Allowed | Blocked | RateLimited | Abusive

  datatype Request = Request(ip: string, ua: string, now: int)

  function Fresh(now: int): State
  {
    State(now, 0, 0, map[], map[], now)
  }

  /** The limiter's window and count once a request that is not blocked has been counted. */
  function Counted(c: Config, s: State, now: int): State
  {
    if now - s.windowStart >= c.tokenWindowMs then s.(windowStart := now, count := 1) else s.(count := s.count + 1)
  }

  function Check(c: Config, s: State, r: Request): (State, Verdict)
  {
    if s.blockedUntil > r.now then (s, Blocked)
    else
      var s1 := Counted(c, s, r.now);
      if s1.count > c.tokenMaxReq then (s1.(blockedUntil := r.now + c.tokenBanMs, updatedAt := r.now), RateLimited)
      else
        var s2 := s1.(seenIps := Touch(s1.seenIps, Visit({r.ip}, r.now), c.behaviorWindowMs),
                      seenUas := Touch(s1.seenUas, Visit({r.ua}, r.now), c.behaviorWindowMs));
        if |s2.seenIps| > c.behaviorMaxIps || |s2.seenUas| > c.behaviorMaxUas then
          (s2.(blockedUntil := r.now + c.tokenBanMs, updatedAt := r.now), Abusive)
        else (s2.(updatedAt := r.now), Allowed)
  }

  // ----- Whole runs: the requests of one token since its entry was made -----

  predicate Ordered(h: seq<Request>)
  {
    && (forall i :: 0 <= i < |h| ==> h[i].now > 0)
    && forall i, j :: 0 <= i <= j < |h| ==> h[i].now <= h[j].now
  }

  /** The state that request i meets. */
  function StateBefore(c: Config, h: seq<Request>, i: nat): State
    requires 0 < |h| && i <= |h|
  {
    if i == 0 then Fresh(h[0].now) else Check(c, StateBefore(c, h, i - 1), h[i - 1]).0
  }

  function VerdictAt(c: Config, h: seq<Request>, i: nat): Verdict
    requires i < |h|
  {
    Check(c, StateBefore(c, h, i), h[i]).1
  }

  /** Later requests do not change the past. */
  lemma {:induction false} SamePast(c: Config, h: seq<Request>, more: seq<Request>, i: nat)
    requires 0 < |h| && i <= |h|
    ensures StateBefore(c, h + more, i) == StateBefore(c, h, i)
    ensures i < |h| ==> VerdictAt(c, h + more, i) == VerdictAt(c, h, i)
  {
    if i > 0 {
      SamePast(c, h, more, i - 1);
    }
  }

  /** How many of the first n requests were accepted with a time in [lo, hi). */
  function AcceptedIn(c: Config, h: seq<Request>, lo: int, hi: int, n: nat): nat
    requires n <= |h|
  {
    if n == 0 then 0
    else AcceptedIn(c, h, lo, hi, n - 1) + if lo <= h[n - 1].now < hi && VerdictAt(c, h, n - 1).Allowed? then 1 else 0
  }

  lemma {:induction false} AcceptedSplit(c: Config, h: seq<Request>, lo: int, mid: int, hi: int, n: nat)
    requires n <= |h| && lo <= mid <= hi
    ensures AcceptedIn(c, h, lo, hi, n) == AcceptedIn(c, h, lo, mid, n) + AcceptedIn(c, h, mid, hi, n)
  {
    hide VerdictAt;
    if n > 0 {
      AcceptedSplit(c, h, lo, mid, hi, n - 1);
    }
  }

  /** What is true of the accepted requests of every interval, relative to the current window. */
  ghost predicate Bounded(c: Config, h: seq<Request>, n: nat, lo: int, hi: int)
    requires 0 < |h| && n <= |h|
  {
    var s, k, max := StateBefore(c, h, n), AcceptedIn(c, h, lo, hi, n), c.tokenMaxReq;
    && (lo >= s.windowStart ==> k <= Min(s.count, max))
    && (lo > s.windowStart ==> k <= if s.count == 0 then 0 else Min(s.count, max) - 1)
    && (lo > s.windowStart - c.tokenWindowMs && hi <= s.windowStart ==> k <= max - 1)
    && (lo >= s.windowStart + c.tokenWindowMs ==> k == 0)
    && (hi - lo <= c.tokenWindowMs ==> k <= 2 * max - 1)
  }

  lemma {:induction false} WindowFacts(c: Config, h: seq<Request>, n: nat)
    requires 0 < |h| && n <= |h| && Ordered(h)
    ensures var s := StateBefore(c, h, n);
            && (n == 0 ==> s == Fresh(h[0].now))
            && (n > 0 ==> s.count >= 1 && s.windowStart <= h[n - 1].now)
  {
    hide Touch;
    if n > 0 {
      WindowFacts(c, h, n - 1);
    }
  }

  lemma {:induction false} EveryIntervalBounded(c: Config, h: seq<Request>, n: nat, lo: int, hi: int)
    requires 0 < |h| && n <= |h| && Ordered(h)
    ensures Bounded(c, h, n, lo, hi)
  {
    hide Check, Bounded, AcceptedIn, VerdictAt;
    if n == 0 {
      NothingAccepted(c, h, lo, hi);
    } else {
      var s, now := StateBefore(c, h, n - 1), h[n - 1].now;
      WindowFacts(c, h, n - 1);
      EveryIntervalBounded(c, h, n - 1, lo, hi);
      if lo <= s.windowStart <= hi {
        AcceptedSplit(c, h, lo, s.windowStart, hi, n - 1);
        EveryIntervalBounded(c, h, n - 1, lo, s.windowStart);
        EveryIntervalBounded(c, h, n - 1, s.windowStart, hi);
      }
      if lo <= now <= hi {
        AcceptedSplit(c, h, lo, now, hi, n - 1);
        EveryIntervalBounded(c, h, n - 1, lo, now);
        EveryIntervalBounded(c, h, n - 1, now, hi);
      }
      StepBounded(c, h, n, lo, hi);
    }
  }

  lemma NothingAccepted(c: Config, h: seq<Request>, lo: int, hi: int)
    requires 0 < |h|
    ensures Bounded(c, h, 0, lo, hi)
  {
  }

  /** One more request keeps the bounds. */
  lemma StepBounded(c: Config, h: seq<Request>, n: nat, lo: int, hi: int)
    requires 0 < n <= |h| && Ordered(h)
    requires var s := StateBefore(c, h, n - 1);
             && (n == 1 ==> s == Fresh(h[0].now))
             && (n > 1 ==> s.count >= 1 && s.windowStart <= h[n - 2].now)
             && Bounded(c, h, n - 1, lo, hi)
             && (lo <= s.windowStart <= hi ==>
                   && AcceptedIn(c, h, lo, hi, n - 1)
                      == AcceptedIn(c, h, lo, s.windowStart, n - 1) + AcceptedIn(c, h, s.windowStart, hi, n - 1)
                   && Bounded(c, h, n - 1, lo, s.windowStart) && Bounded(c, h, n - 1, s.windowStart, hi))
             && (lo <= h[n - 1].now <= hi ==>
                   && AcceptedIn(c, h, lo, hi, n - 1)
                      == AcceptedIn(c, h, lo, h[n - 1].now, n - 1) + AcceptedIn(c, h, h[n - 1].now, hi, n - 1)
                   && Bounded(c, h, n - 1, lo, h[n - 1].now) && Bounded(c, h, n - 1, h[n - 1].now, hi))
    ensures Bounded(c, h, n, lo, hi)
  {
    hide Touch;
  }

  /** Any half-open interval of one window length holds at most twice the limit less one accepted requests. */
  lemma RateBound(c: Config, h: seq<Request>, t: int)
    requires 0 < |h| && Ordered(h)
    ensures AcceptedIn(c, h, t, t + c.tokenWindowMs, |h|) <= 2 * c.tokenMaxReq - 1
  {
    hide StateBefore, AcceptedIn, Check;
    EveryIntervalBounded(c, h, |h|, t, t + c.tokenWindowMs);
  }

  /** A fresh entry is never refused: the configured minimums leave room for one request. */
  lemma FreshIsAllowed(c: Config, r: Request)
    requires r.now > 0
    ensures Check(c, Fresh(r.now), r).1.Allowed?
  {
    Singleton(Touch(map[], Visit({r.ip}, r.now), c.behaviorWindowMs), r.ip);
    Singleton(Touch(map[], Visit({r.ua}, r.now), c.behaviorWindowMs), r.ua);
  }

  // ----- The bound is reached by every configuration -----

  /** One request opens a window, the rest of its limit comes at its last moment, and a full limit right after. */
  function Burst(c: Config): (h: seq<Request>)
    ensures |h| == 2 * c.tokenMaxReq && Ordered(h)
  {
    seq(2 * c.tokenMaxReq, i requires 0 <= i < 2 * c.tokenMaxReq =>
      Request("ip", "ua", if i == 0 then 1 else if i < c.tokenMaxReq then c.tokenWindowMs else c.tokenWindowMs + 1))
  }

  predicate BurstState(c: Config, s: State, n: nat)
  {
    && s.windowStart == (if n <= c.tokenMaxReq then 1 else c.tokenWindowMs + 1)
    && s.count == (if n <= c.tokenMaxReq then n else n - c.tokenMaxReq)
    && s.blockedUntil == 0
    && s.seenIps.Keys <= {"ip"} && s.seenUas.Keys <= {"ua"}
  }

  lemma {:induction false} BurstAccepted(c: Config, n: nat)
    requires n <= 2 * c.tokenMaxReq
    ensures BurstState(c, StateBefore(c, Burst(c), n), n)
    ensures AcceptedIn(c, Burst(c), 2, 2 + c.tokenWindowMs, n) == if n == 0 then 0 else n - 1
  {
    hide Check, BurstState;
    if n > 0 {
      BurstAccepted(c, n - 1);
      BurstStep(c, StateBefore(c, Burst(c), n - 1), n - 1);
    } else {
      BurstStart(c);
    }
  }

  lemma BurstStart(c: Config)
    ensures BurstState(c, Fresh(1), 0)
  {
  }

  lemma BurstStep(c: Config, s: State, n: nat)
    requires n < 2 * c.tokenMaxReq && BurstState(c, s, n)
    ensures var (s', v) := Check(c, s, Burst(c)[n]);
            v.Allowed? && BurstState(c, s', n + 1)
  {
    var r := Burst(c)[n];
    Singleton(Touch(s.seenIps, Visit({"ip"}, r.now), c.behaviorWindowMs), "ip");
    Singleton(Touch(s.seenUas, Visit({"ua"}, r.now), c.behaviorWindowMs), "ua");
  }

  lemma Singleton(m: map<string, int>, k: string)
    requires m.Keys <= {k}
    ensures |m| <= 1
  {
    if k in m {
      assert m.Keys == {k};
    } else {
      assert m.Keys == {};
    }
  }

  lemma RateBoundIsReached(c: Config)
    ensures AcceptedIn(c, Burst(c), 2, 2 + c.tokenWindowMs, |Burst(c)|) == 2 * c.tokenMaxReq - 1
  {
    BurstAccepted(c, |Burst(c)|);
  }

  // ----- Bans -----

  /** After a rate or abuse refusal every request before the end of the ban is blocked. */
  lemma BanHolds(c: Config, h: seq<Request>, i: nat, j: nat)
    requires i < j < |h| && Ordered(h)
    requires VerdictAt(c, h, i).RateLimited? || VerdictAt(c, h, i).Abusive?
    requires h[j].now < h[i].now + c.tokenBanMs
    ensures VerdictAt(c, h, j).Blocked?
  {
    BanStays(c, h, i, j);
  }

  lemma {:induction false} BanStays(c: Config, h: seq<Request>, i: nat, j: nat)
    requires i < j < |h| && Ordered(h)
    requires VerdictAt(c, h, i).RateLimited? || VerdictAt(c, h, i).Abusive?
    requires h[j].now < h[i].now + c.tokenBanMs
    ensures StateBefore(c, h, j).blockedUntil == h[i].now + c.tokenBanMs
  {
    hide Touch;
    if j > i + 1 {
      BanStays(c, h, i, j - 1);
    }
  }

  /** Nobody is refused for another reason: a blocked request lies inside the ban of an earlier refusal. */
  lemma {:induction false} BlockedHasCause(c: Config, h: seq<Request>, j: nat) returns (i: nat)
    requires j < |h| && Ordered(h)
    requires StateBefore(c, h, j).blockedUntil > 0
    ensures i < j
    ensures VerdictAt(c, h, i).RateLimited? || VerdictAt(c, h, i).Abusive?
    ensures StateBefore(c, h, j).blockedUntil == h[i].now + c.tokenBanMs
  {
    hide Touch;
    if VerdictAt(c, h, j - 1).RateLimited? || VerdictAt(c, h, j - 1).Abusive? {
      i := j - 1;
    } else {
      i := BlockedHasCause(c, h, j - 1);
    }
  }

  /** A request is blocked exactly inside the ban of an earlier refusal. */
  predicate InBan(c: Config, h: seq<Request>, j: nat)
    requires j < |h|
  {
    exists i :: 0 <= i < j && (VerdictAt(c, h, i).RateLimited? || VerdictAt(c, h, i).Abusive?)
                && h[j].now < h[i].now + c.tokenBanMs
  }

  lemma BlockedIff(c: Config, h: seq<Request>, j: nat)
    requires j < |h| && Ordered(h)
    ensures VerdictAt(c, h, j).Blocked? <==> InBan(c, h, j)
  {
    hide StateBefore;
    if VerdictAt(c, h, j).Blocked? {
      var i := BlockedHasCause(c, h, j);
    } else if InBan(c, h, j) {
      var i :| 0 <= i < j && (VerdictAt(c, h, i).RateLimited? || VerdictAt(c, h, i).Abusive?)
        && h[j].now < h[i].now + c.tokenBanMs;
      BanHolds(c, h, i, j);
    }
  }

  // ----- The limiter told from the verdicts -----

  /** A request opens a window when it is not blocked and no window opened before it is still open. */
  predicate Opener(c: Config, h: seq<Request>, o: nat)
    requires o < |h|
    decreases o
  {
    && !VerdictAt(c, h, o).Blocked?
    && forall p :: 0 <= p < o && Opener(c, h, p) ==> h[o].now - h[p].now >= c.tokenWindowMs
  }

  /** How many of the requests from one on up to another were not blocked. */
  function UnblockedIn(c: Config, h: seq<Request>, from: nat, to: nat): nat
    requires from <= to <= |h|
  {
    if from == to then 0
    else UnblockedIn(c, h, from, to - 1) + if VerdictAt(c, h, to - 1).Blocked? then 0 else 1
  }

  /** The open window is the one of the last opener, and the count that of the requests it has let through or
      refused. */
  lemma {:induction false} WindowIs(c: Config, h: seq<Request>, n: nat) returns (o: nat)
    requires 0 < n <= |h| && Ordered(h)
    ensures o < n && Opener(c, h, o) && forall p :: o < p < n ==> !Opener(c, h, p)
    ensures StateBefore(c, h, n).windowStart == h[o].now
    ensures StateBefore(c, h, n).count == UnblockedIn(c, h, o, n)
  {
    var i := n - 1;
    if i == 0 {
      FreshIsAllowed(c, h[0]);
      CheckCounts(c, Fresh(h[0].now), h[0]);
      assert Opener(c, h, 0);
      assert UnblockedIn(c, h, 0, 0) == 0;
      return 0;
    }
    hide Check, Opener;
    o := WindowIs(c, h, i);
    CheckCounts(c, StateBefore(c, h, i), h[i]);
    OpensIff(c, h, o, i);
    if Opener(c, h, i) {
      assert UnblockedIn(c, h, i, i) == 0;
      o := i;
    }
  }

  lemma CheckCounts(c: Config, s: State, r: Request)
    ensures var (s', v) := Check(c, s, r);
            if v.Blocked? then s' == s
            else if r.now - s.windowStart >= c.tokenWindowMs then s'.windowStart == r.now && s'.count == 1
            else s'.windowStart == s.windowStart && s'.count == s.count + 1
  {
    hide Touch;
  }

  lemma OpensIff(c: Config, h: seq<Request>, o: nat, i: nat)
    requires o < i < |h| && Ordered(h) && Opener(c, h, o) && forall p :: o < p < i ==> !Opener(c, h, p)
    ensures Opener(c, h, i) <==> !VerdictAt(c, h, i).Blocked? && h[i].now - h[o].now >= c.tokenWindowMs
  {
    hide VerdictAt;
  }

  /** Some window that is still open has had more requests than allowed, this one included. */
  predicate Overrun(c: Config, h: seq<Request>, i: nat)
    requires i < |h|
  {
    exists o :: 0 <= o <= i && Opener(c, h, o) && h[i].now - h[o].now < c.tokenWindowMs
                && UnblockedIn(c, h, o, i + 1) > c.tokenMaxReq
  }

  /** A request is refused for its rate exactly when it is not blocked and its window is overrun. */
  lemma RateLimitedIff(c: Config, h: seq<Request>, i: nat)
    requires i < |h| && Ordered(h)
    ensures VerdictAt(c, h, i).RateLimited? <==> !VerdictAt(c, h, i).Blocked? && Overrun(c, h, i)
  {
    hide StateBefore, Check, Opener;
    LimitCounts(c, StateBefore(c, h, i), h[i]);
    if i == 0 {
      NoneYet(c, h);
    } else {
      var o := WindowIs(c, h, i);
      OpensIff(c, h, o, i);
      LastWindow(c, h, o, i);
      assert UnblockedIn(c, h, i, i) == 0;
    }
  }

  lemma NoneYet(c: Config, h: seq<Request>)
    requires 0 < |h| && Ordered(h)
    ensures VerdictAt(c, h, 0).Allowed? && !Overrun(c, h, 0)
  {
    FreshIsAllowed(c, h[0]);
    assert UnblockedIn(c, h, 0, 0) == 0;
  }

  lemma LimitCounts(c: Config, s: State, r: Request)
    ensures var v := Check(c, s, r).1;
            v.RateLimited? <==>
            && !v.Blocked?
            && (if r.now - s.windowStart >= c.tokenWindowMs then 1 else s.count + 1) > c.tokenMaxReq
  {
    hide Touch;
  }

  /** Only the last opener's window can still be open. */
  lemma LastWindow(c: Config, h: seq<Request>, o: nat, i: nat)
    requires o < i < |h| && Ordered(h) && Opener(c, h, o) && forall p :: o < p < i ==> !Opener(c, h, p)
    ensures forall p :: 0 <= p < i && Opener(c, h, p) && h[i].now - h[p].now < c.tokenWindowMs ==> p == o
  {
    hide VerdictAt;
  }

  // ----- Sliding sets -----

  /** The request got as far as the abuse check. */
  predicate Reached(c: Config, h: seq<Request>, i: nat)
    requires i < |h|
  {
    VerdictAt(c, h, i).Allowed? || VerdictAt(c, h, i).Abusive?
  }

  /** The requests among the first n that reached the check, in order. */
  function Reaching(c: Config, h: seq<Request>, n: nat): (js: seq<nat>)
    requires n <= |h|
    ensures forall k :: 0 <= k < |js| ==> js[k] < n
  {
    if n == 0 then [] else Reaching(c, h, n - 1) + if Reached(c, h, n - 1) then [n - 1] else []
  }

  lemma {:induction false} ReachingFacts(c: Config, h: seq<Request>, n: nat)
    requires n <= |h|
    ensures var js := Reaching(c, h, n);
            && (forall k :: 0 <= k < |js| ==> Reached(c, h, js[k]))
            && (forall k, l :: 0 <= k < l < |js| ==> js[k] < js[l])
            && (n > 0 && Reached(c, h, n - 1) ==> js != [] && js[|js| - 1] == n - 1)
  {
    hide Reached;
    if n > 0 {
      ReachingFacts(c, h, n - 1);
    }
  }

  lemma {:induction false} ReachingComplete(c: Config, h: seq<Request>, j: nat, n: nat) returns (k: nat)
    requires j < n <= |h| && Reached(c, h, j)
    ensures k < |Reaching(c, h, n)| && Reaching(c, h, n)[k] == j
  {
    hide Reached;
    if j == n - 1 {
      k := |Reaching(c, h, n)| - 1;
    } else {
      k := ReachingComplete(c, h, j, n - 1);
    }
  }

  function IpVisits(c: Config, h: seq<Request>, n: nat): seq<Visit<string>>
    requires n <= |h|
  {
    var js := Reaching(c, h, n);
    seq(|js|, k requires 0 <= k < |js| => Visit({h[js[k]].ip}, h[js[k]].now))
  }

  function UaVisits(c: Config, h: seq<Request>, n: nat): seq<Visit<string>>
    requires n <= |h|
  {
    var js := Reaching(c, h, n);
    seq(|js|, k requires 0 <= k < |js| => Visit({h[js[k]].ua}, h[js[k]].now))
  }

  /** The addresses and user agents of all requests that reached the check in the window ending at request i. */
  function RecentIps(c: Config, h: seq<Request>, i: nat): set<string>
    requires i < |h|
  {
    set j | 0 <= j <= i && Reached(c, h, j) && h[i].now - h[j].now <= c.behaviorWindowMs :: h[j].ip
  }

  function RecentUas(c: Config, h: seq<Request>, i: nat): set<string>
    requires i < |h|
  {
    set j | 0 <= j <= i && Reached(c, h, j) && h[i].now - h[j].now <= c.behaviorWindowMs :: h[j].ua
  }

  lemma CheckTables(c: Config, s: State, r: Request)
    ensures var (s', v) := Check(c, s, r);
            if v.Allowed? || v.Abusive? then
              && s'.seenIps == Touch(s.seenIps, Visit({r.ip}, r.now), c.behaviorWindowMs)
              && s'.seenUas == Touch(s.seenUas, Visit({r.ua}, r.now), c.behaviorWindowMs)
            else s'.seenIps == s.seenIps && s'.seenUas == s.seenUas
  {
    hide Touch;
  }

  lemma {:induction false} TablesAreFolds(c: Config, h: seq<Request>, n: nat)
    requires 0 < |h| && n <= |h|
    ensures StateBefore(c, h, n).seenIps == Fold(IpVisits(c, h, n), c.behaviorWindowMs)
    ensures StateBefore(c, h, n).seenUas == Fold(UaVisits(c, h, n), c.behaviorWindowMs)
  {
    hide Check, Touch, Fold;
    if n > 0 {
      var ips, uas := IpVisits(c, h, n - 1), UaVisits(c, h, n - 1);
      TablesAreFolds(c, h, n - 1);
      CheckTables(c, StateBefore(c, h, n - 1), h[n - 1]);
      if Reached(c, h, n - 1) {
        var ip, ua := Visit({h[n - 1].ip}, h[n - 1].now), Visit({h[n - 1].ua}, h[n - 1].now);
        FoldSnoc(ips, ip, c.behaviorWindowMs);
        FoldSnoc(uas, ua, c.behaviorWindowMs);
        assert IpVisits(c, h, n) == ips + [ip] && UaVisits(c, h, n) == uas + [ua];
      } else {
        assert IpVisits(c, h, n) == ips && UaVisits(c, h, n) == uas;
      }
    } else {
      NoVisits(c, h);
    }
  }

  lemma NoVisits(c: Config, h: seq<Request>)
    requires 0 < |h|
    ensures StateBefore(c, h, 0).seenIps == Fold(IpVisits(c, h, 0), c.behaviorWindowMs)
    ensures StateBefore(c, h, 0).seenUas == Fold(UaVisits(c, h, 0), c.behaviorWindowMs)
  {
  }

  lemma FoldSnoc(visits: seq<Visit<string>>, v: Visit<string>, window: int)
    ensures Fold(visits + [v], window) == Touch(Fold(visits, window), v, window)
  {
    assert (visits + [v])[..|visits|] == visits;
  }

  lemma RecountIsRecent(c: Config, h: seq<Request>, i: nat)
    requires i < |h|
    ensures Recount(IpVisits(c, h, i + 1), h[i].now, c.behaviorWindowMs) == RecentIps(c, h, i)
    ensures Recount(UaVisits(c, h, i + 1), h[i].now, c.behaviorWindowMs) == RecentUas(c, h, i)
  {
    hide Reached, Reaching;
    ReachingFacts(c, h, i + 1);
    var js := Reaching(c, h, i + 1);
    forall ip | ip in RecentIps(c, h, i) ensures ip in Recount(IpVisits(c, h, i + 1), h[i].now, c.behaviorWindowMs) {
      var j :| 0 <= j <= i && Reached(c, h, j) && h[i].now - h[j].now <= c.behaviorWindowMs && ip == h[j].ip;
      var k := ReachingComplete(c, h, j, i + 1);
      assert IpVisits(c, h, i + 1)[k] == Visit({ip}, h[j].now);
    }
    forall ua | ua in RecentUas(c, h, i) ensures ua in Recount(UaVisits(c, h, i + 1), h[i].now, c.behaviorWindowMs) {
      var j :| 0 <= j <= i && Reached(c, h, j) && h[i].now - h[j].now <= c.behaviorWindowMs && ua == h[j].ua;
      var k := ReachingComplete(c, h, j, i + 1);
      assert UaVisits(c, h, i + 1)[k] == Visit({ua}, h[j].now);
    }
  }

  /** At each abuse decision the tables hold exactly the recounted addresses and user agents, so the verdict is the one
      a recount of the full history gives. */
  lemma VerdictIsRecount(c: Config, h: seq<Request>, i: nat)
    requires i < |h| && Ordered(h) && Reached(c, h, i)
    ensures StateBefore(c, h, i + 1).seenIps.Keys == RecentIps(c, h, i)
    ensures StateBefore(c, h, i + 1).seenUas.Keys == RecentUas(c, h, i)
    ensures VerdictAt(c, h, i).Abusive? <==>
            |RecentIps(c, h, i)| > c.behaviorMaxIps || |RecentUas(c, h, i)| > c.behaviorMaxUas
  {
    hide Check, Fold, Touch, Recount, RecentIps, RecentUas, Reached, Reaching, IpVisits, UaVisits, VerdictAt;
    var ips, uas := IpVisits(c, h, i + 1), UaVisits(c, h, i + 1);
    VisitsInOrder(c, h, i);
    TablesAreFolds(c, h, i + 1);
    RecountIsRecent(c, h, i);
    FoldIsRecount(ips, c.behaviorWindowMs);
    FoldIsRecount(uas, c.behaviorWindowMs);
    AbuseBySize(c, h, i);
  }

  lemma VisitsInOrder(c: Config, h: seq<Request>, i: nat)
    requires i < |h| && Ordered(h) && Reached(c, h, i)
    ensures var ips, uas := IpVisits(c, h, i + 1), UaVisits(c, h, i + 1);
            && InOrder(ips) && ips != [] && ips[|ips| - 1].at == h[i].now
            && InOrder(uas) && uas != [] && uas[|uas| - 1].at == h[i].now
  {
    hide Reached, Reaching;
    ReachingFacts(c, h, i + 1);
  }

  lemma AbuseBySize(c: Config, h: seq<Request>, i: nat)
    requires i < |h| && Reached(c, h, i)
    ensures var s := StateBefore(c, h, i + 1);
            VerdictAt(c, h, i).Abusive? <==> |s.seenIps.Keys| > c.behaviorMaxIps || |s.seenUas.Keys| > c.behaviorMaxUas
  {
    hide Touch;
    var s := StateBefore(c, h, i + 1);
    assert |s.seenIps| == |s.seenIps.Keys| && |s.seenUas| == |s.seenUas.Keys|;
  }

  /** What a verdict says about the run: a ban, an overrun window, too many recent addresses or user agents, or none of
      these. */
  predicate Told(c: Config, h: seq<Request>, i: nat, v: Verdict)
    requires i < |h|
  {
    var many := |RecentIps(c, h, i)| > c.behaviorMaxIps || |RecentUas(c, h, i)| > c.behaviorMaxUas;
    v == if InBan(c, h, i) then Blocked else if Overrun(c, h, i) then RateLimited else if many then Abusive else Allowed
  }

  /** Every verdict of a run can be told from its requests and the verdicts before it. */
  lemma VerdictTold(c: Config, h: seq<Request>, i: nat)
    requires i < |h| && Ordered(h)
    ensures Told(c, h, i, VerdictAt(c, h, i))
  {
    hide VerdictAt, StateBefore, InBan, Overrun, RecentIps, RecentUas;
    BlockedIff(c, h, i);
    RateLimitedIff(c, h, i);
    if Reached(c, h, i) { VerdictIsRecount(c, h, i); }
  }

  // ----- Entries -----

  /** An entry's stamp never runs ahead of the last request, and is that request's time unless it was blocked. */
  lemma {:induction false} StampBound(c: Config, h: seq<Request>, n: nat)
    requires 0 < n <= |h| && Ordered(h)
    ensures 0 < StateBefore(c, h, n).updatedAt <= h[n - 1].now
    ensures !VerdictAt(c, h, n - 1).Blocked? ==> StateBefore(c, h, n).updatedAt == h[n - 1].now
  {
    hide Touch;
    if n > 1 {
      StampBound(c, h, n - 1);
    }
  }
}
