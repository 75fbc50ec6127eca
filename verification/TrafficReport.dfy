/** From the records of one agent report to the recordings in the traffic tables. */
module TrafficReport {
  import opened Wrappers
  import opened ReportRouting
  import TrafficMeter
  import opened TrafficLedger

  /** Where a record is counted. */
  datatype Key = Key(node: nat, user: nat)

  /** The key of a record, if its user can be told. Without any protocol in the report all records belong to the
      reporting node. */
  function KeyFor(c: Context, split: bool, r: Record): Option<Key>
    requires c.tracked != []
  {
    var user := ResolveUser(r, c.tags);
    if user == 0 then None
    else Some(Key(if split then ResolveTarget(r, BuildProtocolNodeMap(c.tracked)) else c.tracked[0].id, user))
  }

  function Volume(r: Record): Bytes
  {
    if r.direction.Uplink? then Bytes(r.value, 0) else Bytes(0, r.value)
  }

  /** The bytes of all records of one key. */
  function Matching(c: Context, split: bool, rs: seq<Record>, k: Key): Bytes
    requires c.tracked != []
  {
    if rs == [] then NONE
    else
      var r := rs[|rs| - 1];
      Plus(Matching(c, split, rs[..|rs| - 1], k), if KeyFor(c, split, r) == Some(k) then Volume(r) else NONE)
  }

  /** The octets a report carries for one user on one node in one direction: the values of exactly the records whose
      user it is, that belong to the node and name that direction. */
  function Carried(c: Context, split: bool, rs: seq<Record>, user: nat, node: nat, d: TrafficMeter.Direction): int
    requires c.tracked != []
  {
    if rs == [] then 0
    else
      var r := rs[|rs| - 1];
      var target := if split then ResolveTarget(r, BuildProtocolNodeMap(c.tracked)) else c.tracked[0].id;
      Carried(c, split, rs[..|rs| - 1], user, node, d)
      + if ResolveUser(r, c.tags) == user && target == node && r.direction == d then r.value else 0
  }

  /** Uplink records count as up and downlink records as down. */
  lemma {:induction false} MatchingIs(c: Context, split: bool, rs: seq<Record>, k: Key)
    requires c.tracked != [] && k.user != 0
    ensures Matching(c, split, rs, k).up == Carried(c, split, rs, k.user, k.node, TrafficMeter.Uplink)
    ensures Matching(c, split, rs, k).down == Carried(c, split, rs, k.user, k.node, TrafficMeter.Downlink)
  {
    hide ResolveUser, ResolveTarget;
    if rs != [] {
      MatchingIs(c, split, rs[..|rs| - 1], k);
      var d := rs[|rs| - 1].direction;
      match d case Uplink => case Downlink =>
    }
  }

  lemma {:induction false} MatchingAppend(c: Context, split: bool, a: seq<Record>, b: seq<Record>, k: Key)
    requires c.tracked != []
    ensures Matching(c, split, a + b, k) == Plus(Matching(c, split, a, k), Matching(c, split, b, k))
  {
    hide Plus, KeyFor, Volume;
    PlusSwap(Matching(c, split, a, k), NONE, NONE);
    if b == [] {
      assert a + b == a;
    } else {
      var n := |b| - 1;
      MatchingAppend(c, split, a, b[..n], k);
      assert (a + b)[..|a + b| - 1] == a + b[..n];
      PlusSwap(Matching(c, split, a, k), Matching(c, split, b[..n], k),
               if KeyFor(c, split, b[n]) == Some(k) then Volume(b[n]) else NONE);
    }
  }

  /** The order of the records does not matter. */
  lemma {:induction false} MatchingPermuted(c: Context, split: bool, a: seq<Record>, b: seq<Record>, k: Key)
    requires c.tracked != [] && multiset(a) == multiset(b)
    ensures Matching(c, split, a, k) == Matching(c, split, b, k)
    decreases |a|
  {
    if a == [] {
      assert |multiset(b)| == 0;
    } else {
      hide Plus, Matching;
      var n := |a| - 1;
      var init, x := a[..n], a[n];
      assert a == init + [x];
      assert x in multiset(b);
      var j :| 0 <= j < |b| && b[j] == x;
      var left, right := b[..j], b[j + 1..];
      assert b == left + [x] + right;
      SameRest(init, x, left, right);
      MatchingPermuted(c, split, init, left + right, k);
      MatchingAppend(c, split, left + [x], right, k);
      MatchingAppend(c, split, left, [x], k);
      MatchingAppend(c, split, left, right, k);
      MatchingAppend(c, split, init, [x], k);
      PlusSwap(Matching(c, split, left, k), Matching(c, split, [x], k), Matching(c, split, right, k));
    }
  }

  lemma SameRest(init: seq<Record>, x: Record, left: seq<Record>, right: seq<Record>)
    requires multiset(init + [x]) == multiset(left + [x] + right)
    ensures multiset(init) == multiset(left + right)
  {
    assert multiset(init) == multiset(init + [x]) - multiset{x};
    assert multiset(left + right) == multiset(left + [x] + right) - multiset{x};
  }

  lemma SplitPermuted(a: seq<Record>, b: seq<Record>)
    requires multiset(a) == multiset(b)
    ensures HasProtocolSplit(a) == HasProtocolSplit(b)
  {
    if HasProtocolSplit(a) {
      var i :| 0 <= i < |a| && !a[i].proto.Unknown?;
      assert a[i] in multiset(b);
      var j :| 0 <= j < |b| && b[j] == a[i];
    }
    if HasProtocolSplit(b) {
      var i :| 0 <= i < |b| && !b[i].proto.Unknown?;
      assert b[i] in multiset(a);
      var j :| 0 <= j < |a| && a[j] == b[i];
    }
  }

  /** Rounding to the nearest integer, halves upward. */
  function Round(x: real): int
  {
    (x + 0.5).Floor
  }

  function Times(n: int, rate: real): real
  {
    n as real * rate
  }

  function Scale(b: Bytes, rate: real): Bytes
  {
    Bytes(Round(Times(b.up, rate)), Round(Times(b.down, rate)))
  }

  /** What the database holds when a report is saved: the nodes' rates, and which users and nodes there are. A recording
      for any other violates a foreign key. */
  datatype World = World(rates: map<nat, real>, users: set<nat>, nodes: set<nat>)

  function RateOf(rates: map<nat, real>, node: nat): real
  {
    if node in rates then rates[node] else 1.0
  }

  /** What a report adds for one key: its records' bytes, scaled by the node's rate, when user and node still
      exist. */
  function Due(c: Context, w: World, rs: seq<Record>, k: Key): Bytes
    requires c.tracked != []
  {
    var b := Matching(c, HasProtocolSplit(rs), rs, k);
    if k.user in w.users && k.node in w.nodes && k.user != 0 && k.node != 0 && (b.up > 0 || b.down > 0) then
      Scale(b, RateOf(w.rates, k.node))
    else NONE
  }

  /** In any order of its records a report adds the same. */
  lemma DuePermuted(c: Context, w: World, a: seq<Record>, b: seq<Record>, k: Key)
    requires c.tracked != [] && multiset(a) == multiset(b)
    ensures Due(c, w, a, k) == Due(c, w, b, k)
  {
    SplitPermuted(a, b);
    MatchingPermuted(c, HasProtocolSplit(a), a, b, k);
  }

  lemma {:induction false} MatchingNatural(c: Context, split: bool, rs: seq<Record>, k: Key)
    requires c.tracked != [] && forall i :: 0 <= i < |rs| ==> rs[i].value >= 0
    ensures Matching(c, split, rs, k).up >= 0 && Matching(c, split, rs, k).down >= 0
  {
    if rs != [] {
      MatchingNatural(c, split, rs[..|rs| - 1], k);
    }
  }

  lemma RateOneScale(b: Bytes)
    ensures Scale(b, 1.0) == b
  {
    RoundInt(b.up);
    RoundInt(b.down);
  }

  lemma RoundInt(n: int)
    ensures Round(n as real * 1.0) == n
  {
    assert n as real * 1.0 == n as real;
  }

  /** At rate one nothing is lost: an existing user gets every byte of the non-negative records of an existing node. */
  lemma NothingLost(c: Context, w: World, rs: seq<Record>, k: Key)
    requires c.tracked != [] && k.user in w.users && k.node in w.nodes && k.user != 0 && k.node != 0
    requires RateOf(w.rates, k.node) == 1.0
    requires forall i :: 0 <= i < |rs| ==> rs[i].value >= 0
    ensures Due(c, w, rs, k).up == Carried(c, HasProtocolSplit(rs), rs, k.user, k.node, TrafficMeter.Uplink)
    ensures Due(c, w, rs, k).down == Carried(c, HasProtocolSplit(rs), rs, k.user, k.node, TrafficMeter.Downlink)
  {
    hide Matching, Carried, HasProtocolSplit;
    MatchingIs(c, HasProtocolSplit(rs), rs, k);
    MatchingNatural(c, HasProtocolSplit(rs), rs, k);
    RateOneScale(Matching(c, HasProtocolSplit(rs), rs, k));
  }

  /** The integer nearest to a number, the higher one of two. */
  predicate Nearest(n: int, x: real)
  {
    n as real - 0.5 <= x < n as real + 0.5
  }

  lemma RoundIsNearest(x: real)
    ensures Nearest(Round(x), x)
  {
  }

  lemma ScaleIsNearest(b: Bytes, rate: real)
    ensures Nearest(Scale(b, rate).up, Times(b.up, rate)) && Nearest(Scale(b, rate).down, Times(b.down, rate))
  {
    hide Round, Nearest, Times;
    RoundIsNearest(Times(b.up, rate));
    RoundIsNearest(Times(b.down, rate));
  }

  /** At any rate an existing user is recorded the octets carried times the rate, rounded, in each direction. */
  lemma DueIsScaled(c: Context, w: World, rs: seq<Record>, k: Key)
    requires c.tracked != [] && k.user in w.users && k.node in w.nodes && k.user != 0 && k.node != 0
    ensures var split := HasProtocolSplit(rs);
            var up := Carried(c, split, rs, k.user, k.node, TrafficMeter.Uplink);
            var down := Carried(c, split, rs, k.user, k.node, TrafficMeter.Downlink);
            var rate := if k.node in w.rates then w.rates[k.node] else 1.0;
            if up > 0 || down > 0 then
              && Nearest(Due(c, w, rs, k).up, Times(up, rate))
              && Nearest(Due(c, w, rs, k).down, Times(down, rate))
            else Due(c, w, rs, k) == NONE
  {
    hide Matching, Carried, HasProtocolSplit, Scale, Nearest, Times;
    MatchingIs(c, HasProtocolSplit(rs), rs, k);
    ScaleIsNearest(Matching(c, HasProtocolSplit(rs), rs, k), RateOf(w.rates, k.node));
  }

  lemma {:induction false} NothingCarried(c: Context, split: bool, rs: seq<Record>, user: nat, node: nat,
                                          d: TrafficMeter.Direction)
    requires c.tracked != [] && forall i :: 0 <= i < |rs| ==> rs[i].direction != d
    ensures Carried(c, split, rs, user, node, d) == 0
  {
    if rs != [] {
      NothingCarried(c, split, rs[..|rs| - 1], user, node, d);
    }
  }

  lemma NothingDownDue(c: Context, w: World, rs: seq<Record>, k: Key)
    requires c.tracked != [] && forall i :: 0 <= i < |rs| ==> rs[i].direction.Uplink?
    ensures Due(c, w, rs, k).down == 0
  {
    hide Matching, Carried, HasProtocolSplit, Scale;
    if k.user != 0 {
      MatchingIs(c, HasProtocolSplit(rs), rs, k);
      NothingCarried(c, HasProtocolSplit(rs), rs, k.user, k.node, TrafficMeter.Downlink);
      ScaledNothing(Matching(c, HasProtocolSplit(rs), rs, k), RateOf(w.rates, k.node));
    }
  }

  lemma ScaledNothing(b: Bytes, rate: real)
    requires b.down == 0
    ensures Scale(b, rate).down == 0
  {
    assert Times(0, rate) == 0.0;
  }

  /** A report with nothing downlink adds nothing to any downlink total: of the site, of a user, or of a day. */
  lemma {:induction false} UplinkOnly(c: Context, w: World, rs: seq<Record>, before: seq<Entry>, after: seq<Entry>)
    requires c.tracked != [] && forall i :: 0 <= i < |rs| ==> rs[i].direction.Uplink?
    requires before <= after
    requires forall i :: |before| <= i < |after| ==>
               after[i].bytes == Due(c, w, rs, Key(after[i].node, after[i].user))
    ensures SumAll(after).down == SumAll(before).down
    ensures forall u :: SumUser(after, u).down == SumUser(before, u).down
    ensures forall d :: SumDay(after, d).down == SumDay(before, d).down
    decreases |after|
  {
    hide Due, HasProtocolSplit;
    if |after| > |before| {
      var last := after[|after| - 1];
      UplinkOnly(c, w, rs, before, after[..|after| - 1]);
      NothingDownDue(c, w, rs, Key(last.node, last.user));
    } else {
      assert after == before;
    }
  }

  /** Adds up the records of a report per key. */
  method Accumulate(c: Context, rs: seq<Record>) returns (traffic: map<Key, Bytes>)
    requires c.tracked != []
    ensures forall k :: Of(traffic, k) == Matching(c, HasProtocolSplit(rs), rs, k)
    ensures forall k :: k in traffic ==> k.user != 0
  {
    hide KeyFor, Plus, HasProtocolSplit;
    var split := HasProtocolSplit(rs);
    traffic := map[];
    for i := 0 to |rs|
      invariant forall k :: Of(traffic, k) == Matching(c, split, rs[..i], k)
      invariant forall k :: k in traffic ==> k.user != 0
    {
      assert rs[..i + 1][..i] == rs[..i];
      var r := rs[i];
      PlusNothing();
      var key := KeyFor(c, split, r);
      KeyHasUser(c, split, r);
      if key.None? { continue; }
      traffic := traffic[key.value := Plus(Of(traffic, key.value), Volume(r))];
    }
    assert rs[..|rs|] == rs;
  }

  lemma PlusNothing()
    ensures forall b :: Plus(b, NONE) == b
  {
  }

  lemma KeyHasUser(c: Context, split: bool, r: Record)
    requires c.tracked != []
    ensures KeyFor(c, split, r).Some? ==> KeyFor(c, split, r).value.user != 0
  {
  }

  /** Saves a report: per user and node, the tables grow by exactly what the report's records come to, and by nothing
      else. A recording fails only when the user or the node no longer exists. */
  method SaveTrafficRecords(db: Repository, c: Context, w: World,
                            rs: seq<Record>, day: int, now: int)
    returns (count: nat)
    requires db.Valid() && Tracked(c.tracked) && db.today <= day && db.clock <= now
    modifies db
    ensures db.Valid() && db.today <= day && db.clock <= now
    ensures db.rawLimit == old(db.rawLimit) && db.dayLimit == old(db.dayLimit)
    ensures forall u, n :: SumPair(db.all, u, n) == Plus(SumPair(old(db.all), u, n), Due(c, w, rs, Key(n, u)))
    ensures old(db.all) <= db.all && count == |db.all| - |old(db.all)|
    ensures forall i :: |old(db.all)| <= i < |db.all| ==> db.all[i].day == day && db.all[i].at == now
    ensures forall i :: |old(db.all)| <= i < |db.all| ==>
              db.all[i].bytes == Due(c, w, rs, Key(db.all[i].node, db.all[i].user))
  {
    hide Due, Agrees, SumPair, Matching, HasProtocolSplit, Plus;
    PlusNothing();
    count := 0;
    var traffic := Accumulate(c, rs);
    var todo := traffic.Keys;
    ghost var done: set<Key> := {};
    while todo != {}
      invariant db.Valid() && db.today <= day && db.clock <= now
      invariant db.rawLimit == old(db.rawLimit) && db.dayLimit == old(db.dayLimit)
      invariant todo <= traffic.Keys && done == traffic.Keys - todo
      invariant old(db.all) <= db.all && count == |db.all| - |old(db.all)|
      invariant forall i :: |old(db.all)| <= i < |db.all| ==> db.all[i].day == day && db.all[i].at == now
      invariant forall i :: |old(db.all)| <= i < |db.all| ==>
                  db.all[i].bytes == Due(c, w, rs, Key(db.all[i].node, db.all[i].user))
      invariant forall u, n :: SumPair(db.all, u, n) ==
                               Plus(SumPair(old(db.all), u, n),
                                    if Key(n, u) in done then Due(c, w, rs, Key(n, u)) else NONE)
    {
      var k :| k in todo;
      ghost var before := db.all;
      var ok := RecordKey(db, c, w, rs, traffic, k, day, now);
      if ok { count := count + 1; }
      todo, done := todo - {k}, done + {k};
      forall u, n ensures SumPair(db.all, u, n) ==
                          Plus(SumPair(old(db.all), u, n),
                               if Key(n, u) in done then Due(c, w, rs, Key(n, u)) else NONE)
      {
        assert SumPair(db.all, u, n) == Plus(SumPair(before, u, n), if Key(n, u) == k then Due(c, w, rs, k) else NONE);
      }
    }
    forall u, n ensures SumPair(db.all, u, n) == Plus(SumPair(old(db.all), u, n), Due(c, w, rs, Key(n, u))) {
      if Key(n, u) !in traffic {
        assert Of(traffic, Key(n, u)) == NONE;
        NothingDue(c, w, rs, Key(n, u));
      }
    }
  }

  lemma NothingDue(c: Context, w: World, rs: seq<Record>, k: Key)
    requires c.tracked != [] && Matching(c, HasProtocolSplit(rs), rs, k) == NONE
    ensures Due(c, w, rs, k) == NONE
  {
  }

  /** One key of the accumulated traffic. */
  method RecordKey(db: Repository, c: Context, w: World, ghost rs: seq<Record>,
                   traffic: map<Key, Bytes>, k: Key, day: int, now: int) returns (ok: bool)
    requires db.Valid() && c.tracked != [] && db.today <= day && db.clock <= now
    requires k in traffic && k.user != 0 && Of(traffic, k) == Matching(c, HasProtocolSplit(rs), rs, k)
    modifies db
    ensures db.Valid() && db.today <= day && db.clock <= now
    ensures db.rawLimit == old(db.rawLimit) && db.dayLimit == old(db.dayLimit)
    ensures forall i :: |old(db.all)| <= i < |db.all| ==> db.all[i].day == day && db.all[i].at == now
    ensures forall i :: |old(db.all)| <= i < |db.all| ==>
              db.all[i].bytes == Due(c, w, rs, Key(db.all[i].node, db.all[i].user))
    ensures old(db.all) <= db.all && |db.all| == |old(db.all)| + if ok then 1 else 0
    ensures forall u, n :: SumPair(db.all, u, n) ==
              Plus(SumPair(old(db.all), u, n), if Key(n, u) == k then Due(c, w, rs, k) else NONE)
  {
    hide Agrees, SumPair, Matching, HasProtocolSplit, Scale, Plus;
    PlusNothing();
    var b := traffic[k];
    ok := k.node != 0 && (b.up > 0 || b.down > 0) && k.user in w.users && k.node in w.nodes;
    if ok {
      var scaled := Scale(b, RateOf(w.rates, k.node));
      ghost var e := Entry(k.user, k.node, day, now, scaled);
      forall u, n ensures SumPair(db.all + [e], u, n) ==
          Plus(SumPair(db.all, u, n), if Key(n, u) == k then scaled else NONE) {
        SumPairSnoc(db.all, e, u, n);
      }
      db.RecordTraffic(k.user, k.node, scaled, day, now);
    }
  }
}
