/** The container core's traffic meter: counters that relays add to while the reporter swaps them out. */
module TrafficMeter {
  import opened Wrappers

  datatype Direction = Uplink | Downlink

  datatype TrafficRecord = TrafficRecord(user: nat, direction: Direction, value: nat)

  /** The octets a list of records holds for one user and direction. */
  function Total(log: seq<TrafficRecord>, user: nat, direction: Direction): nat
  {
    if log == [] then 0
    else
      var last := log[|log| - 1];
      Total(log[..|log| - 1], user, direction)
      + if last.user == user && last.direction == direction then last.value else 0
  }

  lemma TotalSnoc(log: seq<TrafficRecord>, x: TrafficRecord)
    ensures forall u, d :: Total(log + [x], u, d)
                        == Total(log, u, d) + if x.user == u && x.direction == d then x.value else 0
  {
    assert (log + [x])[..|log|] == log;
  }

  lemma {:induction false} TotalOfAbsent(log: seq<TrafficRecord>, user: nat, direction: Direction)
    requires forall i :: 0 <= i < |log| ==> log[i].user != user || log[i].direction != direction
    ensures Total(log, user, direction) == 0
  {
    if log != [] {
      TotalOfAbsent(log[..|log| - 1], user, direction);
    }
  }

  /** With one record per user and direction, a record's value is the whole total. */
  lemma {:induction false} TotalOfSole(log: seq<TrafficRecord>, i: nat)
    requires SoleRecords(log) && i < |log|
    ensures Total(log, log[i].user, log[i].direction) == log[i].value
  {
    var n := |log| - 1;
    if i == n {
      TotalOfAbsent(log[..n], log[i].user, log[i].direction);
    } else {
      TotalOfSole(log[..n], i);
    }
  }

  /** Every record is positive, and no two are for the same user and direction. */
  predicate SoleRecords(log: seq<TrafficRecord>)
  {
    && (forall i :: 0 <= i < |log| ==> log[i].value > 0)
    && forall i, j :: 0 <= i < j < |log| ==> log[i].user != log[j].user || log[i].direction != log[j].direction
  }

  // ----- Relays -----

  /** A relay adds to one counter of one user: the octets it has read from its source so far, and those of them it has
      added. The difference is what it holds between a read and the addition that follows. */
  datatype Relay = Relay(user: nat, direction: Direction, read: nat, added: nat)

  predicate Serves(r: Relay, user: nat, direction: Direction)
  {
    r.user == user && r.direction == direction
  }

  function Read(rs: seq<Relay>, user: nat, direction: Direction): nat
  {
    if rs == [] then 0
    else Read(rs[1..], user, direction) + if Serves(rs[0], user, direction) then rs[0].read else 0
  }

  function Added(rs: seq<Relay>, user: nat, direction: Direction): nat
  {
    if rs == [] then 0
    else Added(rs[1..], user, direction) + if Serves(rs[0], user, direction) then rs[0].added else 0
  }

  /** Octets read and not added yet. */
  function Held(rs: seq<Relay>, user: nat, direction: Direction): int
  {
    if rs == [] then 0
    else Held(rs[1..], user, direction) + if Serves(rs[0], user, direction) then rs[0].read - rs[0].added else 0
  }

  lemma {:induction false} ReadIsAddedOrHeld(rs: seq<Relay>, user: nat, direction: Direction)
    ensures Read(rs, user, direction) == Added(rs, user, direction) + Held(rs, user, direction)
  {
    if rs != [] {
      ReadIsAddedOrHeld(rs[1..], user, direction);
    }
  }

  /** No relay is between a read and the addition that follows. */
  predicate NoneBetween(rs: seq<Relay>, user: nat, direction: Direction)
  {
    forall i :: 0 <= i < |rs| && Serves(rs[i], user, direction) ==> rs[i].added == rs[i].read
  }

  lemma {:induction false} NothingHeld(rs: seq<Relay>, user: nat, direction: Direction)
    requires NoneBetween(rs, user, direction)
    ensures Held(rs, user, direction) == 0
  {
    if rs != [] {
      NothingHeld(rs[1..], user, direction);
    }
  }

  lemma {:induction false} AddedSnoc(rs: seq<Relay>, r: Relay, user: nat, direction: Direction)
    ensures Added(rs + [r], user, direction)
         == Added(rs, user, direction) + if Serves(r, user, direction) then r.added else 0
  {
    if rs == [] {
      assert rs + [r] == [r];
    } else {
      assert (rs + [r])[1..] == rs[1..] + [r];
      AddedSnoc(rs[1..], r, user, direction);
    }
  }

  lemma {:induction false} AddedUpdate(rs: seq<Relay>, i: nat, r: Relay, user: nat, direction: Direction)
    requires i < |rs| && r.user == rs[i].user && r.direction == rs[i].direction
    ensures Added(rs[i := r], user, direction)
         == Added(rs, user, direction) + if Serves(r, user, direction) then r.added - rs[i].added else 0
  {
    if i == 0 {
      assert rs[i := r][1..] == rs[1..];
    } else {
      assert rs[i := r][1..] == rs[1..][i - 1 := r];
      AddedUpdate(rs[1..], i - 1, r, user, direction);
    }
  }

  /** Relays come and go on; none forgets its user, and none takes anything back. */
  predicate Continues(before: seq<Relay>, after: seq<Relay>)
  {
    && |before| <= |after|
    && forall i :: 0 <= i < |before| ==>
         && Serves(after[i], before[i].user, before[i].direction)
         && before[i].read <= after[i].read && before[i].added <= after[i].added
  }

  lemma {:induction false} AddedGrows(before: seq<Relay>, after: seq<Relay>, user: nat, direction: Direction)
    requires Continues(before, after)
    ensures Added(before, user, direction) <= Added(after, user, direction)
  {
    if before != [] {
      assert Serves(after[0], before[0].user, before[0].direction);
      AddedGrows(before[1..], after[1..], user, direction);
    }
  }

  // ----- The meter -----

  class Counters {
    var up: nat
    var down: nat

    constructor ()
      ensures up == 0 && down == 0
    {
      up, down := 0, 0;
    }
  }

  class Meter {
    var m: map<nat, Counters>
    /** The relays started so far, as far as their loops have come. */
    var relays: seq<Relay>
    /** Every value a drain has swapped out. */
    ghost var drained: seq<TrafficRecord>

    constructor ()
      ensures Valid() && m == map[] && relays == [] && drained == []
    {
      m, relays, drained := map[], [], [];
    }

    ghost function Count(user: nat, direction: Direction): nat
      reads this, m.Values
    {
      if user !in m then 0 else if direction.Uplink? then m[user].up else m[user].down
    }

    /** Conservation: what was swapped out plus what is still counted is what was added, per user and direction. */
    ghost predicate Valid()
      reads this, m.Values
    {
      && (forall u, v :: u in m && v in m && u != v ==> m[u] != m[v])
      && (forall i :: 0 <= i < |relays| ==> relays[i].user in m && relays[i].added <= relays[i].read)
      && forall u, d :: Total(drained, u, d) + Count(u, d) == Added(relays, u, d)
    }

    /** At every moment the octets drained so far, those still counted and those a relay holds between its read and its
        addition are all the octets read; with no relay in between, drained plus counted is what was read. */
    lemma AllRead(user: nat, direction: Direction)
      requires Valid()
      ensures Total(drained, user, direction) + Count(user, direction) + Held(relays, user, direction)
           == Read(relays, user, direction)
      ensures NoneBetween(relays, user, direction) ==>
                Total(drained, user, direction) + Count(user, direction) == Read(relays, user, direction)
    {
      ReadIsAddedOrHeld(relays, user, direction);
      if NoneBetween(relays, user, direction) {
        NothingHeld(relays, user, direction);
      }
    }

    /** The counters of a user, made on first use and never replaced. */
    method For(user: nat) returns (c: Counters)
      requires Valid()
      modifies this`m
      ensures Valid()
      ensures user in m && m[user] == c
      ensures forall u :: u in old(m) ==> u in m && m[u] == old(m)[u]
      ensures forall u :: u in m ==> u in old(m) || u == user
      ensures fresh(m.Values - old(m.Values))
      ensures forall u, d :: Count(u, d) == old(Count(u, d))
    {
      if user in m {
        c := m[user];
      } else {
        c := new Counters();
        m := m[user := c];
      }
    }

    lemma RelayOk(relay: nat)
      requires Valid() && relay < |relays|
      ensures relays[relay].user in m && relays[relay].added <= relays[relay].read
    {
    }

    /** A new relay for a user whose counters have been fetched. */
    method Start(user: nat, direction: Direction) returns (relay: nat)
      requires Valid() && user in m
      modifies this`relays
      ensures Valid()
      ensures relay == |old(relays)| && relays == old(relays) + [Relay(user, direction, 0, 0)]
    {
      hide Total, Added;
      relay := |relays|;
      ghost var before := relays;
      relays := relays + [Relay(user, direction, 0, 0)];
      forall u, d ensures Added(relays, u, d) == Added(before, u, d) {
        AddedSnoc(before, Relay(user, direction, 0, 0), u, d);
      }
    }

    /** A relay has read from its source. */
    method NoteRead(relay: nat, n: nat)
      requires Valid() && relay < |relays|
      modifies this`relays
      ensures Valid()
      ensures relays == old(relays)[relay := old(relays)[relay].(read := old(relays)[relay].read + n)]
    {
      hide Total, Added;
      ghost var before := relays;
      var r := relays[relay];
      relays := relays[relay := r.(read := r.read + n)];
      forall u, d ensures Added(relays, u, d) == Added(before, u, d) {
        AddedUpdate(before, relay, r.(read := r.read + n), u, d);
      }
    }

    /** One atomic addition, by a relay that got its counters earlier. */
    method Add(relay: nat, n: nat)
      requires Valid() && relay < |relays| && relays[relay].added + n <= relays[relay].read
      modifies m[relays[relay].user], this`relays
      ensures Valid()
      ensures relays == old(relays)[relay := old(relays)[relay].(added := old(relays)[relay].added + n)]
    {
      hide Total, Added;
      ghost var before := relays;
      var r := relays[relay];
      relays := relays[relay := r.(added := r.added + n)];
      var c := m[r.user];
      if r.direction.Uplink? {
        c.up := c.up + n;
      } else {
        c.down := c.down + n;
      }
      forall u, d
        ensures Added(relays, u, d) == Added(before, u, d) + if Serves(r, u, d) then n else 0
        ensures Count(u, d) == old(Count(u, d)) + if Serves(r, u, d) then n else 0
      {
        AddedUpdate(before, relay, r.(added := r.added + n), u, d);
        if u in m && u != r.user {
          assert m[u] != c;
        }
      }
    }

    /** One atomic swap with zero. */
    method Swap(user: nat, direction: Direction) returns (n: nat)
      requires Valid() && user in m
      modifies m[user], this`drained
      ensures Valid() && drained == old(drained) + [TrafficRecord(user, direction, n)]
      ensures n == old(Count(user, direction))
      ensures forall u, d ::
                Total(drained, u, d) == Total(old(drained), u, d) + if u == user && d == direction then n else 0
      ensures Total(drained, user, direction) == Added(relays, user, direction)
    {
      hide Added;
      n := if direction.Uplink? then m[user].up else m[user].down;
      TotalSnoc(drained, TrafficRecord(user, direction, n));
      drained := drained + [TrafficRecord(user, direction, n)];
      if direction.Uplink? {
        m[user].up := 0;
      } else {
        m[user].down := 0;
      }
    }

    /** One step of some relay other than the given one: it starts, reads, or adds what it has read. */
    method RelayStep(mine: Option<nat>)
      requires Valid()
      modifies this`relays, m.Values
      ensures Valid() && Continues(old(relays), relays) && Untouched(mine, old(relays), relays)
    {
      hide Total, Added;
      var i: nat :| true;
      var n: nat :| true;
      if i < |relays| && mine != Some(i) {
        var add := *;
        if add && relays[i].added + n <= relays[i].read {
          Add(i, n);
        } else {
          NoteRead(i, n);
        }
      } else if |m.Keys| > 0 {
        var user :| user in m.Keys;
        var direction := *;
        var _ := Start(user, direction);
      }
    }

    /** Any number of steps of any relays. */
    method Relays()
      requires Valid()
      modifies this`relays, m.Values
      ensures Valid() && Continues(old(relays), relays)
    {
      hide Valid;
      var steps: nat :| true;
      for i := 0 to steps
        invariant Valid() && Continues(old(relays), relays)
      {
        RelayStep(None);
      }
    }

    /** Whatever else goes on while one relay is between two of its own steps: other relays start, read and add, new
        users get counters, and the reporter swaps counters out. */
    method Others(mine: nat)
      requires Valid() && mine < |relays|
      modifies this, m.Values
      ensures Valid() && mine < |relays| && relays[mine] == old(relays)[mine]
      ensures Continues(old(relays), relays)
      ensures fresh(m.Values - old(m.Values)) && forall u :: u in old(m) ==> u in m && m[u] == old(m)[u]
    {
      hide Total, Added, Valid, Count;
      var steps: nat :| true;
      for i := 0 to steps
        invariant Valid() && mine < |relays| && relays[mine] == old(relays)[mine]
        invariant Continues(old(relays), relays)
        invariant fresh(m.Values - old(m.Values)) && forall u :: u in old(m) ==> u in m && m[u] == old(m)[u]
      {
        var which: nat :| true;
        var user: nat :| true;
        if which == 0 {
          RelayStep(Some(mine));
        } else if which == 1 {
          var _ := For(user);
        } else if user in m {
          var direction := *;
          var _ := Swap(user, direction);
        }
      }
    }

    /** The reporter's drain. The lock keeps the table fixed, but relays go on before, between and after the two swaps
        of every user. The records are exactly what was swapped out, and nothing added before the call is left
        behind. */
    method Drain() returns (recs: seq<TrafficRecord>)
      requires Valid()
      modifies m.Values, this`relays, this`drained
      ensures Valid() && Continues(old(relays), relays)
      ensures SoleRecords(recs)
      ensures forall u, d :: Total(drained, u, d) == Total(old(drained), u, d) + Total(recs, u, d)
      ensures forall u, d :: Total(drained, u, d) >= Added(old(relays), u, d)
    {
      hide Total, Added;
      recs := [];
      NoRecords();
      var todo := m.Keys;
      while |todo| > 0
        invariant Valid() && todo <= m.Keys && Continues(old(relays), relays)
        invariant SoleRecords(recs)
        invariant forall i :: 0 <= i < |recs| ==> recs[i].user !in todo
        invariant forall u, d :: Total(drained, u, d) == Total(old(drained), u, d) + Total(recs, u, d)
        invariant forall u, d :: u in m && u !in todo ==> Total(drained, u, d) >= Added(old(relays), u, d)
      {
        var user :| user in todo;
        ghost var before := relays;
        recs := DrainUser(user, recs);
        forall d ensures Added(before, user, d) >= Added(old(relays), user, d) {
          AddedGrows(old(relays), before, user, d);
        }
        todo := todo - {user};
      }
      Relays();
      forall u, d ensures Total(drained, u, d) >= Added(old(relays), u, d) {
        if u !in m {
          assert old(Count(u, d)) == 0;
        }
      }
    }

    lemma NoRecords()
      ensures forall u, d :: Total([], u, d) == 0
    {
    }

    /** The body of the drain loop for one user. */
    method DrainUser(user: nat, before: seq<TrafficRecord>) returns (recs: seq<TrafficRecord>)
      requires Valid() && user in m
      requires SoleRecords(before) && forall i :: 0 <= i < |before| ==> before[i].user != user
      modifies m.Values, this`relays, this`drained
      ensures Valid() && Continues(old(relays), relays)
      ensures SoleRecords(recs)
      ensures forall i :: 0 <= i < |recs| ==> recs[i] in before || recs[i].user == user
      ensures forall u, d ::
                Total(drained, u, d) - Total(old(drained), u, d) == Total(recs, u, d) - Total(before, u, d)
      ensures forall u, d :: Total(drained, u, d) >= Total(old(drained), u, d)
      ensures forall d :: Total(drained, user, d) >= Added(old(relays), user, d)
    {
      hide Total, Valid, Count, Added;
      var up, down := SwapBoth(user);
      recs := Report(before, user, Uplink, up);
      recs := Report(recs, user, Downlink, down);
    }

    /** The two separate swaps, with relays running before and between them. */
    method SwapBoth(user: nat) returns (up: nat, down: nat)
      requires Valid() && user in m
      modifies m.Values, this`relays, this`drained
      ensures Valid() && Continues(old(relays), relays)
      ensures forall u, d :: Total(drained, u, d) ==
                             Total(old(drained), u, d) + if u != user then 0 else if d.Uplink? then up else down
      ensures forall d :: Total(drained, user, d) >= Added(old(relays), user, d)
    {
      hide Total, Valid, Count, Added;
      Relays();
      AddedGrows(old(relays), relays, user, Uplink);
      up := Swap(user, Uplink);
      Relays();
      AddedGrows(old(relays), relays, user, Downlink);
      down := Swap(user, Downlink);
      forall d ensures Total(drained, user, d) >= Added(old(relays), user, d) {
        match d case Uplink => case Downlink =>
      }
    }
  }

  predicate Untouched(mine: Option<nat>, before: seq<Relay>, after: seq<Relay>)
  {
    mine.Some? && mine.value < |before| <= |after| ==> after[mine.value] == before[mine.value]
  }

  /** A record is added only for a positive value. */
  method Report(before: seq<TrafficRecord>, user: nat, direction: Direction, n: nat) returns (recs: seq<TrafficRecord>)
    requires SoleRecords(before)
    requires forall i :: 0 <= i < |before| ==> before[i].user != user || before[i].direction != direction
    ensures SoleRecords(recs)
    ensures recs == before || (n > 0 && recs == before + [TrafficRecord(user, direction, n)])
    ensures forall u, d :: Total(recs, u, d) == Total(before, u, d) + if u == user && d == direction then n else 0
  {
    hide Total;
    recs := before;
    if n > 0 {
      TotalSnoc(recs, TrafficRecord(user, direction, n));
      recs := recs + [TrafficRecord(user, direction, n)];
    }
  }
}
