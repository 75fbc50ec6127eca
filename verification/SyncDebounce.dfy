/** The debounced configuration sync: many callers, one run, and every caller answered once. */
module SyncDebounce {
  import opened Collections
  import opened Wrappers

  const DELAY: int := 3000
  const CONCURRENCY: nat := 5

  /** Where a caller's promise is: waiting for the timer, carried by a run, or settled by one. */
  datatype Place = Waiting | InRun(run: nat) | SettledBy(run: nat)

  datatype Settlement = Settlement(caller: nat, run: nat, resolved: bool)

  /** What happened to each caller and when: event numbers of the calls and of the run starts. */
  datatype Ledger = Ledger(place: map<nat, Place>, calledAt: map<nat, nat>, startedAt: map<nat, nat>, events: nat)

  /** Every caller is in exactly one place, listed there once; a caller is served only by a run that started later. */
  ghost predicate DebounceOk(waiting: seq<nat>, runs: map<nat, seq<nat>>, log: seq<Settlement>, g: Ledger)
  {
    PlacesOk(waiting, runs, g.place) && LogOk(log, g.place) && TimesOk(runs, g)
  }

  ghost predicate PlacesOk(waiting: seq<nat>, runs: map<nat, seq<nat>>, place: map<nat, Place>)
  {
    && Distinct(waiting) && (forall c :: c in waiting <==> c in place && place[c].Waiting?)
    && (forall r :: r in runs ==> Distinct(runs[r]))
    && (forall c, r :: r in runs && c in runs[r] <==> c in place && place[c] == InRun(r))
  }

  ghost predicate LogOk(log: seq<Settlement>, place: map<nat, Place>)
  {
    && (forall i, j :: 0 <= i < j < |log| ==> log[i].caller != log[j].caller)
    && (forall i :: 0 <= i < |log| ==> log[i].caller in place && place[log[i].caller] == SettledBy(log[i].run))
    && (forall c :: c in place && place[c].SettledBy? ==> exists i :: 0 <= i < |log| && log[i].caller == c)
  }

  ghost predicate TimesOk(runs: map<nat, seq<nat>>, g: Ledger)
  {
    && (forall c :: c in g.place ==> InTime(g, c))
    && (forall r :: r in g.startedAt ==> g.startedAt[r] < g.events)
    && (forall r :: r in runs ==> r in g.startedAt)
  }

  predicate InTime(g: Ledger, c: nat)
    requires c in g.place
  {
    && c in g.calledAt && g.calledAt[c] < g.events
    && (!g.place[c].Waiting? ==> g.place[c].run in g.startedAt && g.calledAt[c] < g.startedAt[g.place[c].run])
  }

  function Called(g: Ledger, c: nat): Ledger
  {
    g.(place := g.place[c := Waiting], calledAt := g.calledAt[c := g.events], events := g.events + 1)
  }

  function Started(g: Ledger, waiting: seq<nat>, run: nat): Ledger
  {
    g.(place := map c | c in g.place :: if c in waiting then InRun(run) else g.place[c],
       startedAt := g.startedAt[run := g.events], events := g.events + 1)
  }

  function Finished(g: Ledger, callers: seq<nat>, run: nat): Ledger
  {
    g.(place := map c | c in g.place :: if c in callers then SettledBy(run) else g.place[c])
  }

  function Answers(callers: seq<nat>, run: nat, resolved: bool): (log: seq<Settlement>)
    ensures |log| == |callers|
    ensures forall i :: 0 <= i < |callers| ==> log[i] == Settlement(callers[i], run, resolved)
  {
    seq(|callers|, i requires 0 <= i < |callers| => Settlement(callers[i], run, resolved))
  }

  lemma CallOk(waiting: seq<nat>, runs: map<nat, seq<nat>>, log: seq<Settlement>, g: Ledger, c: nat)
    requires DebounceOk(waiting, runs, log, g) && c !in g.place
    ensures DebounceOk(waiting + [c], runs, log, Called(g, c))
  {
    var g' := Called(g, c);
    forall d | d in g'.place ensures InTime(g', d) {
      if d != c { assert InTime(g, d); }
    }
  }

  lemma StartOk(waiting: seq<nat>, runs: map<nat, seq<nat>>, log: seq<Settlement>, g: Ledger, run: nat)
    requires DebounceOk(waiting, runs, log, g) && run !in g.startedAt
    ensures DebounceOk([], runs[run := waiting], log, Started(g, waiting, run))
  {
    var g' := Started(g, waiting, run);
    forall c | c in g.place ensures g.place[c] != InRun(run) { assert InTime(g, c); }
    forall d | d in g'.place ensures InTime(g', d) { assert InTime(g, d); }
  }

  lemma FinishOk(waiting: seq<nat>, runs: map<nat, seq<nat>>, log: seq<Settlement>, g: Ledger, run: nat, resolved: bool)
    requires DebounceOk(waiting, runs, log, g) && run in runs
    ensures DebounceOk(waiting, runs - {run}, log + Answers(runs[run], run, resolved), Finished(g, runs[run], run))
  {
    hide LogOk;
    var g' := Finished(g, runs[run], run);
    forall d | d in g'.place ensures InTime(g', d) { assert InTime(g, d); }
    LogFinish(log, g, runs[run], run, resolved);
  }

  lemma LogFinish(log: seq<Settlement>, g: Ledger, callers: seq<nat>, run: nat, resolved: bool)
    requires LogOk(log, g.place) && Distinct(callers)
    requires forall c :: c in callers ==> c in g.place && g.place[c] == InRun(run)
    ensures LogOk(log + Answers(callers, run, resolved), Finished(g, callers, run).place)
  {
    var g', log' := Finished(g, callers, run), log + Answers(callers, run, resolved);
    forall i | 0 <= i < |log'|
      ensures log'[i] == if i < |log| then log[i] else Settlement(callers[i - |log|], run, resolved)
    {
    }
    forall c | c in g'.place && g'.place[c].SettledBy? ensures exists i :: 0 <= i < |log'| && log'[i].caller == c {
      if c in callers {
        var i :| 0 <= i < |callers| && callers[i] == c;
        assert log'[|log| + i].caller == c;
      } else {
        var i :| 0 <= i < |log| && log[i].caller == c;
        assert log'[i].caller == c;
      }
    }
  }

  /** When nothing waits and nothing runs, every caller has been settled exactly once, by a run that started after its
      call. */
  lemma AllSettled(log: seq<Settlement>, g: Ledger, c: nat) returns (i: nat)
    requires DebounceOk([], map[], log, g) && c in g.place
    ensures i < |log| && log[i].caller == c
    ensures forall j :: 0 <= j < |log| && log[j].caller == c ==> j == i
    ensures log[i].run in g.startedAt && c in g.calledAt && g.calledAt[c] < g.startedAt[log[i].run]
  {
    assert InTime(g, c);
    i :| 0 <= i < |log| && log[i].caller == c;
  }

  class Debouncer {
    var timer: Option<int>
    var waiting: seq<nat>
    /** Runs in flight, each with the callers it took over. */
    var runs: map<nat, seq<nat>>
    ghost var log: seq<Settlement>
    ghost var g: Ledger

    constructor ()
      ensures Valid() && timer == None && waiting == [] && runs == map[] && log == []
      ensures g == Ledger(map[], map[], map[], 0)
    {
      timer, waiting, runs, log := None, [], map[], [];
      g := Ledger(map[], map[], map[], 0);
    }

    /** The timer is armed exactly when callers are waiting. */
    ghost predicate Valid()
      reads this
    {
      DebounceOk(waiting, runs, log, g) && (timer.Some? <==> waiting != [])
    }

    /** A call joins the waiting callers and restarts the delay. */
    method Sync(caller: nat, now: int)
      requires Valid() && caller !in g.place
      modifies this`waiting, this`timer, this`g
      ensures Valid() && waiting == old(waiting) + [caller] && timer == Some(now + 3000) && g == Called(old(g), caller)
    {
      hide DebounceOk;
      CallOk(waiting, runs, log, g, caller);
      g := Called(g, caller);
      waiting := waiting + [caller];
      timer := Some(now + DELAY);
    }

    /** The timer fires: the waiting callers go to a new run, and later calls wait for the next one. */
    method Fire(run: nat, now: int)
      requires Valid() && timer.Some? && now >= timer.value && run !in g.startedAt
      modifies this`waiting, this`timer, this`runs, this`g
      ensures Valid() && waiting == [] && timer == None
      ensures runs == old(runs)[run := old(waiting)] && g == Started(old(g), old(waiting), run)
    {
      hide DebounceOk;
      StartOk(waiting, runs, log, g, run);
      g := Started(g, waiting, run);
      timer := None;
      var resolvers := waiting;
      waiting := [];
      runs := runs[run := resolvers];
    }

    /** A run ends, well or badly, and answers each of its callers. */
    method Finish(run: nat, resolved: bool)
      requires Valid() && run in runs
      modifies this`runs, this`log, this`g
      ensures Valid() && runs == old(runs) - {run} && g == Finished(old(g), old(runs)[run], run)
      ensures log == old(log) + Answers(old(runs)[run], run, resolved)
      ensures |log| == |old(log)| + |old(runs)[run]|
      ensures forall i :: 0 <= i < |old(runs)[run]| ==>
                log[|old(log)| + i] == Settlement(old(runs)[run][i], run, resolved)
    {
      hide DebounceOk, Finished, Answers;
      FinishOk(waiting, runs, log, g, run, resolved);
      g := Finished(g, runs[run], run);
      log := log + Answers(runs[run], run, resolved);
      runs := runs - {run};
    }
  }

  // ----- What a run does -----

  function Flatten(batches: seq<seq<nat>>): seq<nat>
  {
    if batches == [] then [] else Flatten(batches[..|batches| - 1]) + batches[|batches| - 1]
  }

  function Successes(results: seq<bool>): nat
  {
    if results == [] then 0 else Successes(results[..|results| - 1]) + if results[|results| - 1] then 1 else 0
  }

  lemma {:induction false} SuccessesIs(results: seq<bool>)
    ensures Successes(results) == |set i | 0 <= i < |results| && results[i]|
  {
    var good := set i | 0 <= i < |results| && results[i];
    if results == [] {
      assert good == {};
    } else {
      var n := |results| - 1;
      SuccessesIs(results[..n]);
      var before := set i | 0 <= i < n && results[..n][i];
      assert good == before + if results[n] then {n} else {};
    }
  }

  /** Every node is synced exactly once, in order, at most five at a time, and success and failure counts add up; the
      result of a node whose sync throws is false. */
  method SyncAllNodes(nodes: seq<nat>, results: seq<bool>) returns (batches: seq<seq<nat>>, success: nat, failed: nat)
    requires |results| == |nodes|
    ensures Flatten(batches) == nodes
    ensures forall b :: 0 <= b < |batches| ==> 1 <= |batches[b]| <= 5
    ensures forall b :: 0 <= b < |batches| - 1 ==> |batches[b]| == 5
    ensures success == |set i | 0 <= i < |results| && results[i]| && success + failed == |nodes|
  {
    batches, success, failed := [], 0, 0;
    var i := 0;
    while i < |nodes|
      invariant i <= |nodes| && Flatten(batches) == nodes[..i]
      invariant i < |nodes| ==> i == CONCURRENCY * |batches|
      invariant forall b :: 0 <= b < |batches| ==> 1 <= |batches[b]| <= CONCURRENCY
      invariant forall b :: 0 <= b < |batches| - 1 ==> |batches[b]| == CONCURRENCY
      invariant i < |nodes| ==> forall b :: 0 <= b < |batches| ==> |batches[b]| == CONCURRENCY
      invariant success == Successes(results[..i]) && success + failed == i
    {
      var end := if i + CONCURRENCY <= |nodes| then i + CONCURRENCY else |nodes|;
      assert nodes[..i] + nodes[i..end] == nodes[..end];
      assert (batches + [nodes[i..end]])[..|batches|] == batches;
      batches := batches + [nodes[i..end]];
      for j := i to end
        invariant success == Successes(results[..j]) && success + failed == j
      {
        assert results[..j + 1][..j] == results[..j];
        if results[j] { success := success + 1; } else { failed := failed + 1; }
      }
      i := end;
    }
    assert nodes[..i] == nodes && results[..i] == results;
    SuccessesIs(results);
  }
}
