/**
 Greedy balancing: streams on workers (api/worker_grpc.go) and jobs on runners
 (dao/runner.go). Each choice raises a least loaded member by a bounded weight.
 */
module Workloads {
  import opened Basics

  predicate IsLeast(loads: seq<nat>, i: nat) {
    i < |loads| && forall j :: 0 <= j < |loads| ==> loads[i] <= loads[j]
  }

  function Total(loads: seq<nat>): nat {
    if loads == [] then 0 else Total(loads[..|loads| - 1]) + loads[|loads| - 1]
  }

  function Max(a: int, b: int): int {
    if a < b then b else a
  }

  /** One choice: a member that is least loaded, and the weight it keeps. */
  datatype Choice = Choice(member: nat, gain: nat)

  /** The loads after the choices, or `None` if some choice was not of a least
      loaded member. */
  function Run(loads: seq<nat>, choices: seq<Choice>): Option<seq<nat>> {
    if choices == [] then Some(loads)
    else
      match Run(loads, choices[..|choices| - 1])
      case None => None
      case Some(now) =>
        var c := choices[|choices| - 1];
        if IsLeast(now, c.member) then Some(now[c.member := now[c.member] + c.gain]) else None
  }

  function Gains(choices: seq<Choice>): nat {
    if choices == [] then 0 else Gains(choices[..|choices| - 1]) + choices[|choices| - 1].gain
  }

  predicate AtMost(choices: seq<Choice>, weight: nat) {
    forall k :: 0 <= k < |choices| ==> choices[k].gain <= weight
  }

  /** No two loads differ by more than `d`. */
  predicate Spread(loads: seq<nat>, d: int) {
    forall i, j :: 0 <= i < |loads| && 0 <= j < |loads| ==> loads[i] - loads[j] <= d
  }

  /** Every load is at most `top`, or at most the average plus the weight. */
  predicate TopBounded(loads: seq<nat>, top: nat, weight: nat) {
    forall i :: 0 <= i < |loads| ==>
                  loads[i] <= top || |loads| * loads[i] <= Total(loads) + |loads| * weight
  }

  lemma {:induction false} TotalOfUpdate(loads: seq<nat>, i: nat, v: nat)
    requires i < |loads|
    ensures Total(loads[i := v]) == Total(loads) - loads[i] + v
  {
    var n := |loads| - 1;
    if i == n {
      assert loads[i := v][..n] == loads[..n];
    } else {
      TotalOfUpdate(loads[..n], i, v);
      assert loads[i := v][..n] == loads[..n][i := v];
    }
  }

  lemma {:induction false} LowerBoundOfTotal(loads: seq<nat>, low: nat)
    requires forall j :: 0 <= j < |loads| ==> low <= loads[j]
    ensures |loads| * low <= Total(loads)
  {
    if loads != [] {
      LowerBoundOfTotal(loads[..|loads| - 1], low);
      assert |loads| * low == (|loads| - 1) * low + low;
    }
  }

  lemma ChoiceKeepsSpread(loads: seq<nat>, c: Choice, d: int, weight: nat)
    requires Spread(loads, d) && weight <= d && c.gain <= weight && IsLeast(loads, c.member)
    ensures Spread(loads[c.member := loads[c.member] + c.gain], d)
  {
  }

  lemma RaisedBound(n: nat, low: nat, gain: nat, weight: nat, total: nat)
    requires n * low <= total && gain <= weight
    ensures n * (low + gain) <= total + n * weight
  {
    assert n * (low + gain) == n * low + n * gain;
    MulMonotone(n, gain, weight);
  }

  lemma ChoiceKeepsTop(loads: seq<nat>, c: Choice, top: nat, weight: nat)
    requires TopBounded(loads, top, weight) && c.gain <= weight && IsLeast(loads, c.member)
    ensures TopBounded(loads[c.member := loads[c.member] + c.gain], top, weight)
  {
    var n, low := |loads|, loads[c.member];
    var after := loads[c.member := low + c.gain];
    TotalOfUpdate(loads, c.member, low + c.gain);
    LowerBoundOfTotal(loads, low);
    RaisedBound(n, low, c.gain, weight, Total(loads));
  }

  lemma MulMonotone(n: nat, a: nat, b: nat)
    requires a <= b
    ensures n * a <= n * b
  {
  }

  /** After any run of choices of weight at most `weight`: the spread is at most
      the larger of the initial spread and the weight; no load is above the larger
      of the initial top load and the average plus the weight; the total has grown
      by exactly the gains; and no load has shrunk. */
  lemma GreedyStaysBalanced(loads: seq<nat>, choices: seq<Choice>, weight: nat, spread: int, top: nat)
    requires Run(loads, choices).Some? && AtMost(choices, weight)
    requires Spread(loads, spread) && forall i :: 0 <= i < |loads| ==> loads[i] <= top
    ensures var now := Run(loads, choices).value;
            && |now| == |loads|
            && Spread(now, Max(spread, weight))
            && TopBounded(now, top, weight)
            && Total(now) == Total(loads) + Gains(choices)
            && forall i :: 0 <= i < |loads| ==> loads[i] <= now[i]
  {
    hide Run, Bounded;
    GreedyStaysBounded(loads, choices, weight, spread, top);
    BoundedSays(loads, Run(loads, choices).value, Gains(choices), weight, spread, top);
  }

  ghost predicate Bounded(loads: seq<nat>, now: seq<nat>, gains: nat, weight: nat, spread: int, top: nat) {
    && |now| == |loads|
    && Spread(now, Max(spread, weight))
    && TopBounded(now, top, weight)
    && Total(now) == Total(loads) + gains
    && forall i :: 0 <= i < |loads| ==> loads[i] <= now[i]
  }

  lemma BoundedSays(loads: seq<nat>, now: seq<nat>, gains: nat, weight: nat, spread: int, top: nat)
    requires Bounded(loads, now, gains, weight, spread, top)
    ensures |now| == |loads| && Spread(now, Max(spread, weight)) && TopBounded(now, top, weight)
    ensures Total(now) == Total(loads) + gains && forall i :: 0 <= i < |loads| ==> loads[i] <= now[i]
  {
  }

  lemma ChoiceKeepsBounds(loads: seq<nat>, now: seq<nat>, c: Choice, gains: nat, weight: nat, spread: int, top: nat)
    requires Bounded(loads, now, gains, weight, spread, top) && c.gain <= weight && IsLeast(now, c.member)
    ensures Bounded(loads, now[c.member := now[c.member] + c.gain], gains + c.gain, weight, spread, top)
  {
    hide Spread, TopBounded, Total;
    ChoiceKeepsSpread(now, c, Max(spread, weight), weight);
    ChoiceKeepsTop(now, c, top, weight);
    TotalOfUpdate(now, c.member, now[c.member] + c.gain);
  }

  lemma NothingChosenIsBounded(loads: seq<nat>, weight: nat, spread: int, top: nat)
    requires Spread(loads, spread) && forall i :: 0 <= i < |loads| ==> loads[i] <= top
    ensures Bounded(loads, loads, 0, weight, spread, top)
  {
    hide Total;
  }

  lemma {:induction false} GreedyStaysBounded(loads: seq<nat>, choices: seq<Choice>, weight: nat, spread: int, top: nat)
    requires Run(loads, choices).Some? && AtMost(choices, weight)
    requires Spread(loads, spread) && forall i :: 0 <= i < |loads| ==> loads[i] <= top
    ensures Bounded(loads, Run(loads, choices).value, Gains(choices), weight, spread, top)
    decreases |choices|
  {
    hide Bounded, Spread, IsLeast;
    if choices == [] {
      NothingChosenIsBounded(loads, weight, spread, top);
    } else {
      var n := |choices| - 1;
      GreedyStaysBounded(loads, choices[..n], weight, spread, top);
      ChoiceKeepsBounds(loads, Run(loads, choices[..n]).value, choices[n], Gains(choices[..n]), weight, spread, top);
    }
  }

  lemma RunOneMore(loads: seq<nat>, choices: seq<Choice>, c: Choice, before: seq<nat>)
    requires Run(loads, choices) == Some(before)
    ensures Run(loads, choices + [c]) == Run(before, [c])
    ensures Gains(choices + [c]) == Gains(choices) + c.gain
  {
    assert (choices + [c])[..|choices|] == choices;
    assert [c][..0] == [];
  }

  // ------------------------------------------------------------- Workers

  datatype Worker = Worker(workerID: string, workload: nat)

  function Loads(workers: seq<Worker>): seq<nat> {
    seq(|workers|, i requires 0 <= i < |workers| => workers[i].workload)
  }

  /** `getWorkerWithLeastWorkload`: the first worker with the least workload. */
  method GetWorkerWithLeastWorkload(workers: array<Worker>) returns (foundWorker: nat)
    ensures workers.Length > 0 ==> IsLeast(Loads(workers[..]), foundWorker)
    ensures forall j :: 0 <= j < foundWorker && j < workers.Length && foundWorker < workers.Length ==>
                          workers[j].workload > workers[foundWorker].workload
  {
    foundWorker := 0;
    for i := 0 to workers.Length
      invariant foundWorker < workers.Length || workers.Length == 0
      invariant foundWorker <= i
      invariant forall j :: 0 <= j < i ==> workers[foundWorker].workload <= workers[j].workload
      invariant forall j :: 0 <= j < foundWorker ==> workers[j].workload > workers[foundWorker].workload
    {
      if workers[i].workload < workers[foundWorker].workload {
        foundWorker := i;
      }
    }
  }

  /** What becomes of a request once a worker is chosen. */
  datatype Delivery = Accepted | NotSaved | DialFailed | Refused
  {
    /** The weight the worker keeps: a failed dial or request takes one off. */
    function Weight(): nat {
      if DialFailed? || Refused? then 2 else 3
    }
  }

  /** The part of `CreateStreamRequest` that assigns the stream to a worker. */
  method AssignWorker(workers: array<Worker>, delivery: Delivery) returns (workerIndex: nat)
    requires workers.Length > 0
    modifies workers
    ensures workerIndex < workers.Length
    ensures forall i :: 0 <= i < workers.Length ==> old(workers[workerIndex]).workload <= old(workers[i]).workload
    ensures workers[workerIndex].workload ==
            old(workers[workerIndex]).workload + (if delivery.DialFailed? || delivery.Refused? then 2 else 3)
    ensures forall i :: 0 <= i < workers.Length && i != workerIndex ==> workers[i] == old(workers[i])
    ensures forall i :: 0 <= i < workers.Length ==> workers[i].workerID == old(workers[i].workerID)
    ensures IsLeast(Loads(old(workers[..])), workerIndex)
    ensures Run(Loads(old(workers[..])), [Choice(workerIndex, delivery.Weight())]) == Some(Loads(workers[..]))
  {
    workerIndex := GetWorkerWithLeastWorkload(workers);
    assert forall i :: 0 <= i < workers.Length ==> Loads(workers[..])[i] == workers[i].workload;
    ghost var before := workers[..];
    var w := workers[workerIndex];
    workers[workerIndex] := w.(workload := w.workload + 3);
    if delivery == NotSaved {
      RaisedOnce(before, workers[..], workerIndex, 3);
      return;
    }
    if delivery == DialFailed {
      workers[workerIndex] := workers[workerIndex].(workload := workers[workerIndex].workload - 1);
      RaisedOnce(before, workers[..], workerIndex, 2);
      return;
    }
    if delivery == Refused {
      workers[workerIndex] := workers[workerIndex].(workload := workers[workerIndex].workload - 1);
    }
    RaisedOnce(before, workers[..], workerIndex, delivery.Weight());
  }

  lemma RaisedOnce(before: seq<Worker>, after: seq<Worker>, i: nat, gain: nat)
    requires IsLeast(Loads(before), i) && |after| == |before|
    requires after[i].workload == before[i].workload + gain
    requires forall j :: 0 <= j < |before| && j != i ==> after[j] == before[j]
    ensures Run(Loads(before), [Choice(i, gain)]) == Some(Loads(after))
  {
    var c := Choice(i, gain);
    assert [c][..0] == [];
    assert Loads(after) == Loads(before)[i := Loads(before)[i] + gain];
  }

  // ------------------------------------------------------------- Runners

  datatype Runner = Runner(draining: bool, lastSeen: int, jobCount: nat)

  /** The window of the query, in seconds. */
  const ALIVE_WINDOW := 20

  /** Runners the query selects from. */
  function Eligible(runners: map<string, Runner>, now: int): set<string> {
    set h | h in runners && !runners[h].draining && runners[h].lastSeen > now - ALIVE_WINDOW
  }

  class RunnerTable {
    var runners: map<string, Runner>

    /** `ReserveRunner`: one transaction. Ties may fall either way. */
    method ReserveRunner(now: int) returns (res: Option<string>)
      modifies this
      ensures res.None? <==> Eligible(old(runners), now) == {}
      ensures res.None? ==> runners == old(runners)
      ensures res.Some? ==> LeastLoaded(old(runners), Eligible(old(runners), now), res.value)
      ensures res.Some? ==> runners == AddJob(old(runners), res.value)
      ensures res.Some? ==>
                && res.value in old(runners)
                && !old(runners)[res.value].draining && old(runners)[res.value].lastSeen > now - 20
                && runners[res.value].jobCount == old(runners)[res.value].jobCount + 1
      ensures forall h :: h in old(runners) && !old(runners)[h].draining && old(runners)[h].lastSeen > now - 20 ==>
                            res.Some? && old(runners)[res.value].jobCount <= old(runners)[h].jobCount
    {
      var todo := Eligible(runners, now);
      assert forall h :: h in runners && !runners[h].draining && runners[h].lastSeen > now - 20 ==> h in todo;
      if todo == {} {
        return None;
      }
      var best :| best in todo;
      while todo != {}
        invariant todo <= Eligible(runners, now) && best in Eligible(runners, now)
        invariant forall h :: h in Eligible(runners, now) - todo ==> runners[best].jobCount <= runners[h].jobCount
        decreases |todo|
      {
        var h :| h in todo;
        if runners[h].jobCount < runners[best].jobCount {
          best := h;
        }
        todo := todo - {h};
      }
      res := Some(best);
      runners := runners[best := runners[best].(jobCount := runners[best].jobCount + 1)];
    }
  }

  function JobCounts(runners: map<string, Runner>, hosts: seq<string>): seq<nat>
    requires forall h :: h in hosts ==> h in runners
  {
    seq(|hosts|, i requires 0 <= i < |hosts| => runners[hosts[i]].jobCount)
  }

  function AddJob(runners: map<string, Runner>, chosen: string): map<string, Runner>
    requires chosen in runners
  {
    runners[chosen := runners[chosen].(jobCount := runners[chosen].jobCount + 1)]
  }

  ghost predicate Enumerates(hosts: seq<string>, eligible: set<string>) {
    && (forall h :: h in hosts <==> h in eligible)
    && (forall i, j :: 0 <= i < j < |hosts| ==> hosts[i] != hosts[j])
  }

  predicate LeastLoaded(runners: map<string, Runner>, eligible: set<string>, chosen: string)
    requires eligible <= runners.Keys
  {
    chosen in eligible && forall h :: h in eligible ==> runners[chosen].jobCount <= runners[h].jobCount
  }

  /** A reservation is a choice of weight 1 over the eligible runners, in any
      enumeration of them, and it leaves the eligible set as it was. */
  lemma ReservationIsAChoice(runners: map<string, Runner>, now: int, hosts: seq<string>, chosen: string)
    returns (i: nat)
    requires Enumerates(hosts, Eligible(runners, now)) && LeastLoaded(runners, Eligible(runners, now), chosen)
    ensures Eligible(AddJob(runners, chosen), now) == Eligible(runners, now)
    ensures IsLeast(JobCounts(runners, hosts), i)
    ensures JobCounts(AddJob(runners, chosen), hosts)
         == JobCounts(runners, hosts)[i := JobCounts(runners, hosts)[i] + 1]
  {
    i :| 0 <= i < |hosts| && hosts[i] == chosen;
  }

  /** One reservation, and when it is made. */
  datatype Reservation = Reservation(now: int, chosen: string)

  /** The table after some reservations, each of a runner then least loaded; `None`
      if one of them is not, or if the eligible set changes. */
  function Reserved(runners: map<string, Runner>, steps: seq<Reservation>, eligible: set<string>)
    : (r: Option<map<string, Runner>>)
    ensures r.Some? ==> r.value.Keys == runners.Keys
  {
    if steps == [] then Some(runners)
    else
      match Reserved(runners, steps[..|steps| - 1], eligible)
      case None => None
      case Some(table) =>
        var s := steps[|steps| - 1];
        if Eligible(table, s.now) == eligible && LeastLoaded(table, eligible, s.chosen)
        then Some(AddJob(table, s.chosen))
        else None
  }

  /** Reservations over a fixed eligible set are a run of choices of weight 1. */
  lemma {:induction false} ReservationsAreChoices(runners: map<string, Runner>, steps: seq<Reservation>,
                                                  eligible: set<string>, hosts: seq<string>)
    returns (choices: seq<Choice>)
    requires eligible <= runners.Keys && Enumerates(hosts, eligible) && Reserved(runners, steps, eligible).Some?
    ensures Run(JobCounts(runners, hosts), choices) == Some(JobCounts(Reserved(runners, steps, eligible).value, hosts))
    ensures AtMost(choices, 1) && Gains(choices) == |steps|
    ensures forall h :: h in runners && h !in eligible ==> Reserved(runners, steps, eligible).value[h] == runners[h]
    decreases |steps|
  {
    hide Eligible, LeastLoaded, IsLeast;
    if steps == [] {
      choices := [];
    } else {
      var n := |steps| - 1;
      var before := ReservationsAreChoices(runners, steps[..n], eligible, hosts);
      var table := Reserved(runners, steps[..n], eligible).value;
      var i := ReservationIsAChoice(table, steps[n].now, hosts, steps[n].chosen);
      assert steps[n].chosen in eligible by { LeastIsEligible(table, eligible, steps[n].chosen); }
      choices := before + [Choice(i, 1)];
      assert choices[..|before|] == before;
    }
  }

  lemma LeastIsEligible(runners: map<string, Runner>, eligible: set<string>, chosen: string)
    requires eligible <= runners.Keys && LeastLoaded(runners, eligible, chosen)
    ensures chosen in eligible
  {
  }

  /** Main result for runners: after any number of reservations over a fixed
      eligible set, job counts differ by at most the larger of the initial spread
      and 1; none is above the larger of the initial top and the average plus 1;
      the total has grown by their number; and no other runner has changed. */
  lemma ReservationsStayBalanced(runners: map<string, Runner>, steps: seq<Reservation>, eligible: set<string>,
                                 hosts: seq<string>, spread: int, top: nat)
    requires eligible <= runners.Keys && Enumerates(hosts, eligible) && Reserved(runners, steps, eligible).Some?
    requires forall g, h :: g in eligible && h in eligible ==> runners[g].jobCount - runners[h].jobCount <= spread
    requires forall h :: h in eligible ==> runners[h].jobCount <= top
    ensures var after := Reserved(runners, steps, eligible).value;
            var total := Total(JobCounts(after, hosts));
            && (forall g, h :: g in eligible && h in eligible ==>
                  after[g].jobCount - after[h].jobCount <= Max(spread, 1))
            && (forall h :: h in eligible ==>
                  after[h].jobCount <= top || |hosts| * after[h].jobCount <= total + |hosts|)
            && total == Total(JobCounts(runners, hosts)) + |steps|
            && (forall h :: h in runners && h !in eligible ==> after[h] == runners[h])
  {
    hide Run, Total, AtMost, Reserved, Spread, TopBounded;
    var choices := ReservationsAreChoices(runners, steps, eligible, hosts);
    var before, after := JobCounts(runners, hosts), JobCounts(Reserved(runners, steps, eligible).value, hosts);
    assert Spread(before, spread) by { SpreadOfHosts(runners, hosts, spread); }
    GreedyStaysBalanced(before, choices, 1, spread, top);
    HostsOfSpread(Reserved(runners, steps, eligible).value, hosts, Max(spread, 1), top);
  }

  lemma SpreadOfHosts(runners: map<string, Runner>, hosts: seq<string>, d: int)
    requires forall h :: h in hosts ==> h in runners
    requires forall g, h :: g in hosts && h in hosts ==> runners[g].jobCount - runners[h].jobCount <= d
    ensures Spread(JobCounts(runners, hosts), d)
  {
    forall i, j | 0 <= i < |hosts| && 0 <= j < |hosts|
      ensures JobCounts(runners, hosts)[i] - JobCounts(runners, hosts)[j] <= d
    {
      assert hosts[i] in hosts && hosts[j] in hosts;
    }
  }

  lemma HostsOfSpread(runners: map<string, Runner>, hosts: seq<string>, d: int, top: nat)
    requires forall h :: h in hosts ==> h in runners
    requires Spread(JobCounts(runners, hosts), d) && TopBounded(JobCounts(runners, hosts), top, 1)
    ensures forall g, h :: g in hosts && h in hosts ==> runners[g].jobCount - runners[h].jobCount <= d
    ensures forall h :: h in hosts ==>
                          runners[h].jobCount <= top
                          || |hosts| * runners[h].jobCount <= Total(JobCounts(runners, hosts)) + |hosts|
  {
    hide Total;
    var counts := JobCounts(runners, hosts);
    forall g, h | g in hosts && h in hosts ensures runners[g].jobCount - runners[h].jobCount <= d {
      var i :| 0 <= i < |hosts| && hosts[i] == g;
      var j :| 0 <= j < |hosts| && hosts[j] == h;
      assert counts[i] - counts[j] <= d;
    }
    forall h | h in hosts
      ensures runners[h].jobCount <= top || |hosts| * runners[h].jobCount <= Total(counts) + |hosts|
    {
      var i :| 0 <= i < |hosts| && hosts[i] == h;
      assert counts[i] <= top || |hosts| * counts[i] <= Total(counts) + |hosts| * 1;
    }
  }
}
