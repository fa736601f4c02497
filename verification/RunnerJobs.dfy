/**
 The job protocol of the runner (runner/runner.go, runner/handlers.go): any
 number of concurrent jobs, the counter channel, the job table, the retry loops
 and cancellation. Each channel operation and each table write is one step.
 */
module RunnerJobs {
  import opened Basics

  /** How one attempt of an action ends. */
  datatype Outcome = Success | Retryable | Aborting

  datatype Attempt = Attempt(action: nat, outcome: Outcome)

  /** Where a job stands: before its +1 is received, before it enters the table,
      in its actions, after its actions, out of the table, after its -1. */
  datatype Stage = Created | Announced | Working | Ended | Removed | Done
  {
    predicate InTable() { Working? || Ended? }
    predicate Counted() { Announced? || Working? || Ended? || Removed? }
    predicate Finished() { Ended? || Removed? || Done? }
  }

  datatype Job = Job(stage: Stage, actions: nat, next: nat, log: seq<Attempt>, cancelled: bool)

  /** `table` holds the keys of `r.jobs`; `total` is the sum of the values
      received on `JobCount`. */
  datatype State = State(jobs: map<string, Job>, table: set<string>, total: int)

  const INITIAL := State(map[], {}, 0)

  datatype Step =
    | Create(id: string, actions: nat)      // a fresh id in RunAction
    | Announce(id: string)                  // JobCount <- 1
    | Register(id: string)                  // r.jobs[job] = cancel
    | Try(id: string, outcome: Outcome)     // one pass of the retry loop
    | End(id: string)                       // the loops are over; deferred cancel()
    | Remove(id: string)                    // delete(r.jobs, job)
    | Withdraw(id: string)                  // JobCount <- -1
    | Cancel(id: string)                    // RequestStreamEnd, or Cleanup on one entry

  predicate AtStage(s: State, id: string, stage: Stage) {
    id in s.jobs && s.jobs[id].stage == stage
  }

  function Put(s: State, id: string, job: Job): State {
    s.(jobs := s.jobs[id := job])
  }

  /** One step, or `None` where it cannot be taken. */
  function Next(s: State, step: Step): Option<State> {
    match step
    case Create(id, n) =>
      if id in s.jobs then None else Some(Put(s, id, Job(Created, n, 0, [], false)))
    case Announce(id) =>
      if !AtStage(s, id, Created) then None
      else Some(Put(s, id, s.jobs[id].(stage := Announced)).(total := s.total + 1))
    case Register(id) =>
      if !AtStage(s, id, Announced) then None
      else Some(Put(s, id, s.jobs[id].(stage := Working)).(table := s.table + {id}))
    case Try(id, outcome) =>
      if !AtStage(s, id, Working) || s.jobs[id].next == s.jobs[id].actions then None
      else
        var j := s.jobs[id];
        Some(Put(s, id, j.(log := j.log + [Attempt(j.next, outcome)],
                           next := if outcome == Retryable then j.next else j.next + 1)))
    case End(id) =>
      if !AtStage(s, id, Working) || s.jobs[id].next != s.jobs[id].actions then None
      else Some(Put(s, id, s.jobs[id].(stage := Ended, cancelled := true)))
    case Remove(id) =>
      if !AtStage(s, id, Ended) then None
      else Some(Put(s, id, s.jobs[id].(stage := Removed)).(table := s.table - {id}))
    case Withdraw(id) =>
      if !AtStage(s, id, Removed) then None
      else Some(Put(s, id, s.jobs[id].(stage := Done)).(total := s.total - 1))
    case Cancel(id) =>
      if id !in s.table || id !in s.jobs then None
      else Some(Put(s, id, s.jobs[id].(cancelled := true)))
  }

  /** An interleaving of any jobs and callers. */
  function Run(s: State, steps: seq<Step>): Option<State> {
    if steps == [] then Some(s)
    else
      match Run(s, steps[..|steps| - 1])
      case None => None
      case Some(s') => Next(s', steps[|steps| - 1])
  }

  predicate Reachable(s: State, steps: seq<Step>) {
    Run(INITIAL, steps) == Some(s)
  }

  // ------------------------------------------------------------- Counting

  function CountedJobs(s: State): set<string> {
    set id | id in s.jobs && s.jobs[id].stage.Counted()
  }

  /** Jobs between their two start steps or their two end steps. */
  function JobsInBetween(s: State): set<string> {
    set id | id in s.jobs && (s.jobs[id].stage.Announced? || s.jobs[id].stage.Removed?)
  }

  ghost predicate Tallied(s: State) {
    && (forall id :: id in s.table <==> id in s.jobs && s.jobs[id].stage.InTable())
    && s.total == |CountedJobs(s)|
  }

  /** What a step does to the table, the sum and the counted jobs. */
  lemma StepEffect(s: State, step: Step)
    requires Next(s, step).Some?
    ensures var s' := Next(s, step).value;
            var id := step.id;
            && id in s'.jobs
            && (forall other :: other != id ==> (other in s'.jobs <==> other in s.jobs))
            && (forall other :: other != id && other in s.jobs ==> s'.jobs[other] == s.jobs[other])
            && (step.Announce? ==> s'.total == s.total + 1)
            && (step.Withdraw? ==> s'.total == s.total - 1)
            && (!step.Announce? && !step.Withdraw? ==> s'.total == s.total)
            && (step.Create? <==> id !in s.jobs)
            && (step.Register? ==> s'.table == s.table + {id})
            && (step.Remove? ==> s'.table == s.table - {id})
            && (!step.Register? && !step.Remove? ==> s'.table == s.table)
  {
  }

  lemma StepKeepsTally(s: State, step: Step)
    requires Tallied(s) && Next(s, step).Some?
    ensures Tallied(Next(s, step).value)
  {
    var s' := Next(s, step).value;
    var id := step.id;
    StepEffect(s, step);
    var before := id in s.jobs && s.jobs[id].stage.Counted();
    var after := s'.jobs[id].stage.Counted();
    assert step.Announce? <==> !before && after;
    assert step.Withdraw? <==> before && !after;
    StepCounts(s, s', id);
  }

  lemma StepCounts(s: State, s': State, id: string)
    requires id in s'.jobs
    requires forall other :: other != id ==> (other in s'.jobs <==> other in s.jobs)
    requires forall other :: other != id && other in s.jobs ==> s'.jobs[other] == s.jobs[other]
    ensures |CountedJobs(s')| == |CountedJobs(s)|
                                 + (if s'.jobs[id].stage.Counted() then 1 else 0)
                                 - (if id in s.jobs && s.jobs[id].stage.Counted() then 1 else 0)
  {
    var a, b := CountedJobs(s), CountedJobs(s');
    forall other | other != id ensures other in b <==> other in a {
    }
    CountOneApart(a, b, id);
  }

  lemma CountOneApart(a: set<string>, b: set<string>, id: string)
    requires forall other :: other != id ==> (other in b <==> other in a)
    ensures |b| == |a| + (if id in b then 1 else 0) - (if id in a then 1 else 0)
  {
    var rest := a - {id};
    assert b - {id} == rest;
    assert a == if id in a then rest + {id} else rest;
    assert b == if id in b then rest + {id} else rest;
  }

  lemma {:induction false} RunKeepsTally(s: State, steps: seq<Step>)
    requires Reachable(s, steps)
    ensures Tallied(s)
    decreases |steps|
  {
    if steps == [] {
      assert CountedJobs(s) == {};
    } else {
      var before := Run(INITIAL, steps[..|steps| - 1]).value;
      RunKeepsTally(before, steps[..|steps| - 1]);
      StepKeepsTally(before, steps[|steps| - 1]);
    }
  }

  /** In every interleaving the received sum exceeds the job table by exactly the
      jobs in between; so it never undercounts the table, and it is zero exactly
      when no job has been announced without having withdrawn. */
  lemma CounterTracksTable(s: State, steps: seq<Step>)
    requires Reachable(s, steps)
    ensures s.total - |s.table| == |JobsInBetween(s)|
    ensures s.total >= |s.table| >= 0
    ensures s.total == 0 <==> forall id :: id in s.jobs ==> s.jobs[id].stage.Created? || s.jobs[id].stage.Done?
    ensures s.total == 0 ==> s.table == {}
  {
    RunKeepsTally(s, steps);
    assert CountedJobs(s) == s.table + JobsInBetween(s);
    assert s.table !! JobsInBetween(s);
    if s.total == 0 {
      assert forall id :: id in s.jobs && s.jobs[id].stage.Counted() ==> id in CountedJobs(s);
      assert CountedJobs(s) == {};
    } else {
      var id :| id in CountedJobs(s);
    }
  }

  // ------------------------------------------------------------- Attempts

  /** Attempts that leave the retry loop, by success or by an aborting error. */
  function Closed(log: seq<Attempt>): (n: nat)
    ensures n <= |log|
  {
    if log == [] then 0
    else Closed(log[..|log| - 1]) + if log[|log| - 1].outcome == Retryable then 0 else 1
  }

  function Retries(log: seq<Attempt>): nat {
    if log == [] then 0
    else Retries(log[..|log| - 1]) + if log[|log| - 1].outcome == Retryable then 1 else 0
  }

  /** The log is, action after action, a run of retryable errors closed by one
      success or aborting error: every attempt is of the action whose number is
      the number of closed actions before it. */
  ghost predicate InOrder(log: seq<Attempt>) {
    forall k :: 0 <= k < |log| ==> log[k].action == Closed(log[..k])
  }

  ghost predicate Orderly(j: Job) {
    && InOrder(j.log)
    && j.next == Closed(j.log) <= j.actions
    && (j.stage.Created? || j.stage.Announced? ==> j.log == [])
    && (j.stage.Finished() ==> j.next == j.actions && j.cancelled)
  }

  lemma TryKeepsOrder(j: Job, outcome: Outcome)
    requires Orderly(j) && j.stage.Working? && j.next < j.actions
    ensures Orderly(j.(log := j.log + [Attempt(j.next, outcome)],
                       next := if outcome == Retryable then j.next else j.next + 1))
  {
    var log' := j.log + [Attempt(j.next, outcome)];
    assert log'[..|j.log|] == j.log;
    assert forall k :: 0 <= k < |j.log| ==> log'[..k] == j.log[..k];
  }

  lemma StepKeepsOrder(s: State, step: Step)
    requires (forall id :: id in s.jobs ==> Orderly(s.jobs[id])) && Next(s, step).Some?
    ensures forall id :: id in Next(s, step).value.jobs ==> Orderly(Next(s, step).value.jobs[id])
  {
    hide Next, Orderly;
    StepEffect(s, step);
    StepKeepsOneJob(s, step);
  }

  lemma StepKeepsOneJob(s: State, step: Step)
    requires step.id in s.jobs ==> Orderly(s.jobs[step.id])
    requires Next(s, step).Some?
    ensures step.id in Next(s, step).value.jobs && Orderly(Next(s, step).value.jobs[step.id])
  {
    if step.Try? {
      TryKeepsOrder(s.jobs[step.id], step.outcome);
    }
  }

  lemma {:induction false} RunKeepsOrder(s: State, steps: seq<Step>)
    requires Reachable(s, steps)
    ensures forall id :: id in s.jobs ==> Orderly(s.jobs[id])
    decreases |steps|
  {
    if steps != [] {
      var before := Run(INITIAL, steps[..|steps| - 1]).value;
      RunKeepsOrder(before, steps[..|steps| - 1]);
      StepKeepsOrder(before, steps[|steps| - 1]);
    }
  }

  /** Action `i` was attempted and left its retry loop. */
  ghost predicate ClosedIn(log: seq<Attempt>, i: nat) {
    exists k :: 0 <= k < |log| && log[k].action == i && log[k].outcome != Retryable
  }

  lemma {:induction false} ClosedActionIsInLog(log: seq<Attempt>, i: nat)
    requires InOrder(log) && i < Closed(log)
    ensures ClosedIn(log, i)
  {
    var last := |log| - 1;
    var shorter := log[..last];
    assert forall k :: 0 <= k < last ==> shorter[..k] == log[..k];
    if i < Closed(shorter) {
      ClosedActionIsInLog(shorter, i);
      var k :| 0 <= k < |shorter| && shorter[k].action == i && shorter[k].outcome != Retryable;
      assert log[k] == shorter[k];
    } else {
      assert log[last].action == i;
    }
  }

  lemma {:induction false} ClosedAndRetriesAdd(log: seq<Attempt>)
    ensures |log| == Closed(log) + Retries(log)
  {
    if log != [] {
      ClosedAndRetriesAdd(log[..|log| - 1]);
    }
  }

  lemma {:induction false} ClosedIsMonotone(log: seq<Attempt>, k: nat)
    requires k <= |log|
    ensures Closed(log[..k]) <= Closed(log)
    decreases |log| - k
  {
    if k < |log| {
      ClosedIsMonotone(log, k + 1);
      assert log[..k + 1][..k] == log[..k];
    } else {
      assert log[..k] == log;
    }
  }

  /** In every interleaving, with any cancellations, each job's attempts are in
      order; a job that left its loops has closed every one of its actions in
      order, whatever aborting errors occurred; and it took exactly one attempt
      for each action and one for each retryable error. */
  lemma EveryActionIsAttempted(s: State, steps: seq<Step>, id: string)
    requires Reachable(s, steps) && id in s.jobs
    ensures InOrder(s.jobs[id].log)
    ensures s.jobs[id].stage.Finished() ==>
              forall i :: 0 <= i < s.jobs[id].actions ==> ClosedIn(s.jobs[id].log, i)
    ensures s.jobs[id].stage.Finished() ==> |s.jobs[id].log| == s.jobs[id].actions + Retries(s.jobs[id].log)
    ensures |s.jobs[id].log| <= s.jobs[id].actions + Retries(s.jobs[id].log)
  {
    RunKeepsOrder(s, steps);
    var j := s.jobs[id];
    ClosedAndRetriesAdd(j.log);
    if j.stage.Finished() {
      forall i | 0 <= i < j.actions ensures ClosedIn(j.log, i) {
        ClosedActionIsInLog(j.log, i);
      }
    }
  }

  /** A job has the actions it was created with, whatever happens in between. */
  lemma {:induction false} ActionsAsGiven(s: State, steps: seq<Step>, id: string, n: nat)
    requires Reachable(s, steps) && Create(id, n) in steps
    ensures id in s.jobs && s.jobs[id].actions == n
    decreases |steps|
  {
    hide Next;
    var m := |steps| - 1;
    var before := Run(INITIAL, steps[..m]).value;
    ActionsStay(before, steps[m]);
    assert steps == steps[..m] + [steps[m]];
    if Create(id, n) in steps[..m] {
      ActionsAsGiven(before, steps[..m], id, n);
    }
  }

  lemma ActionsStay(s: State, step: Step)
    requires Next(s, step).Some?
    ensures var s' := Next(s, step).value;
            && (forall id :: id in s.jobs ==> id in s'.jobs && s'.jobs[id].actions == s.jobs[id].actions)
            && (step.Create? ==> step.id in s'.jobs && s'.jobs[step.id].actions == step.actions)
  {
  }

  /** Main result: in every interleaving, with any cancellations and aborting errors,
      a job that left its loops has attempted and closed each of the actions given,
      in order, with one attempt for each and one for each retryable error; and its
      context is released. */
  lemma GivenActionsAreAttempted(s: State, steps: seq<Step>, id: string, n: nat)
    requires Reachable(s, steps) && Create(id, n) in steps
    ensures id in s.jobs
    ensures s.jobs[id].stage.Finished() ==>
              && (forall i :: 0 <= i < n ==> ClosedIn(s.jobs[id].log, i))
              && |s.jobs[id].log| == n + Retries(s.jobs[id].log)
              && s.jobs[id].cancelled
  {
    ActionsAsGiven(s, steps, id, n);
    EveryActionIsAttempted(s, steps, id);
    RunKeepsOrder(s, steps);
  }

  /** A job leaves the table only by its own removal, after its last action is closed. */
  lemma TableUntilLastAttempt(s: State, steps: seq<Step>, step: Step, id: string)
    requires Reachable(s, steps) && id in s.table
    requires Next(s, step).Some? && id !in Next(s, step).value.table
    ensures step == Remove(id) && Closed(s.jobs[id].log) == s.jobs[id].actions
  {
    RunKeepsOrder(s, steps);
    RunKeepsTally(s, steps);
  }

  /** The steps of a job itself, in contrast to those of callers. */
  predicate Own(step: Step) {
    !step.Create? && !step.Cancel?
  }

  /** Until a job is done, some step of its own can be taken, cancelled or not. */
  lemma JobCanGoOn(s: State, steps: seq<Step>, id: string)
    requires Reachable(s, steps) && id in s.jobs && !s.jobs[id].stage.Done?
    ensures exists step :: Own(step) && step.id == id && Next(s, step).Some?
  {
    hide Next;
    RunKeepsOrder(s, steps);
    var step := OwnStep(s, id);
  }

  lemma OwnStep(s: State, id: string) returns (step: Step)
    requires id in s.jobs && !s.jobs[id].stage.Done? && Orderly(s.jobs[id])
    ensures Own(step) && step.id == id && Next(s, step).Some?
  {
    step := match s.jobs[id].stage
      case Created => Announce(id)
      case Announced => Register(id)
      case Working => if s.jobs[id].next < s.jobs[id].actions then Try(id, Success) else End(id)
      case Ended => Remove(id)
      case _ => Withdraw(id);
  }

  /** Whatever the outcome, a working job goes on until its last action: only a
      retryable error repeats an action, and an aborting error moves on to the
      next one exactly as a success does. */
  lemma AbortingMovesOn(s: State, id: string, outcome: Outcome)
    requires AtStage(s, id, Working) && s.jobs[id].next < s.jobs[id].actions
    ensures Next(s, Try(id, outcome)).Some? && Next(s, End(id)).None?
    ensures var after := Next(s, Try(id, outcome)).value;
            && (outcome == Retryable ==> after.jobs[id].next == s.jobs[id].next)
            && (outcome != Retryable && s.jobs[id].next + 1 < s.jobs[id].actions ==>
                  && Next(after, End(id)).None?
                  && forall o :: Next(after, Try(id, o)).Some? &&
                                 Next(after, Try(id, o)).value.jobs[id].log ==
                                 s.jobs[id].log + [Attempt(s.jobs[id].next, outcome)]
                                 + [Attempt(s.jobs[id].next + 1, o)])
  {
  }

  // ----------------------------------------------------- The runner itself

  /** The runner's fields, and its code between two interleaving points. */
  class Runner {
    var jobs: map<string, Job>
    var table: set<string>
    var total: int

    function View(): State
      reads this
    {
      State(jobs, table, total)
    }

    constructor ()
      ensures View() == INITIAL
    {
      jobs, table, total := map[], {}, 0;
    }

    /** `RunAction` up to the start of the goroutine. */
    method RunAction(id: string, actions: nat)
      requires id !in jobs
      modifies this
      ensures Run(old(View()), [Create(id, actions), Announce(id), Register(id)]) == Some(View())
      ensures AtStage(View(), id, Working) && jobs[id].actions == actions && jobs[id].log == [] && !jobs[id].cancelled
      ensures table == old(table) + {id} && total == old(total) + 1
    {
      hide Run;
      ghost var s0 := View();
      jobs := jobs[id := Job(Created, actions, 0, [], false)];
      ghost var s1 := View();
      total := total + 1;
      jobs := jobs[id := jobs[id].(stage := Announced)];
      ghost var s2 := View();
      table := table + {id};
      jobs := jobs[id := jobs[id].(stage := Working)];
      assert [] + [Create(id, actions)] == [Create(id, actions)];
      assert [Create(id, actions)] + [Announce(id)] == [Create(id, actions), Announce(id)];
      NoSteps(s0);
      RunOne(s0, [], Create(id, actions), s0, s1);
      RunOne(s0, [Create(id, actions)], Announce(id), s1, s2);
      RunOne(s0, [Create(id, actions), Announce(id)], Register(id), s2, View());
      assert [Create(id, actions), Announce(id)] + [Register(id)]
          == [Create(id, actions), Announce(id), Register(id)];
    }

    /** The goroutine of one job on its own: its nested loops over the outcomes of
        the attempts are a run of the protocol that closes every action. */
    method RunActions(id: string, outcomes: seq<Outcome>)
      requires AtStage(View(), id, Working) && jobs[id].next == 0
      requires Closings(outcomes) == jobs[id].actions
      requires outcomes != [] ==> outcomes[|outcomes| - 1] != Retryable
      modifies this`jobs
      ensures AtStage(View(), id, Working) && jobs[id].next == jobs[id].actions == old(jobs[id].actions)
      ensures Run(old(View()), Tries(id, outcomes)) == Some(View())
    {
      hide Next, Run, Tries, Closings;
      ghost var start := View();
      var n := jobs[id].actions;
      var pos := 0;
      assert outcomes[..0] == [];
      NothingTried(start, id);
      ClosingsLeft(outcomes, 0);
      for i := 0 to n
        invariant AtStage(View(), id, Working) && jobs[id].actions == n && jobs[id].next == i
        invariant pos <= |outcomes| && Closings(outcomes[..pos]) == i
        invariant Run(start, Tries(id, outcomes[..pos])) == Some(View())
      {
        while true
          invariant AtStage(View(), id, Working) && jobs[id].actions == n && jobs[id].next == i
          invariant pos <= |outcomes| && Closings(outcomes[..pos]) == i
          invariant Run(start, Tries(id, outcomes[..pos])) == Some(View())
          decreases |outcomes| - pos
        {
          ClosingsLeft(outcomes, pos);
          TryOnce(id, outcomes[pos]);
          RunTry(start, id, outcomes, pos, View());
          pos := pos + 1;
          if outcomes[pos - 1] == Aborting {
            break;
          } else if outcomes[pos - 1] == Success {
            break;
          }
        }
      }
      ClosingsLeft(outcomes, pos);
      assert outcomes[..pos] == outcomes;
    }

    /** One pass of the retry loop. */
    method TryOnce(id: string, outcome: Outcome)
      requires AtStage(View(), id, Working) && jobs[id].next < jobs[id].actions
      modifies this`jobs
      ensures AtStage(View(), id, Working) && jobs[id].actions == old(jobs[id].actions)
      ensures jobs[id].next == old(jobs[id].next) + if outcome == Retryable then 0 else 1
      ensures Next(old(View()), Try(id, outcome)) == Some(View())
    {
      var j := jobs[id];
      jobs := jobs[id := j.(log := j.log + [Attempt.Attempt(j.next, outcome)],
                            next := if outcome == Retryable then j.next else j.next + 1)];
    }

    /** The deferred function: cancel, leave the table, withdraw the count. */
    method Finish(id: string)
      requires AtStage(View(), id, Working) && jobs[id].next == jobs[id].actions
      modifies this
      ensures Run(old(View()), [End(id), Remove(id), Withdraw(id)]) == Some(View())
      ensures AtStage(View(), id, Done) && jobs[id].cancelled && jobs[id].log == old(jobs[id].log)
      ensures table == old(table) - {id} && total == old(total) - 1
    {
      hide Run;
      ghost var s0 := View();
      jobs := jobs[id := jobs[id].(stage := Ended, cancelled := true)];
      ghost var s1 := View();
      table := table - {id};
      jobs := jobs[id := jobs[id].(stage := Removed)];
      ghost var s2 := View();
      total := total - 1;
      jobs := jobs[id := jobs[id].(stage := Done)];
      NoSteps(s0);
      RunOne(s0, [], End(id), s0, s1);
      assert [] + [End(id)] == [End(id)];
      RunOne(s0, [End(id)], Remove(id), s1, s2);
      assert [End(id)] + [Remove(id)] == [End(id), Remove(id)];
      RunOne(s0, [End(id), Remove(id)], Withdraw(id), s2, View());
      assert [End(id), Remove(id)] + [Withdraw(id)] == [End(id), Remove(id), Withdraw(id)];
    }

    /** `RequestStreamEnd`: cancels a job of the table, or reports it missing. */
    method RequestStreamEnd(id: string) returns (found: bool)
      requires table <= jobs.Keys
      modifies this
      ensures found <==> id in old(table)
      ensures found ==> Next(old(View()), Cancel(id)) == Some(View())
      ensures found ==> jobs == old(jobs)[id := old(jobs)[id].(cancelled := true)] && table == old(table)
      ensures !found ==> View() == old(View()) && Next(old(View()), Cancel(id)).None?
    {
      found := id in table;
      if found {
        jobs := jobs[id := jobs[id].(cancelled := true)];
      }
    }

    /** `Cleanup`: cancels every job of the table and nothing else. */
    method Cleanup()
      requires table <= jobs.Keys
      modifies this`jobs
      ensures jobs.Keys == old(jobs).Keys
      ensures forall id :: id in jobs ==>
                             jobs[id] == if id in table then old(jobs)[id].(cancelled := true) else old(jobs)[id]
    {
      var todo := table;
      while todo != {}
        invariant todo <= table && jobs.Keys == old(jobs).Keys
        invariant forall id :: id in jobs ==>
                                 jobs[id] == if id in table - todo then old(jobs)[id].(cancelled := true)
                                             else old(jobs)[id]
        decreases |todo|
      {
        var id :| id in todo;
        jobs := jobs[id := jobs[id].(cancelled := true)];
        todo := todo - {id};
      }
    }
  }

  function Tries(id: string, outcomes: seq<Outcome>): seq<Step> {
    seq(|outcomes|, i requires 0 <= i < |outcomes| => Try(id, outcomes[i]))
  }

  lemma NothingTried(start: State, id: string)
    ensures Run(start, Tries(id, [])) == Some(start) && Closings([]) == 0
  {
    assert Tries(id, []) == [];
  }

  function Closings(outcomes: seq<Outcome>): nat {
    if outcomes == [] then 0
    else Closings(outcomes[..|outcomes| - 1]) + if outcomes[|outcomes| - 1] == Retryable then 0 else 1
  }

  lemma NoSteps(start: State)
    ensures Run(start, []) == Some(start)
  {
  }

  lemma RunOne(start: State, steps: seq<Step>, step: Step, before: State, after: State)
    requires Run(start, steps) == Some(before) && Next(before, step) == Some(after)
    ensures Run(start, steps + [step]) == Some(after)
  {
    assert (steps + [step])[..|steps|] == steps;
  }

  lemma RunTry(start: State, id: string, outcomes: seq<Outcome>, pos: nat, after: State)
    requires pos < |outcomes| && Run(start, Tries(id, outcomes[..pos])).Some?
    requires Next(Run(start, Tries(id, outcomes[..pos])).value, Try(id, outcomes[pos])) == Some(after)
    ensures Run(start, Tries(id, outcomes[..pos + 1])) == Some(after)
    ensures Closings(outcomes[..pos + 1]) ==
            Closings(outcomes[..pos]) + if outcomes[pos] == Retryable then 0 else 1
  {
    assert outcomes[..pos + 1][..pos] == outcomes[..pos];
    assert Tries(id, outcomes[..pos + 1]) == Tries(id, outcomes[..pos]) + [Try(id, outcomes[pos])];
    RunOne(start, Tries(id, outcomes[..pos]), Try(id, outcomes[pos]),
           Run(start, Tries(id, outcomes[..pos])).value, after);
  }

  /** Outcomes are left over exactly while closings are. */
  lemma {:induction false} ClosingsLeft(outcomes: seq<Outcome>, pos: nat)
    requires pos <= |outcomes|
    requires outcomes != [] ==> outcomes[|outcomes| - 1] != Retryable
    ensures Closings(outcomes[..pos]) <= Closings(outcomes)
    ensures pos < |outcomes| <==> Closings(outcomes[..pos]) < Closings(outcomes)
    decreases |outcomes| - pos
  {
    if pos == |outcomes| {
      assert outcomes[..pos] == outcomes;
    } else {
      assert outcomes[..pos + 1][..pos] == outcomes[..pos];
      ClosingsLeft(outcomes, pos + 1);
      if pos + 1 == |outcomes| {
        assert outcomes[..pos + 1] == outcomes;
      }
    }
  }
}
