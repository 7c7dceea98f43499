/** `Scheduler::run` as its caller sees it: agents, tasks and an executor in, outcomes and retired addresses out. */
module SchedulerCall {
  import opened JobLabels
  import opened SchedulerModel
  import opened SchedulerInvariant
  import opened SchedulerSteps
  import opened SchedulerOutcome
  import opened SchedulerHistory
  import opened SchedulerFleet
  import opened SchedulerUnexplained
  import opened SchedulerRun

  // ----- verdicts

  function Spends(at: seq<AddressedAttempt>): nat {
    if |at| == 0 then 0
    else Spends(at[..|at| - 1]) + (if Spent(at[|at| - 1].result) then 1 else 0)
  }

  /** The reported status is the one the reported attempts call for. */
  ghost predicate Justified(o: TaskOutcome) {
    var at := o.attempts;
    && (o.status.Passed? <==> |at| > 0 && at[|at| - 1].result.status.Passed?)
    && (o.status.Failed? <==> |at| > 0 && at[|at| - 1].result.status.Failed? && Spends(at) == o.task.retries + 1)
    && (o.status.TimedOut? <==> |at| > 0 && at[|at| - 1].result.status.TimedOut? && Spends(at) == o.task.retries + 1)
    && (o.status.Unschedulable? ==> Spends(at) <= o.task.retries)
    && (forall k :: 0 <= k < |at| - 1 ==> !at[k].result.status.Passed?)
    && Spends(at) <= o.task.retries + 1
  }

  lemma {:induction false} SpendsAreFailures(at: seq<AddressedAttempt>, recorded: seq<AttemptRecord>)
    requires |at| == |recorded| && forall k :: 0 <= k < |at| ==> at[k].result == recorded[k].result
    ensures Spends(at) == Failures(recorded)
  {
    if |at| == 0 {
    } else {
      SpendsAreFailures(at[..|at| - 1], recorded[..|at| - 1]);
    }
  }

  lemma ReportIsJustified(f: Fleet, s: State, t: nat, o: TaskOutcome)
    requires ValidFleet(f) && Reachable(f, s) && t < |s.st| && t < |f.tasks|
    requires Reports(o, f.agents, f.tasks[t], s.st[t])
    ensures Justified(o)
  {
    Verdicts(f, s, t);
    SpendsAreFailures(o.attempts, s.st[t].attempts);
  }

  // ----- attempts and agents

  type Executor = (nat, nat, nat) -> AttemptResult

  ghost predicate AbleAgent(agents: seq<AgentInfo>, task: Task, a: nat) {
    a < |agents| && Satisfies(agents[a].labels, task.needs)
  }

  /** Attempt `k` at task `t` was made on agent `a`, which is able to run it, and has the executor's answer. */
  ghost predicate MadeOn(agents: seq<AgentInfo>, o: TaskOutcome, t: nat, exec: Executor, k: nat, a: nat)
    requires k < |o.attempts|
  {
    AbleAgent(agents, o.task, a) && o.attempts[k] == AddressedAttempt(agents[a].address, exec(a, t, k))
  }

  ghost predicate MadeSomewhere(agents: seq<AgentInfo>, o: TaskOutcome, t: nat, exec: Executor, k: nat)
    requires k < |o.attempts|
  {
    exists a: nat :: MadeOn(agents, o, t, exec, k, a)
  }

  ghost predicate AllMade(agents: seq<AgentInfo>, o: TaskOutcome, t: nat, exec: Executor) {
    forall k :: 0 <= k < |o.attempts| ==> MadeSomewhere(agents, o, t, exec, k)
  }

  /** Some reported attempt at this address ended in an agent error. */
  ghost predicate ErredAt(outcomes: seq<TaskOutcome>, address: string) {
    exists t: nat, k: nat :: ErrorReported(outcomes, address, t, k)
  }

  ghost predicate ErrorReported(outcomes: seq<TaskOutcome>, address: string, t: nat, k: nat) {
    && t < |outcomes| && k < |outcomes[t].attempts|
    && outcomes[t].attempts[k].agent == address && outcomes[t].attempts[k].result.status.AgentError?
  }

  ghost predicate Distinct(agents: seq<AgentInfo>) {
    forall a, b :: 0 <= a < b < |agents| ==> agents[a].address != agents[b].address
  }

  /** What is reported of the retired agents: exactly the addresses with an agent error, each once. */
  ghost predicate DeadOk(agents: seq<AgentInfo>, outcomes: seq<TaskOutcome>, deadAgents: seq<string>) {
    && (forall x :: x in deadAgents <==> ErredAt(outcomes, x))
    && (Distinct(agents) ==> forall i, j :: 0 <= i < j < |deadAgents| ==> deadAgents[i] != deadAgents[j])
  }

  /** Unschedulable means that every able agent was retired; a task nobody is able to run is not attempted. */
  ghost predicate SchedulingOk(agents: seq<AgentInfo>, o: TaskOutcome, deadAgents: seq<string>) {
    && (o.status.Unschedulable? ==> forall a: nat :: AbleAgent(agents, o.task, a) ==> agents[a].address in deadAgents)
    && ((forall a: nat :: !AbleAgent(agents, o.task, a)) ==> o.status.Unschedulable? && o.attempts == [])
  }

  /** Only unschedulable tasks have a message: the labels nobody has, or that the able agents are gone. */
  ghost predicate MessageOk(agents: seq<AgentInfo>, o: TaskOutcome) {
    if !o.status.Unschedulable? then o.message == ""
    else if exists a: nat :: AbleAgent(agents, o.task, a) then
      o.message == "" || o.message == "every agent that could run this task became unreachable"
    else
      var req := Join(o.task.needs);
      o.message == "no agent provides the required labels" + (if req == "" then "" else " [" + req + "]")
  }

  /** How the requirements are listed. */
  lemma JoinIs(words: seq<string>, last: string)
    ensures Join([]) == "" && Join([last]) == last
    ensures Join(words) != "" ==> Join(words + [last]) == Join(words) + ", " + last
  {
    assert [last][..0] == [];
    assert (words + [last])[..|words|] == words;
  }

  // ----- from the final state to what is returned

  /** The returned values show state `s`. */
  ghost predicate Shows(agents: seq<AgentInfo>, tasks: seq<Task>, s: State, outcomes: seq<TaskOutcome>,
      deadAgents: seq<string>)
  {
    && |outcomes| == |tasks| == |s.st| && |deadAgents| == |s.dead|
    && (forall t :: 0 <= t < |tasks| ==> Reports(outcomes[t], agents, tasks[t], s.st[t]))
    && (forall i :: 0 <= i < |s.dead| ==> s.dead[i] < |agents| && deadAgents[i] == agents[s.dead[i]].address)
    && (Distinct(agents) ==> forall i, j :: 0 <= i < j < |deadAgents| ==> deadAgents[i] != deadAgents[j])
  }

  /** A run that returned. */
  ghost predicate Returned(agents: seq<AgentInfo>, tasks: seq<Task>, s: State, exec: Executor)
    requires ValidFleet(Launch(agents, tasks))
  {
    Reachable(Launch(agents, tasks), s) && AllExited(s) && AnsweredBy(s, exec)
  }

  lemma AttemptsMade(agents: seq<AgentInfo>, tasks: seq<Task>, s: State, exec: Executor, o: TaskOutcome, t: nat)
    requires ValidFleet(Launch(agents, tasks)) && Returned(agents, tasks, s, exec)
    requires t < |tasks| == |s.st| && Reports(o, agents, tasks[t], s.st[t])
    ensures AllMade(agents, o, t, exec)
  {
    forall k: nat | k < |o.attempts| ensures MadeSomewhere(agents, o, t, exec, k) {
      AttemptsAreRouted(Launch(agents, tasks), s, t, k);
      assert MadeOn(agents, o, t, exec, k, s.st[t].attempts[k].agent);
    }
  }

  lemma DeadIsOk(agents: seq<AgentInfo>, tasks: seq<Task>, s: State, exec: Executor, outcomes: seq<TaskOutcome>,
      deadAgents: seq<string>)
    requires ValidFleet(Launch(agents, tasks)) && Returned(agents, tasks, s, exec)
    requires Shows(agents, tasks, s, outcomes, deadAgents)
    ensures DeadOk(agents, outcomes, deadAgents)
  {
    forall x ensures x in deadAgents <==> ErredAt(outcomes, x) {
      if x in deadAgents {
        var i :| 0 <= i < |deadAgents| && deadAgents[i] == x;
        DeadErred(agents, tasks, s, outcomes, deadAgents, i);
      }
      if t: nat, k: nat :| ErrorReported(outcomes, x, t, k) {
        ErredDead(agents, tasks, s, outcomes, deadAgents, t, k);
      }
    }
  }

  lemma DeadErred(agents: seq<AgentInfo>, tasks: seq<Task>, s: State, outcomes: seq<TaskOutcome>,
      deadAgents: seq<string>, i: nat)
    requires ValidFleet(Launch(agents, tasks)) && Reachable(Launch(agents, tasks), s)
    requires Shows(agents, tasks, s, outcomes, deadAgents) && i < |deadAgents|
    ensures ErredAt(outcomes, deadAgents[i])
  {
    assert s.dead[i] in s.dead;
    RetiredIffErred(Launch(agents, tasks), s, s.dead[i]);
    var t: nat, k: nat :| Erred(s, s.dead[i], t, k);
    assert Reports(outcomes[t], agents, tasks[t], s.st[t]);
    assert ErrorReported(outcomes, deadAgents[i], t, k);
  }

  lemma ErredDead(agents: seq<AgentInfo>, tasks: seq<Task>, s: State, outcomes: seq<TaskOutcome>,
      deadAgents: seq<string>, t: nat, k: nat)
    requires ValidFleet(Launch(agents, tasks)) && Reachable(Launch(agents, tasks), s)
    requires Shows(agents, tasks, s, outcomes, deadAgents)
    requires t < |outcomes| && k < |outcomes[t].attempts| && outcomes[t].attempts[k].result.status.AgentError?
    ensures outcomes[t].attempts[k].agent in deadAgents
  {
    assert Reports(outcomes[t], agents, tasks[t], s.st[t]);
    AttemptsAreRouted(Launch(agents, tasks), s, t, k);
    var i :| 0 <= i < |s.dead| && s.dead[i] == s.st[t].attempts[k].agent;
    assert deadAgents[i] == outcomes[t].attempts[k].agent;
  }

  lemma SchedulingIsOk(agents: seq<AgentInfo>, tasks: seq<Task>, s: State, exec: Executor, outcomes: seq<TaskOutcome>,
      deadAgents: seq<string>, t: nat)
    requires ValidFleet(Launch(agents, tasks)) && Returned(agents, tasks, s, exec)
    requires Shows(agents, tasks, s, outcomes, deadAgents) && t < |tasks|
    ensures SchedulingOk(agents, outcomes[t], deadAgents)
  {
    var f := Launch(agents, tasks);
    assert Reports(outcomes[t], agents, tasks[t], s.st[t]);
    if outcomes[t].status.Unschedulable? {
      UnschedulableVerdict(f, s, t);
      forall a: nat | AbleAgent(agents, tasks[t], a) ensures agents[a].address in deadAgents {
        AbleIsDead(agents, tasks, s, outcomes, deadAgents, t, a);
      }
    }
    if forall a: nat :: !AbleAgent(agents, tasks[t], a) {
      NobodyTries(agents, tasks, s, t);
    }
  }

  lemma AbleIsDead(agents: seq<AgentInfo>, tasks: seq<Task>, s: State, outcomes: seq<TaskOutcome>,
      deadAgents: seq<string>, t: nat, a: nat)
    requires ValidFleet(Launch(agents, tasks)) && Reachable(Launch(agents, tasks), s)
    requires Shows(agents, tasks, s, outcomes, deadAgents) && t < |tasks|
    requires !AnyLiveCapable(Launch(agents, tasks), s.alive, t) && AbleAgent(agents, tasks[t], a)
    ensures agents[a].address in deadAgents
  {
    ReachableInv(Launch(agents, tasks), s);
    assert a in Launch(agents, tasks).capable[t];
    assert a in s.dead;
    var i :| 0 <= i < |s.dead| && s.dead[i] == a;
    assert deadAgents[i] == agents[a].address;
  }

  /** A task no agent is able to run has no attempts, and so no other verdict. */
  lemma NobodyTries(agents: seq<AgentInfo>, tasks: seq<Task>, s: State, t: nat)
    requires ValidFleet(Launch(agents, tasks)) && Reachable(Launch(agents, tasks), s) && t < |tasks| == |s.st|
    requires forall a: nat :: !AbleAgent(agents, tasks[t], a)
    ensures s.st[t].attempts == [] && s.st[t].final.Unschedulable?
  {
    var f := Launch(agents, tasks);
    if |s.st[t].attempts| > 0 {
      AttemptsAreRouted(f, s, t, 0);
      assert AbleAgent(agents, tasks[t], s.st[t].attempts[0].agent);
    }
    Verdicts(f, s, t);
  }

  lemma MessageIsOk(agents: seq<AgentInfo>, tasks: seq<Task>, s: State, exec: Executor, o: TaskOutcome, t: nat)
    requires ValidFleet(Launch(agents, tasks)) && Returned(agents, tasks, s, exec)
    requires t < |tasks| == |s.st| && Reports(o, agents, tasks[t], s.st[t])
    ensures MessageOk(agents, o)
  {
    FinalMessage(Launch(agents, tasks), s, t);
    ReasonIs(agents, tasks, t);
    if s.st[t].final.Unschedulable? && forall a: nat :: !AbleAgent(agents, tasks[t], a) {
      NeverOrphan(agents, tasks, s, t);
    }
  }

  lemma FinalMessage(f: Fleet, s: State, t: nat)
    requires ValidFleet(f) && Reachable(f, s) && t < |f.tasks| == |f.capable| && t < |s.st|
    ensures !s.st[t].final.Unschedulable? ==> s.st[t].message == ""
    ensures s.st[t].message == "" || s.st[t].message == Reason(f, t)
    ensures !s.st[t].done ==> s.st[t].message == ""
    ensures s.st[t].done && s.st[t].final.Unschedulable? ==> s.st[t].message == Reason(f, t)
  {
    ReachableInv(f, s);
    assert TaskOk(f, s.alive, t, s.st[t]);
  }

  /** A task nobody is able to run is closed at once, with its explanation. */
  lemma NeverOrphan(agents: seq<AgentInfo>, tasks: seq<Task>, s: State, t: nat)
    requires ValidFleet(Launch(agents, tasks)) && Reachable(Launch(agents, tasks), s) && AllExited(s)
    requires t < |tasks| == |s.st| && forall a: nat :: !AbleAgent(agents, tasks[t], a)
    ensures s.st[t].done
  {
    var f := Launch(agents, tasks);
    NobodyTries(agents, tasks, s, t);
    ReachableInv(f, s);
    OpenTasksAreOrphans(f, s, t);
  }

  /** The two explanations, in terms of labels. */
  lemma ReasonIs(agents: seq<AgentInfo>, tasks: seq<Task>, t: nat)
    requires t < |tasks|
    ensures var reason, req := Reason(Launch(agents, tasks), t), Join(tasks[t].needs);
      if exists a: nat :: AbleAgent(agents, tasks[t], a) then
        reason == "every agent that could run this task became unreachable"
      else
        reason == "no agent provides the required labels" + (if req == "" then "" else " [" + req + "]")
  {
    if a: nat :| AbleAgent(agents, tasks[t], a) {
      assert a in Launch(agents, tasks).capable[t];
    }
    if a: nat :| a < |agents| && a in Launch(agents, tasks).capable[t] {
      assert AbleAgent(agents, tasks[t], a);
    }
  }

  // ----- the call

  /** What is promised of one returned outcome. */
  ghost predicate OutcomeOk(agents: seq<AgentInfo>, o: TaskOutcome, t: nat, exec: Executor, deadAgents: seq<string>) {
    && Justified(o) && AllMade(agents, o, t, exec) && SchedulingOk(agents, o, deadAgents) && MessageOk(agents, o)
  }

  lemma OutcomesAreOk(agents: seq<AgentInfo>, tasks: seq<Task>, s: State, exec: Executor, outcomes: seq<TaskOutcome>,
      deadAgents: seq<string>)
    requires ValidFleet(Launch(agents, tasks)) && Returned(agents, tasks, s, exec)
    requires Shows(agents, tasks, s, outcomes, deadAgents)
    ensures forall t :: 0 <= t < |tasks| ==>
      outcomes[t].task == tasks[t] && OutcomeOk(agents, outcomes[t], t, exec, deadAgents)
    ensures DeadOk(agents, outcomes, deadAgents)
  {
    DeadIsOk(agents, tasks, s, exec, outcomes, deadAgents);
    forall t: nat | t < |tasks|
      ensures outcomes[t].task == tasks[t] && OutcomeOk(agents, outcomes[t], t, exec, deadAgents)
    {
      assert Reports(outcomes[t], agents, tasks[t], s.st[t]);
      ReportIsJustified(Launch(agents, tasks), s, t, outcomes[t]);
      AttemptsMade(agents, tasks, s, exec, outcomes[t], t);
      SchedulingIsOk(agents, tasks, s, exec, outcomes, deadAgents, t);
      MessageIsOk(agents, tasks, s, exec, outcomes[t], t);
    }
  }

  lemma OutcomesAreExplained(agents: seq<AgentInfo>, tasks: seq<Task>, s: State, exec: Executor,
      outcomes: seq<TaskOutcome>, deadAgents: seq<string>)
    requires RetriesOk(tasks) && ValidFleet(Launch(agents, tasks)) && Returned(agents, tasks, s, exec)
    requires Shows(agents, tasks, s, outcomes, deadAgents)
    requires !(StrandingFleet(agents, tasks) && AllEmployable(agents, tasks))
    ensures forall t :: 0 <= t < |tasks| && outcomes[t].status.Unschedulable? ==> outcomes[t].message != ""
  {
    ReturnedTasksAreExplained(agents, tasks, s);
    forall t | 0 <= t < |tasks| && outcomes[t].status.Unschedulable? ensures outcomes[t].message != "" {
      assert Reports(outcomes[t], agents, tasks[t], s.st[t]);
    }
  }

  /** With no agent retired, the unschedulable tasks are exactly those whose labels no agent satisfies. */
  lemma NoneDead(agents: seq<AgentInfo>, o: TaskOutcome)
    requires SchedulingOk(agents, o, [])
    ensures o.status.Unschedulable? <==> forall a: nat :: !AbleAgent(agents, o.task, a)
  {
  }

  /**
   * `Scheduler::run` with an arbitrary executor. When the workers join, the caller gets one outcome per task, in
   * order: each status called for by its attempts, each attempt made on an able agent and answered by the
   * executor, the retired agents those with an agent error, unschedulable only where every able agent is among
   * them. What is returned shows a state that a run can end in. The workers do join outside the fleets that can
   * hang, and outside those that can leave a task unexplained every unschedulable one is explained.
   */
  method RunTasks(agents: seq<AgentInfo>, tasks: seq<Task>, exec: Executor)
    returns (joined: bool, outcomes: seq<TaskOutcome>, deadAgents: seq<string>)
    requires RetriesOk(tasks)
    ensures ValidFleet(Launch(agents, tasks))
    ensures !HangingFleet(agents, tasks) || !StrandingFleet(agents, tasks) ==> joined
    ensures !joined ==> exists s :: Reachable(Launch(agents, tasks), s) && Deadlocked(s) && AnsweredBy(s, exec)
    ensures joined ==>
      exists s :: Returned(agents, tasks, s, exec) && Shows(agents, tasks, s, outcomes, deadAgents)
    ensures joined ==> |outcomes| == |tasks| && DeadOk(agents, outcomes, deadAgents)
    ensures joined ==> forall t :: 0 <= t < |tasks| ==>
      outcomes[t].task == tasks[t] && OutcomeOk(agents, outcomes[t], t, exec, deadAgents)
    ensures joined && !(StrandingFleet(agents, tasks) && AllEmployable(agents, tasks)) ==>
      forall t :: 0 <= t < |tasks| && outcomes[t].status.Unschedulable? ==> outcomes[t].message != ""
  {
    var run := new Run(agents, tasks);
    joined := run.Execute(exec);
    outcomes, deadAgents := [], [];
    ghost var s := run.View();
    if joined {
      outcomes, deadAgents := Collect(run);
      OutcomesAreOk(agents, tasks, s, exec, outcomes, deadAgents);
      if !(StrandingFleet(agents, tasks) && AllEmployable(agents, tasks)) {
        OutcomesAreExplained(agents, tasks, s, exec, outcomes, deadAgents);
      }
    } else {
      StoppedMeansExitedOrAsleep(s);
    }
  }

  method Collect(run: Run) returns (outcomes: seq<TaskOutcome>, deadAgents: seq<string>)
    requires ValidFleet(run.F()) && Reachable(run.F(), run.View())
    ensures Shows(run.agents, run.tasks, run.View(), outcomes, deadAgents)
  {
    ReachableInv(run.F(), run.View());
    outcomes, deadAgents := run.Summary();
  }
}
