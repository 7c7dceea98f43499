/**
 * The explanation of an unschedulable task can be missing from a summary that is really returned.
 * Exactly which fleets allow it: the hazard of stranding a task, and every agent able to run some
 * task, so that all of them can be retired and every worker leaves.
 */
module SchedulerUnexplained {
  import opened JobLabels
  import opened SchedulerModel
  import opened SchedulerInvariant
  import opened SchedulerSteps
  import opened SchedulerTermination
  import opened SchedulerOutcome
  import opened SchedulerHazard
  import opened SchedulerFleet

  ghost predicate Unexplained(s: State, t: nat) {
    t < |s.st| && s.st[t].final.Unschedulable? && s.st[t].message == ""
  }

  /** Some run joins all its workers, so that the summary is returned, and reports a task without its explanation. */
  ghost predicate CanReturnUnexplained(f: Fleet)
    requires ValidFleet(f)
  {
    exists s: State, t: nat :: Reachable(f, s) && AllExited(s) && Unexplained(s, t)
  }

  ghost predicate Employable(f: Fleet, b: nat) {
    exists t: nat :: t < |f.capable| && b in f.capable[t]
  }

  // ----- what such a run tells about the fleet

  lemma SectionRetires(f: Fleet, s: State, w: nat, res: AttemptResult, b: nat)
    requires Inv(f, s) && Enabled(s, w) && b < |s.alive| && s.alive[b] && !Section(f, s, w, res).alive[b]
    ensures Employable(f, b)
  {
    if s.pc[w].Running? {
      CompleteEffect(f, s, w, res);
      assert b == f.seat[w] && b in f.capable[s.pc[w].task];
    }
  }

  /** Only an agent that ran a task, and so could run it, is ever retired. */
  lemma {:induction false} RetiredAgentsAreEmployable(f: Fleet, sched: seq<Turn>, b: nat)
    requires ValidFleet(f) && Legal(f, sched) && b < |f.agents| && !After(f, sched).alive[b]
    ensures Employable(f, b)
  {
    if |sched| == 0 {
      assert false;
    } else {
      var n := |sched| - 1;
      ScheduleKeepsInv(f, sched[..n]);
      if After(f, sched[..n]).alive[b] {
        SectionRetires(f, After(f, sched[..n]), sched[n].worker, sched[n].result, b);
      } else {
        RetiredAgentsAreEmployable(f, sched[..n], b);
      }
    }
  }

  lemma UnexplainedNeedsAll(f: Fleet, s: State, t: nat)
    requires ValidFleet(f) && Reachable(f, s) && AllExited(s) && Unexplained(s, t)
    ensures exists a: nat :: Hazard(f, a, t)
    ensures forall b: nat :: b < |f.agents| ==> Employable(f, b)
  {
    MessageMissingIffOrphan(f, s, t);
    AllFinishedIffNoOrphan(f, s);
    HangsIffOrphanAndLiveAgent(f, s);
    assert Hazard(f, Last(s.st[t].attempts).agent, t);
    var sched :| Legal(f, sched) && After(f, sched) == s;
    forall b: nat | b < |f.agents| ensures Employable(f, b) {
      RetiredAgentsAreEmployable(f, sched, b);
    }
  }

  // ----- retiring every other agent

  /** Nobody is busy, only retired agents were tried, and nothing is closed but for want of a live agent. */
  ghost predicate Calm(f: Fleet, s: State) {
    && ValidFleet(f) && Reachable(f, s) && Shape(f, s)
    && (forall x :: 0 <= x < |s.pc| ==> s.pc[x].Ready? || (s.pc[x].Exited? && !s.alive[f.seat[x]]))
    && (forall t :: 0 <= t < |s.st| ==> CalmTask(s.alive, s.st[t]))
  }

  ghost predicate CalmTask(alive: seq<bool>, ts: TaskState) {
    && !ts.running && (ts.done ==> ts.final.Unschedulable?)
    && forall c :: c in ts.tried ==> c < |alive| && !alive[c]
  }

  /** The plan's agent is alive and its two tasks are open. */
  ghost predicate PlanOpen(f: Fleet, s: State, p: Plan)
    requires Shape(f, s)
  {
    PlanOk(f, p) && s.alive[p.a] && !s.st[p.t].done && !s.st[p.u].done
  }

  lemma CalmAtStart(f: Fleet, p: Plan)
    requires PlanOk(f, p)
    ensures Calm(f, Start(f)) && PlanOpen(f, Start(f), p)
  {
    assert Legal(f, []) && After(f, []) == Start(f);
    assert Start(f).alive[p.a];
  }

  /** A live agent that can run some task always finds one to pick. */
  lemma IdlePick(f: Fleet, s: State, w: nat) returns (q: nat)
    requires Calm(f, s) && w < |s.pc| && s.alive[f.seat[w]] && Employable(f, f.seat[w])
    ensures q < |s.st| && !s.st[q].done && f.seat[w] in f.capable[q]
    ensures Section(f, s, w, PASS) == s.(st := s.st[q := s.st[q].(running := true)], pc := s.pc[w := Running(q)])
  {
    ReachableInv(f, s);
    var x: nat :| x < |f.capable| && f.seat[w] in f.capable[x];
    assert TaskOk(f, s.alive, x, s.st[x]);
    assert AnyLiveCapable(f, s.alive, x);
    OpenBounds(s.st);
    assert Pickable(f, s, f.seat[w], x);
    q := Pick(f, s, f.seat[w], 0).value;
  }

  /** `m` is `s` after an idle worker `w` has picked task `q`. */
  ghost predicate Picking(f: Fleet, s: State, m: State, w: nat, q: nat, p: Plan) {
    && Calm(f, s) && PlanOpen(f, s, p) && w < |s.pc| && s.alive[f.seat[w]] && f.seat[w] != p.a
    && q < |s.st| && !s.st[q].done && Reachable(f, m)
    && m == s.(st := s.st[q := s.st[q].(running := true)], pc := s.pc[w := Running(q)])
  }

  /** It breaks on that pick. */
  lemma IdleBreak(f: Fleet, s: State, m: State, w: nat, q: nat, p: Plan)
    requires Picking(f, s, m, w, q, p)
    ensures var r := Section(f, m, w, BREAK);
      && r.alive == s.alive[f.seat[w] := false] && r.pc == s.pc[w := Exited] && |r.st| == |s.st|
      && forall i :: 0 <= i < |s.st| ==> r.st[i] == Settle(f, r.alive, i, Returned(f, m, w, BREAK, i))
  {
    CompleteEffect(f, m, w, BREAK);
  }

  lemma BreakKeepsTaskCalm(f: Fleet, s: State, m: State, w: nat, q: nat, p: Plan, i: nat)
    requires Picking(f, s, m, w, q, p) && i < |s.st|
    ensures var r := Section(f, m, w, BREAK);
      i < |r.st| && CalmTask(r.alive, r.st[i]) && (i == p.t || i == p.u ==> !r.st[i].done)
  {
    IdleBreak(f, s, m, w, q, p);
    ReturnedIsCalm(f, s, m, w, q, p, i);
  }

  /** The agent of the plan keeps the plan's tasks from being settled. */
  lemma ReturnedIsCalm(f: Fleet, s: State, m: State, w: nat, q: nat, p: Plan, i: nat)
    requires Picking(f, s, m, w, q, p) && i < |s.st|
    ensures var alive, ts := s.alive[f.seat[w] := false], Returned(f, m, w, BREAK, i);
      && CalmTask(alive, ts) && CalmTask(alive, Settle(f, alive, i, ts))
      && (i == p.t || i == p.u ==> !Settle(f, alive, i, ts).done)
  {
    var alive := s.alive[f.seat[w] := false];
    assert CalmTask(s.alive, s.st[i]);
    assert alive[p.a];
    assert i == p.t || i == p.u ==> AnyLiveCapable(f, alive, i);
  }

  lemma BreakKeepsCalm(f: Fleet, s: State, m: State, w: nat, q: nat, p: Plan)
    requires Picking(f, s, m, w, q, p) && Reachable(f, Section(f, m, w, BREAK))
    ensures var r := Section(f, m, w, BREAK); Calm(f, r) && PlanOpen(f, r, p)
  {
    forall i: nat | i < |s.st| {
      BreakKeepsTaskCalm(f, s, m, w, q, p, i);
    }
    IdleBreak(f, s, m, w, q, p);
  }

  lemma RetireIdle(f: Fleet, s: State, p: Plan, b: nat) returns (r: State)
    requires Calm(f, s) && PlanOpen(f, s, p) && b < |s.alive| && s.alive[b] && b != p.a && Employable(f, b)
    ensures Calm(f, r) && PlanOpen(f, r, p) && PhiNat(f, r) < PhiNat(f, s)
  {
    assert Staffed(f, b);
    var w: nat :| Seated(f, w, b);
    var q := IdlePick(f, s, w);
    Step(f, s, w, PASS);
    var m := Section(f, s, w, PASS);
    Step(f, m, w, BREAK);
    r := Section(f, m, w, BREAK);
    BreakKeepsCalm(f, s, m, w, q, p);
  }

  lemma {:induction false} RetireAllOthers(f: Fleet, s: State, p: Plan) returns (r: State)
    requires Calm(f, s) && PlanOpen(f, s, p) && forall b: nat :: b < |f.agents| ==> Employable(f, b)
    ensures Calm(f, r) && PlanOpen(f, r, p)
    ensures forall c :: 0 <= c < |r.alive| && r.alive[c] ==> c == p.a
    decreases PhiNat(f, s)
  {
    if b: nat :| b < |s.alive| && s.alive[b] && b != p.a {
      r := RetireIdle(f, s, p, b);
      r := RetireAllOthers(f, r, p);
    } else {
      r := s;
    }
  }

  // ----- the fatal moment

  /** Two workers of the last live agent take the plan's tasks, the earlier one first. */
  lemma TakeBoth(f: Fleet, s: State, p: Plan) returns (r: State)
    requires Calm(f, s) && PlanOpen(f, s, p) && p.t < p.u
    ensures Reachable(f, r) && Shape(f, r) && r.alive == s.alive
    ensures r.pc[p.w] == Running(p.t) && r.pc[p.v] == Running(p.u)
  {
    assert Enabled(s, p.w) && Enabled(s, p.v);
    var m := Drive(f, s, p.w, p.t, p.u);
    assert Enabled(m, p.v);
    r := Drive(f, m, p.v, p.u, p.t);
  }

  lemma UnexplainedRun(f: Fleet, p: Plan) returns (q: State)
    requires PlanOk(f, p) && p.t < p.u && forall b: nat :: b < |f.agents| ==> Employable(f, b)
    ensures Reachable(f, q) && AllExited(q) && Unexplained(q, p.t)
  {
    CalmAtStart(f, p);
    var s := RetireAllOthers(f, Start(f), p);
    var r := TakeBoth(f, s, p);
    var m := FirstReturn(f, r, p.v, p.w);
    var n := LateReturn(f, m, p.w);
    q := Drain(f, n, p.t);
    HangsIffOrphanAndLiveAgent(f, q);
    OpenTaskIsSilent(f, q, p.t);
  }

  lemma OpenTaskIsSilent(f: Fleet, s: State, t: nat)
    requires ValidFleet(f) && Reachable(f, s) && t < |s.st| && !s.st[t].done
    ensures Unexplained(s, t)
  {
    ReachableInv(f, s);
    assert TaskOk(f, s.alive, t, s.st[t]);
  }

  // ----- the exact condition

  lemma ReturnsUnexplainedIff(f: Fleet)
    requires ValidFleet(f)
    ensures CanReturnUnexplained(f) <==>
      (exists a: nat, t: nat :: Hazard(f, a, t)) && forall b: nat :: b < |f.agents| ==> Employable(f, b)
  {
    if s: State, t: nat :| Reachable(f, s) && AllExited(s) && Unexplained(s, t) {
      UnexplainedNeedsAll(f, s, t);
    }
    if (exists a: nat, t: nat :: Hazard(f, a, t)) && forall b: nat :: b < |f.agents| ==> Employable(f, b) {
      var a: nat, t: nat :| Hazard(f, a, t);
      var p := HazardGivesPlan(f, a, t);
      var q := UnexplainedRun(f, if p.t < p.u then p else p.(t := p.u, u := p.t));
    }
  }

  /** Every agent can run one of the tasks at least. */
  ghost predicate AllEmployable(agents: seq<AgentInfo>, tasks: seq<Task>) {
    forall b: nat :: b < |agents| ==> Employed(agents, tasks, b)
  }

  ghost predicate Employed(agents: seq<AgentInfo>, tasks: seq<Task>, b: nat)
    requires b < |agents|
  {
    exists t: nat :: t < |tasks| && Satisfies(agents[b].labels, tasks[t].needs)
  }

  lemma EmployedIff(agents: seq<AgentInfo>, tasks: seq<Task>, b: nat)
    requires b < |agents|
    ensures Employable(Launch(agents, tasks), b) <==> Employed(agents, tasks, b)
  {
    var f := Launch(agents, tasks);
    if t: nat :| t < |f.capable| && b in f.capable[t] {
      assert Satisfies(agents[b].labels, tasks[t].needs);
    }
    if t: nat :| t < |tasks| && Satisfies(agents[b].labels, tasks[t].needs) {
      assert b in f.capable[t];
    }
  }

  /**
   * In the caller's terms: a returned summary can lack the explanation of an unschedulable task if and only
   * if some agent with two slots can run two of the tasks and every agent can run at least one.
   */
  lemma UnexplainedIff(agents: seq<AgentInfo>, tasks: seq<Task>)
    requires RetriesOk(tasks)
    ensures ValidFleet(Launch(agents, tasks))
    ensures CanReturnUnexplained(Launch(agents, tasks)) <==>
      StrandingFleet(agents, tasks) && AllEmployable(agents, tasks)
  {
    var f := Launch(agents, tasks);
    LaunchIsValid(agents, tasks);
    ReturnsUnexplainedIff(f);
    StrandsIffHazard(f);
    StrandsIff(agents, tasks);
    forall b: nat | b < |agents| {
      EmployedIff(agents, tasks, b);
    }
  }

  function ExampleAgents(): seq<AgentInfo> {
    [AgentInfo("a:7001", 2, ["kvm=true"])]
  }

  function ExampleTasks(): seq<Task> {
    [Task("t1", 0, ["kvm=true"]), Task("t2", 0, ["kvm=true"])]
  }

  lemma ExampleFleet()
    ensures StrandingFleet(ExampleAgents(), ExampleTasks()) && AllEmployable(ExampleAgents(), ExampleTasks())
  {
    var agents, tasks := ExampleAgents(), ExampleTasks();
    OneLabel("kvm=true");
    assert Risk(agents, tasks, 0, 0, 1);
    assert Employed(agents, tasks, 0);
  }

  /** The smallest case: one agent with two slots and two tasks it can run. */
  lemma UnexplainedExample()
    ensures ValidFleet(Launch(ExampleAgents(), ExampleTasks()))
    ensures CanReturnUnexplained(Launch(ExampleAgents(), ExampleTasks()))
  {
    ExampleFleet();
    UnexplainedIff(ExampleAgents(), ExampleTasks());
  }

  /** Outside those fleets every summary that is returned explains every unschedulable task. */
  lemma ReturnedTasksAreExplained(agents: seq<AgentInfo>, tasks: seq<Task>, s: State)
    requires RetriesOk(tasks) && ValidFleet(Launch(agents, tasks))
    requires Reachable(Launch(agents, tasks), s) && AllExited(s)
    requires !(StrandingFleet(agents, tasks) && AllEmployable(agents, tasks))
    ensures forall t :: 0 <= t < |s.st| && s.st[t].final.Unschedulable? ==> s.st[t].message != ""
  {
    UnexplainedIff(agents, tasks);
    forall t | 0 <= t < |s.st| && s.st[t].final.Unschedulable? ensures s.st[t].message != "" {
      assert !Unexplained(s, t);
    }
  }
}
