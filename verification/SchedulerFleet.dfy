/** The theorems in terms of what a caller passes to `Scheduler`: agents with their slots and labels, and tasks. */
module SchedulerFleet {
  import opened JobLabels
  import opened Sums
  import opened SchedulerModel
  import opened SchedulerSteps
  import opened SchedulerTermination
  import opened SchedulerOutcome
  import opened SchedulerHazard

  /** The constructor's normalisation: an agent that reports no slots gets one. */
  function SlotsOf(a: AgentInfo): nat {
    if a.slots == 0 then 1 else a.slots
  }

  /** `execute` starts one worker per slot, agent by agent. */
  function Seats(agents: seq<AgentInfo>, n: nat): seq<nat>
    requires n <= |agents|
  {
    if n == 0 then [] else Seats(agents, n - 1) + seq(SlotsOf(agents[n - 1]), _ => n - 1)
  }

  ghost function AbleAgents(agents: seq<AgentInfo>, task: Task): set<nat> {
    set a: nat | a < |agents| && Satisfies(agents[a].labels, task.needs)
  }

  ghost function Launch(agents: seq<AgentInfo>, tasks: seq<Task>): Fleet {
    Fleet(agents, tasks, Seats(agents, |agents|),
          seq(|tasks|, t requires 0 <= t < |tasks| => AbleAgents(agents, tasks[t])))
  }

  ghost predicate RetriesOk(tasks: seq<Task>) {
    forall t :: 0 <= t < |tasks| ==> 0 <= tasks[t].retries
  }

  // ----- seats

  ghost function SeatsOf(agents: seq<AgentInfo>, n: nat, a: nat): set<nat>
    requires n <= |agents|
  {
    set w: nat | w < |Seats(agents, n)| && Seats(agents, n)[w] == a
  }

  lemma {:induction false} SeatsCount(agents: seq<AgentInfo>, n: nat, a: nat)
    requires n <= |agents|
    ensures |SeatsOf(agents, n, a)| == if a < n then SlotsOf(agents[a]) else 0
    ensures forall w :: 0 <= w < |Seats(agents, n)| ==> Seats(agents, n)[w] < n
  {
    if n == 0 {
      assert SeatsOf(agents, n, a) == {};
    } else {
      SeatsCount(agents, n - 1, a);
      var before, k := Seats(agents, n - 1), SlotsOf(agents[n - 1]);
      if a == n - 1 {
        assert SeatsOf(agents, n - 1, a) == {};
        assert SeatsOf(agents, n, a) == Interval(|before|, k);
      } else {
        assert SeatsOf(agents, n, a) == SeatsOf(agents, n - 1, a);
      }
    }
  }

  /** An agent has exactly as many workers as slots. */
  lemma WorkersAreSlots(agents: seq<AgentInfo>, tasks: seq<Task>, a: nat)
    requires a < |agents|
    ensures |WorkersAt(Launch(agents, tasks), a)| == if agents[a].slots == 0 then 1 else agents[a].slots
  {
    SeatsCount(agents, |agents|, a);
    assert WorkersAt(Launch(agents, tasks), a) == SeatsOf(agents, |agents|, a);
  }

  lemma {:induction false} SeatsTotal(agents: seq<AgentInfo>, n: nat)
    requires n <= |agents|
    ensures |Seats(agents, n)| == Sum(seq(n, a requires 0 <= a < n => SlotsOf(agents[a])))
  {
    var xs := seq(n, a requires 0 <= a < n => SlotsOf(agents[a]));
    if n == 0 {
    } else {
      SeatsTotal(agents, n - 1);
      assert xs[..n - 1] == seq(n - 1, a requires 0 <= a < n - 1 => SlotsOf(agents[a]));
    }
  }

  lemma LaunchIsValid(agents: seq<AgentInfo>, tasks: seq<Task>)
    requires RetriesOk(tasks)
    ensures ValidFleet(Launch(agents, tasks))
  {
    var f := Launch(agents, tasks);
    SeatsCount(agents, |agents|, 0);
    forall a: nat | a < |f.agents| ensures Staffed(f, a) {
      WorkersAreSlots(agents, tasks, a);
      var w: nat :| w in WorkersAt(f, a);
      assert Seated(f, w, a);
    }
  }

  lemma TwoMembers<T>(s: set<T>)
    ensures |s| >= 2 <==> exists x, y :: x in s && y in s && x != y
  {
    if |s| >= 2 {
      var x :| x in s;
      assert |s - {x}| == |s| - 1;
      var y :| y in s - {x};
    }
    if x, y :| x in s && y in s && x != y {
      SubsetSize({x, y}, s);
    }
  }

  // ----- what the caller can check

  /** Agent `a` has two slots and can run both `t` and another task `u`. */
  ghost predicate Risk(agents: seq<AgentInfo>, tasks: seq<Task>, a: nat, t: nat, u: nat) {
    && a < |agents| && t < |tasks| && u < |tasks| && t != u
    && agents[a].slots >= 2
    && Satisfies(agents[a].labels, tasks[t].needs) && Satisfies(agents[a].labels, tasks[u].needs)
  }

  lemma RiskIsHazard(agents: seq<AgentInfo>, tasks: seq<Task>, a: nat, t: nat)
    requires RetriesOk(tasks)
    ensures Hazard(Launch(agents, tasks), a, t) <==> exists u :: Risk(agents, tasks, a, t, u)
  {
    var f := Launch(agents, tasks);
    TwoMembers(WorkersAt(f, a));
    if Hazard(f, a, t) {
      WorkersAreSlots(agents, tasks, a);
      var w :| Seated(f, w, a) && Crowded(f, a, w, t);
      var v: nat :| v != w && Seated(f, v, a);
      var u: nat :| u != t && u < |f.capable| && a in f.capable[u];
      assert v in WorkersAt(f, a) && w in WorkersAt(f, a);
      assert Risk(agents, tasks, a, t, u);
    }
    if u: nat :| Risk(agents, tasks, a, t, u) {
      WorkersAreSlots(agents, tasks, a);
      var v, w :| v in WorkersAt(f, a) && w in WorkersAt(f, a) && v != w;
      assert Seated(f, w, a) && Seated(f, v, a);
      assert a in f.capable[u];
    }
  }

  ghost predicate StrandingFleet(agents: seq<AgentInfo>, tasks: seq<Task>) {
    exists a, t, u :: Risk(agents, tasks, a, t, u)
  }

  ghost predicate Unable(agents: seq<AgentInfo>, tasks: seq<Task>, b: nat, t: nat) {
    b < |agents| && t < |tasks| && !Satisfies(agents[b].labels, tasks[t].needs)
  }

  ghost predicate HangingFleet(agents: seq<AgentInfo>, tasks: seq<Task>) {
    exists a, t, u, b :: Risk(agents, tasks, a, t, u) && Unable(agents, tasks, b, t)
  }

  /** Some run stops with work left if and only if some agent with two slots can run two of the tasks. */
  lemma StrandsIff(agents: seq<AgentInfo>, tasks: seq<Task>)
    requires RetriesOk(tasks)
    ensures ValidFleet(Launch(agents, tasks))
    ensures CanStrand(Launch(agents, tasks)) <==> StrandingFleet(agents, tasks)
  {
    var f := Launch(agents, tasks);
    LaunchIsValid(agents, tasks);
    StrandsIffHazard(f);
    if a: nat, t: nat :| Hazard(f, a, t) {
      RiskIsHazard(agents, tasks, a, t);
    }
    if a: nat, t: nat, u: nat :| Risk(agents, tasks, a, t, u) {
      RiskIsHazard(agents, tasks, a, t);
    }
  }

  /** Some run hangs if and only if, besides, another agent cannot run one of those two tasks. */
  lemma HangsIff(agents: seq<AgentInfo>, tasks: seq<Task>)
    requires RetriesOk(tasks)
    ensures ValidFleet(Launch(agents, tasks))
    ensures CanHang(Launch(agents, tasks)) <==> HangingFleet(agents, tasks)
  {
    var f := Launch(agents, tasks);
    LaunchIsValid(agents, tasks);
    HangsIffHazardAndBystander(f);
    if a: nat, t: nat, b: nat :| HazardWithBystander(f, a, t, b) {
      RiskIsHazard(agents, tasks, a, t);
      var u :| Risk(agents, tasks, a, t, u);
      assert Unable(agents, tasks, b, t);
    }
    if a: nat, t: nat, u: nat, b: nat :| Risk(agents, tasks, a, t, u) && Unable(agents, tasks, b, t) {
      RiskIsHazard(agents, tasks, a, t);
      assert HazardWithBystander(f, a, t, b);
    }
  }

  /** The smallest hang: one agent with KVM and two slots, one plain agent, and two tasks that need KVM. */
  lemma HangExample()
    ensures var agents := [AgentInfo("a:7001", 2, ["kvm=true"]), AgentInfo("b:7001", 1, [])];
      var tasks := [Task("t1", 0, ["kvm=true"]), Task("t2", 0, ["kvm=true"])];
      ValidFleet(Launch(agents, tasks)) && CanHang(Launch(agents, tasks))
  {
    var agents := [AgentInfo("a:7001", 2, ["kvm=true"]), AgentInfo("b:7001", 1, [])];
    var tasks := [Task("t1", 0, ["kvm=true"]), Task("t2", 0, ["kvm=true"])];
    OneLabel("kvm=true");
    assert Risk(agents, tasks, 0, 0, 1);
    assert Unable(agents, tasks, 1, 0);
    HangsIff(agents, tasks);
  }

  /** Every stop finishes everything and lets `join` return, whatever the answers. */
  ghost predicate FinishesAlways(f: Fleet)
    requires ValidFleet(f)
  {
    forall sched :: Legal(f, sched) && Quiescent(After(f, sched)) ==>
      After(f, sched).remaining == 0 && AllExited(After(f, sched))
  }

  /** With one slot per agent every interleaving finishes; so it does for a single task. */
  lemma OneSlotFleetsFinish(agents: seq<AgentInfo>, tasks: seq<Task>)
    requires RetriesOk(tasks)
    requires |tasks| <= 1 || forall a :: 0 <= a < |agents| ==> agents[a].slots <= 1
    ensures ValidFleet(Launch(agents, tasks)) && FinishesAlways(Launch(agents, tasks))
  {
    var f := Launch(agents, tasks);
    StrandsIff(agents, tasks);
    assert !StrandingFleet(agents, tasks);
    forall sched | Legal(f, sched) && Quiescent(After(f, sched))
      ensures After(f, sched).remaining == 0 && AllExited(After(f, sched))
    {
      assert Reachable(f, After(f, sched));
      HangsIffOrphanAndLiveAgent(f, After(f, sched));
    }
  }

  // ----- reliable agents

  /** No worker of agent `c` ever comes back with an agent error. */
  ghost predicate NeverErrs(f: Fleet, sched: seq<Turn>, c: nat)
    requires ValidFleet(f) && Legal(f, sched)
    decreases |sched|
  {
    |sched| > 0 ==>
      var n := |sched| - 1;
      && NeverErrs(f, sched[..n], c)
      && !(After(f, sched[..n]).pc[sched[n].worker].Running? && f.seat[sched[n].worker] == c
           && sched[n].result.status.AgentError?)
  }

  lemma {:induction false} ReliableAgentsStay(f: Fleet, sched: seq<Turn>, c: nat)
    requires ValidFleet(f) && Legal(f, sched) && NeverErrs(f, sched, c) && c < |f.agents|
    ensures After(f, sched).alive[c]
  {
    if |sched| == 0 {
    } else {
      var n := |sched| - 1;
      var s := After(f, sched[..n]);
      ReliableAgentsStay(f, sched[..n], c);
      ScheduleKeepsInv(f, sched[..n]);
      SectionKeepsAgent(f, s, sched[n].worker, sched[n].result, c);
    }
  }

  lemma SectionKeepsAgent(f: Fleet, s: State, w: nat, res: AttemptResult, c: nat)
    requires Inv(f, s) && Enabled(s, w) && c < |s.alive| && s.alive[c]
    requires s.pc[w].Running? && f.seat[w] == c ==> !res.status.AgentError?
    ensures Section(f, s, w, res).alive[c]
  {
    if s.pc[w].Running? {
      CompleteEffect(f, s, w, res);
    }
  }

  /** A run in which every task has a capable agent that never errs cannot stop with work left. */
  lemma ReliableRunsFinish(f: Fleet, sched: seq<Turn>)
    requires ValidFleet(f) && Legal(f, sched) && Quiescent(After(f, sched))
    requires forall t :: 0 <= t < |f.tasks| ==>
      exists c: nat :: c < |f.agents| && c in f.capable[t] && NeverErrs(f, sched, c)
    ensures After(f, sched).remaining == 0 && AllExited(After(f, sched))
  {
    var s := After(f, sched);
    assert Reachable(f, s);
    forall t: nat | t < |s.st| ensures !Orphan(f, s, t) {
      var c: nat :| c < |f.agents| && c in f.capable[t] && NeverErrs(f, sched, c);
      ReliableAgentsStay(f, sched, c);
    }
    AllFinishedIffNoOrphan(f, s);
    HangsIffOrphanAndLiveAgent(f, s);
  }

  // ----- bounds

  /** In every reachable state at most `slots` tasks are running on an agent. */
  lemma NeverMoreThanSlots(agents: seq<AgentInfo>, tasks: seq<Task>, s: State, a: nat)
    requires RetriesOk(tasks) && a < |agents|
    requires ValidFleet(Launch(agents, tasks)) && Reachable(Launch(agents, tasks), s)
    ensures |TasksAt(Launch(agents, tasks), s, a)| <= if agents[a].slots == 0 then 1 else agents[a].slots
  {
    SlotLimit(Launch(agents, tasks), s, a);
    WorkersAreSlots(agents, tasks, a);
  }

  /** A whole run of an accepted job file makes at most 11 attempts per task plus one per slot. */
  lemma AttemptsPerJobFile(agents: seq<AgentInfo>, tasks: seq<Task>, s: State)
    requires RetriesOk(tasks) && forall t :: 0 <= t < |tasks| ==> tasks[t].retries <= 10
    requires ValidFleet(Launch(agents, tasks)) && Reachable(Launch(agents, tasks), s)
    ensures TotalAttempts(s) <= 11 * |tasks| +
      Sum(seq(|agents|, a requires 0 <= a < |agents| => if agents[a].slots == 0 then 1 else agents[a].slots))
  {
    AttemptBoundForJobFiles(Launch(agents, tasks), s);
    SeatsTotal(agents, |agents|);
    assert seq(|agents|, a requires 0 <= a < |agents| => if agents[a].slots == 0 then 1 else agents[a].slots)
        == seq(|agents|, a requires 0 <= a < |agents| => SlotsOf(agents[a]));
  }
}
