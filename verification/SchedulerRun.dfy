/** The class `Run`: the scheduler's loops over its own fields, each proved against the model's steps. */
module SchedulerRun {
  import opened JobLabels
  import opened Sums
  import opened SchedulerModel
  import opened SchedulerInvariant
  import opened SchedulerSteps
  import opened SchedulerTermination
  import opened SchedulerOutcome
  import opened SchedulerHazard
  import opened SchedulerHistory
  import opened SchedulerFleet
  import opened SchedulerUnexplained

  datatype AddressedAttempt = AddressedAttempt(agent: string, result: AttemptResult)

  datatype TaskOutcome = TaskOutcome(
    task: Task,
    status: FinalStatus,
    attempts: seq<AddressedAttempt>,
    message: string)

  class Run {
    const agents: seq<AgentInfo>
    const tasks: seq<Task>
    var st: seq<TaskState>
    var alive: seq<bool>
    var dead: seq<nat>
    var remaining: int
    var workers: seq<Worker>

    ghost function F(): Fleet {
      Launch(agents, tasks)
    }

    function View(): State
      reads this
    {
      State(st, alive, dead, remaining, workers)
    }

    ghost predicate Valid()
      reads this
    {
      Shape(F(), View()) && remaining == CountOpen(st)
    }

    constructor (agents: seq<AgentInfo>, tasks: seq<Task>)
      requires RetriesOk(tasks)
      ensures this.agents == agents && this.tasks == tasks
      ensures ValidFleet(F()) && Valid() && Resolve(F(), View()) == Start(F())
    {
      this.agents := agents;
      this.tasks := tasks;
      st := seq(|tasks|, _ => FRESH);
      alive := seq(|agents|, _ => true);
      dead := [];
      remaining := |tasks|;
      workers := seq(|Seats(agents, |agents|)|, _ => Ready);
      new;
      LaunchIsValid(agents, tasks);
      SumBetween(OpenFlags(st), 1, 1);
    }

    method Able(a: nat, t: nat) returns (able: bool)
      requires a < |agents| && t < |tasks|
      ensures able <==> a in F().capable[t]
    {
      able := LabelsSatisfy(agents[a].labels, tasks[t].needs);
    }

    method FreshCandidate(t: nat, except: nat) returns (found: bool)
      requires Valid() && t < |tasks|
      ensures found <==> HasFreshCandidate(F(), View(), t, except)
    {
      for a := 0 to |agents|
        invariant forall b :: 0 <= b < a ==>
          !(b != except && alive[b] && b in F().capable[t] && b !in st[t].tried)
      {
        if a != except && alive[a] {
          var able := Able(a, t);
          if able && a !in st[t].tried {
            return true;
          }
        }
      }
      return false;
    }

    method PickTask(a: nat) returns (r: Option<nat>)
      requires Valid() && a < |agents|
      ensures r == Pick(F(), View(), a, 0)
    {
      for t := 0 to |tasks|
        invariant Pick(F(), View(), a, 0) == Pick(F(), View(), a, t)
      {
        if st[t].done || st[t].running {
          continue;
        }
        var able := Able(a, t);
        if !able {
          continue;
        }
        if a in st[t].tried {
          var better := FreshCandidate(t, a);
          if better {
            continue;
          }
        }
        return Some(t);
      }
      return None;
    }

    /** `--remaining_` never underflows: the closed task was open. */
    method Finish(t: nat, final: FinalStatus, message: string)
      requires Valid() && t < |st| && !st[t].done
      modifies this`st, this`remaining
      ensures Valid() && remaining >= 0
      ensures st == old(st)[t := Close(old(st)[t], final, message)]
      ensures remaining == old(remaining) - 1
    {
      OpenUpdate(st, t, Close(st[t], final, message));
      OpenBounds(st[t := Close(st[t], final, message)]);
      st := st[t := st[t].(done := true)];
      st := st[t := st[t].(final := final)];
      st := st[t := st[t].(message := message)];
      assert st == old(st)[t := Close(old(st)[t], final, message)];
      remaining := remaining - 1;
    }

    method CapableAgents(t: nat) returns (anyCapable: bool, anyLiveCapable: bool)
      requires Valid() && t < |tasks|
      ensures anyCapable <==> exists a :: 0 <= a < |agents| && a in F().capable[t]
      ensures anyLiveCapable <==> AnyLiveCapable(F(), alive, t)
    {
      anyCapable, anyLiveCapable := false, false;
      for a := 0 to |agents|
        invariant anyCapable <==> exists b :: 0 <= b < a && b in F().capable[t]
        invariant anyLiveCapable <==> exists b :: 0 <= b < a && alive[b] && b in F().capable[t]
      {
        var able := Able(a, t);
        if !able {
          continue;
        }
        anyCapable := true;
        if alive[a] {
          anyLiveCapable := true;
        }
      }
    }

    method JoinNeeds(t: nat) returns (req: string)
      requires t < |tasks|
      ensures req == Join(tasks[t].needs)
    {
      req := "";
      for i := 0 to |tasks[t].needs|
        invariant req == Join(tasks[t].needs[..i])
      {
        req := req + (if req == "" then "" else ", ") + tasks[t].needs[i];
        assert tasks[t].needs[..i + 1][..i] == tasks[t].needs[..i];
      }
      assert tasks[t].needs[..|tasks[t].needs|] == tasks[t].needs;
    }

    method Explanation(t: nat, anyCapable: bool) returns (message: string)
      requires t < |tasks| && (anyCapable <==> exists a :: 0 <= a < |agents| && a in F().capable[t])
      ensures message == Reason(F(), t)
    {
      var req := JoinNeeds(t);
      message := if anyCapable then "every agent that could run this task became unreachable"
                 else "no agent provides the required labels" + (if req == "" then "" else " [" + req + "]");
    }

    method ResolveUnschedulable()
      requires Valid()
      modifies this`st, this`remaining
      ensures Valid() && View() == Resolve(F(), old(View()))
    {
      for t := 0 to |tasks|
        invariant Valid()
        invariant st == SettleUpTo(F(), alive, old(st), t)
      {
        SettleNext(F(), alive, old(st), t);
        if st[t].done || st[t].running {
          continue;
        }
        var anyCapable, anyLiveCapable := CapableAgents(t);
        if anyLiveCapable {
          continue;
        }
        var message := Explanation(t, anyCapable);
        Finish(t, FinalStatus.Unschedulable, message);
      }
    }

    /** The part of the loop body after `lk.lock()`: record the answer, judge it, notify everybody. */
    method TakeBack(w: nat, res: AttemptResult)
      requires Valid() && w < |workers| && workers[w].Running? && !st[workers[w].task].done
      modifies this
      ensures View() == Complete(F(), old(View()), w, res)
    {
      var a := Seats(agents, |agents|)[w];
      var t := workers[w].task;
      st := st[t := st[t].(running := false, tried := st[t].tried + {a},
                           attempts := st[t].attempts + [AttemptRecord(a, res)])];
      OpenUpdate(old(st), t, st[t]);
      workers := workers[w := Ready];
      match res.status {
        case Passed =>
          Finish(t, FinalStatus.Passed, "");
        case Failed =>
          CountFailure(t, FinalStatus.Failed);
        case TimedOut =>
          CountFailure(t, FinalStatus.TimedOut);
        case AgentError =>
          if alive[a] {
            alive := alive[a := false];
            dead := dead + [a];
            ResolveUnschedulable();
          }
      }
      workers := WakeAll(workers);
    }

    method CountFailure(t: nat, verdict: FinalStatus)
      requires Valid() && t < |st| && !st[t].done
      modifies this`st, this`remaining
      ensures Valid()
      ensures st == old(st)[t := Spend(tasks[t], old(st)[t], verdict)]
      ensures remaining == old(remaining) - (if st[t].done then 1 else 0)
    {
      OpenUpdate(st, t, st[t].(failures := st[t].failures + 1));
      st := st[t := st[t].(failures := st[t].failures + 1)];
      if st[t].failures > tasks[t].retries {
        Finish(t, verdict, "");
      }
    }

    /** The loop head: leave when nothing remains or the agent is retired, else pick a task or wait. */
    method LoopHead(w: nat)
      requires Valid() && w < |workers| && workers[w].Ready?
      modifies this`st, this`workers
      ensures View() == Check(F(), old(View()), w)
    {
      var a := Seats(agents, |agents|)[w];
      if remaining > 0 && alive[a] {
        var picked := PickTask(a);
        if picked.None? {
          workers := workers[w := Asleep];
        } else {
          var t := picked.value;
          st := st[t := st[t].(running := true)];
          workers := workers[w := Running(t)];
        }
      } else {
        workers := WakeAll(workers[w := Exited]);
      }
    }

    /** One lock-held section of worker `w`; `res` is the executor's answer if it was running a task. */
    method WorkerSection(w: nat, res: AttemptResult)
      requires Inv(F(), View()) && w < |workers| && Enabled(View(), w)
      modifies this
      ensures View() == Section(F(), old(View()), w, res)
      ensures Inv(F(), View())
    {
      SectionKeepsInv(F(), View(), w, res);
      if workers[w].Running? {
        CompleteKeepsInv(F(), View(), w, res);
        TakeBack(w, res);
      }
      LoopHead(w);
    }

    /** `exec_.run`, if worker `w` is in it. */
    method Answer(w: nat, exec: (nat, nat, nat) -> AttemptResult) returns (res: AttemptResult)
      requires Valid() && w < |workers|
      ensures workers[w].Running? ==> res == exec(F().seat[w], workers[w].task, |st[workers[w].task].attempts|)
    {
      res := PASS;
      if workers[w].Running? {
        res := exec(Seats(agents, |agents|)[w], workers[w].task, |st[workers[w].task].attempts|);
      }
    }

    /**
     * The whole run under a demonic thread scheduler. The executor is arbitrary: `exec(a, t, k)` is what it answers
     * when agent `a` is given task `t` for its attempt number `k`. The run stops on every interleaving; `joined`
     * says whether every worker has left, so that `join` returns.
     */
    method Execute(exec: (nat, nat, nat) -> AttemptResult) returns (joined: bool)
      requires Valid() && ValidFleet(F()) && RetriesOk(tasks)
      requires Resolve(F(), View()) == Start(F())
      modifies this
      ensures Reachable(F(), View()) && Quiescent(View()) && AnsweredBy(View(), exec)
      ensures joined <==> AllExited(View())
      ensures joined <==> remaining == 0 || !AnyAgentAlive(View())
      ensures !HangingFleet(agents, tasks) ==> joined
      ensures !StrandingFleet(agents, tasks) ==> joined && remaining == 0
      ensures joined && !(StrandingFleet(agents, tasks) && AllEmployable(agents, tasks)) ==>
        forall t :: 0 <= t < |st| && st[t].final.Unschedulable? ==> st[t].message != ""
    {
      ResolveUnschedulable();
      ghost var sched: seq<Turn> := [];
      StartKeepsInv(F());
      while exists w :: 0 <= w < |workers| && Enabled(View(), w)
        invariant Legal(F(), sched) && After(F(), sched) == View()
        invariant Inv(F(), View()) && AnsweredBy(View(), exec)
        decreases PhiNat(F(), View())
      {
        var w :| 0 <= w < |workers| && Enabled(View(), w);
        var res := Answer(w, exec);
        SectionAnswered(F(), View(), w, res, exec);
        Step(F(), View(), w, res);
        ReachedBy(F(), sched, w, res);
        sched := sched + [Turn(w, res)];
        WorkerSection(w, res);
      }
      joined := forall w :: 0 <= w < |workers| ==> workers[w].Exited?;
      StoppedRun(agents, tasks, View());
    }

    /** What `execute` returns: outcomes in input order, and the addresses of the retired agents. */
    method Summary() returns (outcomes: seq<TaskOutcome>, deadAgents: seq<string>)
      requires Inv(F(), View())
      ensures |outcomes| == |tasks|
      ensures forall t :: 0 <= t < |tasks| ==> Reports(outcomes[t], agents, tasks[t], st[t])
      ensures |deadAgents| == |dead|
      ensures forall i :: 0 <= i < |dead| ==> dead[i] < |agents| && deadAgents[i] == agents[dead[i]].address
      ensures (forall a, b :: 0 <= a < b < |agents| ==> agents[a].address != agents[b].address) ==>
        forall i, j :: 0 <= i < j < |deadAgents| ==> deadAgents[i] != deadAgents[j]
    {
      forall t | 0 <= t < |tasks| ensures NamesAgents(agents, st[t]) {
        AttemptsNameAgents(F(), View(), t);
      }
      outcomes := Outcomes(agents, tasks, st);
      assert forall i :: 0 <= i < |dead| ==> dead[i] in dead;
      deadAgents := Addresses(agents, dead);
    }
  }

  /** The outcome shows the task, its verdict and message, and its attempts with the agents' addresses. */
  ghost predicate Reports(o: TaskOutcome, agents: seq<AgentInfo>, task: Task, ts: TaskState) {
    && o.task == task && o.status == ts.final && o.message == ts.message
    && |o.attempts| == |ts.attempts|
    && forall k :: 0 <= k < |ts.attempts| ==>
         && ts.attempts[k].agent < |agents|
         && o.attempts[k] == AddressedAttempt(agents[ts.attempts[k].agent].address, ts.attempts[k].result)
  }

  ghost predicate NamesAgents(agents: seq<AgentInfo>, ts: TaskState) {
    forall k :: 0 <= k < |ts.attempts| ==> ts.attempts[k].agent < |agents|
  }

  method Outcomes(agents: seq<AgentInfo>, tasks: seq<Task>, st: seq<TaskState>) returns (outcomes: seq<TaskOutcome>)
    requires |tasks| == |st| && forall t :: 0 <= t < |st| ==> NamesAgents(agents, st[t])
    ensures |outcomes| == |tasks|
    ensures forall t :: 0 <= t < |tasks| ==> Reports(outcomes[t], agents, tasks[t], st[t])
  {
    outcomes := [];
    for t := 0 to |tasks|
      invariant |outcomes| == t
      invariant forall i :: 0 <= i < t ==> Reports(outcomes[i], agents, tasks[i], st[i])
    {
      outcomes := outcomes + [Report(agents, tasks[t], st[t])];
    }
  }

  function Report(agents: seq<AgentInfo>, task: Task, ts: TaskState): (o: TaskOutcome)
    requires NamesAgents(agents, ts)
    ensures Reports(o, agents, task, ts)
  {
    TaskOutcome(task, ts.final,
                seq(|ts.attempts|, k requires 0 <= k < |ts.attempts| =>
                  AddressedAttempt(agents[ts.attempts[k].agent].address, ts.attempts[k].result)),
                ts.message)
  }

  function Addresses(agents: seq<AgentInfo>, dead: seq<nat>): (r: seq<string>)
    requires forall i :: 0 <= i < |dead| ==> dead[i] < |agents|
    requires forall i, j :: 0 <= i < j < |dead| ==> dead[i] != dead[j]
    ensures |r| == |dead| && forall i :: 0 <= i < |dead| ==> r[i] == agents[dead[i]].address
    ensures (forall a, b :: 0 <= a < b < |agents| ==> agents[a].address != agents[b].address) ==>
      forall i, j :: 0 <= i < j < |r| ==> r[i] != r[j]
  {
    var r := seq(|dead|, i requires 0 <= i < |dead| => agents[dead[i]].address);
    assert forall i, j :: 0 <= i < j < |dead| ==> dead[i] < dead[j] || dead[j] < dead[i];
    r
  }

  lemma AttemptsNameAgents(f: Fleet, s: State, t: nat)
    requires Inv(f, s) && t < |f.tasks|
    ensures t < |s.st| && NamesAgents(f.agents, s.st[t])
  {
    assert TaskOk(f, s.alive, t, s.st[t]);
    forall k | 0 <= k < |s.st[t].attempts| ensures s.st[t].attempts[k].agent < |f.agents| {
      assert AttemptOk(f, s.alive, t, s.st[t], k);
    }
  }

  lemma SettleNext(f: Fleet, alive: seq<bool>, st: seq<TaskState>, t: nat)
    requires |f.tasks| == |f.capable| == |st| && t < |st|
    ensures var r := SettleUpTo(f, alive, st, t);
      && r[t] == st[t]
      && SettleUpTo(f, alive, st, t + 1) == r[t := Settle(f, alive, t, st[t])]
      && (Settle(f, alive, t, st[t]) == st[t] ==> SettleUpTo(f, alive, st, t + 1) == r)
  {
  }

  lemma ReachedBy(f: Fleet, sched: seq<Turn>, w: nat, res: AttemptResult)
    requires ValidFleet(f) && Legal(f, sched) && Enabled(After(f, sched), w)
    ensures Legal(f, sched + [Turn(w, res)])
    ensures After(f, sched + [Turn(w, res)]) == Section(f, After(f, sched), w, res)
  {
    assert (sched + [Turn(w, res)])[..|sched|] == sched;
  }

  /** What stopping means for a fleet without the risk of stranding, and for one without that of hanging. */
  lemma StoppedRun(agents: seq<AgentInfo>, tasks: seq<Task>, s: State)
    requires RetriesOk(tasks) && ValidFleet(Launch(agents, tasks))
    requires Reachable(Launch(agents, tasks), s) && Quiescent(s)
    ensures AllExited(s) <==> s.remaining == 0 || !AnyAgentAlive(s)
    ensures !HangingFleet(agents, tasks) ==> AllExited(s)
    ensures !StrandingFleet(agents, tasks) ==> s.remaining == 0
    ensures AllExited(s) && !(StrandingFleet(agents, tasks) && AllEmployable(agents, tasks)) ==>
      forall t :: 0 <= t < |s.st| && s.st[t].final.Unschedulable? ==> s.st[t].message != ""
  {
    var f := Launch(agents, tasks);
    StoppedMeansExitedOrAsleep(s);
    HangsIffOrphanAndLiveAgent(f, s);
    HangsIff(agents, tasks);
    StrandsIff(agents, tasks);
    if AllExited(s) && !(StrandingFleet(agents, tasks) && AllEmployable(agents, tasks)) {
      ReturnedTasksAreExplained(agents, tasks, s);
    }
  }

  // ----- the summary's counts

  function Count(outcomes: seq<TaskOutcome>, s: FinalStatus): nat {
    if |outcomes| == 0 then 0
    else Count(outcomes[..|outcomes| - 1], s) + (if outcomes[|outcomes| - 1].status == s then 1 else 0)
  }

  predicate Spent(res: AttemptResult) {
    res.status.Failed? || res.status.TimedOut?
  }

  predicate FlakyOutcome(o: TaskOutcome) {
    o.status.Passed? && exists k :: 0 <= k < |o.attempts| && Spent(o.attempts[k].result)
  }

  function FlakyCount(outcomes: seq<TaskOutcome>): nat {
    if |outcomes| == 0 then 0
    else FlakyCount(outcomes[..|outcomes| - 1]) + (if FlakyOutcome(outcomes[|outcomes| - 1]) then 1 else 0)
  }

  /** The outcomes with a status, and the flaky ones. */
  ghost function With(outcomes: seq<TaskOutcome>, s: FinalStatus): set<nat> {
    set t: nat | t < |outcomes| && outcomes[t].status == s
  }

  ghost function FlakyOnes(outcomes: seq<TaskOutcome>): set<nat> {
    set t: nat | t < |outcomes| && FlakyOutcome(outcomes[t])
  }

  /** The counts are the sizes of these sets. */
  lemma {:induction false} CountIsSize(outcomes: seq<TaskOutcome>, s: FinalStatus)
    ensures Count(outcomes, s) == |With(outcomes, s)|
  {
    if |outcomes| == 0 {
      assert With(outcomes, s) == {};
    } else {
      var n := |outcomes| - 1;
      CountIsSize(outcomes[..n], s);
      OneMore(With(outcomes[..n], s), With(outcomes, s), n);
    }
  }

  /** A set grows by one exactly when the new index belongs to it. */
  lemma OneMore(before: set<nat>, after: set<nat>, n: nat)
    requires forall t :: t in before ==> t < n
    requires forall t :: t in after ==> t <= n
    requires forall t: nat :: t < n ==> (t in before <==> t in after)
    ensures |after| == |before| + (if n in after then 1 else 0)
  {
    assert after == before + (if n in after then {n} else {});
  }

  lemma {:induction false} FlakyCountIsSize(outcomes: seq<TaskOutcome>)
    ensures FlakyCount(outcomes) == |FlakyOnes(outcomes)|
  {
    if |outcomes| == 0 {
      assert FlakyOnes(outcomes) == {};
    } else {
      var n := |outcomes| - 1;
      FlakyCountIsSize(outcomes[..n]);
      OneMore(FlakyOnes(outcomes[..n]), FlakyOnes(outcomes), n);
    }
  }

  /** The four counts split the tasks, `all_passed` means what it says, and only passed tasks count as flaky. */
  lemma {:induction false} CountsSplit(outcomes: seq<TaskOutcome>)
    ensures Count(outcomes, FinalStatus.Passed) + Count(outcomes, FinalStatus.Failed)
          + Count(outcomes, FinalStatus.TimedOut) + Count(outcomes, FinalStatus.Unschedulable) == |outcomes|
    ensures Count(outcomes, FinalStatus.Passed) == |outcomes| <==>
      forall t :: 0 <= t < |outcomes| ==> outcomes[t].status.Passed?
    ensures FlakyCount(outcomes) <= Count(outcomes, FinalStatus.Passed)
    ensures FlakyCount(outcomes) == 0 <==> forall t :: 0 <= t < |outcomes| ==> !FlakyOutcome(outcomes[t])
  {
    if |outcomes| == 0 {
    } else {
      var n := |outcomes| - 1;
      CountsSplit(outcomes[..n]);
      assert forall t :: 0 <= t < n ==> outcomes[..n][t] == outcomes[t];
    }
  }

  /** `flaky` looks the same on the outcome as on the recorded attempts. */
  lemma FlakyIsReported(o: TaskOutcome, agents: seq<AgentInfo>, task: Task, ts: TaskState)
    requires Reports(o, agents, task, ts)
    ensures FlakyOutcome(o) <==> Flaky(ts.final, ts.attempts)
  {
    if FlakyOutcome(o) {
      var k :| 0 <= k < |o.attempts| && Spent(o.attempts[k].result);
      assert o.attempts[k].result == ts.attempts[k].result;
    }
    if Flaky(ts.final, ts.attempts) {
      var k :| 0 <= k < |ts.attempts| && Spent(ts.attempts[k].result);
      assert o.attempts[k].result == ts.attempts[k].result;
    }
  }
}
