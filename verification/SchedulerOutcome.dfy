/** How a run can end: exact stuck states, verdicts, messages, slot limits and retry placement. */
module SchedulerOutcome {
  import opened SchedulerModel
  import opened SchedulerInvariant
  import opened SchedulerSteps

  // ----- no lost wakeup, and the exact stuck states

  /** The "prefer a fresh agent" rule never leaves a task that some live agent can run unpickable by all. */
  lemma FreshRuleLeavesAPicker(f: Fleet, s: State, t: nat) returns (a: nat)
    requires Shape(f, s) && t < |s.st| && !s.st[t].done && !s.st[t].running && AnyLiveCapable(f, s.alive, t)
    ensures a < |s.alive| && s.alive[a] && Pickable(f, s, a, t)
  {
    a :| a < |s.alive| && s.alive[a] && a in f.capable[t];
    if HasFreshCandidate(f, s, t, a) {
      a :| a < |s.alive| && s.alive[a] && a in f.capable[t] && a !in s.st[t].tried;
    }
  }

  /** No lost wakeup: a worker asleep in `cv_.wait` has a live agent, work remains, and `pick` would fail. */
  lemma SleepersHaveNothingToDo(f: Fleet, s: State, w: nat)
    requires ValidFleet(f) && Reachable(f, s) && w < |s.pc| && s.pc[w].Asleep?
    ensures Shape(f, s) && s.alive[f.seat[w]] && s.remaining > 0 && Pick(f, s, f.seat[w], 0).None?
  {
    ReachableInv(f, s);
  }

  /** When nobody can move, the tasks still open are exactly the orphans. */
  lemma OpenTasksAreOrphans(f: Fleet, s: State, t: nat)
    requires ValidFleet(f) && Inv(f, s) && Quiescent(s) && t < |s.st|
    ensures !s.st[t].done <==> Orphan(f, s, t)
  {
    if !s.st[t].done && !Orphan(f, s, t) {
      if s.st[t].running {
        var w :| RunBy(s, w, t);
        assert Enabled(s, w);
      } else {
        var a := FreshRuleLeavesAPicker(f, s, t);
        assert Staffed(f, a);
        var w: nat :| Seated(f, w, a);
        assert !Enabled(s, w);
        OpenBounds(s.st);
      }
    }
  }

  /** A run that has stopped has finished every task if and only if it left no orphan. */
  lemma AllFinishedIffNoOrphan(f: Fleet, s: State)
    requires ValidFleet(f) && Reachable(f, s) && Quiescent(s)
    ensures Inv(f, s)
    ensures s.remaining == 0 <==> forall t: nat :: t < |s.st| ==> !Orphan(f, s, t)
  {
    ReachableInv(f, s);
    OpenBounds(s.st);
    forall t: nat | t < |s.st| ensures !s.st[t].done <==> Orphan(f, s, t) {
      OpenTasksAreOrphans(f, s, t);
    }
  }

  /** With work left, the workers of a live agent are neither gone nor busy: they sleep. */
  lemma LiveAgentsSleep(f: Fleet, s: State)
    requires ValidFleet(f) && Shape(f, s) && WorkersOk(f, s) && Quiescent(s)
    ensures s.remaining > 0 && AnyAgentAlive(s) ==> exists w :: 0 <= w < |s.pc| && s.pc[w].Asleep?
    ensures (exists w :: 0 <= w < |s.pc| && s.pc[w].Asleep?) ==> s.remaining > 0 && AnyAgentAlive(s)
  {
    if s.remaining > 0 && AnyAgentAlive(s) {
      var a: nat :| a < |s.alive| && s.alive[a];
      assert Staffed(f, a);
      var w: nat :| Seated(f, w, a);
      assert !Enabled(s, w) && !s.pc[w].Exited?;
    }
  }

  lemma StoppedMeansExitedOrAsleep(s: State)
    requires Quiescent(s)
    ensures AllExited(s) <==> !Deadlocked(s)
  {
    if !AllExited(s) {
      var w :| 0 <= w < |s.pc| && !s.pc[w].Exited?;
      assert !Enabled(s, w);
    }
  }

  /** A run that has stopped hangs if and only if it left an orphan while some agent is still alive. */
  lemma HangsIffOrphanAndLiveAgent(f: Fleet, s: State)
    requires ValidFleet(f) && Reachable(f, s) && Quiescent(s)
    ensures Shape(f, s)
    ensures Deadlocked(s) <==> (exists t: nat :: t < |s.st| && Orphan(f, s, t)) && AnyAgentAlive(s)
    ensures AllExited(s) <==> s.remaining == 0 || !AnyAgentAlive(s)
  {
    AllFinishedIffNoOrphan(f, s);
    LiveAgentsSleep(f, s);
    StoppedMeansExitedOrAsleep(s);
    assert s.remaining >= 0 by {
      OpenBounds(s.st);
    }
  }

  /** In a hang every open task has lost all its agents, the last one taking it down after being retired. */
  lemma HungTasks(f: Fleet, s: State, t: nat)
    requires ValidFleet(f) && Reachable(f, s) && Deadlocked(s) && t < |s.st| && !s.st[t].done
    ensures Shape(f, s) && Orphan(f, s, t) && |s.st[t].attempts| > 0
    ensures Last(s.st[t].attempts).agent in s.dead
  {
    ReachableInv(f, s);
    OpenTasksAreOrphans(f, s, t);
  }

  /** An orphan is born in one way only: a worker brings its task back to an agent already retired by another slot. */
  lemma OrphansComeFromLateReturns(f: Fleet, s: State, w: nat, res: AttemptResult, t: nat)
    requires ValidFleet(f) && Reachable(f, s) && Shape(f, s) && Enabled(s, w)
    requires !Orphan(f, s, t) && Orphan(f, Section(f, s, w, res), t)
    ensures s.pc[w] == Running(t) && !s.alive[f.seat[w]] && !res.status.Passed?
    ensures exists v :: v != w && Seated(f, v, f.seat[w])
  {
    ReachableInv(f, s);
    if s.pc[w].Running? {
      CompleteEffect(f, s, w, res);
      var m := Complete(f, s, w, res);
      CheckKeepsOrphans(f, m, w, t);
      assert Orphan(f, m, t);
      assert !Retires(f, s, w, res);
    } else {
      CheckKeepsOrphans(f, s, w, t);
    }
  }

  lemma CheckKeepsOrphans(f: Fleet, s: State, w: nat, t: nat)
    requires Shape(f, s) && w < |s.pc| && s.pc[w].Ready?
    ensures Shape(f, Check(f, s, w)) && (Orphan(f, Check(f, s, w), t) ==> Orphan(f, s, t))
  {
  }

  // ----- verdicts

  /** What a reported status says about the attempts. */
  lemma Verdicts(f: Fleet, s: State, t: nat)
    requires ValidFleet(f) && Reachable(f, s) && t < |s.st| && t < |f.tasks|
    ensures var ts, retries := s.st[t], f.tasks[t].retries;
      var at := ts.attempts;
      && (ts.final.Passed? <==> |at| > 0 && Last(at).result.status.Passed?)
      && (ts.final.Failed? <==> |at| > 0 && Last(at).result.status.Failed? && Failures(at) == retries + 1)
      && (ts.final.TimedOut? <==> |at| > 0 && Last(at).result.status.TimedOut? && Failures(at) == retries + 1)
      && (forall k :: 0 <= k < |at| - 1 ==> !at[k].result.status.Passed?)
      && Failures(at) <= retries + 1
      && (ts.final.Unschedulable? ==> Failures(at) <= retries)
  {
    ReachableInv(f, s);
    TaskVerdict(f, s.alive, t, s.st[t]);
  }

  lemma TaskVerdict(f: Fleet, alive: seq<bool>, t: nat, ts: TaskState)
    requires t < |f.tasks| == |f.capable| && TaskOk(f, alive, t, ts)
    ensures var retries, at := f.tasks[t].retries, ts.attempts;
      && (ts.final.Passed? <==> |at| > 0 && Last(at).result.status.Passed?)
      && (ts.final.Failed? <==> |at| > 0 && Last(at).result.status.Failed? && Failures(at) == retries + 1)
      && (ts.final.TimedOut? <==> |at| > 0 && Last(at).result.status.TimedOut? && Failures(at) == retries + 1)
      && (forall k :: 0 <= k < |at| - 1 ==> !at[k].result.status.Passed?)
      && (!ts.final.Passed? ==> forall k :: 0 <= k < |at| ==> !at[k].result.status.Passed?)
      && Failures(at) <= retries + 1
      && (ts.final.Unschedulable? ==> Failures(at) <= retries)
  {
    forall k | 0 <= k < |ts.attempts| && ts.attempts[k].result.status.Passed?
      ensures k == |ts.attempts| - 1 && ts.final.Passed?
    {
      assert AttemptOk(f, alive, t, ts, k);
    }
    assert |ts.attempts| > 0 ==> AttemptOk(f, alive, t, ts, |ts.attempts| - 1);
  }

  /** A task reported unschedulable at the end has no live capable agent, no pass and budget left. */
  lemma UnschedulableVerdict(f: Fleet, s: State, t: nat)
    requires ValidFleet(f) && Reachable(f, s) && Quiescent(s) && t < |s.st| && s.st[t].final.Unschedulable?
    ensures |f.capable| == |f.tasks| == |s.st| && !AnyLiveCapable(f, s.alive, t)
    ensures forall k :: 0 <= k < |s.st[t].attempts| ==> !s.st[t].attempts[k].result.status.Passed?
    ensures Failures(s.st[t].attempts) <= f.tasks[t].retries
  {
    ReachableInv(f, s);
    OpenTasksAreOrphans(f, s, t);
    assert TaskOk(f, s.alive, t, s.st[t]);
    TaskVerdict(f, s.alive, t, s.st[t]);
  }

  /** The promised explanation of an unschedulable task is missing exactly for the orphans. */
  lemma MessageMissingIffOrphan(f: Fleet, s: State, t: nat)
    requires ValidFleet(f) && Reachable(f, s) && Quiescent(s) && t < |s.st| && s.st[t].final.Unschedulable?
    ensures Shape(f, s)
    ensures s.st[t].message == "" <==> Orphan(f, s, t)
  {
    ReachableInv(f, s);
    OpenTasksAreOrphans(f, s, t);
    assert TaskOk(f, s.alive, t, s.st[t]);
  }

  /** `TaskOutcome::flaky`. */
  predicate Flaky(final: FinalStatus, at: seq<AttemptRecord>) {
    final.Passed? && exists k :: 0 <= k < |at| && (at[k].result.status.Failed? || at[k].result.status.TimedOut?)
  }

  lemma {:induction false} FailuresPositive(at: seq<AttemptRecord>)
    ensures Failures(at) > 0 <==>
      exists k :: 0 <= k < |at| && (at[k].result.status.Failed? || at[k].result.status.TimedOut?)
  {
    if |at| == 0 {
    } else {
      var n := |at| - 1;
      FailuresPositive(at[..n]);
      if k: nat :| k < |at| && (at[k].result.status.Failed? || at[k].result.status.TimedOut?) {
        assert k < n ==> at[..n][k] == at[k];
      }
    }
  }

  /** Flaky means: passed in the end, after spending between one and `retries` failures. */
  lemma FlakyMeansRetried(f: Fleet, s: State, t: nat)
    requires ValidFleet(f) && Reachable(f, s) && t < |s.st| && t < |f.tasks|
    ensures Flaky(s.st[t].final, s.st[t].attempts) <==>
      s.st[t].final.Passed? && 1 <= s.st[t].failures <= f.tasks[t].retries
  {
    ReachableInv(f, s);
    assert TaskOk(f, s.alive, t, s.st[t]);
    FailuresPositive(s.st[t].attempts);
  }

  // ----- placement

  /** An attempt never lands on an incapable agent, and an agent error always retires its agent. */
  lemma AttemptsAreRouted(f: Fleet, s: State, t: nat, k: nat)
    requires ValidFleet(f) && Reachable(f, s) && t < |s.st| && k < |s.st[t].attempts|
    ensures t < |f.capable| && s.st[t].attempts[k].agent in f.capable[t]
    ensures s.st[t].attempts[k].result.status.AgentError? ==> s.st[t].attempts[k].agent in s.dead
  {
    ReachableInv(f, s);
    assert TaskOk(f, s.alive, t, s.st[t]);
    assert AttemptOk(f, s.alive, t, s.st[t], k);
  }

  /**
   * Whenever a section ends with its worker holding a task its agent has had before, every other agent
   * alive and able at that moment has had the task too.
   */
  lemma PickPrefersFreshAgents(f: Fleet, s: State, w: nat, res: AttemptResult, t: nat, c: nat)
    requires ValidFleet(f) && Reachable(f, s) && Shape(f, s) && Enabled(s, w)
    requires var r := Section(f, s, w, res);
      && r.pc[w] == Running(t)
      && UsedBefore(r.st[t].attempts, |r.st[t].attempts|, f.seat[w])
      && c < |r.alive| && r.alive[c] && c in f.capable[t] && c != f.seat[w]
    ensures var at := Section(f, s, w, res).st[t].attempts; UsedBefore(at, |at|, c)
  {
    ReachableInv(f, s);
    SectionKeepsInv(f, s, w, res);
    var r := Section(f, s, w, res);
    assert Placed(f, r.alive, t, r.st[t], f.seat[w]);
    assert TaskOk(f, r.alive, t, r.st[t]);
  }

  // ----- slots

  /** The workers of agent `a` that are running a task. */
  ghost function RunningAt(f: Fleet, s: State, a: nat): set<nat> {
    set w: nat | w < |s.pc| && w < |f.seat| && f.seat[w] == a && s.pc[w].Running?
  }

  ghost function WorkersAt(f: Fleet, a: nat): set<nat> {
    set w: nat | w < |f.seat| && f.seat[w] == a
  }

  lemma SubsetSize<T>(a: set<T>, b: set<T>)
    requires a <= b
    ensures |a| <= |b|
  {
    if a != {} {
      var x :| x in a;
      SubsetSize(a - {x}, b - {x});
    }
  }

  /** The tasks marked running that a worker of agent `a` holds. */
  ghost function TasksAt(f: Fleet, s: State, a: nat): set<nat> {
    set t: nat | t < |s.st| && s.st[t].running && RunsOn(f, s, t, a)
  }

  ghost predicate RunsOn(f: Fleet, s: State, t: nat, a: nat) {
    exists w :: RunBy(s, w, t) && Seated(f, w, a)
  }

  /** A set whose members have distinct images is as large as its image. */
  lemma {:induction false} SameSize(workers: set<nat>, tasks: set<nat>, task: nat -> nat)
    requires forall v, w :: v in workers && w in workers && v != w ==> task(v) != task(w)
    requires forall t :: t in tasks <==> exists w :: w in workers && task(w) == t
    ensures |workers| == |tasks|
  {
    if workers == {} {
      assert tasks == {};
    } else {
      var w :| w in workers;
      SameSize(workers - {w}, tasks - {task(w)}, task);
    }
  }

  /** The tasks running on an agent are as many as its busy workers, so never more than its workers. */
  lemma SlotLimit(f: Fleet, s: State, a: nat)
    requires ValidFleet(f) && Reachable(f, s)
    ensures |TasksAt(f, s, a)| == |RunningAt(f, s, a)| <= |WorkersAt(f, a)|
    ensures forall t: nat :: t < |s.st| && s.st[t].running ==> exists b: nat :: b < |f.agents| && t in TasksAt(f, s, b)
  {
    ReachableInv(f, s);
    BusyTasks(f, s, a);
    SubsetSize(RunningAt(f, s, a), WorkersAt(f, a));
    forall t: nat | t < |s.st| && s.st[t].running
      ensures exists b: nat :: b < |f.agents| && t in TasksAt(f, s, b)
    {
      var b := RunsSomewhere(f, s, t);
    }
  }

  lemma RunsSomewhere(f: Fleet, s: State, t: nat) returns (a: nat)
    requires Inv(f, s) && t < |s.st| && s.st[t].running
    ensures a < |f.agents| && t in TasksAt(f, s, a)
  {
    var w: nat :| RunBy(s, w, t);
    a := f.seat[w];
    assert Seated(f, w, a);
  }

  lemma BusyTasks(f: Fleet, s: State, a: nat)
    requires Inv(f, s)
    ensures |TasksAt(f, s, a)| == |RunningAt(f, s, a)|
  {
    var task := (w: nat) => if w < |s.pc| && s.pc[w].Running? then s.pc[w].task else 0;
    var workers, tasks := RunningAt(f, s, a), TasksAt(f, s, a);
    forall v, w | v in workers && w in workers && v != w ensures task(v) != task(w) {
      assert v < w || w < v;
    }
    forall t: nat ensures t in tasks <==> exists w :: w in workers && task(w) == t {
      if t in tasks {
        var w :| RunBy(s, w, t) && Seated(f, w, a);
        assert w in workers && task(w) == t;
      }
      if w :| w in workers && task(w) == t {
        assert RunBy(s, w, t) && Seated(f, w, a);
      }
    }
    SameSize(workers, tasks, task);
  }
}
