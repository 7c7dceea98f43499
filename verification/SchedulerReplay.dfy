/**
 * Schedule independence: when the k-th answer for a task depends only on the task and k, and
 * agents never break, every interleaving on every fleet reports what a sequential retry loop would.
 */
module SchedulerReplay {
  import opened SchedulerModel
  import opened SchedulerInvariant
  import opened SchedulerSteps
  import opened SchedulerOutcome

  type Script = (nat, nat) -> AttemptResult

  ghost predicate NoErrors(answer: Script) {
    forall t, k :: !answer(t, k).status.AgentError?
  }

  /** Every attempt of the run was answered by the script. */
  ghost predicate Scripted(f: Fleet, sched: seq<Turn>, answer: Script)
    requires ValidFleet(f) && Legal(f, sched)
    decreases |sched|
  {
    |sched| > 0 ==>
      var n := |sched| - 1;
      var s, w := After(f, sched[..n]), sched[n].worker;
      && Scripted(f, sched[..n], answer)
      && (s.pc[w].Running? ==> sched[n].result == answer(s.pc[w].task, |s.st[s.pc[w].task].attempts|))
  }

  datatype Outcome = Outcome(final: FinalStatus, tries: nat)

  /** The sequential specification: try, and retry while the budget lasts. */
  function Sequential(answer: Script, t: nat, retries: nat, k: nat): Outcome
    requires k <= retries
    decreases retries - k
  {
    var status := answer(t, k).status;
    if status.Passed? then Outcome(FinalStatus.Passed, k + 1)
    else if k == retries then Outcome(if status.TimedOut? then FinalStatus.TimedOut else FinalStatus.Failed, k + 1)
    else Sequential(answer, t, retries, k + 1)
  }

  ghost predicate Answered(t: nat, at: seq<AttemptRecord>, answer: Script) {
    forall k :: 0 <= k < |at| ==> at[k].result == answer(t, k)
  }

  ghost predicate Faithful(s: State, answer: Script) {
    && (forall a :: 0 <= a < |s.alive| ==> s.alive[a])
    && (forall t :: 0 <= t < |s.st| ==> Answered(t, s.st[t].attempts, answer))
  }

  lemma SectionFaithful(f: Fleet, s: State, w: nat, res: AttemptResult, answer: Script)
    requires Inv(f, s) && Enabled(s, w) && Faithful(s, answer) && NoErrors(answer)
    requires s.pc[w].Running? ==> res == answer(s.pc[w].task, |s.st[s.pc[w].task].attempts|)
    ensures Faithful(Section(f, s, w, res), answer)
  {
    NobodyRetires(f, s, w, res);
    forall t: nat | t < |Section(f, s, w, res).st| {
      AnswersGrow(f, s, w, res, answer, t);
    }
  }

  lemma AnswersGrow(f: Fleet, s: State, w: nat, res: AttemptResult, answer: Script, t: nat)
    requires Inv(f, s) && Enabled(s, w) && t < |Section(f, s, w, res).st|
    requires t < |s.st| ==> Answered(t, s.st[t].attempts, answer)
    requires s.pc[w].Running? ==> res == answer(s.pc[w].task, |s.st[s.pc[w].task].attempts|)
    ensures Answered(t, Section(f, s, w, res).st[t].attempts, answer)
  {
    assert t < |s.st|;
    SectionAttempts(f, s, w, res, t);
  }

  lemma NobodyRetires(f: Fleet, s: State, w: nat, res: AttemptResult)
    requires Inv(f, s) && Enabled(s, w) && (s.pc[w].Running? ==> !res.status.AgentError?)
    ensures Section(f, s, w, res).alive == s.alive
  {
    if s.pc[w].Running? {
      CompleteEffect(f, s, w, res);
    }
  }

  lemma {:induction false} RunFaithful(f: Fleet, sched: seq<Turn>, answer: Script)
    requires ValidFleet(f) && Legal(f, sched) && Scripted(f, sched, answer) && NoErrors(answer)
    ensures Faithful(After(f, sched), answer)
  {
    if |sched| == 0 {
    } else {
      var n := |sched| - 1;
      RunFaithful(f, sched[..n], answer);
      ScheduleKeepsInv(f, sched[..n]);
      SectionFaithful(f, After(f, sched[..n]), sched[n].worker, sched[n].result, answer);
    }
  }

  lemma {:induction false} FailuresOfErrorFree(at: seq<AttemptRecord>)
    requires forall k :: 0 <= k < |at| ==> !at[k].result.status.AgentError? && !at[k].result.status.Passed?
    ensures Failures(at) == |at|
  {
    if |at| == 0 {
    } else {
      FailuresOfErrorFree(at[..|at| - 1]);
    }
  }

  // ----- the retry loop behind an attempt list

  /** Agent errors apart, the answers are the script's, counted by the failures so far. */
  ghost predicate Retried(t: nat, at: seq<AttemptRecord>, answer: Script) {
    forall k :: 0 <= k < |at| ==>
      at[k].result.status.AgentError? || at[k].result == answer(t, Failures(at[..k]))
  }

  /** Attempts lost to broken agents. */
  function Errors(at: seq<AttemptRecord>): (n: nat)
    ensures n <= |at|
  {
    if |at| == 0 then 0
    else Errors(at[..|at| - 1]) + (if at[|at| - 1].result.status.AgentError? then 1 else 0)
  }

  lemma {:induction false} Tally(at: seq<AttemptRecord>)
    requires forall k :: 0 <= k < |at| ==> !at[k].result.status.Passed?
    ensures Failures(at) + Errors(at) == |at|
  {
    if |at| == 0 {
    } else {
      Tally(at[..|at| - 1]);
    }
  }

  lemma FailuresStep(at: seq<AttemptRecord>, k: nat)
    requires k < |at|
    ensures var status := at[k].result.status;
      Failures(at[..k + 1]) == Failures(at[..k]) + (if status.Failed? || status.TimedOut? then 1 else 0)
  {
    assert at[..k + 1][..k] == at[..k];
  }

  lemma {:induction false} FailuresGrow(at: seq<AttemptRecord>, i: nat, j: nat)
    requires i <= j <= |at|
    ensures Failures(at[..i]) <= Failures(at[..j])
  {
    if i == j {
    } else {
      FailuresGrow(at, i, j - 1);
      FailuresStep(at, j - 1);
    }
  }

  /** The last attempt of a finished task ends the loop. */
  lemma LoopEnds(f: Fleet, alive: seq<bool>, t: nat, ts: TaskState, answer: Script)
    requires t < |f.tasks| == |f.capable| && TaskOk(f, alive, t, ts) && f.tasks[t].retries >= 0
    requires ts.done && !ts.final.Unschedulable? && Retried(t, ts.attempts, answer) && NoErrors(answer)
    ensures var at, retries := ts.attempts, f.tasks[t].retries;
      && |at| > 0 && Failures(at[..|at| - 1]) <= retries
      && Sequential(answer, t, retries, Failures(at[..|at| - 1])) == Outcome(ts.final, |at| - Errors(at))
  {
    var at := ts.attempts;
    var n := |at| - 1;
    TaskVerdict(f, alive, t, ts);
    FailuresStep(at, n);
    Tally(at[..n]);
    assert at[..n + 1] == at;
  }

  /** From any of its attempts on, a finished task followed the sequential loop, agent errors not counted. */
  lemma {:induction false} FollowsLoop(f: Fleet, alive: seq<bool>, t: nat, ts: TaskState, answer: Script, k: nat)
    requires t < |f.tasks| == |f.capable| && TaskOk(f, alive, t, ts) && f.tasks[t].retries >= 0
    requires ts.done && !ts.final.Unschedulable? && Retried(t, ts.attempts, answer) && NoErrors(answer)
    requires k < |ts.attempts|
    ensures var i, retries := Failures(ts.attempts[..k]), f.tasks[t].retries;
      i <= retries && Sequential(answer, t, retries, i) == Outcome(ts.final, |ts.attempts| - Errors(ts.attempts))
    decreases |ts.attempts| - k
  {
    var at := ts.attempts;
    LoopEnds(f, alive, t, ts, answer);
    if k == |at| - 1 {
    } else {
      TaskVerdict(f, alive, t, ts);
      FailuresStep(at, k);
      FailuresGrow(at, k + 1, |at| - 1);
      FollowsLoop(f, alive, t, ts, answer, k + 1);
    }
  }

  /** Every attempt of the run that is not an agent error was answered by the script. */
  ghost predicate Replayed(f: Fleet, sched: seq<Turn>, answer: Script)
    requires ValidFleet(f) && Legal(f, sched)
    decreases |sched|
  {
    |sched| > 0 ==>
      var n := |sched| - 1;
      var s, w, res := After(f, sched[..n]), sched[n].worker, sched[n].result;
      && Replayed(f, sched[..n], answer)
      && (s.pc[w].Running? ==>
            res.status.AgentError? || res == answer(s.pc[w].task, Failures(s.st[s.pc[w].task].attempts)))
  }

  lemma RetriedGrows(t: nat, at: seq<AttemptRecord>, r: AttemptRecord, answer: Script)
    requires Retried(t, at, answer)
    requires r.result.status.AgentError? || r.result == answer(t, Failures(at))
    ensures Retried(t, at + [r], answer)
  {
    var bt := at + [r];
    forall k | 0 <= k < |bt| ensures bt[k].result.status.AgentError? || bt[k].result == answer(t, Failures(bt[..k])) {
      assert bt[..k] == at[..k];
      assert k == |at| ==> bt[..k] == at;
    }
  }

  lemma {:induction false} RunRetried(f: Fleet, sched: seq<Turn>, answer: Script, t: nat)
    requires ValidFleet(f) && Legal(f, sched) && Replayed(f, sched, answer) && t < |f.tasks|
    ensures Retried(t, After(f, sched).st[t].attempts, answer)
  {
    if |sched| == 0 {
    } else {
      var n := |sched| - 1;
      var s, w, res := After(f, sched[..n]), sched[n].worker, sched[n].result;
      RunRetried(f, sched[..n], answer, t);
      ScheduleKeepsInv(f, sched[..n]);
      SectionRetried(f, s, w, res, answer, t);
    }
  }

  lemma SectionRetried(f: Fleet, s: State, w: nat, res: AttemptResult, answer: Script, t: nat)
    requires Inv(f, s) && Enabled(s, w) && t < |s.st| && Retried(t, s.st[t].attempts, answer)
    requires s.pc[w] == Running(t) ==> res.status.AgentError? || res == answer(t, Failures(s.st[t].attempts))
    ensures var r := Section(f, s, w, res); |r.st| == |s.st| && Retried(t, r.st[t].attempts, answer)
  {
    SectionAttempts(f, s, w, res, t);
    if s.pc[w] == Running(t) {
      RetriedGrows(t, s.st[t].attempts, AttemptRecord(f.seat[w], res), answer);
    } else {
      assert s.st[t].attempts + [] == s.st[t].attempts;
    }
  }

  /**
   * Agents may break anywhere: a task that was finished by its answers has the status of the sequential loop,
   * after as many attempts as the loop makes plus those lost to agent errors.
   */
  lemma StatusIndependence(f: Fleet, sched: seq<Turn>, answer: Script, t: nat)
    requires ValidFleet(f) && Legal(f, sched) && Replayed(f, sched, answer) && NoErrors(answer) && t < |f.tasks|
    requires After(f, sched).st[t].done && !After(f, sched).st[t].final.Unschedulable?
    ensures var ts, loop := After(f, sched).st[t], Sequential(answer, t, f.tasks[t].retries, 0);
      ts.final == loop.final && |ts.attempts| == loop.tries + Errors(ts.attempts)
  {
    var s := After(f, sched);
    ScheduleKeepsInv(f, sched);
    RunRetried(f, sched, answer, t);
    assert TaskOk(f, s.alive, t, s.st[t]);
    FollowsLoop(f, s.alive, t, s.st[t], answer, 0);
  }

  // ----- runs without agent errors

  /** Then attempts and failures count alike. */
  lemma AnsweredIsRetried(f: Fleet, alive: seq<bool>, t: nat, ts: TaskState, answer: Script)
    requires t < |f.tasks| == |f.capable| && TaskOk(f, alive, t, ts)
    requires Answered(t, ts.attempts, answer) && NoErrors(answer)
    ensures Retried(t, ts.attempts, answer) && Errors(ts.attempts) == 0
  {
    var at := ts.attempts;
    TaskVerdict(f, alive, t, ts);
    forall k | 0 <= k < |at| ensures at[k].result == answer(t, Failures(at[..k])) {
      FailuresOfErrorFree(at[..k]);
    }
    NoneLost(at);
  }

  lemma {:induction false} NoneLost(at: seq<AttemptRecord>)
    requires forall k :: 0 <= k < |at| ==> !at[k].result.status.AgentError?
    ensures Errors(at) == 0
  {
    if |at| == 0 {
    } else {
      NoneLost(at[..|at| - 1]);
    }
  }

  lemma AnsweredOutcome(f: Fleet, s: State, answer: Script, t: nat)
    requires Inv(f, s) && t < |f.tasks| && f.tasks[t].retries >= 0 && s.st[t].done && !s.st[t].final.Unschedulable?
    requires Answered(t, s.st[t].attempts, answer) && NoErrors(answer)
    ensures Outcome(s.st[t].final, |s.st[t].attempts|) == Sequential(answer, t, f.tasks[t].retries, 0)
  {
    assert TaskOk(f, s.alive, t, s.st[t]);
    AnsweredIsRetried(f, s.alive, t, s.st[t], answer);
    FollowsLoop(f, s.alive, t, s.st[t], answer, 0);
  }

  /** Only a task without any capable agent is unschedulable while every agent is alive, and it has no attempts. */
  lemma UnschedulableMeansIncapable(f: Fleet, s: State, t: nat)
    requires Inv(f, s) && t < |f.tasks| && s.st[t].done && forall a :: 0 <= a < |s.alive| ==> s.alive[a]
    ensures s.st[t].final.Unschedulable? ==> !exists a: nat :: a < |f.agents| && a in f.capable[t]
    ensures (!exists a: nat :: a < |f.agents| && a in f.capable[t]) ==>
      s.st[t].final.Unschedulable? && s.st[t].attempts == []
  {
    var ts := s.st[t];
    assert TaskOk(f, s.alive, t, ts);
    if !exists a: nat :: a < |f.agents| && a in f.capable[t] {
      assert |ts.attempts| > 0 ==> AttemptOk(f, s.alive, t, ts, 0);
    }
  }

  /** Whatever the fleet and the interleaving, a scripted run ends with the sequential outcome of every task. */
  lemma ScheduleIndependence(f: Fleet, sched: seq<Turn>, answer: Script, t: nat)
    requires ValidFleet(f) && Legal(f, sched) && Scripted(f, sched, answer) && NoErrors(answer)
    requires Quiescent(After(f, sched)) && t < |f.tasks|
    ensures var ts := After(f, sched).st[t];
      && ts.done
      && Answered(t, ts.attempts, answer)
      && if exists a: nat :: a < |f.agents| && a in f.capable[t] then
           Outcome(ts.final, |ts.attempts|) == Sequential(answer, t, f.tasks[t].retries, 0)
         else
           ts.final.Unschedulable? && ts.attempts == []
  {
    var s := After(f, sched);
    RunFaithful(f, sched, answer);
    ScheduleKeepsInv(f, sched);
    assert !Orphan(f, s, t);
    OpenTasksAreOrphans(f, s, t);
    UnschedulableMeansIncapable(f, s, t);
    if !s.st[t].final.Unschedulable? {
      AnsweredOutcome(f, s, answer, t);
    }
  }

  /** No interleaving of a scripted run can hang or leave work behind. */
  lemma ScriptedRunsFinish(f: Fleet, sched: seq<Turn>, answer: Script)
    requires ValidFleet(f) && Legal(f, sched) && Scripted(f, sched, answer) && NoErrors(answer)
    requires Quiescent(After(f, sched))
    ensures After(f, sched).remaining == 0 && AllExited(After(f, sched))
  {
    var s := After(f, sched);
    assert Reachable(f, s);
    AllFinishedIffNoOrphan(f, s);
    HangsIffOrphanAndLiveAgent(f, s);
    forall t: nat | t < |s.st| ensures !Orphan(f, s, t) {
      ScheduleIndependence(f, sched, answer, t);
    }
  }
}
