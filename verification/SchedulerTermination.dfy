/**
 * Every interleaving ends: an explicit potential falls with every lock-held section, whatever
 * the executor answers. The same accounting bounds the number of attempts of a whole run.
 */
module SchedulerTermination {
  import opened Sums
  import opened SchedulerModel
  import opened SchedulerInvariant
  import opened SchedulerSteps

  // ----- what is left to spend

  /** Attempts a task can still spend on test failures, plus the one that ends it. */
  function CreditOf(task: Task, ts: TaskState): int {
    if ts.done then 0 else task.retries + 1 - ts.failures
  }

  function Credits(f: Fleet, st: seq<TaskState>): seq<int>
    requires |st| <= |f.tasks|
  {
    seq(|st|, i requires 0 <= i < |st| => CreditOf(f.tasks[i], st[i]))
  }

  function WeightOf(n: nat, pc: Worker): int {
    match pc
    case Exited => 0
    case Asleep => n + 1
    case Running(_) => n + 1
    case Ready => n + 2
  }

  function Weights(pc: seq<Worker>): seq<int> {
    seq(|pc|, i requires 0 <= i < |pc| => WeightOf(|pc|, pc[i]))
  }

  /** The potential of a state. */
  function Phi(f: Fleet, s: State): int
    requires |s.st| <= |f.tasks|
  {
    (|s.pc| + 1) * Sum(Credits(f, s.st)) + Sum(Weights(s.pc))
  }

  function AttemptCounts(st: seq<TaskState>): seq<int> {
    seq(|st|, i requires 0 <= i < |st| => |st[i].attempts|)
  }

  function TotalAttempts(s: State): int {
    Sum(AttemptCounts(s.st))
  }

  /** One for every worker that has not left its loop. */
  function Stayers(pc: seq<Worker>): seq<int> {
    seq(|pc|, i requires 0 <= i < |pc| => if pc[i].Exited? then 0 else 1)
  }

  // ----- one section

  lemma SumDrop(xs: seq<int>, ys: seq<int>, k: nat)
    requires |xs| == |ys| && k < |xs| && ys[k] <= xs[k] - 1
    requires forall i :: 0 <= i < |xs| ==> ys[i] <= xs[i]
    ensures Sum(ys) <= Sum(xs) - 1
  {
    SumShift(xs, ys[k := ys[k] + 1], 0);
    SumUpdate(ys, k, ys[k] + 1);
  }

  /** The resolver never raises a task's credit and never touches its attempts. */
  lemma SettleCredit(f: Fleet, alive: seq<bool>, t: nat, ts: TaskState)
    requires t < |f.tasks| == |f.capable| && 0 <= CreditOf(f.tasks[t], ts)
    ensures CreditOf(f.tasks[t], Settle(f, alive, t, ts)) <= CreditOf(f.tasks[t], ts)
    ensures Settle(f, alive, t, ts).attempts == ts.attempts
  {
  }

  lemma AttemptedCredit(f: Fleet, alive: seq<bool>, t: nat, ts: TaskState, a: nat, res: AttemptResult)
    requires t < |f.tasks| == |f.capable| && TaskOk(f, alive, t, ts) && !ts.done
    ensures var to := Attempted(f.tasks[t], ts, a, res);
      0 <= CreditOf(f.tasks[t], to) <= CreditOf(f.tasks[t], ts) - (if res.status.AgentError? then 0 else 1)
  {
  }

  lemma TaskCredit(f: Fleet, s: State, w: nat, res: AttemptResult, i: nat)
    requires Inv(f, s) && w < |s.pc| && s.pc[w].Running? && i < |s.st|
    ensures var r := Complete(f, s, w, res);
      && |r.st| == |s.st|
      && CreditOf(f.tasks[i], r.st[i]) <= CreditOf(f.tasks[i], s.st[i])
           - (if i == s.pc[w].task && !res.status.AgentError? then 1 else 0)
      && |r.st[i].attempts| == |s.st[i].attempts| + (if i == s.pc[w].task then 1 else 0)
  {
    CompleteEffect(f, s, w, res);
    assert TaskOk(f, s.alive, i, s.st[i]);
    AttemptedCredit(f, s.alive, s.pc[w].task, s.st[s.pc[w].task], f.seat[w], res);
    SettleCredit(f, Complete(f, s, w, res).alive, i, Returned(f, s, w, res, i));
  }

  lemma CompleteCredit(f: Fleet, s: State, w: nat, res: AttemptResult)
    requires Inv(f, s) && w < |s.pc| && s.pc[w].Running?
    ensures var r := Complete(f, s, w, res);
      && Shape(f, r)
      && Sum(Credits(f, r.st)) <= Sum(Credits(f, s.st)) - (if res.status.AgentError? then 0 else 1)
      && TotalAttempts(r) == TotalAttempts(s) + 1
  {
    var r := Complete(f, s, w, res);
    var t := s.pc[w].task;
    assert Shape(f, r) by {
      CompleteEffect(f, s, w, res);
    }
    forall i | 0 <= i < |s.st|
      ensures CreditOf(f.tasks[i], r.st[i]) <= CreditOf(f.tasks[i], s.st[i])
                - (if i == t && !res.status.AgentError? then 1 else 0)
      ensures |r.st[i].attempts| == |s.st[i].attempts| + (if i == t then 1 else 0)
    {
      TaskCredit(f, s, w, res, i);
    }
    CreditSums(f, s.st, r.st, t, !res.status.AgentError?);
  }

  lemma CreditSums(f: Fleet, st: seq<TaskState>, ru: seq<TaskState>, t: nat, spent: bool)
    requires t < |st| == |ru| <= |f.tasks|
    requires forall i :: 0 <= i < |st| ==>
      CreditOf(f.tasks[i], ru[i]) <= CreditOf(f.tasks[i], st[i]) - (if i == t && spent then 1 else 0)
    requires forall i :: 0 <= i < |st| ==> |ru[i].attempts| == |st[i].attempts| + (if i == t then 1 else 0)
    ensures Sum(Credits(f, ru)) <= Sum(Credits(f, st)) - (if spent then 1 else 0)
    ensures Sum(AttemptCounts(ru)) == Sum(AttemptCounts(st)) + 1
  {
    if spent {
      SumDrop(Credits(f, st), Credits(f, ru), t);
    } else {
      SumShift(Credits(f, st), Credits(f, ru), 0);
    }
    assert AttemptCounts(ru) == AttemptCounts(st)[t := |st[t].attempts| + 1];
    SumUpdate(AttemptCounts(st), t, |st[t].attempts| + 1);
  }

  lemma CheckCredit(f: Fleet, s: State, w: nat)
    requires Shape(f, s) && |f.tasks| == |f.capable| && w < |s.pc| && s.pc[w].Ready?
    ensures var r := Check(f, s, w);
      && Shape(f, r)
      && Credits(f, r.st) == Credits(f, s.st) && AttemptCounts(r.st) == AttemptCounts(s.st)
  {
  }

  ghost predicate OthersAtMostWake(before: seq<Worker>, after: seq<Worker>, w: nat) {
    && w < |before| == |after|
    && forall v :: 0 <= v < |before| && v != w ==> after[v] == before[v] || (before[v].Asleep? && after[v].Ready?)
  }

  /** A section moves its own worker; the others are at most woken, and an agent error is the worker's last act. */
  lemma SectionMoves(f: Fleet, s: State, w: nat, res: AttemptResult)
    requires Inv(f, s) && Enabled(s, w)
    ensures var r := Section(f, s, w, res);
      && OthersAtMostWake(s.pc, r.pc, w)
      && !r.pc[w].Ready?
      && (s.pc[w].Running? && res.status.AgentError? ==> r.pc[w].Exited?)
      && (s.pc[w].Ready? && !r.pc[w].Exited? ==> r.pc == s.pc[w := r.pc[w]])
  {
    if s.pc[w].Running? {
      CompleteEffect(f, s, w, res);
    }
  }

  lemma WeightsMove(before: seq<Worker>, after: seq<Worker>, w: nat)
    requires OthersAtMostWake(before, after, w)
    ensures Sum(Weights(after)) <=
      Sum(Weights(before)) + |before| - WeightOf(|before|, before[w]) + WeightOf(|before|, after[w])
  {
    var xs, ys := Weights(before), Weights(after);
    SumShift(xs[w := 0], ys[w := 0], 1);
    SumUpdate(xs, w, 0);
    SumUpdate(ys, w, 0);
  }

  lemma StayersMove(before: seq<Worker>, after: seq<Worker>, w: nat)
    requires OthersAtMostWake(before, after, w)
    ensures Sum(Stayers(after)) == Sum(Stayers(before)) - Stayers(before)[w] + Stayers(after)[w]
  {
    assert Stayers(after) == Stayers(before)[w := Stayers(after)[w]];
    SumUpdate(Stayers(before), w, Stayers(after)[w]);
  }

  lemma SectionCredit(f: Fleet, s: State, w: nat, res: AttemptResult)
    requires Inv(f, s) && Enabled(s, w)
    ensures var r := Section(f, s, w, res);
      && Sum(Credits(f, r.st)) <= Sum(Credits(f, s.st)) - (if s.pc[w].Running? && !res.status.AgentError? then 1 else 0)
      && TotalAttempts(r) == TotalAttempts(s) + (if s.pc[w].Running? then 1 else 0)
  {
    if s.pc[w].Running? {
      CompleteCredit(f, s, w, res);
      CheckCredit(f, Complete(f, s, w, res), w);
    } else {
      CheckCredit(f, s, w);
    }
  }

  lemma Scale(n: nat, x: int, y: int)
    requires x <= y
    ensures n * x <= n * y
  {
  }

  /** The weights of a section that spent no credit. */
  lemma WeightsDrop(before: seq<Worker>, after: seq<Worker>, w: nat)
    requires OthersAtMostWake(before, after, w)
    requires after[w].Exited? ==> !before[w].Exited?
    requires !after[w].Exited? ==> before[w].Ready? && !after[w].Ready? && after == before[w := after[w]]
    ensures Sum(Weights(after)) < Sum(Weights(before))
  {
    WeightsMove(before, after, w);
    if !after[w].Exited? {
      assert Weights(after) == Weights(before)[w := |before| + 1];
      SumUpdate(Weights(before), w, |before| + 1);
    }
  }

  /** Progress: every section lowers the potential. */
  lemma SectionLowersPhi(f: Fleet, s: State, w: nat, res: AttemptResult)
    requires Inv(f, s) && Enabled(s, w)
    ensures Phi(f, Section(f, s, w, res)) < Phi(f, s)
  {
    var r := Section(f, s, w, res);
    SectionMoves(f, s, w, res);
    SectionCredit(f, s, w, res);
    PhiDrop(f, s, r, w, s.pc[w].Running? && !res.status.AgentError?);
  }

  lemma PhiDrop(f: Fleet, s: State, r: State, w: nat, spent: bool)
    requires |s.st| <= |f.tasks| && |r.st| <= |f.tasks| && OthersAtMostWake(s.pc, r.pc, w)
    requires Sum(Credits(f, r.st)) <= Sum(Credits(f, s.st)) - (if spent then 1 else 0)
    requires spent ==> s.pc[w].Running? && !r.pc[w].Ready?
    requires !spent && r.pc[w].Exited? ==> !s.pc[w].Exited?
    requires !spent && !r.pc[w].Exited? ==> s.pc[w].Ready? && !r.pc[w].Ready? && r.pc == s.pc[w := r.pc[w]]
    ensures Phi(f, r) < Phi(f, s)
  {
    var n, c, d := |s.pc|, Sum(Credits(f, s.st)), Sum(Credits(f, r.st));
    var x, y := Sum(Weights(s.pc)), Sum(Weights(r.pc));
    if spent {
      SpentWeights(s.pc, r.pc, w);
      ScaleDown(n, d, c, y, x);
    } else {
      WeightsDrop(s.pc, r.pc, w);
      Scale(n + 1, d, c);
    }
  }

  lemma SpentWeights(before: seq<Worker>, after: seq<Worker>, w: nat)
    requires OthersAtMostWake(before, after, w) && before[w].Running? && !after[w].Ready?
    ensures Sum(Weights(after)) <= Sum(Weights(before)) + |before|
  {
    WeightsMove(before, after, w);
  }

  lemma ScaleDown(n: nat, d: int, c: int, y: int, x: int)
    requires d <= c - 1 && y <= x + n
    ensures (n + 1) * d + y < (n + 1) * c + x
  {
    Scale(n + 1, d, c - 1);
    assert (n + 1) * (c - 1) == (n + 1) * c - (n + 1);
  }

  lemma PhiNonNegative(f: Fleet, s: State)
    requires Inv(f, s)
    ensures 0 <= Phi(f, s) && 0 <= Sum(Credits(f, s.st)) && 0 <= Sum(Stayers(s.pc))
  {
    forall i | 0 <= i < |s.st| ensures 0 <= Credits(f, s.st)[i] {
      assert TaskOk(f, s.alive, i, s.st[i]);
    }
    SumBetween0(Credits(f, s.st));
    SumBetween0(Weights(s.pc));
    SumBetween0(Stayers(s.pc));
    Scale(|s.pc| + 1, 0, Sum(Credits(f, s.st)));
  }

  // ----- whole runs

  function Budgets(f: Fleet): seq<int> {
    seq(|f.tasks|, i requires 0 <= i < |f.tasks| => f.tasks[i].retries + 1)
  }

  lemma StartCredit(f: Fleet)
    requires ValidFleet(f)
    ensures Sum(Credits(f, Start(f).st)) <= Sum(Budgets(f))
    ensures TotalAttempts(Start(f)) == 0
    ensures Sum(Weights(Start(f).pc)) == |f.seat| * (|f.seat| + 2)
    ensures Sum(Stayers(Start(f).pc)) == |f.seat|
  {
    var s := Start(f);
    SumShift(Budgets(f), Credits(f, s.st), 0);
    SumBetween(AttemptCounts(s.st), 0, 0);
    SumBetween(Weights(s.pc), |f.seat| + 2, |f.seat| + 2);
    SumBetween(Stayers(s.pc), 1, 1);
  }

  /** A run has no more sections than this, and no more attempts than the retry budgets plus one per worker. */
  lemma {:induction false} ScheduleCost(f: Fleet, sched: seq<Turn>)
    requires ValidFleet(f) && Legal(f, sched)
    ensures var s := After(f, sched);
      && |sched| <= Phi(f, Start(f)) - Phi(f, s)
      && TotalAttempts(s) + Sum(Credits(f, s.st)) + Sum(Stayers(s.pc)) <= Sum(Budgets(f)) + |f.seat|
  {
    if |sched| == 0 {
      StartCredit(f);
    } else {
      var n := |sched| - 1;
      var s := After(f, sched[..n]);
      var w, res := sched[n].worker, sched[n].result;
      ScheduleCost(f, sched[..n]);
      ScheduleKeepsInv(f, sched[..n]);
      SectionLowersPhi(f, s, w, res);
      SectionCredit(f, s, w, res);
      SectionMoves(f, s, w, res);
      StayersMove(s.pc, Section(f, s, w, res).pc, w);
    }
  }

  /** Termination: no interleaving, with any answers, is longer than a bound fixed by the fleet. */
  lemma RunsAreFinite(f: Fleet, sched: seq<Turn>)
    requires ValidFleet(f) && Legal(f, sched)
    ensures |sched| <= (|f.seat| + 1) * Sum(Budgets(f)) + |f.seat| * (|f.seat| + 2)
  {
    ScheduleCost(f, sched);
    ScheduleKeepsInv(f, sched);
    PhiNonNegative(f, After(f, sched));
    StartCredit(f);
    Scale(|f.seat| + 1, Sum(Credits(f, Start(f).st)), Sum(Budgets(f)));
  }

  /** Whole-run attempt bound: one attempt per unit of budget, plus one agent error per worker. */
  lemma AttemptBound(f: Fleet, s: State)
    requires ValidFleet(f) && Reachable(f, s)
    ensures TotalAttempts(s) <= Sum(Budgets(f)) + |f.seat|
  {
    var sched :| Legal(f, sched) && After(f, sched) == s;
    ScheduleCost(f, sched);
    ScheduleKeepsInv(f, sched);
    PhiNonNegative(f, s);
  }

  /** For an accepted job file (`retries` in 0..10): at most 11 attempts per task, plus one per worker. */
  lemma AttemptBoundForJobFiles(f: Fleet, s: State)
    requires ValidFleet(f) && Reachable(f, s)
    requires forall t :: 0 <= t < |f.tasks| ==> f.tasks[t].retries <= 10
    ensures TotalAttempts(s) <= 11 * |f.tasks| + |f.seat|
  {
    AttemptBound(f, s);
    SumBetween(Budgets(f), 0, 11);
  }

  /** Any reachable state can be run on until no worker can move, whatever the executor answers. */
  lemma {:induction false} EveryRunEnds(f: Fleet, s: State, answer: AttemptResult) returns (q: State)
    requires ValidFleet(f) && Reachable(f, s)
    ensures Reachable(f, q) && Quiescent(q)
    decreases PhiNat(f, s)
  {
    ReachableInv(f, s);
    if Quiescent(s) {
      q := s;
    } else {
      var w :| 0 <= w < |s.pc| && Enabled(s, w);
      var r := Section(f, s, w, answer);
      ReachableStep(f, s, w, answer);
      ReachableInv(f, r);
      SectionLowersPhi(f, s, w, answer);
      PhiNonNegative(f, s);
      PhiNonNegative(f, r);
      q := EveryRunEnds(f, r, answer);
    }
  }

  function PhiNat(f: Fleet, s: State): nat {
    if |s.st| <= |f.tasks| && Phi(f, s) >= 0 then Phi(f, s) else 0
  }
}
