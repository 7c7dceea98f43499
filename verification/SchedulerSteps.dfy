/** The invariant of a whole run, and the proof that every lock-held section keeps it. */
module SchedulerSteps {
  import opened Sums
  import opened SchedulerModel
  import opened SchedulerInvariant

  ghost predicate RunBy(s: State, w: nat, t: nat) {
    w < |s.pc| && s.pc[w] == Running(t)
  }

  /** A running task belongs to exactly one worker, seated at a capable agent that the pick rule allowed. */
  ghost predicate Owned(f: Fleet, s: State)
    requires Shape(f, s)
  {
    && (forall w :: 0 <= w < |s.pc| && s.pc[w].Running? ==>
          var t := s.pc[w].task;
          s.st[t].running && f.seat[w] in f.capable[t] && Placed(f, s.alive, t, s.st[t], f.seat[w]))
    && (forall v, w :: 0 <= v < w < |s.pc| && s.pc[v].Running? && s.pc[w].Running? ==> s.pc[v].task != s.pc[w].task)
    && (forall t :: 0 <= t < |s.st| && s.st[t].running ==> exists w :: RunBy(s, w, t))
  }

  /** `remaining_` counts the open tasks; `dead_` lists every retired agent exactly once. */
  ghost predicate Books(s: State) {
    && s.remaining == CountOpen(s.st)
    && (forall i, j :: 0 <= i < j < |s.dead| ==> s.dead[i] != s.dead[j])
    && (forall a :: a in s.dead <==> 0 <= a < |s.alive| && !s.alive[a])
  }

  ghost predicate TasksOk(f: Fleet, s: State)
    requires Shape(f, s)
  {
    |f.tasks| == |f.capable| && forall t :: 0 <= t < |s.st| ==> TaskOk(f, s.alive, t, s.st[t])
  }

  /** Agent `a` can run a task other than `t`, and has a worker other than `w`. */
  ghost predicate Crowded(f: Fleet, a: nat, w: nat, t: nat) {
    (exists v :: v != w && Seated(f, v, a)) && (exists u :: u != t && 0 <= u < |f.capable| && a in f.capable[u])
  }

  /** Agent `a` can lose task `t`: two workers, both able to be busy at once, one of them with `t`. */
  ghost predicate Hazard(f: Fleet, a: nat, t: nat) {
    t < |f.capable| && a in f.capable[t] && exists w :: Seated(f, w, a) && Crowded(f, a, w, t)
  }

  /** Sleepers have nothing to do (no lost wakeup), leavers had a reason, late returners shared their agent. */
  ghost predicate WorkersOk(f: Fleet, s: State)
    requires Shape(f, s)
  {
    && (forall w :: 0 <= w < |s.pc| && s.pc[w].Asleep? ==>
          s.alive[f.seat[w]] && s.remaining > 0 && forall t :: 0 <= t < |s.st| ==> !Pickable(f, s, f.seat[w], t))
    && (forall w :: 0 <= w < |s.pc| && s.pc[w].Exited? ==> s.remaining == 0 || !s.alive[f.seat[w]])
    && (forall w :: 0 <= w < |s.pc| && s.pc[w].Running? && !s.alive[f.seat[w]] ==>
          Crowded(f, f.seat[w], w, s.pc[w].task))
  }

  /** An orphan was last returned by an agent already retired. */
  ghost predicate OrphansOk(f: Fleet, s: State)
    requires Shape(f, s)
  {
    forall t: nat :: Orphan(f, s, t) ==>
      var at := s.st[t].attempts;
      |at| > 0 && Last(at).agent < |s.alive| && !s.alive[Last(at).agent] && Hazard(f, Last(at).agent, t)
  }

  ghost predicate Inv(f: Fleet, s: State) {
    && Shape(f, s)
    && Owned(f, s)
    && Books(s)
    && TasksOk(f, s)
    && WorkersOk(f, s)
    && OrphansOk(f, s)
  }

  // ----- counting

  lemma OpenBounds(st: seq<TaskState>)
    ensures 0 <= CountOpen(st) <= |st|
    ensures forall t :: 0 <= t < |st| && !st[t].done ==> CountOpen(st) > 0
    ensures CountOpen(st) == 0 <==> forall t :: 0 <= t < |st| ==> st[t].done
  {
    var flags := OpenFlags(st);
    SumBetween(flags, 0, 1);
    SumZero(flags);
    assert forall t :: 0 <= t < |st| ==> (flags[t] == 0 <==> st[t].done);
  }

  lemma OpenUpdate(st: seq<TaskState>, t: nat, ts: TaskState)
    requires t < |st|
    ensures CountOpen(st[t := ts]) == CountOpen(st) - (if st[t].done then 0 else 1) + (if ts.done then 0 else 1)
  {
    assert OpenFlags(st[t := ts]) == OpenFlags(st)[t := if ts.done then 0 else 1];
    SumUpdate(OpenFlags(st), t, if ts.done then 0 else 1);
  }

  // ----- the completion half

  ghost function Returned(f: Fleet, s: State, w: nat, res: AttemptResult, i: nat): TaskState
    requires Shape(f, s) && w < |s.pc| && s.pc[w].Running? && i < |s.st|
  {
    if i == s.pc[w].task then Attempted(f.tasks[i], s.st[i], f.seat[w], res) else s.st[i]
  }

  lemma CompleteEffect(f: Fleet, s: State, w: nat, res: AttemptResult)
    requires Shape(f, s) && w < |s.pc| && s.pc[w].Running? && !s.st[s.pc[w].task].done
    ensures var r := Complete(f, s, w, res);
      && Shape(f, r)
      && r.pc == WakeAll(s.pc[w := Ready])
      && Fewer(r.alive, s.alive)
      && r.remaining - CountOpen(r.st) == s.remaining - CountOpen(s.st)
      && (Retires(f, s, w, res) ==>
            && r.alive == s.alive[f.seat[w] := false]
            && r.dead == s.dead + [f.seat[w]]
            && forall i :: 0 <= i < |s.st| ==> r.st[i] == Settle(f, r.alive, i, Returned(f, s, w, res, i)))
      && (!Retires(f, s, w, res) ==>
            && r.alive == s.alive
            && r.dead == s.dead
            && forall i :: 0 <= i < |s.st| ==> r.st[i] == Returned(f, s, w, res, i))
  {
    var t := s.pc[w].task;
    OpenUpdate(s.st, t, Attempted(f.tasks[t], s.st[t], f.seat[w], res));
  }

  lemma CompleteTasks(f: Fleet, s: State, w: nat, res: AttemptResult)
    requires Inv(f, s) && w < |s.pc| && s.pc[w].Running?
    ensures var r := Complete(f, s, w, res); Shape(f, r) && TasksOk(f, r)
  {
    var r := Complete(f, s, w, res);
    CompleteEffect(f, s, w, res);
    forall i | 0 <= i < |s.st| ensures TaskOk(f, r.alive, i, r.st[i]) {
      var ts := Returned(f, s, w, res, i);
      assert TaskOk(f, s.alive, i, s.st[i]);
      if i == s.pc[w].task {
        AttemptedOk(f, s.alive, r.alive, i, s.st[i], f.seat[w], res);
      } else {
        TaskOkFewerAgents(f, s.alive, r.alive, i, s.st[i]);
      }
      assert TaskOk(f, r.alive, i, ts);
      SettleOk(f, r.alive, i, ts);
    }
  }

  lemma CompleteOwned(f: Fleet, s: State, w: nat, res: AttemptResult)
    requires Inv(f, s) && w < |s.pc| && s.pc[w].Running?
    ensures var r := Complete(f, s, w, res); Shape(f, r) && Owned(f, r)
  {
    var r := Complete(f, s, w, res);
    CompleteEffect(f, s, w, res);
    forall v: nat | v < |r.pc| && r.pc[v].Running? {
      OtherRunner(f, s, w, res, v);
    }
    forall t: nat | t < |r.st| && r.st[t].running {
      StillRunBy(f, s, w, res, t);
    }
  }

  /** A worker still in the executor keeps its task exactly as it was. */
  lemma OtherRunner(f: Fleet, s: State, w: nat, res: AttemptResult, v: nat)
    requires Inv(f, s) && w < |s.pc| && s.pc[w].Running?
    requires var r := Complete(f, s, w, res); v < |r.pc| && r.pc[v].Running?
    ensures var r := Complete(f, s, w, res);
      v != w && r.pc[v] == s.pc[v] && s.pc[v].task < |r.st| && r.st[s.pc[v].task] == s.st[s.pc[v].task]
  {
    CompleteEffect(f, s, w, res);
    assert v < w || w < v;
  }

  lemma StillRunBy(f: Fleet, s: State, w: nat, res: AttemptResult, t: nat)
    requires Inv(f, s) && w < |s.pc| && s.pc[w].Running?
    requires var r := Complete(f, s, w, res); t < |r.st| && r.st[t].running
    ensures exists v :: RunBy(Complete(f, s, w, res), v, t)
  {
    RunningBefore(f, s, w, res, t);
    var v :| RunBy(s, v, t);
    assert RunBy(Complete(f, s, w, res), v, t);
  }

  lemma RunningBefore(f: Fleet, s: State, w: nat, res: AttemptResult, t: nat)
    requires Inv(f, s) && w < |s.pc| && s.pc[w].Running?
    requires var r := Complete(f, s, w, res); t < |r.st| && r.st[t].running
    ensures t < |s.st| && t != s.pc[w].task && s.st[t].running
  {
    CompleteEffect(f, s, w, res);
    assert Complete(f, s, w, res).st[t].running ==> Returned(f, s, w, res, t).running;
  }

  lemma CompleteBooks(f: Fleet, s: State, w: nat, res: AttemptResult)
    requires Inv(f, s) && w < |s.pc| && s.pc[w].Running?
    ensures Books(Complete(f, s, w, res))
  {
    CompleteEffect(f, s, w, res);
  }

  lemma CompleteWorkers(f: Fleet, s: State, w: nat, res: AttemptResult)
    requires Inv(f, s) && w < |s.pc| && s.pc[w].Running?
    ensures var r := Complete(f, s, w, res); Shape(f, r) && WorkersOk(f, r)
  {
    var r := Complete(f, s, w, res);
    var t := s.pc[w].task;
    CompleteEffect(f, s, w, res);
    OpenBounds(s.st);
    forall v | 0 <= v < |r.pc| && r.pc[v].Running? && !r.alive[f.seat[v]]
      ensures Crowded(f, f.seat[v], v, r.pc[v].task)
    {
      assert r.pc[v] == s.pc[v] && v != w;
      if s.alive[f.seat[v]] {
        assert Seated(f, w, f.seat[v]);
        assert t != s.pc[v].task by {
          assert v < w || w < v;
        }
      }
    }
  }

  lemma CompleteOrphans(f: Fleet, s: State, w: nat, res: AttemptResult)
    requires Inv(f, s) && w < |s.pc| && s.pc[w].Running?
    ensures var r := Complete(f, s, w, res); Shape(f, r) && OrphansOk(f, r)
  {
    var r := Complete(f, s, w, res);
    var t := s.pc[w].task;
    var a := f.seat[w];
    CompleteEffect(f, s, w, res);
    forall i: nat | Orphan(f, r, i)
      ensures var at := r.st[i].attempts;
        |at| > 0 && Last(at).agent < |r.alive| && !r.alive[Last(at).agent] && Hazard(f, Last(at).agent, i)
    {
      assert !Retires(f, s, w, res);
      if i == t {
        assert Last(r.st[i].attempts).agent == a;
        assert Seated(f, w, a);
      } else {
        assert Orphan(f, s, i);
      }
    }
  }

  lemma CompleteKeepsInv(f: Fleet, s: State, w: nat, res: AttemptResult)
    requires Inv(f, s) && w < |s.pc| && s.pc[w].Running?
    ensures Inv(f, Complete(f, s, w, res))
  {
    CompleteTasks(f, s, w, res);
    CompleteOwned(f, s, w, res);
    CompleteBooks(f, s, w, res);
    CompleteWorkers(f, s, w, res);
    CompleteOrphans(f, s, w, res);
  }

  // ----- the loop-head half

  lemma CheckKeepsInv(f: Fleet, s: State, w: nat)
    requires Inv(f, s) && w < |s.pc| && s.pc[w].Ready?
    ensures Inv(f, Check(f, s, w))
  {
    var a := f.seat[w];
    if s.remaining > 0 && s.alive[a] && Pick(f, s, a, 0).Some? {
      TakeKeepsInv(f, s, w, Pick(f, s, a, 0).value);
    } else {
      RestKeepsInv(f, s, w);
    }
  }

  /** Pickability does not look at the workers, and a task taken by someone only shrinks it. */
  lemma PickableShrinks(f: Fleet, s: State, r: State, b: nat, i: nat)
    requires Shape(f, s) && Shape(f, r) && r.alive == s.alive
    requires forall t :: 0 <= t < |s.st| ==> r.st[t] == s.st[t] || r.st[t] == s.st[t].(running := true)
    requires Pickable(f, r, b, i)
    ensures Pickable(f, s, b, i)
  {
    if HasFreshCandidate(f, s, i, b) {
      assert HasFreshCandidate(f, r, i, b);
    }
  }

  /** The sleepers and leavers of `r` were justified in `s`, except perhaps `w` itself. */
  lemma RestWorkers(f: Fleet, s: State, r: State, w: nat)
    requires Shape(f, s) && WorkersOk(f, s) && Shape(f, r)
    requires r.st == s.st && r.alive == s.alive && r.remaining == s.remaining
    requires forall v :: 0 <= v < |r.pc| && v != w ==>
      r.pc[v] == s.pc[v] || (s.pc[v].Asleep? && r.pc[v].Ready?)
    requires w < |r.pc| && !r.pc[w].Running?
    requires r.pc[w].Asleep? ==>
      r.alive[f.seat[w]] && r.remaining > 0 && forall i :: 0 <= i < |s.st| ==> !Pickable(f, s, f.seat[w], i)
    requires r.pc[w].Exited? ==> r.remaining == 0 || !r.alive[f.seat[w]]
    ensures WorkersOk(f, r)
  {
    forall v, i | 0 <= v < |r.pc| && r.pc[v].Asleep? && 0 <= i < |r.st|
      ensures !Pickable(f, r, f.seat[v], i)
    {
      if Pickable(f, r, f.seat[v], i) {
        PickableShrinks(f, s, r, f.seat[v], i);
      }
    }
  }

  lemma RestOwned(f: Fleet, s: State, r: State)
    requires Shape(f, s) && Owned(f, s) && Shape(f, r)
    requires r.st == s.st && r.alive == s.alive
    requires forall v :: 0 <= v < |r.pc| && (r.pc[v].Running? || s.pc[v].Running?) ==> r.pc[v] == s.pc[v]
    ensures Owned(f, r)
  {
    forall t | 0 <= t < |r.st| && r.st[t].running
      ensures exists v :: RunBy(r, v, t)
    {
      var v :| RunBy(s, v, t);
      assert RunBy(r, v, t);
    }
  }

  lemma RestOrphans(f: Fleet, s: State, r: State)
    requires Shape(f, s) && OrphansOk(f, s) && Shape(f, r)
    requires r.st == s.st && r.alive == s.alive
    ensures OrphansOk(f, r)
  {
    forall t: nat | Orphan(f, r, t) ensures Orphan(f, s, t) {}
  }

  lemma RestKeepsInv(f: Fleet, s: State, w: nat)
    requires Inv(f, s) && w < |s.pc| && s.pc[w].Ready?
    requires s.remaining > 0 && s.alive[f.seat[w]] ==> Pick(f, s, f.seat[w], 0).None?
    ensures Inv(f, Check(f, s, w))
  {
    var r := Check(f, s, w);
    RestOwned(f, s, r);
    RestOrphans(f, s, r);
    OpenBounds(s.st);
    RestWorkers(f, s, r, w);
  }

  lemma TakeOwned(f: Fleet, s: State, w: nat, t: nat)
    requires Inv(f, s) && w < |s.pc| && s.pc[w].Ready? && Pickable(f, s, f.seat[w], t)
    ensures var r := s.(st := s.st[t := s.st[t].(running := true)], pc := s.pc[w := Running(t)]);
      Shape(f, r) && Owned(f, r)
  {
    var r := s.(st := s.st[t := s.st[t].(running := true)], pc := s.pc[w := Running(t)]);
    forall i | 0 <= i < |r.st| && r.st[i].running
      ensures exists v :: RunBy(r, v, i)
    {
      if i == t {
        assert RunBy(r, w, t);
      } else {
        var v :| RunBy(s, v, i);
        assert RunBy(r, v, i);
      }
    }
    assert Placed(f, s.alive, t, s.st[t], f.seat[w]);
  }

  lemma TakeTasks(f: Fleet, s: State, w: nat, t: nat)
    requires Inv(f, s) && w < |s.pc| && s.pc[w].Ready? && Pickable(f, s, f.seat[w], t)
    ensures var r := s.(st := s.st[t := s.st[t].(running := true)], pc := s.pc[w := Running(t)]);
      Shape(f, r) && TasksOk(f, r) && Books(r)
  {
    TakenOk(f, s.alive, t, s.st[t]);
    OpenUpdate(s.st, t, s.st[t].(running := true));
  }

  lemma TakeWorkers(f: Fleet, s: State, w: nat, t: nat)
    requires Inv(f, s) && w < |s.pc| && s.pc[w].Ready? && Pickable(f, s, f.seat[w], t) && s.alive[f.seat[w]]
    ensures var r := s.(st := s.st[t := s.st[t].(running := true)], pc := s.pc[w := Running(t)]);
      Shape(f, r) && WorkersOk(f, r)
  {
    var r := s.(st := s.st[t := s.st[t].(running := true)], pc := s.pc[w := Running(t)]);
    forall v, i | 0 <= v < |r.pc| && r.pc[v].Asleep? && 0 <= i < |r.st|
      ensures !Pickable(f, r, f.seat[v], i)
    {
      if Pickable(f, r, f.seat[v], i) {
        PickableShrinks(f, s, r, f.seat[v], i);
      }
    }
  }

  lemma TakeOrphans(f: Fleet, s: State, w: nat, t: nat)
    requires Inv(f, s) && w < |s.pc| && s.pc[w].Ready? && Pickable(f, s, f.seat[w], t)
    ensures var r := s.(st := s.st[t := s.st[t].(running := true)], pc := s.pc[w := Running(t)]);
      Shape(f, r) && OrphansOk(f, r)
  {
    var r := s.(st := s.st[t := s.st[t].(running := true)], pc := s.pc[w := Running(t)]);
    forall i: nat | Orphan(f, r, i)
      ensures Orphan(f, s, i) && r.st[i] == s.st[i]
    {}
  }

  lemma TakeKeepsInv(f: Fleet, s: State, w: nat, t: nat)
    requires Inv(f, s) && w < |s.pc| && s.pc[w].Ready?
    requires s.remaining > 0 && s.alive[f.seat[w]] && Pick(f, s, f.seat[w], 0) == Some(t)
    ensures Inv(f, Check(f, s, w))
  {
    TakeOwned(f, s, w, t);
    TakeTasks(f, s, w, t);
    TakeWorkers(f, s, w, t);
    TakeOrphans(f, s, w, t);
  }

  // ----- attempt lists

  lemma CheckKeepsAttempts(f: Fleet, s: State, w: nat)
    requires Shape(f, s) && w < |s.pc| && s.pc[w].Ready?
    ensures var r := Check(f, s, w);
      && r.alive == s.alive && |r.st| == |s.st|
      && forall t :: 0 <= t < |s.st| ==> r.st[t].attempts == s.st[t].attempts
  {
  }

  lemma CompleteAttempts(f: Fleet, s: State, w: nat, res: AttemptResult, t: nat)
    requires Shape(f, s) && w < |s.pc| && s.pc[w].Running? && t < |s.st| && !s.st[s.pc[w].task].done
    ensures var r := Complete(f, s, w, res);
      && Shape(f, r) && r.pc[w].Ready? && |r.st| == |s.st|
      && r.st[t].attempts == s.st[t].attempts + (if s.pc[w].task == t then [AttemptRecord(f.seat[w], res)] else [])
  {
    CompleteEffect(f, s, w, res);
    ReturnedAttempts(f, s, w, res, t, Complete(f, s, w, res).alive);
  }

  lemma ReturnedAttempts(f: Fleet, s: State, w: nat, res: AttemptResult, t: nat, alive: seq<bool>)
    requires Shape(f, s) && w < |s.pc| && s.pc[w].Running? && t < |s.st|
    ensures var ts := Returned(f, s, w, res, t);
      && ts.attempts == s.st[t].attempts + (if s.pc[w].task == t then [AttemptRecord(f.seat[w], res)] else [])
      && Settle(f, alive, t, ts).attempts == ts.attempts
  {
  }

  /** Only the worker that comes back adds an attempt, and only to its own task. */
  lemma SectionAttempts(f: Fleet, s: State, w: nat, res: AttemptResult, t: nat)
    requires Inv(f, s) && Enabled(s, w) && t < |s.st|
    ensures var r := Section(f, s, w, res);
      && |r.st| == |s.st|
      && r.st[t].attempts == s.st[t].attempts + (if s.pc[w] == Running(t) then [AttemptRecord(f.seat[w], res)] else [])
  {
    if s.pc[w].Running? {
      CompleteAttempts(f, s, w, res, t);
      CheckKeepsAttempts(f, Complete(f, s, w, res), w);
    } else {
      CheckKeepsAttempts(f, s, w);
    }
  }

  // ----- whole runs

  lemma SectionKeepsInv(f: Fleet, s: State, w: nat, res: AttemptResult)
    requires Inv(f, s) && Enabled(s, w)
    ensures Inv(f, Section(f, s, w, res))
  {
    if s.pc[w].Running? {
      CompleteKeepsInv(f, s, w, res);
      CheckKeepsInv(f, Complete(f, s, w, res), w);
    } else {
      CheckKeepsInv(f, s, w);
    }
  }

  lemma FreshOk(f: Fleet, t: nat)
    requires ValidFleet(f) && t < |f.tasks|
    ensures TaskOk(f, seq(|f.agents|, _ => true), t, FRESH)
  {
  }

  lemma StartKeepsInv(f: Fleet)
    requires ValidFleet(f)
    ensures Inv(f, Start(f))
  {
    var s := Start(f);
    StartBooks(f);
    StartTasks(f);
    assert Owned(f, s);
    forall t: nat ensures !Orphan(f, s, t) {}
  }

  lemma StartBooks(f: Fleet)
    requires ValidFleet(f)
    ensures Books(Start(f))
  {
    SumBetween(OpenFlags(seq(|f.tasks|, _ => FRESH)), 1, 1);
  }

  lemma StartTasks(f: Fleet)
    requires ValidFleet(f)
    ensures TasksOk(f, Start(f))
  {
    var s := Start(f);
    forall t | 0 <= t < |s.st| ensures TaskOk(f, s.alive, t, s.st[t]) {
      FreshOk(f, t);
      SettleOk(f, s.alive, t, FRESH);
    }
  }

  /** Conservation: every state of every run satisfies the invariant. */
  lemma {:induction false} ScheduleKeepsInv(f: Fleet, sched: seq<Turn>)
    requires ValidFleet(f) && Legal(f, sched)
    ensures Inv(f, After(f, sched))
  {
    if |sched| == 0 {
      StartKeepsInv(f);
    } else {
      var n := |sched| - 1;
      ScheduleKeepsInv(f, sched[..n]);
      SectionKeepsInv(f, After(f, sched[..n]), sched[n].worker, sched[n].result);
    }
  }

  lemma ReachableInv(f: Fleet, s: State)
    requires ValidFleet(f) && Reachable(f, s)
    ensures Inv(f, s)
  {
    var sched :| Legal(f, sched) && After(f, sched) == s;
    ScheduleKeepsInv(f, sched);
  }
}
