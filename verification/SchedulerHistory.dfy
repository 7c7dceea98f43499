/** Looking back from an attempt list to the sections that picked its attempts. */
module SchedulerHistory {
  import opened SchedulerModel
  import opened SchedulerInvariant
  import opened SchedulerSteps
  import opened SchedulerTermination
  import opened SchedulerOutcome

  lemma {:induction false} PrefixLegal(f: Fleet, sched: seq<Turn>, n: nat)
    requires ValidFleet(f) && Legal(f, sched) && n <= |sched|
    ensures Legal(f, sched[..n])
  {
    if n == |sched| {
      assert sched[..n] == sched;
    } else {
      PrefixLegal(f, sched[..|sched| - 1], n);
      assert sched[..|sched| - 1][..n] == sched[..n];
    }
  }

  /** The worker of turn `n`, seated at `a`, ended its section holding `t`, whose attempts so far were `at`. */
  ghost predicate Picked(f: Fleet, sched: seq<Turn>, n: nat, t: nat, a: nat, at: seq<AttemptRecord>)
    requires ValidFleet(f)
  {
    && n < |sched| && Legal(f, sched[..n + 1])
    && var r, w := After(f, sched[..n + 1]), sched[n].worker;
       r.pc[w] == Running(t) && f.seat[w] == a && t < |r.st| && r.st[t].attempts == at
  }

  lemma PickedLater(f: Fleet, sched: seq<Turn>, n: nat, t: nat, a: nat, at: seq<AttemptRecord>)
    requires ValidFleet(f) && |sched| > 0 && Picked(f, sched[..|sched| - 1], n, t, a, at)
    ensures Picked(f, sched, n, t, a, at)
  {
    assert sched[..|sched| - 1][..n + 1] == sched[..n + 1];
  }

  /** A running task was picked by its worker's latest turn, and has had no attempt since. */
  lemma {:induction false} RunningWasPicked(f: Fleet, sched: seq<Turn>, w: nat, t: nat) returns (n: nat)
    requires ValidFleet(f) && Legal(f, sched) && RunBy(After(f, sched), w, t) && t < |f.tasks|
    ensures Picked(f, sched, n, t, f.seat[w], After(f, sched).st[t].attempts)
  {
    if |sched| == 0 {
      assert false;
    } else {
      var m := |sched| - 1;
      var s, turn := After(f, sched[..m]), sched[m];
      ScheduleKeepsInv(f, sched[..m]);
      if turn.worker == w {
        n := m;
        assert sched[..m + 1] == sched;
      } else {
        OtherKeepsTask(f, s, turn.worker, turn.result, w, t);
        n := RunningWasPicked(f, sched[..m], w, t);
        PickedLater(f, sched, n, t, f.seat[w], s.st[t].attempts);
      }
    }
  }

  lemma OtherKeepsTask(f: Fleet, s: State, v: nat, res: AttemptResult, w: nat, t: nat)
    requires Inv(f, s) && Enabled(s, v) && v != w && t < |s.st| && RunBy(Section(f, s, v, res), w, t)
    ensures RunBy(s, w, t) && Section(f, s, v, res).st[t].attempts == s.st[t].attempts
  {
    SectionMoves(f, s, v, res);
    SectionAttempts(f, s, v, res, t);
    assert v < w || w < v;
  }

  /** Every attempt was picked by some section, when the attempts before it were all there were. */
  lemma {:induction false} AttemptWasPicked(f: Fleet, sched: seq<Turn>, t: nat, j: nat) returns (n: nat)
    requires ValidFleet(f) && Legal(f, sched) && t < |f.tasks| && j < |After(f, sched).st[t].attempts|
    ensures var at := After(f, sched).st[t].attempts; Picked(f, sched, n, t, at[j].agent, at[..j])
  {
    if |sched| == 0 {
      assert false;
    } else {
      var m := |sched| - 1;
      var s, turn := After(f, sched[..m]), sched[m];
      var at, before := After(f, sched).st[t].attempts, s.st[t].attempts;
      ScheduleKeepsInv(f, sched[..m]);
      SectionAttempts(f, s, turn.worker, turn.result, t);
      assert before <= at;
      if j < |before| {
        n := AttemptWasPicked(f, sched[..m], t, j);
        assert at[..j] == before[..j];
      } else {
        n := RunningWasPicked(f, sched[..m], turn.worker, t);
        assert at[..j] == before;
      }
      PickedLater(f, sched, n, t, at[j].agent, at[..j]);
    }
  }

  /**
   * Retry placement over a whole run: if an attempt list names an agent twice, then the section that picked
   * the later attempt left no other agent alive and able to run the task that had not had it already.
   */
  lemma RetryPlacement(f: Fleet, sched: seq<Turn>, t: nat, i: nat, j: nat) returns (n: nat)
    requires ValidFleet(f) && Legal(f, sched) && t < |f.tasks| && i < j < |After(f, sched).st[t].attempts|
    requires After(f, sched).st[t].attempts[i].agent == After(f, sched).st[t].attempts[j].agent
    ensures var at := After(f, sched).st[t].attempts;
      && Picked(f, sched, n, t, at[j].agent, at[..j])
      && forall c: nat :: c < |f.agents| && After(f, sched[..n + 1]).alive[c] && c in f.capable[t] && c != at[j].agent
                          ==> exists k :: 0 <= k < j && at[k].agent == c
  {
    var at := After(f, sched).st[t].attempts;
    n := AttemptWasPicked(f, sched, t, j);
    forall c: nat | c < |f.agents| && After(f, sched[..n + 1]).alive[c] && c in f.capable[t] && c != at[j].agent
      ensures exists k :: 0 <= k < j && at[k].agent == c
    {
      var k := PickedHadIt(f, sched, n, t, at[j].agent, at[..j], i, c);
      assert at[k].agent == c;
    }
  }

  lemma PickedHadIt(f: Fleet, sched: seq<Turn>, n: nat, t: nat, a: nat, at: seq<AttemptRecord>, i: nat, c: nat)
    returns (k: nat)
    requires ValidFleet(f) && Picked(f, sched, n, t, a, at) && i < |at| && at[i].agent == a
    requires c < |f.agents| && After(f, sched[..n + 1]).alive[c] && c in f.capable[t] && c != a
    ensures k < |at| && at[k].agent == c
  {
    assert sched[..n + 1][..n] == sched[..n];
    var s := After(f, sched[..n]);
    assert Reachable(f, s);
    assert UsedBefore(at, |at|, a);
    PickPrefersFreshAgents(f, s, sched[n].worker, sched[n].result, t, c);
    assert UsedBefore(at, |at|, c);
    k :| k < |at| && at[k].agent == c;
  }

  // ----- a finished task stays as it is

  lemma SectionKeepsDone(f: Fleet, s: State, w: nat, res: AttemptResult, t: nat)
    requires Inv(f, s) && Enabled(s, w) && t < |s.st| && s.st[t].done
    ensures var r := Section(f, s, w, res); |r.st| == |s.st| && r.st[t] == s.st[t]
  {
    assert TaskOk(f, s.alive, t, s.st[t]);
    if s.pc[w].Running? {
      CompleteKeepsDone(f, s, w, res, t);
      CompleteKeepsInv(f, s, w, res);
      CheckKeepsDone(f, Complete(f, s, w, res), w, t);
    } else {
      CheckKeepsDone(f, s, w, t);
    }
  }

  lemma CompleteKeepsDone(f: Fleet, s: State, w: nat, res: AttemptResult, t: nat)
    requires Inv(f, s) && w < |s.pc| && s.pc[w].Running? && t < |s.st| && s.st[t].done
    ensures var r := Complete(f, s, w, res); |r.st| == |s.st| && r.st[t] == s.st[t]
  {
    assert TaskOk(f, s.alive, s.pc[w].task, s.st[s.pc[w].task]);
    CompleteEffect(f, s, w, res);
  }

  lemma CheckKeepsDone(f: Fleet, s: State, w: nat, t: nat)
    requires Shape(f, s) && w < |s.pc| && s.pc[w].Ready? && t < |s.st| && s.st[t].done
    ensures var r := Check(f, s, w); |r.st| == |s.st| && r.st[t] == s.st[t]
  {
  }

  /** Each task is finished at most once: from then on its status, message and attempts never change. */
  lemma {:induction false} FinishedOnce(f: Fleet, sched: seq<Turn>, n: nat, t: nat)
    requires ValidFleet(f) && Legal(f, sched) && n <= |sched| && Legal(f, sched[..n]) && t < |f.tasks|
    requires After(f, sched[..n]).st[t].done
    ensures After(f, sched).st[t] == After(f, sched[..n]).st[t]
  {
    if n == |sched| {
      assert sched[..n] == sched;
    } else {
      var m := |sched| - 1;
      assert sched[..m][..n] == sched[..n];
      FinishedOnce(f, sched[..m], n, t);
      ScheduleKeepsInv(f, sched[..m]);
      SectionKeepsDone(f, After(f, sched[..m]), sched[m].worker, sched[m].result, t);
    }
  }

  // ----- why an agent was retired

  /** Agent `a` came back with an agent error from attempt `k` at task `t`. */
  ghost predicate Erred(s: State, a: nat, t: nat, k: nat) {
    && t < |s.st| && k < |s.st[t].attempts|
    && s.st[t].attempts[k].agent == a && s.st[t].attempts[k].result.status.AgentError?
  }

  lemma ErredStays(f: Fleet, s: State, w: nat, res: AttemptResult, a: nat, t: nat, k: nat)
    requires Inv(f, s) && Enabled(s, w) && Erred(s, a, t, k)
    ensures Erred(Section(f, s, w, res), a, t, k)
  {
    SectionAttempts(f, s, w, res, t);
  }

  lemma RetiringErrs(f: Fleet, s: State, w: nat, res: AttemptResult, a: nat) returns (t: nat, k: nat)
    requires Inv(f, s) && Enabled(s, w) && a < |s.alive| && s.alive[a] && !Section(f, s, w, res).alive[a]
    ensures Erred(Section(f, s, w, res), a, t, k)
  {
    RetiringReturns(f, s, w, res, a);
    t := s.pc[w].task;
    k := |s.st[t].attempts|;
    SectionAttempts(f, s, w, res, t);
  }

  lemma RetiringReturns(f: Fleet, s: State, w: nat, res: AttemptResult, a: nat)
    requires Inv(f, s) && Enabled(s, w) && a < |s.alive| && s.alive[a] && !Section(f, s, w, res).alive[a]
    ensures s.pc[w].Running? && f.seat[w] == a && res.status.AgentError?
  {
    if s.pc[w].Running? {
      CompleteEffect(f, s, w, res);
    }
  }

  /** An agent is retired exactly when one of its attempts ended in an agent error. */
  lemma {:induction false} RetiredErred(f: Fleet, sched: seq<Turn>, a: nat) returns (t: nat, k: nat)
    requires ValidFleet(f) && Legal(f, sched) && a < |f.agents| && !After(f, sched).alive[a]
    ensures Erred(After(f, sched), a, t, k)
  {
    if |sched| == 0 {
      assert false;
    } else {
      var n := |sched| - 1;
      var s, w, res := After(f, sched[..n]), sched[n].worker, sched[n].result;
      ScheduleKeepsInv(f, sched[..n]);
      if s.alive[a] {
        t, k := RetiringErrs(f, s, w, res, a);
      } else {
        t, k := RetiredErred(f, sched[..n], a);
        ErredStays(f, s, w, res, a, t, k);
      }
    }
  }

  lemma RetiredIffErred(f: Fleet, s: State, a: nat)
    requires ValidFleet(f) && Reachable(f, s) && a < |f.agents|
    ensures a in s.dead <==> exists t: nat, k: nat :: Erred(s, a, t, k)
  {
    ReachableInv(f, s);
    if a in s.dead {
      var sched :| Legal(f, sched) && After(f, sched) == s;
      var t, k := RetiredErred(f, sched, a);
    }
    if t: nat, k: nat :| Erred(s, a, t, k) {
      AttemptsAreRouted(f, s, t, k);
    }
  }

  // ----- who answered the attempts

  /** Every attempt has the executor's answer for its agent, its task and its number. */
  ghost predicate AnsweredBy(s: State, exec: (nat, nat, nat) -> AttemptResult) {
    forall t, k :: 0 <= t < |s.st| && 0 <= k < |s.st[t].attempts| ==>
      s.st[t].attempts[k].result == exec(s.st[t].attempts[k].agent, t, k)
  }

  lemma SectionAnswered(f: Fleet, s: State, w: nat, res: AttemptResult, exec: (nat, nat, nat) -> AttemptResult)
    requires Inv(f, s) && Enabled(s, w) && AnsweredBy(s, exec)
    requires s.pc[w].Running? ==> res == exec(f.seat[w], s.pc[w].task, |s.st[s.pc[w].task].attempts|)
    ensures AnsweredBy(Section(f, s, w, res), exec)
  {
    var r := Section(f, s, w, res);
    forall t, k | 0 <= t < |r.st| && 0 <= k < |r.st[t].attempts|
      ensures r.st[t].attempts[k].result == exec(r.st[t].attempts[k].agent, t, k)
    {
      AttemptAnswered(f, s, w, res, exec, t, k);
    }
  }

  lemma AttemptAnswered(f: Fleet, s: State, w: nat, res: AttemptResult, exec: (nat, nat, nat) -> AttemptResult, t: nat,
      k: nat)
    requires Inv(f, s) && Enabled(s, w) && AnsweredBy(s, exec)
    requires s.pc[w].Running? ==> res == exec(f.seat[w], s.pc[w].task, |s.st[s.pc[w].task].attempts|)
    requires t < |Section(f, s, w, res).st| && k < |Section(f, s, w, res).st[t].attempts|
    ensures var at := Section(f, s, w, res).st[t].attempts; at[k].result == exec(at[k].agent, t, k)
  {
    assert t < |s.st|;
    SectionAttempts(f, s, w, res, t);
  }
}
