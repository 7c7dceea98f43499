/** What every reachable state of a run satisfies, whatever the interleaving and the executor's answers. */
module SchedulerInvariant {
  import opened SchedulerModel

  // ----- one task

  /** Agent `a` took one of the first `n` attempts. */
  ghost predicate UsedBefore(at: seq<AttemptRecord>, n: nat, a: nat) {
    exists k :: 0 <= k < n && k < |at| && at[k].agent == a
  }

  /** Attempts that spent retry budget. */
  function Failures(at: seq<AttemptRecord>): nat {
    if |at| == 0 then 0
    else
      var last := at[|at| - 1].result.status;
      Failures(at[..|at| - 1]) + (if last.Failed? || last.TimedOut? then 1 else 0)
  }

  function Last(at: seq<AttemptRecord>): AttemptRecord
    requires |at| > 0
  {
    at[|at| - 1]
  }

  ghost predicate AttemptOk(f: Fleet, alive: seq<bool>, t: nat, ts: TaskState, k: nat)
    requires t < |f.capable| && k < |ts.attempts|
  {
    var r := ts.attempts[k];
    && r.agent < |alive|
    && r.agent in f.capable[t]
    && (r.result.status.AgentError? ==> !alive[r.agent])
    && (r.result.status.Passed? ==> k == |ts.attempts| - 1 && ts.done && ts.final.Passed?)
  }

  ghost predicate VerdictOk(f: Fleet, alive: seq<bool>, t: nat, ts: TaskState)
    requires t < |f.tasks| == |f.capable|
  {
    var retries := f.tasks[t].retries;
    match ts.final
    case Passed =>
      |ts.attempts| > 0 && Last(ts.attempts).result.status.Passed? && ts.failures <= retries && ts.message == ""
    case Failed =>
      |ts.attempts| > 0 && Last(ts.attempts).result.status.Failed? && ts.failures == retries + 1 && ts.message == ""
    case TimedOut =>
      |ts.attempts| > 0 && Last(ts.attempts).result.status.TimedOut? && ts.failures == retries + 1 && ts.message == ""
    case Unschedulable =>
      !AnyLiveCapable(f, alive, t) && ts.failures <= retries && ts.message == Reason(f, t)
  }

  ghost predicate TaskOk(f: Fleet, alive: seq<bool>, t: nat, ts: TaskState)
    requires t < |f.tasks| == |f.capable|
  {
    && (ts.running ==> !ts.done)
    && (forall k :: 0 <= k < |ts.attempts| ==> AttemptOk(f, alive, t, ts, k))
    && (forall a :: a in ts.tried <==> UsedBefore(ts.attempts, |ts.attempts|, a))
    && ts.failures == Failures(ts.attempts)
    && (ts.done ==> VerdictOk(f, alive, t, ts))
    && (!ts.done ==> ts.failures <= f.tasks[t].retries && ts.final.Unschedulable? && ts.message == "")
  }

  /** The pick rule, as it still holds when the attempt comes back. */
  ghost predicate Placed(f: Fleet, alive: seq<bool>, t: nat, ts: TaskState, a: nat)
    requires t < |f.capable|
  {
    a in ts.tried ==>
      forall c :: 0 <= c < |alive| && c != a && alive[c] && c in f.capable[t] ==> c in ts.tried
  }

  ghost predicate Fewer(after: seq<bool>, before: seq<bool>) {
    |after| == |before| && forall a :: 0 <= a < |after| && after[a] ==> before[a]
  }

  lemma TaskOkFewerAgents(f: Fleet, before: seq<bool>, after: seq<bool>, t: nat, ts: TaskState)
    requires t < |f.tasks| == |f.capable| && TaskOk(f, before, t, ts) && Fewer(after, before)
    ensures TaskOk(f, after, t, ts)
  {
    forall k | 0 <= k < |ts.attempts| ensures AttemptOk(f, after, t, ts, k) {
      assert AttemptOk(f, before, t, ts, k);
    }
  }

  lemma UsedBeforePrefix(at: seq<AttemptRecord>, r: AttemptRecord, n: nat, a: nat)
    requires n <= |at|
    ensures UsedBefore(at + [r], n, a) <==> UsedBefore(at, n, a)
  {
    assert forall k :: 0 <= k < |at| ==> (at + [r])[k] == at[k];
  }

  lemma UsedBeforeLast(at: seq<AttemptRecord>, r: AttemptRecord, a: nat)
    ensures UsedBefore(at + [r], |at| + 1, a) <==> a == r.agent || UsedBefore(at, |at|, a)
  {
    UsedBeforePrefix(at, r, |at|, a);
    assert (at + [r])[|at|] == r;
  }

  lemma AttemptedOk(f: Fleet, before: seq<bool>, after: seq<bool>, t: nat, ts: TaskState, a: nat, res: AttemptResult)
    requires t < |f.tasks| == |f.capable| && TaskOk(f, before, t, ts) && Fewer(after, before)
    requires ts.running && a < |after| && a in f.capable[t]
    requires res.status.AgentError? ==> !after[a]
    ensures TaskOk(f, after, t, Attempted(f.tasks[t], ts, a, res))
  {
    var r := AttemptRecord(a, res);
    var to := Attempted(f.tasks[t], ts, a, res);
    var at := ts.attempts;
    assert to.attempts == at + [r] && to.tried == ts.tried + {a} && !to.running;
    assert to.attempts[..|at|] == at;
    assert to.failures == Failures(to.attempts);
    forall k: nat | k < |to.attempts| {
      AttemptedRecord(f, before, after, t, ts, a, res, k);
    }
    forall c: nat {
      UsedBeforeLast(at, r, c);
    }
  }

  lemma AttemptedRecord(f: Fleet, before: seq<bool>, after: seq<bool>, t: nat, ts: TaskState, a: nat,
      res: AttemptResult, k: nat)
    requires t < |f.tasks| == |f.capable| && TaskOk(f, before, t, ts) && Fewer(after, before)
    requires ts.running && a < |after| && a in f.capable[t] && k < |Attempted(f.tasks[t], ts, a, res).attempts|
    requires res.status.AgentError? ==> !after[a]
    ensures AttemptOk(f, after, t, Attempted(f.tasks[t], ts, a, res), k)
  {
    if k < |ts.attempts| {
      assert AttemptOk(f, before, t, ts, k);
    }
  }

  lemma SettleOk(f: Fleet, alive: seq<bool>, t: nat, ts: TaskState)
    requires t < |f.tasks| == |f.capable| && TaskOk(f, alive, t, ts)
    ensures TaskOk(f, alive, t, Settle(f, alive, t, ts))
  {
    var to := Settle(f, alive, t, ts);
    forall k | 0 <= k < |to.attempts| ensures AttemptOk(f, alive, t, to, k) {
      assert AttemptOk(f, alive, t, ts, k);
    }
  }

  lemma TakenOk(f: Fleet, alive: seq<bool>, t: nat, ts: TaskState)
    requires t < |f.tasks| == |f.capable| && TaskOk(f, alive, t, ts) && !ts.done
    ensures TaskOk(f, alive, t, ts.(running := true))
  {
    var to := ts.(running := true);
    forall k | 0 <= k < |to.attempts| ensures AttemptOk(f, alive, t, to, k) {
      assert AttemptOk(f, alive, t, ts, k);
    }
  }
}
