/**
 * Exactly which fleets can hang. The hazard is an agent with two workers that can run both a
 * task `t` and some other task: from any such fleet a run is constructed in which `t` is
 * stranded, and no other fleet has such a run.
 */
module SchedulerHazard {
  import opened SchedulerModel
  import opened SchedulerInvariant
  import opened SchedulerSteps
  import opened SchedulerTermination
  import opened SchedulerOutcome

  const PASS := AttemptResult(AttemptStatus.Passed, "")
  const BREAK := AttemptResult(AttemptStatus.AgentError, "")

  /** The pieces of a hazard: two workers `v`, `w` of agent `a`, which can run both `t` and `u`. */
  datatype Plan = Plan(a: nat, t: nat, u: nat, v: nat, w: nat)

  ghost predicate PlanOk(f: Fleet, p: Plan) {
    && ValidFleet(f)
    && p.t < |f.tasks| && p.u < |f.tasks| && p.t != p.u
    && p.a < |f.agents| && p.a in f.capable[p.t] && p.a in f.capable[p.u]
    && p.v != p.w && Seated(f, p.v, p.a) && Seated(f, p.w, p.a)
  }

  /** Only other agents able to run `t` have been retired, and `t` and `u` are still open and new to agent `a`. */
  ghost predicate Stage(f: Fleet, s: State, p: Plan) {
    && PlanOk(f, p) && Reachable(f, s) && Shape(f, s)
    && s.alive[p.a]
    && !s.st[p.t].done && !s.st[p.u].done
    && p.a !in s.st[p.u].tried
    && (forall c :: 0 <= c < |s.alive| && !s.alive[c] ==> c in f.capable[p.t])
    && (forall c :: 0 <= c < |s.alive| && s.alive[c] ==> c !in s.st[p.t].tried)
  }

  /** Apart from `held`, no worker of a live agent has moved yet. */
  ghost predicate Quiet(f: Fleet, s: State, held: set<nat>)
    requires Shape(f, s)
  {
    forall x :: 0 <= x < |s.pc| && x !in held && s.alive[f.seat[x]] ==> s.pc[x].Ready?
  }

  lemma Step(f: Fleet, s: State, w: nat, res: AttemptResult)
    requires ValidFleet(f) && Reachable(f, s) && Shape(f, s) && Enabled(s, w)
    ensures var r := Section(f, s, w, res);
      Reachable(f, r) && Shape(f, r) && PhiNat(f, r) < PhiNat(f, s) && OthersAtMostWake(s.pc, r.pc, w)
  {
    ReachableInv(f, s);
    var r := Section(f, s, w, res);
    ReachableStep(f, s, w, res);
    SectionKeepsInv(f, s, w, res);
    SectionLowersPhi(f, s, w, res);
    SectionMoves(f, s, w, res);
    PhiNonNegative(f, s);
    PhiNonNegative(f, r);
  }

  // ----- driving one worker to one task

  /** With `x` free for its agent and `y` out of the way, a worker takes `x` or some third task first. */
  lemma CheckTakes(f: Fleet, s: State, w: nat, x: nat, y: nat) returns (p: nat)
    requires Inv(f, s) && w < |s.pc| && s.pc[w].Ready? && s.alive[f.seat[w]]
    requires x < |s.st| && y < |s.st| && x != y && !s.st[x].done && !s.st[x].running
    requires f.seat[w] in f.capable[x] && f.seat[w] !in s.st[x].tried
    requires s.st[y].running || f.seat[w] !in f.capable[y] || x < y
    ensures p != y && p < |s.st|
    ensures Check(f, s, w) == s.(st := s.st[p := s.st[p].(running := true)], pc := s.pc[w := Running(p)])
  {
    OpenBounds(s.st);
    assert Pickable(f, s, f.seat[w], x);
    p := Pick(f, s, f.seat[w], 0).value;
  }

  lemma SectionTakes(f: Fleet, s: State, w: nat, x: nat, y: nat) returns (p: nat)
    requires ValidFleet(f) && Reachable(f, s) && Shape(f, s) && Enabled(s, w) && s.alive[f.seat[w]]
    requires x < |s.st| && y < |s.st| && x != y && !s.st[x].done && !s.st[x].running
    requires f.seat[w] in f.capable[x] && f.seat[w] !in s.st[x].tried
    requires s.st[y].running || f.seat[w] !in f.capable[y] || x < y
    requires s.pc[w].Running? ==> s.pc[w].task != y
    ensures var r := Section(f, s, w, PASS);
      && p != y && r.pc[w] == Running(p)
      && r.alive == s.alive && r.st[y] == s.st[y]
      && r.st[x] == (if p == x then s.st[x].(running := true) else s.st[x])
  {
    ReachableInv(f, s);
    if s.pc[w].Running? {
      CompleteEffect(f, s, w, PASS);
      CompleteKeepsInv(f, s, w, PASS);
      p := CheckTakes(f, Complete(f, s, w, PASS), w, x, y);
    } else {
      p := CheckTakes(f, s, w, x, y);
    }
  }

  lemma {:induction false} Drive(f: Fleet, s: State, w: nat, x: nat, y: nat) returns (r: State)
    requires ValidFleet(f) && Reachable(f, s) && Shape(f, s) && Enabled(s, w) && s.alive[f.seat[w]]
    requires x < |s.st| && y < |s.st| && x != y && !s.st[x].done && !s.st[x].running
    requires f.seat[w] in f.capable[x] && f.seat[w] !in s.st[x].tried
    requires s.st[y].running || f.seat[w] !in f.capable[y] || x < y
    requires s.pc[w].Running? ==> s.pc[w].task != y
    ensures Reachable(f, r) && Shape(f, r) && PhiNat(f, r) < PhiNat(f, s)
    ensures OthersAtMostWake(s.pc, r.pc, w) && r.pc[w] == Running(x)
    ensures r.alive == s.alive && r.st[y] == s.st[y] && r.st[x] == s.st[x].(running := true)
    decreases PhiNat(f, s)
  {
    var p := SectionTakes(f, s, w, x, y);
    Step(f, s, w, PASS);
    r := Section(f, s, w, PASS);
    if p != x {
      r := Drive(f, r, w, x, y);
    }
  }

  // ----- retiring an agent through a running task

  /** An agent error while `y` still has a live agent: the agent is retired, `y` and the failed task stay open. */
  lemma Breaks(f: Fleet, s: State, w: nat, y: nat)
    requires ValidFleet(f) && Reachable(f, s) && Shape(f, s) && w < |s.pc| && s.pc[w].Running? && y < |s.st|
    requires y != s.pc[w].task
    requires s.st[y].running || s.st[y].done || AnyLiveCapable(f, s.alive[f.seat[w] := false], y)
    ensures var r := Section(f, s, w, BREAK);
      && r.pc[w].Exited? && r.alive == s.alive[f.seat[w] := false] && r.st[y] == s.st[y]
  {
    ReachableInv(f, s);
    CompleteEffect(f, s, w, BREAK);
  }

  /** The same for the task that was running. */
  lemma BreaksOwn(f: Fleet, s: State, w: nat)
    requires ValidFleet(f) && Reachable(f, s) && Shape(f, s) && w < |s.pc| && s.pc[w].Running?
    requires !s.alive[f.seat[w]] || AnyLiveCapable(f, s.alive[f.seat[w] := false], s.pc[w].task)
    ensures var r, t := Section(f, s, w, BREAK), s.pc[w].task;
      r.st[t] == Attempted(f.tasks[t], s.st[t], f.seat[w], BREAK)
  {
    ReachableInv(f, s);
    CompleteEffect(f, s, w, BREAK);
  }

  /** A stage outlives the retirement of agents able to run `t`, each after an attempt at it. */
  lemma StageLater(f: Fleet, s: State, r: State, p: Plan)
    requires Stage(f, s, p) && Reachable(f, r) && Shape(f, r) && r.alive[p.a]
    requires !r.st[p.t].done && !r.st[p.u].done && r.st[p.u].tried == s.st[p.u].tried
    requires forall c :: 0 <= c < |r.alive| && !r.alive[c] ==> !s.alive[c] || c in f.capable[p.t]
    requires forall c :: 0 <= c < |r.alive| && r.alive[c] ==> s.alive[c]
    requires forall c :: c in r.st[p.t].tried ==> c in s.st[p.t].tried || (c < |r.alive| && !r.alive[c])
    ensures Stage(f, r, p)
  {
  }

  lemma RetireSteps(f: Fleet, s: State, w: nat, t: nat, u: nat, a: nat) returns (r: State)
    requires ValidFleet(f) && Reachable(f, s) && Shape(f, s) && Enabled(s, w) && s.alive[f.seat[w]] && s.pc[w].Ready?
    requires t < |s.st| && u < |s.st| && t != u && !s.st[t].done && !s.st[t].running && !s.st[u].done
    requires f.seat[w] in f.capable[t] && f.seat[w] !in s.st[t].tried
    requires s.st[u].running || t < u
    requires a < |s.alive| && a != f.seat[w] && s.alive[a] && a in f.capable[t] && a in f.capable[u]
    ensures Reachable(f, r) && Shape(f, r) && PhiNat(f, r) < PhiNat(f, s)
    ensures OthersAtMostWake(s.pc, r.pc, w) && r.pc[w].Exited? && r.alive == s.alive[f.seat[w] := false]
    ensures r.st[u] == s.st[u]
    ensures !r.st[t].done && !r.st[t].running && r.st[t].tried == s.st[t].tried + {f.seat[w]}
  {
    var m := Drive(f, s, w, t, u);
    r := BreakStep(f, m, w, u, a);
    WakesCompose(s.pc, m.pc, r.pc, w);
  }

  lemma WakesCompose(x: seq<Worker>, y: seq<Worker>, z: seq<Worker>, w: nat)
    requires OthersAtMostWake(x, y, w) && OthersAtMostWake(y, z, w)
    ensures OthersAtMostWake(x, z, w)
  {
  }

  lemma BreakStep(f: Fleet, s: State, w: nat, u: nat, a: nat) returns (r: State)
    requires ValidFleet(f) && Reachable(f, s) && Shape(f, s)
    requires w < |s.pc| && s.pc[w].Running? && u < |s.st| && u != s.pc[w].task
    requires a < |s.alive| && a != f.seat[w] && s.alive[a] && a in f.capable[s.pc[w].task] && a in f.capable[u]
    ensures Reachable(f, r) && Shape(f, r) && PhiNat(f, r) < PhiNat(f, s)
    ensures OthersAtMostWake(s.pc, r.pc, w) && r.pc[w].Exited? && r.alive == s.alive[f.seat[w] := false]
    ensures |r.st| == |s.st| && r.st[u] == s.st[u]
    ensures r.st[s.pc[w].task] == Attempted(f.tasks[s.pc[w].task], s.st[s.pc[w].task], f.seat[w], BREAK)
  {
    Step(f, s, w, BREAK);
    r := Section(f, s, w, BREAK);
    BreaksBoth(f, s, w, u, a);
  }

  lemma BreaksBoth(f: Fleet, s: State, w: nat, u: nat, a: nat)
    requires ValidFleet(f) && Reachable(f, s) && Shape(f, s)
    requires w < |s.pc| && s.pc[w].Running? && u < |s.st| && u != s.pc[w].task
    requires a < |s.alive| && a != f.seat[w] && s.alive[a] && a in f.capable[s.pc[w].task] && a in f.capable[u]
    ensures var r, t := Section(f, s, w, BREAK), s.pc[w].task;
      && r.pc[w].Exited? && r.alive == s.alive[f.seat[w] := false] && r.st[u] == s.st[u]
      && |r.st| == |s.st| && r.st[t] == Attempted(f.tasks[t], s.st[t], f.seat[w], BREAK) && !r.st[t].done
  {
    ReachableInv(f, s);
    assert s.alive[f.seat[w] := false][a];
    Breaks(f, s, w, u);
    BreaksOwn(f, s, w);
  }

  lemma {:induction false} RetireOne(f: Fleet, s: State, p: Plan, held: set<nat>, c: nat) returns (r: State)
    requires Stage(f, s, p) && Quiet(f, s, held) && !s.st[p.t].running
    requires s.st[p.u].running || p.t < p.u
    requires c < |s.alive| && c != p.a && s.alive[c] && c in f.capable[p.t]
    requires forall x :: x in held && x < |f.seat| ==> f.seat[x] == p.a
    ensures Stage(f, r, p) && Quiet(f, r, held) && !r.st[p.t].running && r.st[p.u] == s.st[p.u]
    ensures PhiNat(f, r) < PhiNat(f, s)
    ensures forall x :: x in held && x < |s.pc| && !s.pc[x].Asleep? ==> r.pc[x] == s.pc[x]
  {
    assert Staffed(f, c);
    var w: nat :| Seated(f, w, c);
    r := RetireSteps(f, s, w, p.t, p.u, p.a);
    StageLater(f, s, r, p);
  }

  /** Retire every agent other than `a` that can run `t`. */
  lemma {:induction false} RetireOthers(f: Fleet, s: State, p: Plan, held: set<nat>) returns (r: State)
    requires Stage(f, s, p) && Quiet(f, s, held) && !s.st[p.t].running
    requires s.st[p.u].running || p.t < p.u
    requires forall x :: x in held && x < |f.seat| ==> f.seat[x] == p.a
    requires forall x :: x in held && x < |s.pc| ==> !s.pc[x].Asleep?
    ensures Stage(f, r, p) && Quiet(f, r, held) && !r.st[p.t].running && r.st[p.u] == s.st[p.u]
    ensures forall c :: 0 <= c < |r.alive| && r.alive[c] && c in f.capable[p.t] ==> c == p.a
    ensures forall x :: x in held && x < |s.pc| ==> r.pc[x] == s.pc[x]
    decreases PhiNat(f, s)
  {
    if c: nat :| c < |s.alive| && c != p.a && s.alive[c] && c in f.capable[p.t] {
      r := RetireOne(f, s, p, held, c);
      r := RetireOthers(f, r, p, held);
    } else {
      r := s;
    }
  }

  // ----- the fatal moment

  /** The first of two busy workers retires their agent; the task in flight on the other stays in flight. */
  lemma FirstReturn(f: Fleet, s: State, v: nat, w: nat) returns (r: State)
    requires ValidFleet(f) && Reachable(f, s) && Shape(f, s)
    requires v < |s.pc| && w < |s.pc| && v != w && s.pc[v].Running? && s.pc[w].Running?
    ensures Reachable(f, r) && Shape(f, r) && r.alive == s.alive[f.seat[v] := false]
    ensures r.pc[w] == s.pc[w]
  {
    assert s.pc[v].task != s.pc[w].task && s.st[s.pc[w].task].running by {
      ReachableInv(f, s);
      assert v < w || w < v;
    }
    Step(f, s, v, BREAK);
    r := Section(f, s, v, BREAK);
    Breaks(f, s, v, s.pc[w].task);
  }

  /** The second one brings its task back too late for anyone to declare it unschedulable. */
  lemma LateReturn(f: Fleet, s: State, w: nat) returns (r: State)
    requires ValidFleet(f) && Reachable(f, s) && Shape(f, s)
    requires w < |s.pc| && s.pc[w].Running? && !AnyLiveCapable(f, s.alive, s.pc[w].task)
    ensures Reachable(f, r) && Shape(f, r) && r.alive == s.alive && Orphan(f, r, s.pc[w].task)
  {
    Step(f, s, w, BREAK);
    r := Section(f, s, w, BREAK);
    LateReturnStrands(f, s, w);
  }

  lemma LateReturnStrands(f: Fleet, s: State, w: nat)
    requires ValidFleet(f) && Reachable(f, s) && Shape(f, s)
    requires w < |s.pc| && s.pc[w].Running? && !AnyLiveCapable(f, s.alive, s.pc[w].task)
    ensures var r := Section(f, s, w, BREAK); r.alive == s.alive && Orphan(f, r, s.pc[w].task)
  {
    ReachableInv(f, s);
    assert !s.alive[f.seat[w]];
    BreakKeepsAgents(f, s, w);
    BreaksOwn(f, s, w);
  }

  /** Two workers of the last agent able to run `t` are busy; both come back with an agent error. */
  lemma LoseTask(f: Fleet, s: State, p: Plan) returns (r: State)
    requires PlanOk(f, p) && Reachable(f, s) && Shape(f, s) && s.alive[p.a]
    requires s.pc[p.v] == Running(p.u) && s.pc[p.w] == Running(p.t)
    requires forall c :: 0 <= c < |s.alive| && s.alive[c] && c in f.capable[p.t] ==> c == p.a
    requires forall c :: 0 <= c < |s.alive| && !s.alive[c] ==> c in f.capable[p.t]
    ensures Reachable(f, r) && Shape(f, r) && Orphan(f, r, p.t)
    ensures forall c :: 0 <= c < |r.alive| && !r.alive[c] ==> c in f.capable[p.t]
  {
    var m := FirstReturn(f, s, p.v, p.w);
    r := LateReturn(f, m, p.w);
  }

  lemma BreakKeepsAgents(f: Fleet, s: State, w: nat)
    requires ValidFleet(f) && Reachable(f, s) && Shape(f, s) && w < |s.pc| && s.pc[w].Running? && !s.alive[f.seat[w]]
    ensures Section(f, s, w, BREAK).alive == s.alive
  {
    ReachableInv(f, s);
    CompleteEffect(f, s, w, BREAK);
  }

  /** From then on everything else passes, nobody else is retired, and the task stays stranded. */
  lemma {:induction false} Drain(f: Fleet, s: State, t: nat) returns (q: State)
    requires ValidFleet(f) && Reachable(f, s) && Shape(f, s) && Orphan(f, s, t)
    ensures Reachable(f, q) && Shape(f, q) && Quiescent(q) && Orphan(f, q, t) && q.alive == s.alive
    decreases PhiNat(f, s)
  {
    if Quiescent(s) {
      q := s;
    } else {
      var w :| 0 <= w < |s.pc| && Enabled(s, w);
      Step(f, s, w, PASS);
      PassKeepsOrphan(f, s, w, t);
      q := Drain(f, Section(f, s, w, PASS), t);
    }
  }

  lemma PassKeepsOrphan(f: Fleet, s: State, w: nat, t: nat)
    requires ValidFleet(f) && Reachable(f, s) && Shape(f, s) && Enabled(s, w) && Orphan(f, s, t)
    ensures var r := Section(f, s, w, PASS); Orphan(f, r, t) && r.alive == s.alive
  {
    ReachableInv(f, s);
    if s.pc[w].Running? {
      CompleteEffect(f, s, w, PASS);
      var m := Complete(f, s, w, PASS);
      assert Orphan(f, m, t);
      CheckLeavesOrphan(f, m, w, t);
    } else {
      CheckLeavesOrphan(f, s, w, t);
    }
  }

  lemma CheckLeavesOrphan(f: Fleet, s: State, w: nat, t: nat)
    requires Shape(f, s) && w < |s.pc| && s.pc[w].Ready? && Orphan(f, s, t)
    ensures var r := Check(f, s, w); Shape(f, r) && Orphan(f, r, t) && r.alive == s.alive
  {
  }

  // ----- the constructed run

  lemma StageAtStart(f: Fleet, p: Plan)
    requires PlanOk(f, p)
    ensures var s := Start(f);
      && Stage(f, s, p) && Quiet(f, s, {})
      && !s.st[p.t].running && !s.st[p.u].running && s.st[p.t].tried == {}
  {
    var s := Start(f);
    StartKeepsInv(f);
    assert Legal(f, []) && After(f, []) == s;
    assert s.alive[p.a];
    assert AnyLiveCapable(f, s.alive, p.t) && AnyLiveCapable(f, s.alive, p.u);
  }

  /** Both tasks are in flight on agent `a`, the last one able to run `t`. */
  ghost predicate InFlight(f: Fleet, s: State, p: Plan) {
    && PlanOk(f, p) && Reachable(f, s) && Shape(f, s) && s.alive[p.a]
    && s.pc[p.v] == Running(p.u) && s.pc[p.w] == Running(p.t)
    && (forall c :: 0 <= c < |s.alive| && s.alive[c] && c in f.capable[p.t] ==> c == p.a)
    && (forall c :: 0 <= c < |s.alive| && !s.alive[c] ==> c in f.capable[p.t])
  }

  /** `u` would be picked before `t`, so it is parked on worker `v` before anybody else moves. */
  lemma ParkFirst(f: Fleet, p: Plan) returns (s: State)
    requires PlanOk(f, p) && p.u < p.t
    ensures InFlight(f, s, p)
  {
    var s0 := Start(f);
    StageAtStart(f, p);
    var s1 := Drive(f, s0, p.v, p.u, p.t);
    StageLater(f, s0, s1, p);
    var s2 := RetireOthers(f, s1, p, {p.v});
    assert Enabled(s2, p.w);
    s := Drive(f, s2, p.w, p.t, p.u);
  }

  /** `t` comes first: every other agent able to run it takes it and breaks, then `w` takes it, then `v` takes `u`. */
  lemma ParkLast(f: Fleet, p: Plan) returns (s: State)
    requires PlanOk(f, p) && p.t < p.u
    ensures InFlight(f, s, p)
  {
    var s0 := Start(f);
    StageAtStart(f, p);
    var s1 := RetireOthers(f, s0, p, {});
    assert Enabled(s1, p.w) && Enabled(s1, p.v);
    var s2 := Drive(f, s1, p.w, p.t, p.u);
    assert Enabled(s2, p.v);
    s := Drive(f, s2, p.v, p.u, p.t);
  }

  /** A run that ends with `t` stranded, retiring only agents able to run `t`. */
  lemma StrandingRun(f: Fleet, p: Plan) returns (q: State)
    requires PlanOk(f, p)
    ensures Reachable(f, q) && Shape(f, q) && Quiescent(q) && Orphan(f, q, p.t)
    ensures forall c :: 0 <= c < |q.alive| && !q.alive[c] ==> c in f.capable[p.t]
  {
    var s: State;
    if p.u < p.t {
      s := ParkFirst(f, p);
    } else {
      s := ParkLast(f, p);
    }
    var r := LoseTask(f, s, p);
    q := Drain(f, r, p.t);
  }

  // ----- the exact conditions

  lemma HazardGivesPlan(f: Fleet, a: nat, t: nat) returns (p: Plan)
    requires ValidFleet(f) && Hazard(f, a, t)
    ensures PlanOk(f, p) && p.a == a && p.t == t
  {
    var w :| Seated(f, w, a) && Crowded(f, a, w, t);
    var v: nat :| v != w && Seated(f, v, a);
    var u: nat :| u != t && u < |f.capable| && a in f.capable[u];
    p := Plan(a, t, u, v, w);
  }

  ghost predicate CanStrand(f: Fleet)
    requires ValidFleet(f)
  {
    exists s: State :: Reachable(f, s) && Quiescent(s) && s.remaining != 0
  }

  ghost predicate CanHang(f: Fleet)
    requires ValidFleet(f)
  {
    exists s: State :: Reachable(f, s) && Deadlocked(s)
  }

  /** Some run stops with a task left open exactly when some agent is hazardous for some task. */
  lemma StrandsIffHazard(f: Fleet)
    requires ValidFleet(f)
    ensures CanStrand(f) <==> exists a, t :: Hazard(f, a, t)
  {
    if s: State :| Reachable(f, s) && Quiescent(s) && s.remaining != 0 {
      AllFinishedIffNoOrphan(f, s);
      var t: nat :| t < |s.st| && Orphan(f, s, t);
      assert Hazard(f, Last(s.st[t].attempts).agent, t);
    }
    if a: nat, t: nat :| Hazard(f, a, t) {
      var p := HazardGivesPlan(f, a, t);
      var q := StrandingRun(f, p);
      AllFinishedIffNoOrphan(f, q);
    }
  }

  /** Agent `b` cannot run the task at risk, so nothing that strands the task retires `b`. */
  ghost predicate HazardWithBystander(f: Fleet, a: nat, t: nat, b: nat) {
    Hazard(f, a, t) && b < |f.agents| && b !in f.capable[t]
  }

  /** Some run hangs exactly when, besides, some agent cannot run the task at risk. */
  lemma HangsIffHazardAndBystander(f: Fleet)
    requires ValidFleet(f)
    ensures CanHang(f) <==> exists a, t, b :: HazardWithBystander(f, a, t, b)
  {
    if s: State :| Reachable(f, s) && Deadlocked(s) {
      HangsIffOrphanAndLiveAgent(f, s);
      ReachableInv(f, s);
      var t: nat :| t < |s.st| && Orphan(f, s, t);
      var b: nat :| b < |s.alive| && s.alive[b];
      assert HazardWithBystander(f, Last(s.st[t].attempts).agent, t, b);
    }
    if a: nat, t: nat, b: nat :| HazardWithBystander(f, a, t, b) {
      var p := HazardGivesPlan(f, a, t);
      var q := StrandingRun(f, p);
      assert q.alive[b];
      HangsIffOrphanAndLiveAgent(f, q);
    }
  }
}
