/**
 * The agent's admission gate: one atomic counter, incremented before a call is judged and
 * decremented when it is refused or done. Every atomic operation is a step of its own, so any
 * number of calls may sit between the two.
 */
module AgentGate {
  import opened Arithmetic
  import opened SchedulerModel
  import opened SchedulerSteps
  import opened SchedulerTermination
  import opened SchedulerOutcome
  import opened SchedulerFleet
  import opened Sums

  /** Where one `RunTask` call is: not counted, counted but refused, or running its process. */
  datatype Call = Outside | Refused | Admitted

  /** The counter is a `std::atomic<unsigned>`. */
  datatype Gate = Gate(slots: nat, counter: nat, calls: seq<Call>)

  ghost function Counted(calls: seq<Call>): set<nat> {
    set c: nat | c < |calls| && !calls[c].Outside?
  }

  ghost function Hosted(calls: seq<Call>): set<nat> {
    set c: nat | c < |calls| && calls[c].Admitted?
  }

  /** The counter counts the calls between their two atomic operations; admitted ones never exceed the slots. */
  ghost predicate GateOk(g: Gate) {
    && |g.calls| < TWO32
    && g.counter == |Counted(g.calls)|
    && |Hosted(g.calls)| <= g.slots
  }

  /** `fetch_add` and the comparison with its old value. */
  function Arrive(g: Gate, c: nat): Gate
    requires c < |g.calls| && g.calls[c].Outside?
  {
    g.(counter := (g.counter + 1) % TWO32, calls := g.calls[c := if g.counter >= g.slots then Refused else Admitted])
  }

  /** `fetch_sub`, on either way out. */
  function Depart(g: Gate, c: nat): Gate
    requires c < |g.calls| && !g.calls[c].Outside?
  {
    g.(counter := (g.counter + TWO32 - 1) % TWO32, calls := g.calls[c := Outside])
  }

  lemma {:induction false} BelowSize(s: set<nat>, n: nat)
    requires forall x :: x in s ==> x < n
    ensures |s| <= n
  {
    if n == 0 {
    } else {
      BelowSize(s - {n - 1}, n - 1);
    }
  }

  lemma CountedUpdate(calls: seq<Call>, c: nat, v: Call)
    requires c < |calls|
    ensures Counted(calls[c := v]) == if v.Outside? then Counted(calls) - {c} else Counted(calls) + {c}
  {
    var after := calls[c := v];
    forall x: nat
      ensures x in Counted(after) <==> x in (if v.Outside? then Counted(calls) - {c} else Counted(calls) + {c})
    {
      assert x < |calls| && x != c ==> after[x] == calls[x];
    }
  }

  lemma HostedUpdate(calls: seq<Call>, c: nat, v: Call)
    requires c < |calls|
    ensures Hosted(calls[c := v]) == if v.Admitted? then Hosted(calls) + {c} else Hosted(calls) - {c}
  {
    var after := calls[c := v];
    forall x: nat
      ensures x in Hosted(after) <==> x in (if v.Admitted? then Hosted(calls) + {c} else Hosted(calls) - {c})
    {
      assert x < |calls| && x != c ==> after[x] == calls[x];
    }
  }

  lemma ArriveKeeps(g: Gate, c: nat)
    requires GateOk(g) && c < |g.calls| && g.calls[c].Outside?
    ensures GateOk(Arrive(g, c))
    ensures Arrive(g, c).calls[c].Admitted? <==> |Counted(g.calls)| < g.slots
    ensures Counted(Arrive(g, c).calls) == Counted(g.calls) + {c}
  {
    CountedUpdate(g.calls, c, Arrive(g, c).calls[c]);
    HostedUpdate(g.calls, c, Arrive(g, c).calls[c]);
    SubsetSize(Hosted(g.calls), Counted(g.calls));
    BelowSize(Counted(Arrive(g, c).calls), |g.calls|);
  }

  lemma DepartKeeps(g: Gate, c: nat)
    requires GateOk(g) && c < |g.calls| && !g.calls[c].Outside?
    ensures GateOk(Depart(g, c))
    ensures Counted(Depart(g, c).calls) == Counted(g.calls) - {c}
  {
    CountedUpdate(g.calls, c, Outside);
    HostedUpdate(g.calls, c, Outside);
    SubsetSize(Hosted(g.calls) - {c}, Hosted(g.calls));
    BelowSize(Counted(g.calls), |g.calls|);
  }

  /** The service object: the slot normalisation of its constructor and the two atomic steps. */
  class AgentService {
    const slots: nat
    var running: nat
    var calls: seq<Call>  // the server's threads

    function View(): Gate
      reads this
    {
      Gate(slots, running, calls)
    }

    constructor (optSlots: nat, threads: nat)
      requires threads < TWO32
      ensures slots == (if optSlots == 0 then 1 else optSlots)
      ensures GateOk(View()) && running == 0 && calls == seq(threads, _ => Outside)
    {
      slots := if optSlots == 0 then 1 else optSlots;
      running := 0;
      calls := seq(threads, _ => Outside);
      new;
      assert Counted(calls) == {} && Hosted(calls) == {};
    }

    method EnterRunTask(c: nat) returns (admitted: bool)
      requires GateOk(View()) && c < |calls| && calls[c].Outside?
      modifies this
      ensures View() == Arrive(old(View()), c) && GateOk(View())
      ensures admitted <==> |Counted(old(calls))| < slots
    {
      ArriveKeeps(View(), c);
      var before := running;
      running := (running + 1) % TWO32;
      admitted := before < slots;
      calls := calls[c := if before >= slots then Refused else Admitted];
    }

    method LeaveRunTask(c: nat)
      requires GateOk(View()) && c < |calls| && !calls[c].Outside?
      modifies this
      ensures View() == Depart(old(View()), c) && GateOk(View())
    {
      DepartKeeps(View(), c);
      running := (running + TWO32 - 1) % TWO32;
      calls := calls[c := Outside];
    }
  }

  /** When no call is in progress the counter is back at zero, however the operations interleaved. */
  lemma QuietGateIsZero(g: Gate)
    requires GateOk(g)
    ensures g.counter == 0 <==> forall c :: 0 <= c < |g.calls| ==> g.calls[c].Outside?
  {
    if forall c :: 0 <= c < |g.calls| ==> g.calls[c].Outside? {
      assert Counted(g.calls) == {};
    } else {
      var c: nat :| c < |g.calls| && !g.calls[c].Outside?;
      assert c in Counted(g.calls);
    }
  }

  /** The counter itself may pass the slots, and a call can be refused while no process runs at all. */
  lemma RefusedAtAnIdleAgent()
    ensures var g0 := Gate(1, 0, [Outside, Outside, Outside]);
      var g2 := Arrive(Arrive(g0, 0), 1);
      var g4 := Arrive(Depart(g2, 0), 2);
      && g2.counter > g2.slots
      && Hosted(Depart(g2, 0).calls) == {} && g4.calls[2].Refused?
  {
  }

  // ----- early refusals

  ghost predicate StepOf(g: Gate, h: Gate, c: nat) {
    c < |g.calls| && h == if g.calls[c].Outside? then Arrive(g, c) else Depart(g, c)
  }

  ghost predicate GateStep(g: Gate, h: Gate) {
    exists c :: StepOf(g, h, c)
  }

  /** Any course of atomic operations of the callers, from a gate at rest. */
  ghost predicate GateCourse(gs: seq<Gate>, slots: nat, callers: nat) {
    && |gs| > 0 && gs[0] == Admitting(slots, callers, 0)
    && forall k :: 0 <= k < |gs| - 1 ==> GateStep(gs[k], gs[k + 1])
  }

  /** The first `k` callers are admitted, the others have not called. */
  ghost function Admitting(slots: nat, callers: nat, k: nat): Gate {
    Gate(slots, k, seq(callers, i => if i < k then Admitted else Outside))
  }

  /** The last operation of the course refused call `c` although fewer processes than slots were running. */
  ghost predicate RefusedEarly(gs: seq<Gate>, c: nat) {
    && |gs| >= 2 && c < |gs[|gs| - 2].calls| && gs[|gs| - 2].calls[c].Outside?
    && gs[|gs| - 1] == Arrive(gs[|gs| - 2], c) && gs[|gs| - 1].calls[c].Refused?
    && |Hosted(gs[|gs| - 2].calls)| < gs[|gs| - 2].slots
  }

  lemma RestIsOk(slots: nat, callers: nat)
    requires callers < TWO32
    ensures GateOk(Admitting(slots, callers, 0))
  {
    var g := Admitting(slots, callers, 0);
    assert Counted(g.calls) == {} && Hosted(g.calls) == {};
  }

  lemma AdmitsNext(slots: nat, callers: nat, k: nat)
    requires k < slots && k < callers < TWO32
    ensures StepOf(Admitting(slots, callers, k), Admitting(slots, callers, k + 1), k)
  {
    var g, h := Admitting(slots, callers, k), Admitting(slots, callers, k + 1);
    assert g.calls[k := Admitted] == h.calls;
  }

  /** With more callers than slots: fill the slots, refuse one, let an admitted one leave and come back. */
  lemma EarlyRefusal(slots: nat, callers: nat) returns (gs: seq<Gate>)
    requires 1 <= slots < callers < TWO32
    ensures GateCourse(gs, slots, callers) && RefusedEarly(gs, 0)
  {
    var full := Admitting(slots, callers, slots);
    var filling := seq(slots + 1, k requires 0 <= k <= slots => Admitting(slots, callers, k));
    forall k: nat | k < slots ensures GateStep(filling[k], filling[k + 1]) {
      AdmitsNext(slots, callers, k);
    }
    var h1 := Arrive(full, slots);
    var h2 := Depart(h1, 0);
    var h3 := Arrive(h2, 0);
    assert StepOf(full, h1, slots) && StepOf(h1, h2, 0) && StepOf(h2, h3, 0);
    FreedSlot(slots, callers);
    gs := filling + [h1, h2, h3];
  }

  lemma FreedSlot(slots: nat, callers: nat)
    requires 1 <= slots < callers < TWO32
    ensures var h := Depart(Arrive(Admitting(slots, callers, slots), slots), 0); |Hosted(h.calls)| < slots
  {
    var h := Depart(Arrive(Admitting(slots, callers, slots), slots), 0);
    forall x | x in Hosted(h.calls) ensures 1 <= x < slots {
      assert x != 0 && x != slots;
    }
    SubsetSize(Hosted(h.calls), Interval(1, slots - 1));
  }

  /** With no more callers than slots a caller always finds the counter below the slots. */
  lemma NoEarlyRefusal(gs: seq<Gate>, slots: nat, callers: nat, c: nat)
    requires callers <= slots && callers < TWO32 && GateCourse(gs, slots, callers)
    ensures !RefusedEarly(gs, c)
  {
    if RefusedEarly(gs, c) {
      var g := gs[|gs| - 2];
      RestIsOk(slots, callers);
      AdmittedWithinSlots(gs, |gs| - 2);
      SameCallers(gs, |gs| - 2);
      OneOutside(g, c);
      ArriveKeeps(g, c);
    }
  }

  lemma OneOutside(g: Gate, c: nat)
    requires c < |g.calls| && g.calls[c].Outside?
    ensures |Counted(g.calls)| < |g.calls|
  {
    BelowSize(Counted(g.calls) + {c}, |g.calls|);
  }

  lemma {:induction false} SameCallers(gs: seq<Gate>, i: nat)
    requires i < |gs| && forall k :: 0 <= k < |gs| - 1 ==> GateStep(gs[k], gs[k + 1])
    ensures |gs[i].calls| == |gs[0].calls|
  {
    if i == 0 {
    } else {
      SameCallers(gs, i - 1);
      assert GateStep(gs[i - 1], gs[i - 1 + 1]);
    }
  }

  /** Exactly when a gate at rest can come to refuse a call too early: when there are more callers than slots. */
  lemma RefusedEarlyIff(slots: nat, callers: nat)
    requires 1 <= slots && callers < TWO32
    ensures (exists gs: seq<Gate>, c: nat :: GateCourse(gs, slots, callers) && RefusedEarly(gs, c)) <==> callers > slots
  {
    if callers > slots {
      var gs := EarlyRefusal(slots, callers);
    }
    if gs: seq<Gate>, c: nat :| GateCourse(gs, slots, callers) && RefusedEarly(gs, c) {
      if callers <= slots {
        NoEarlyRefusal(gs, slots, callers, c);
      }
    }
  }

  // ----- the gate behind one scheduler

  /**
   * One scheduler and the gate of its agent `a`; call `w` is made by worker `w`. The worker waits for the
   * reply, or gives the call up (a lost connection, a deadline) and reports an agent error while the agent
   * may still be serving it; the request may even reach the agent only after that.
   */
  datatype Joint = Joint(sched: State, gate: Gate)

  datatype JointStep = Section(w: nat, res: AttemptResult) | Send(w: nat) | Reply(w: nat)

  /** Calls in progress belong to workers of the agent that wait for them, or that gave up and left. */
  ghost predicate Calls(f: Fleet, j: Joint, a: nat)
    requires Shape(f, j.sched)
  {
    && |j.gate.calls| == |f.seat|
    && forall w :: w in Counted(j.gate.calls) ==>
         f.seat[w] == a && (j.sched.pc[w].Running? || j.sched.pc[w].Exited?)
  }

  ghost predicate Allowed(f: Fleet, j: Joint, a: nat, step: JointStep)
    requires Shape(f, j.sched) && |j.gate.calls| == |f.seat|
  {
    match step
    case Section(w, res) => Enabled(j.sched, w) && (j.gate.calls[w].Outside? || res.status.AgentError?)
    case Send(w) =>
      && w in WorkersAt(f, a) && (j.sched.pc[w].Running? || j.sched.pc[w].Exited?)
      && j.gate.calls[w].Outside?
    case Reply(w) => w < |j.gate.calls| && !j.gate.calls[w].Outside?
  }

  ghost function Advance(f: Fleet, j: Joint, a: nat, step: JointStep): Joint
    requires Shape(f, j.sched) && |j.gate.calls| == |f.seat| && Allowed(f, j, a, step)
  {
    match step
    case Section(w, res) => j.(sched := SchedulerModel.Section(f, j.sched, w, res))
    case Send(w) => j.(gate := Arrive(j.gate, w))
    case Reply(w) => j.(gate := Depart(j.gate, w))
  }

  ghost predicate JointOk(f: Fleet, j: Joint, a: nat) {
    && Inv(f, j.sched) && GateOk(j.gate) && Calls(f, j, a)
    && |WorkersAt(f, a)| <= j.gate.slots
    && forall c :: 0 <= c < |j.gate.calls| ==> !j.gate.calls[c].Refused?
  }

  lemma SectionKeepsCalls(f: Fleet, j: Joint, a: nat, w: nat, res: AttemptResult)
    requires JointOk(f, j, a) && Allowed(f, j, a, Section(w, res))
    ensures var k := Advance(f, j, a, Section(w, res)); Shape(f, k.sched) && Calls(f, k, a)
  {
    var k := Advance(f, j, a, Section(w, res));
    SectionMoves(f, j.sched, w, res);
    forall v | v in Counted(k.gate.calls)
      ensures f.seat[v] == a && (k.sched.pc[v].Running? || k.sched.pc[v].Exited?)
    {
      assert v == w ==> j.sched.pc[w].Running? && res.status.AgentError?;
    }
  }

  /** A worker about to call is not among those whose calls are in progress, so a slot is free for it. */
  lemma SlotFree(f: Fleet, j: Joint, a: nat, w: nat)
    requires JointOk(f, j, a) && Allowed(f, j, a, Send(w))
    ensures |Counted(j.gate.calls)| < j.gate.slots
  {
    assert Counted(j.gate.calls) <= WorkersAt(f, a) - {w};
    SubsetSize(Counted(j.gate.calls), WorkersAt(f, a) - {w});
  }

  lemma JointStepKeeps(f: Fleet, j: Joint, a: nat, step: JointStep)
    requires JointOk(f, j, a) && Allowed(f, j, a, step)
    ensures JointOk(f, Advance(f, j, a, step), a)
  {
    match step
    case Section(w, res) =>
      SectionKeepsInv(f, j.sched, w, res);
      SectionKeepsCalls(f, j, a, w, res);
    case Send(w) =>
      SlotFree(f, j, a, w);
      ArriveKeeps(j.gate, w);
    case Reply(w) =>
      DepartKeeps(j.gate, w);
  }

  ghost predicate JointRun(f: Fleet, a: nat, js: seq<Joint>, steps: seq<JointStep>)
    requires ValidFleet(f)
  {
    && |js| == |steps| + 1
    && js[0].sched == Start(f) && js[0].gate.counter == 0 && js[0].gate.calls == seq(|f.seat|, _ => Outside)
    && forall i :: 0 <= i < |steps| ==> Moves(f, a, js[i], steps[i], js[i + 1])
  }

  ghost predicate Moves(f: Fleet, a: nat, j: Joint, step: JointStep, k: Joint) {
    Shape(f, j.sched) && |j.gate.calls| == |f.seat| && Allowed(f, j, a, step) && k == Advance(f, j, a, step)
  }

  lemma {:induction false} JointRunKeeps(f: Fleet, a: nat, js: seq<Joint>, steps: seq<JointStep>, i: nat)
    requires ValidFleet(f) && JointRun(f, a, js, steps) && i < |js|
    requires |WorkersAt(f, a)| <= js[0].gate.slots && |f.seat| < TWO32
    ensures JointOk(f, js[i], a)
  {
    if i == 0 {
      StartKeepsInv(f);
      assert Counted(js[0].gate.calls) == {} && Hosted(js[0].gate.calls) == {};
    } else {
      JointRunKeeps(f, a, js, steps, i - 1);
      assert Moves(f, a, js[i - 1], steps[i - 1], js[i]);
      JointStepKeeps(f, js[i - 1], a, steps[i - 1]);
    }
  }

  /**
   * One scheduler that uses the reported slots is never refused, in any interleaving, abandoned calls included.
   * `optSlots` is what the agent was started with and `js[0].gate.slots` what its constructor made of it; the
   * scheduler may be given either number.
   */
  lemma NeverRefused(agents: seq<AgentInfo>, tasks: seq<Task>, a: nat, optSlots: nat, js: seq<Joint>,
      steps: seq<JointStep>, i: nat)
    requires RetriesOk(tasks) && ValidFleet(Launch(agents, tasks)) && JointRun(Launch(agents, tasks), a, js, steps)
    requires a < |agents| && js[0].gate.slots == (if optSlots == 0 then 1 else optSlots)
    requires agents[a].slots == optSlots || agents[a].slots == js[0].gate.slots
    requires |Seats(agents, |agents|)| < TWO32 && i < |js|
    ensures forall c :: 0 <= c < |js[i].gate.calls| ==> !js[i].gate.calls[c].Refused?
  {
    WorkersAreSlots(agents, tasks, a);
    JointRunKeeps(Launch(agents, tasks), a, js, steps, i);
  }

  // ----- the gate behind any callers

  /** At most `slots` processes run at once, whoever calls and however the atomic operations interleave. */
  lemma {:induction false} AdmittedWithinSlots(gs: seq<Gate>, i: nat)
    requires i < |gs| && GateOk(gs[0])
    requires forall k :: 0 <= k < |gs| - 1 ==> GateStep(gs[k], gs[k + 1])
    ensures GateOk(gs[i]) && |Hosted(gs[i].calls)| <= gs[0].slots
    ensures gs[i].slots == gs[0].slots
  {
    if i == 0 {
    } else {
      AdmittedWithinSlots(gs, i - 1);
      var g := gs[i - 1];
      assert GateStep(g, gs[i - 1 + 1]);
      var c: nat :| StepOf(g, gs[i], c);
      if g.calls[c].Outside? {
        ArriveKeeps(g, c);
      } else {
        DepartKeeps(g, c);
      }
    }
  }
}
