/**
 * The shared state of one scheduler run and its atomic steps.
 *
 * A worker thread holds the mutex from the moment it returns from the executor (or first
 * starts, or is woken) until it next unlocks to run a task, waits, or leaves its loop.
 * `Section` is one such lock-held stretch; a run is any sequence of sections, taken by any
 * worker that is able to move, with any answer from the executor.
 */
module SchedulerModel {
  import opened Sums

  datatype Option<+T> = None | Some(value: T)

  datatype AgentInfo = AgentInfo(address: string, slots: nat, labels: seq<string>)

  datatype Task = Task(name: string, retries: int, needs: seq<string>)

  datatype AttemptStatus = Passed | Failed | TimedOut | AgentError

  datatype AttemptResult = AttemptResult(status: AttemptStatus, message: string)

  /** The agent is recorded by its index; `RunSummary` turns it into an address. */
  datatype AttemptRecord = AttemptRecord(agent: nat, result: AttemptResult)

  datatype FinalStatus = Passed | Failed | TimedOut | Unschedulable

  datatype TaskState = TaskState(
    failures: int,
    tried: set<nat>,
    running: bool,
    done: bool,
    final: FinalStatus,
    message: string,
    attempts: seq<AttemptRecord>)

  /** Where a worker thread is: about to take the lock, in `cv_.wait`, in the executor, or gone. */
  datatype Worker = Ready | Asleep | Running(task: nat) | Exited

  /** What stays fixed during a run. `seat[w]` is the agent of worker `w`; `capable[t]` is `able` as a table. */
  datatype Fleet = Fleet(agents: seq<AgentInfo>, tasks: seq<Task>, seat: seq<nat>, capable: seq<set<nat>>)

  datatype State = State(
    st: seq<TaskState>,
    alive: seq<bool>,
    dead: seq<nat>,
    remaining: int,
    pc: seq<Worker>)

  datatype Turn = Turn(worker: nat, result: AttemptResult)

  // ----- the fleet

  ghost predicate ValidFleet(f: Fleet) {
    && |f.capable| == |f.tasks|
    && (forall w :: 0 <= w < |f.seat| ==> f.seat[w] < |f.agents|)
    && (forall a :: 0 <= a < |f.agents| ==> Staffed(f, a))
    && (forall t :: 0 <= t < |f.tasks| ==> 0 <= f.tasks[t].retries)
  }

  predicate Seated(f: Fleet, w: nat, a: nat) {
    w < |f.seat| && f.seat[w] == a
  }

  ghost predicate Staffed(f: Fleet, a: nat) {
    exists w :: Seated(f, w, a)
  }

  ghost predicate Shape(f: Fleet, s: State) {
    && |f.capable| == |f.tasks| == |s.st|
    && |s.alive| == |f.agents|
    && |s.pc| == |f.seat|
    && (forall w :: 0 <= w < |f.seat| ==> f.seat[w] < |f.agents|)
    && (forall w :: 0 <= w < |s.pc| && s.pc[w].Running? ==> s.pc[w].task < |s.st|)
  }

  // ----- choosing a task

  ghost predicate HasFreshCandidate(f: Fleet, s: State, t: nat, except: nat)
    requires Shape(f, s) && t < |s.st|
  {
    exists a :: 0 <= a < |s.alive| && a != except && s.alive[a] && a in f.capable[t] && a !in s.st[t].tried
  }

  ghost predicate Pickable(f: Fleet, s: State, a: nat, t: nat)
    requires Shape(f, s)
  {
    && t < |s.st|
    && !s.st[t].done && !s.st[t].running
    && a in f.capable[t]
    && !(a in s.st[t].tried && HasFreshCandidate(f, s, t, a))
  }

  /** The first pickable task at or after `from`. */
  ghost function Pick(f: Fleet, s: State, a: nat, from: nat): (r: Option<nat>)
    requires Shape(f, s) && from <= |s.st|
    ensures r.Some? ==> from <= r.value && Pickable(f, s, a, r.value)
    ensures forall t :: from <= t < |s.st| && (r.Some? ==> t < r.value) ==> !Pickable(f, s, a, t)
    decreases |s.st| - from
  {
    if from == |s.st| then None
    else if Pickable(f, s, a, from) then Some(from)
    else Pick(f, s, a, from + 1)
  }

  // ----- closing tasks

  function Close(ts: TaskState, final: FinalStatus, message: string): TaskState {
    ts.(done := true, final := final, message := message)
  }

  /** Number of tasks not yet done. */
  function OpenFlags(st: seq<TaskState>): seq<int> {
    seq(|st|, i requires 0 <= i < |st| => if st[i].done then 0 else 1)
  }

  function CountOpen(st: seq<TaskState>): int {
    Sum(OpenFlags(st))
  }

  ghost predicate AnyLiveCapable(f: Fleet, alive: seq<bool>, t: nat)
    requires t < |f.capable|
  {
    exists a :: 0 <= a < |alive| && alive[a] && a in f.capable[t]
  }

  function Join(words: seq<string>): string {
    if |words| == 0 then ""
    else
      var rest := Join(words[..|words| - 1]);
      rest + (if rest == "" then "" else ", ") + words[|words| - 1]
  }

  ghost function Reason(f: Fleet, t: nat): string
    requires t < |f.tasks| == |f.capable|
  {
    if exists a :: 0 <= a < |f.agents| && a in f.capable[t] then
      "every agent that could run this task became unreachable"
    else
      var req := Join(f.tasks[t].needs);
      "no agent provides the required labels" + (if req == "" then "" else " [" + req + "]")
  }

  /** What `resolve_unschedulable` does to one task. */
  ghost function Settle(f: Fleet, alive: seq<bool>, t: nat, ts: TaskState): TaskState
    requires t < |f.tasks| == |f.capable|
  {
    if ts.done || ts.running || AnyLiveCapable(f, alive, t) then ts
    else Close(ts, FinalStatus.Unschedulable, Reason(f, t))
  }

  ghost function SettleUpTo(f: Fleet, alive: seq<bool>, st: seq<TaskState>, n: nat): (r: seq<TaskState>)
    requires |f.tasks| == |f.capable| == |st| && n <= |st|
  {
    seq(|st|, i requires 0 <= i < |st| => if i < n then Settle(f, alive, i, st[i]) else st[i])
  }

  ghost function Resolve(f: Fleet, s: State): State
    requires Shape(f, s)
  {
    var st := SettleUpTo(f, s.alive, s.st, |s.st|);
    s.(st := st, remaining := s.remaining - (CountOpen(s.st) - CountOpen(st)))
  }

  // ----- one lock-held section of a worker

  function WakeAll(pc: seq<Worker>): seq<Worker> {
    seq(|pc|, i requires 0 <= i < |pc| => if pc[i].Asleep? then Ready else pc[i])
  }

  /** The task's record after one attempt, with the retry budget applied. */
  function Attempted(task: Task, ts: TaskState, a: nat, res: AttemptResult): TaskState {
    var r := ts.(running := false, tried := ts.tried + {a}, attempts := ts.attempts + [AttemptRecord(a, res)]);
    match res.status
    case Passed => Close(r, FinalStatus.Passed, "")
    case Failed => Spend(task, r, FinalStatus.Failed)
    case TimedOut => Spend(task, r, FinalStatus.TimedOut)
    case AgentError => r
  }

  function Spend(task: Task, ts: TaskState, verdict: FinalStatus): TaskState {
    var r := ts.(failures := ts.failures + 1);
    if r.failures > task.retries then Close(r, verdict, "") else r
  }

  ghost predicate Retires(f: Fleet, s: State, w: nat, res: AttemptResult)
    requires Shape(f, s) && w < |s.pc|
  {
    res.status.AgentError? && s.alive[f.seat[w]]
  }

  /** Back from the executor: record the attempt, judge it, retire the agent if need be, wake everybody. */
  ghost function Complete(f: Fleet, s: State, w: nat, res: AttemptResult): (r: State)
    requires Shape(f, s) && w < |s.pc| && s.pc[w].Running?
  {
    var a := f.seat[w];
    var t := s.pc[w].task;
    var ts := Attempted(f.tasks[t], s.st[t], a, res);
    var s1 := s.(st := s.st[t := ts],
                 remaining := s.remaining - (if ts.done then 1 else 0),
                 pc := WakeAll(s.pc[w := Ready]));
    if Retires(f, s, w, res) then
      Resolve(f, s1.(alive := s.alive[a := false], dead := s.dead + [a]))
    else s1
  }

  /** The loop head: leave, take a task, or wait. */
  ghost function Check(f: Fleet, s: State, w: nat): (r: State)
    requires Shape(f, s) && w < |s.pc| && s.pc[w].Ready?
  {
    var a := f.seat[w];
    if s.remaining > 0 && s.alive[a] then
      match Pick(f, s, a, 0)
      case Some(t) => s.(st := s.st[t := s.st[t].(running := true)], pc := s.pc[w := Running(t)])
      case None => s.(pc := s.pc[w := Asleep])
    else
      s.(pc := WakeAll(s.pc[w := Exited]))
  }

  predicate Enabled(s: State, w: nat) {
    w < |s.pc| && (s.pc[w].Ready? || s.pc[w].Running?)
  }

  ghost function Section(f: Fleet, s: State, w: nat, res: AttemptResult): (r: State)
    requires Shape(f, s) && Enabled(s, w)
    ensures Shape(f, r)
  {
    if s.pc[w].Running? then
      var m := Complete(f, s, w, res);
      assert m.pc[w].Ready?;
      Check(f, m, w)
    else
      Check(f, s, w)
  }

  // ----- runs

  const FRESH := TaskState(0, {}, false, false, FinalStatus.Unschedulable, "", [])

  /** The constructed `Run`, then the first `resolve_unschedulable` and every worker about to start. */
  ghost function Start(f: Fleet): (s: State)
    requires ValidFleet(f)
    ensures Shape(f, s)
  {
    Resolve(f, State(
      seq(|f.tasks|, _ => FRESH),
      seq(|f.agents|, _ => true),
      [],
      |f.tasks|,
      seq(|f.seat|, _ => Ready)))
  }

  ghost predicate Legal(f: Fleet, sched: seq<Turn>)
    requires ValidFleet(f)
    decreases |sched|, 0
  {
    |sched| > 0 ==>
      var n := |sched| - 1;
      Legal(f, sched[..n]) && Enabled(After(f, sched[..n]), sched[n].worker)
  }

  /** The state after a schedule: any interleaving, any executor answers. */
  ghost function After(f: Fleet, sched: seq<Turn>): (s: State)
    requires ValidFleet(f) && Legal(f, sched)
    ensures Shape(f, s)
    decreases |sched|, 1
  {
    if |sched| == 0 then Start(f)
    else
      var n := |sched| - 1;
      Section(f, After(f, sched[..n]), sched[n].worker, sched[n].result)
  }

  ghost predicate Reachable(f: Fleet, s: State)
    requires ValidFleet(f)
  {
    exists sched :: Legal(f, sched) && After(f, sched) == s
  }

  lemma ReachableStep(f: Fleet, s: State, w: nat, res: AttemptResult)
    requires ValidFleet(f) && Reachable(f, s) && Shape(f, s) && Enabled(s, w)
    ensures Reachable(f, Section(f, s, w, res))
  {
    var sched :| Legal(f, sched) && After(f, sched) == s;
    var longer := sched + [Turn(w, res)];
    assert longer[..|sched|] == sched;
    assert Legal(f, longer) && After(f, longer) == Section(f, s, w, res);
  }

  /** No worker can move: all are asleep or gone. */
  ghost predicate Quiescent(s: State) {
    forall w :: 0 <= w < |s.pc| ==> !Enabled(s, w)
  }

  ghost predicate AllExited(s: State) {
    forall w :: 0 <= w < |s.pc| ==> s.pc[w].Exited?
  }

  /** The hang: nobody can move, yet some worker waits for ever, so `join` never returns. */
  ghost predicate Deadlocked(s: State) {
    Quiescent(s) && exists w :: 0 <= w < |s.pc| && s.pc[w].Asleep?
  }

  /** A task that waits although every agent able to run it is retired. */
  ghost predicate Orphan(f: Fleet, s: State, t: nat)
    requires Shape(f, s)
  {
    t < |s.st| && !s.st[t].done && !s.st[t].running && !AnyLiveCapable(f, s.alive, t)
  }

  ghost predicate AnyAgentAlive(s: State) {
    exists a :: 0 <= a < |s.alive| && s.alive[a]
  }
}
