/**
 * Concurrent callers of `valdev`. A call works on private data, enters the lock once, and works on
 * private data again; any thread may take the next step. Whatever the interleaving, the device is
 * where the locked sections leave it when run one after the other in lock order.
 */
module ValdevHistory {
  import opened Arithmetic
  import opened Bytes
  import opened Sums
  import opened Valdev

  lemma {:induction false} ReplayOk(d: Dev, h: seq<Locked>)
    requires DevOk(d) && LogOk(h)
    ensures DevOk(Replay(d, h))
  {
    if |h| == 0 {
    } else {
      ReplayOk(d, h[..|h| - 1]);
    }
  }

  // ----- what a history means

  /** Deltas added since the last reset, on top of the initial counter if there was none. */
  function Deltas(start: nat, h: seq<Locked>): nat {
    if |h| == 0 then start
    else match h[|h| - 1]
      case LAdd(delta) => Deltas(start, h[..|h| - 1]) + delta
      case LReset => 0
      case _ => Deltas(start, h[..|h| - 1])
  }

  /** Byte `i`: the latest write that covers it since the last reset, else what was there. */
  function ByteAt(start: seq<Byte>, h: seq<Locked>, i: nat): Byte
    requires i < |start|
  {
    if |h| == 0 then start[i]
    else match h[|h| - 1]
      case LReset => 0
      case LWrite(pos, data) => if pos <= i < pos + |data| then data[i - pos] else ByteAt(start, h[..|h| - 1], i)
      case _ => ByteAt(start, h[..|h| - 1], i)
  }

  /** The end of the furthest write since the last reset. */
  function LengthOf(start: nat, h: seq<Locked>): nat {
    if |h| == 0 then start
    else match h[|h| - 1]
      case LReset => 0
      case LWrite(pos, data) => Max(LengthOf(start, h[..|h| - 1]), pos + |data|)
      case _ => LengthOf(start, h[..|h| - 1])
  }

  /** The counter is the sum of the deltas since the last reset, modulo 2^64. */
  lemma {:induction false} CounterIsSum(d: Dev, h: seq<Locked>)
    requires DevOk(d) && LogOk(h)
    ensures Replay(d, h).counter == Deltas(d.counter, h) % TWO64
  {
    if |h| == 0 {
    } else {
      var before := h[..|h| - 1];
      CounterIsSum(d, before);
      if h[|h| - 1].LAdd? {
        AddMod64(Deltas(d.counter, before), h[|h| - 1].delta);
      }
    }
  }

  /** Last writer wins, byte by byte. */
  lemma {:induction false} BytesAreLastWritten(d: Dev, h: seq<Locked>, i: nat)
    requires DevOk(d) && i < BUF_SIZE && LogOk(h)
    ensures Replay(d, h).buf[i] == ByteAt(d.buf, h, i)
  {
    if |h| == 0 {
    } else {
      BytesAreLastWritten(d, h[..|h| - 1], i);
    }
  }

  lemma {:induction false} LengthIsFurthestWrite(d: Dev, h: seq<Locked>)
    requires DevOk(d) && LogOk(h)
    ensures Replay(d, h).len == LengthOf(d.len, h)
  {
    if |h| == 0 {
    } else {
      LengthIsFurthestWrite(d, h[..|h| - 1]);
    }
  }

  /** A writer that owns a range finds its own bytes there, whatever others write elsewhere. */
  lemma {:induction false} PrivateRangesSurvive(d: Dev, h: seq<Locked>, pos: nat, data: seq<Byte>)
    requires DevOk(d) && LogOk(h)
    requires pos + |data| <= BUF_SIZE && LWrite(pos, data) in h && LReset !in h
    requires forall k :: 0 <= k < |h| && h[k].LWrite? && h[k] != LWrite(pos, data) ==>
      h[k].pos + |h[k].data| <= pos || pos + |data| <= h[k].pos
    ensures DevOk(Replay(d, h)) && Snapshot(Replay(d, h), pos, |data|) == data
  {
    ReplayOk(d, h);
    LengthIsFurthestWrite(d, h);
    LengthCovers(d.len, h, pos, data);
    var e := Replay(d, h);
    forall i: nat | i < |data| ensures e.buf[pos + i] == data[i] {
      BytesAreLastWritten(d, h, pos + i);
      OnlyOneWriter(d.buf, h, pos, data, i);
    }
    assert |data| > 0 ==> e.buf[pos..pos + |data|] == data;
  }

  lemma {:induction false} LengthCovers(start: nat, h: seq<Locked>, pos: nat, data: seq<Byte>)
    requires LWrite(pos, data) in h && LReset !in h
    ensures LengthOf(start, h) >= pos + |data|
  {
    var n := |h| - 1;
    if h[n] != LWrite(pos, data) {
      assert h == h[..n] + [h[n]];
      LengthCovers(start, h[..n], pos, data);
    }
  }

  lemma {:induction false} OnlyOneWriter(start: seq<Byte>, h: seq<Locked>, pos: nat, data: seq<Byte>, i: nat)
    requires |start| == BUF_SIZE && i < |data| && pos + |data| <= BUF_SIZE && LWrite(pos, data) in h && LReset !in h
    requires forall k :: 0 <= k < |h| && h[k].LWrite? && h[k] != LWrite(pos, data) ==>
      h[k].pos + |h[k].data| <= pos || pos + |data| <= h[k].pos
    ensures ByteAt(start, h, pos + i) == data[i]
  {
    var n := |h| - 1;
    if h[n] != LWrite(pos, data) {
      assert h == h[..n] + [h[n]];
      OnlyOneWriter(start, h[..n], pos, data, i);
    }
  }

  // ----- threads

  /**
   * A call before its locked section, after it, and answered. The answer is put together after the lock is
   * dropped: `opens` is read then, and the copy to the caller may fault.
   */
  datatype Thread =
    | Before(op: Locked)
    | After(op: Locked, at: nat, note: Note)
    | Reported(op: Locked, at: nat, note: Note, opens: nat)
    | Faulted(op: Locked, at: nat)

  datatype World = World(dev: Dev, opens: nat, threads: seq<Thread>, log: seq<Locked>)

  datatype Move = Enter(t: nat) | Report(t: nat) | CopyOutFault(t: nat) | Open

  ghost predicate CanMove(w: World, m: Move) {
    match m
    case Enter(t) => t < |w.threads| && w.threads[t].Before?
    case Report(t) => t < |w.threads| && w.threads[t].After?
    case CopyOutFault(t) => t < |w.threads| && w.threads[t].After?
    case Open => true
  }

  ghost predicate WorldShape(w: World) {
    && DevOk(w.dev)
    && (forall t :: 0 <= t < |w.threads| ==> OpOk(w.threads[t].op))
    && LogOk(w.log)
  }

  ghost function Moved(w: World, m: Move): World
    requires WorldShape(w) && CanMove(w, m)
  {
    match m
    case Enter(t) =>
      var op := w.threads[t].op;
      w.(dev := Apply(w.dev, op),
         threads := w.threads[t := After(op, |w.log|, NoteOf(w.dev, op))],
         log := w.log + [op])
    case Report(t) =>
      w.(threads := w.threads[t := Reported(w.threads[t].op, w.threads[t].at, w.threads[t].note, w.opens)])
    case CopyOutFault(t) =>
      w.(threads := w.threads[t := Faulted(w.threads[t].op, w.threads[t].at)])
    case Open => w.(opens := w.opens + 1)
  }

  /** The note of a call is the one the sequential device gives after the first `at` sections. */
  ghost predicate AnswerOk(start: Dev, log: seq<Locked>, at: nat, op: Locked, note: Note)
    requires |start.buf| == BUF_SIZE && LogOk(log)
  {
    && at < |log| && log[at] == op
    && Replay(start, log[..at]).len <= BUF_SIZE
    && note == NoteOf(Replay(start, log[..at]), op)
  }

  ghost predicate Noted(th: Thread) {
    th.After? || th.Reported?
  }

  /** Every call answers what the sequential device answers at its place in lock order. */
  ghost predicate Linear(w: World, start: Dev)
    requires |start.buf| == BUF_SIZE
  {
    && WorldShape(w)
    && w.dev == Replay(start, w.log)
    && (forall t :: 0 <= t < |w.threads| && !w.threads[t].Before? ==>
          w.threads[t].at < |w.log| && w.log[w.threads[t].at] == w.threads[t].op)
    && (forall t :: 0 <= t < |w.threads| && Noted(w.threads[t]) ==>
          AnswerOk(start, w.log, w.threads[t].at, w.threads[t].op, w.threads[t].note))
    && (forall t, u :: 0 <= t < u < |w.threads| && !w.threads[t].Before? && !w.threads[u].Before? ==>
          w.threads[t].at != w.threads[u].at)
  }

  lemma MoveKeepsLinear(w: World, start: Dev, m: Move)
    requires DevOk(start) && Linear(w, start) && CanMove(w, m)
    ensures Linear(Moved(w, m), start)
  {
    match m
    case Enter(t) =>
      var r := Moved(w, m);
      assert r.log[..|w.log|] == w.log;
      ReplayOk(start, w.log);
      ReplayOk(start, r.log);
      forall u | 0 <= u < |r.threads| && Noted(r.threads[u])
        ensures AnswerOk(start, r.log, r.threads[u].at, r.threads[u].op, r.threads[u].note)
      {
        assert r.log[..r.threads[u].at] == w.log[..r.threads[u].at];
      }
    case Report(t) =>
    case CopyOutFault(t) =>
    case Open =>
  }

  ghost predicate Course(ws: seq<World>, start: Dev)
    requires |start.buf| == BUF_SIZE
  {
    && |ws| > 0
    && WorldShape(ws[0]) && ws[0].dev == start && ws[0].log == []
    && (forall t :: 0 <= t < |ws[0].threads| ==> ws[0].threads[t].Before?)
    && forall i :: 0 <= i < |ws| - 1 ==> OneMove(ws[i], ws[i + 1])
  }

  ghost predicate OneMove(w: World, r: World) {
    exists m :: WorldShape(w) && CanMove(w, m) && r == Moved(w, m)
  }

  /** Concurrent histories are sequential in lock order, in every interleaving. */
  lemma {:induction false} HistoriesAreLinear(ws: seq<World>, start: Dev, i: nat)
    requires DevOk(start) && Course(ws, start) && i < |ws|
    ensures Linear(ws[i], start)
  {
    if i == 0 {
    } else {
      HistoriesAreLinear(ws, start, i - 1);
      assert OneMove(ws[i - 1], ws[i - 1 + 1]);
      var m :| WorldShape(ws[i - 1]) && CanMove(ws[i - 1], m) && ws[i] == Moved(ws[i - 1], m);
      MoveKeepsLinear(ws[i - 1], start, m);
    }
  }

  // ----- no lost updates

  function Added(threads: seq<Thread>): seq<int> {
    seq(|threads|, t requires 0 <= t < |threads| =>
      if !threads[t].Before? && threads[t].op.LAdd? then threads[t].op.delta else 0)
  }

  ghost predicate NoResets(w: World) {
    forall t :: 0 <= t < |w.threads| ==> !w.threads[t].op.LReset?
  }

  lemma AddedMove(w: World, m: Move, start: nat)
    requires WorldShape(w) && CanMove(w, m) && NoResets(w)
    requires Sum(Added(w.threads)) >= 0 && w.dev.counter == (start + Sum(Added(w.threads))) % TWO64
    ensures var r := Moved(w, m);
      && NoResets(r) && Sum(Added(r.threads)) >= 0
      && r.dev.counter == (start + Sum(Added(r.threads))) % TWO64
  {
    match m
    case Enter(t) =>
      var r := Moved(w, m);
      var x := if w.threads[t].op.LAdd? then w.threads[t].op.delta else 0;
      assert Added(r.threads) == Added(w.threads)[t := x];
      SumUpdate(Added(w.threads), t, x);
      AddMod64(start + Sum(Added(w.threads)), x);
    case Report(t) =>
      assert Added(Moved(w, m).threads) == Added(w.threads);
    case CopyOutFault(t) =>
      assert Added(Moved(w, m).threads) == Added(w.threads);
    case Open =>
  }

  /** Concurrent increments are never lost: the counter is the sum of those that entered, faulting or not. */
  lemma {:induction false} NoLostUpdates(ws: seq<World>, start: Dev, i: nat)
    requires DevOk(start) && Course(ws, start) && i < |ws| && NoResets(ws[0])
    ensures NoResets(ws[i]) && Sum(Added(ws[i].threads)) >= 0
    ensures ws[i].dev.counter == (start.counter + Sum(Added(ws[i].threads))) % TWO64
  {
    if i == 0 {
      SumBetween(Added(ws[0].threads), 0, 0);
    } else {
      NoLostUpdates(ws, start, i - 1);
      assert OneMove(ws[i - 1], ws[i - 1 + 1]);
      AddedStep(ws[i - 1], ws[i], start.counter);
    }
  }

  lemma AddedStep(w: World, r: World, start: nat)
    requires OneMove(w, r) && NoResets(w)
    requires Sum(Added(w.threads)) >= 0 && w.dev.counter == (start + Sum(Added(w.threads))) % TWO64
    ensures NoResets(r) && Sum(Added(r.threads)) >= 0
    ensures r.dev.counter == (start + Sum(Added(r.threads))) % TWO64
  {
    var m :| WorldShape(w) && CanMove(w, m) && r == Moved(w, m);
    AddedMove(w, m, start);
  }

  // ----- what GET_STATS reports

  /** One move of any thread, seen from thread `t`. */
  lemma ThreadStep(w: World, r: World, t: nat)
    requires OneMove(w, r) && t < |w.threads|
    ensures |r.threads| == |w.threads| && r.opens >= w.opens && r.threads[t].op == w.threads[t].op
    ensures var th := w.threads[t];
      || r.threads[t] == th
      || (th.Before? && r.threads[t].After? && r.threads[t].note == NoteOf(w.dev, th.op))
      || (th.After? && (r.threads[t] == Reported(th.op, th.at, th.note, w.opens) || r.threads[t].Faulted?))
  {
    var m :| WorldShape(w) && CanMove(w, m) && r == Moved(w, m);
  }

  ghost predicate EnterAt(ws: seq<World>, t: nat, e: nat) {
    && e + 1 < |ws| && t < |ws[e].threads| && t < |ws[e + 1].threads|
    && ws[e].threads[t].Before? && ws[e + 1].threads[t].After?
  }

  ghost predicate ReportAt(ws: seq<World>, t: nat, p: nat) {
    && p + 1 < |ws| && t < |ws[p].threads| && t < |ws[p + 1].threads|
    && ws[p].threads[t].After? && ws[p + 1].threads[t].Reported?
  }

  lemma {:induction false} FindEnter(ws: seq<World>, start: Dev, t: nat, p: nat) returns (e: nat)
    requires |start.buf| == BUF_SIZE && Course(ws, start) && p < |ws|
    requires t < |ws[p].threads| && ws[p].threads[t].After?
    ensures e < p && EnterAt(ws, t, e) && ws[e].opens <= ws[p].opens
    ensures |ws[e].dev.buf| == BUF_SIZE && ws[e].dev.len <= BUF_SIZE
    ensures ws[p].threads[t].note == NoteOf(ws[e].dev, ws[p].threads[t].op)
  {
    if p == 0 {
      assert false;
    } else {
      assert OneMove(ws[p - 1], ws[p - 1 + 1]);
      ThreadCount(ws, start, p - 1, p);
      ThreadStep(ws[p - 1], ws[p], t);
      if ws[p - 1].threads[t].After? {
        e := FindEnter(ws, start, t, p - 1);
      } else {
        e := p - 1;
      }
    }
  }

  lemma ThreadCount(ws: seq<World>, start: Dev, i: nat, j: nat)
    requires |start.buf| == BUF_SIZE && Course(ws, start) && j == i + 1 < |ws|
    ensures |ws[i].threads| == |ws[j].threads|
  {
    assert OneMove(ws[i], ws[i + 1]);
  }

  lemma {:induction false} FindReport(ws: seq<World>, start: Dev, t: nat, i: nat) returns (p: nat)
    requires |start.buf| == BUF_SIZE && Course(ws, start) && i < |ws|
    requires t < |ws[i].threads| && ws[i].threads[t].Reported?
    ensures p < i && ReportAt(ws, t, p)
    ensures var th := ws[p].threads[t]; ws[i].threads[t] == Reported(th.op, th.at, th.note, ws[p].opens)
  {
    if i == 0 {
      assert false;
    } else {
      assert OneMove(ws[i - 1], ws[i - 1 + 1]);
      ThreadCount(ws, start, i - 1, i);
      ThreadStep(ws[i - 1], ws[i], t);
      if ws[i - 1].threads[t].Reported? {
        p := FindReport(ws, start, t, i - 1);
      } else {
        p := i - 1;
      }
    }
  }

  /** The reported counter, length and open count are those of this state. */
  ghost predicate Shows(w: World, th: Thread) {
    th.Reported? && th.note == NStats(w.dev.counter, w.dev.len) && th.opens == w.opens
  }

  /**
   * What a GET_STATS call reports: the counter and length of its lock point, the open count of its report.
   * The three held together at the lock point if nobody opened the device in between, and at the report if
   * counter and length were still, or again, the same.
   */
  lemma StatsReply(ws: seq<World>, start: Dev, t: nat, i: nat) returns (e: nat, p: nat)
    requires DevOk(start) && Course(ws, start) && i < |ws|
    requires t < |ws[i].threads| && ws[i].threads[t].Reported? && ws[i].threads[t].op.LStats?
    ensures e < p < i && EnterAt(ws, t, e) && ReportAt(ws, t, p)
    ensures ws[i].threads[t].note == NStats(ws[e].dev.counter, ws[e].dev.len) && ws[i].threads[t].opens == ws[p].opens
    ensures ws[e].opens <= ws[p].opens
    ensures Shows(ws[e], ws[i].threads[t]) <==> ws[e].opens == ws[p].opens
    ensures Shows(ws[p], ws[i].threads[t]) <==>
      ws[p].dev.counter == ws[e].dev.counter && ws[p].dev.len == ws[e].dev.len
  {
    p := FindReport(ws, start, t, i);
    e := FindEnter(ws, start, t, p);
  }

  /** The calls of a run, none of which has started. */
  ghost function Pending(ops: seq<Locked>): seq<Thread> {
    seq(|ops|, t requires 0 <= t < |ops| => Before(ops[t]))
  }

  ghost predicate RunOf(ws: seq<World>, start: Dev, opens: nat, ops: seq<Locked>)
    requires |start.buf| == BUF_SIZE
  {
    Course(ws, start) && ws[0].opens == opens && ws[0].threads == Pending(ops)
  }

  /** At the end of the run call `t` has reported a combination that held in none of its states. */
  ghost predicate Torn(ws: seq<World>, t: nat) {
    && |ws| > 0 && t < |ws[|ws| - 1].threads|
    && ws[|ws| - 1].threads[t].Reported? && ws[|ws| - 1].threads[t].op.LStats?
    && forall i :: 0 <= i < |ws| ==> !Shows(ws[i], ws[|ws| - 1].threads[t])
  }

  /** A call that changes counter or length: a non-zero delta, a write past the end, a reset of a device in use. */
  ghost predicate Shifts(d: Dev, op: Locked) {
    match op
    case LAdd(delta) => delta != 0
    case LWrite(pos, data) => pos + |data| > d.len
    case LReset => d.counter != 0 || d.len != 0
    case _ => false
  }

  lemma ShiftsIff(d: Dev, op: Locked)
    requires DevOk(d) && OpOk(op)
    ensures Shifts(d, op) <==> Apply(d, op).counter != d.counter || Apply(d, op).len != d.len
  {
    match op
    case LAdd(delta) => NonZeroShift(d.counter, delta);
    case _ =>
  }

  lemma NonZeroShift(x: nat, delta: nat)
    requires x < TWO64 && delta < TWO64
    ensures (x + delta) % TWO64 == x <==> delta == 0
  {
    if x + delta >= TWO64 {
      assert (x + delta) % TWO64 == x + delta - TWO64;
    }
  }

  /** Without such a call counter and length never change. */
  lemma {:induction false} Steady(ws: seq<World>, start: Dev, opens: nat, ops: seq<Locked>, i: nat)
    requires DevOk(start) && LogOk(ops) && RunOf(ws, start, opens, ops) && i < |ws|
    requires forall u :: 0 <= u < |ops| ==> !Shifts(start, ops[u])
    ensures DevOk(ws[i].dev) && ws[i].dev.counter == start.counter && ws[i].dev.len == start.len
    ensures |ws[i].threads| == |ops| && forall u :: 0 <= u < |ops| ==> ws[i].threads[u].op == ops[u]
  {
    if i == 0 {
    } else {
      Steady(ws, start, opens, ops, i - 1);
      assert OneMove(ws[i - 1], ws[i - 1 + 1]);
      SteadyStep(ws[i - 1], ws[i], start, ops);
    }
  }

  lemma SteadyStep(w: World, r: World, start: Dev, ops: seq<Locked>)
    requires OneMove(w, r) && DevOk(w.dev) && w.dev.counter == start.counter && w.dev.len == start.len && LogOk(ops)
    requires |w.threads| == |ops| && forall u :: 0 <= u < |ops| ==> w.threads[u].op == ops[u] && !Shifts(start, ops[u])
    ensures DevOk(r.dev) && r.dev.counter == start.counter && r.dev.len == start.len
    ensures |r.threads| == |ops| && forall u :: 0 <= u < |ops| ==> r.threads[u].op == ops[u]
  {
    var m :| WorldShape(w) && CanMove(w, m) && r == Moved(w, m);
    if m.Enter? {
      ShiftsIff(w.dev, ops[m.t]);
      ApplyOk(w.dev, ops[m.t]);
    }
  }

  lemma ApplyOk(d: Dev, op: Locked)
    requires DevOk(d) && OpOk(op)
    ensures DevOk(Apply(d, op))
  {
  }

  /** Lock, a change by call `u`, an open by anybody, and only then the report. */
  lemma TearingRun(start: Dev, opens: nat, ops: seq<Locked>, t: nat, u: nat) returns (ws: seq<World>)
    requires DevOk(start) && LogOk(ops) && t < |ops| && ops[t].LStats? && u < |ops| && Shifts(start, ops[u])
    ensures RunOf(ws, start, opens, ops) && Torn(ws, t)
  {
    var w0 := World(start, opens, Pending(ops), []);
    var w1 := Moved(w0, Enter(t));
    ApplyOk(start, ops[u]);
    ShiftsIff(start, ops[u]);
    var w2 := Moved(w1, Enter(u));
    var w3 := Moved(w2, Open);
    var w4 := Moved(w3, Report(t));
    ws := [w0, w1, w2, w3, w4];
    assert OneMove(w0, w1) && OneMove(w1, w2) && OneMove(w2, w3) && OneMove(w3, w4);
    assert w4.threads[t] == Reported(LStats, 0, NStats(start.counter, start.len), opens + 1);
  }

  /**
   * Exactly which sets of calls can see torn statistics: those with a GET_STATS and a call that changes the
   * counter or the length of the device they start on.
   */
  lemma TornIff(start: Dev, opens: nat, ops: seq<Locked>)
    requires DevOk(start) && LogOk(ops)
    ensures (exists ws: seq<World>, t: nat :: RunOf(ws, start, opens, ops) && Torn(ws, t)) <==>
      (exists t: nat :: t < |ops| && ops[t].LStats?) && exists u: nat :: u < |ops| && Shifts(start, ops[u])
  {
    if ws: seq<World>, t: nat :| RunOf(ws, start, opens, ops) && Torn(ws, t) {
      TornNeedsShift(ws, start, opens, ops, t);
    }
    if (exists t: nat :: t < |ops| && ops[t].LStats?) && exists u: nat :: u < |ops| && Shifts(start, ops[u]) {
      var t: nat :| t < |ops| && ops[t].LStats?;
      var u: nat :| u < |ops| && Shifts(start, ops[u]);
      var ws := TearingRun(start, opens, ops, t, u);
    }
  }

  lemma TornNeedsShift(ws: seq<World>, start: Dev, opens: nat, ops: seq<Locked>, t: nat)
    requires DevOk(start) && LogOk(ops) && RunOf(ws, start, opens, ops) && Torn(ws, t)
    ensures t < |ops| && ops[t].LStats?
    ensures exists u: nat :: u < |ops| && Shifts(start, ops[u])
  {
    var i := |ws| - 1;
    SameCalls(ws, start, opens, ops, i);
    var e, p := StatsReply(ws, start, t, i);
    assert !Shows(ws[p], ws[i].threads[t]);
    if forall u: nat :: u < |ops| ==> !Shifts(start, ops[u]) {
      Steady(ws, start, opens, ops, e);
      Steady(ws, start, opens, ops, p);
      assert false;
    }
  }

  lemma {:induction false} SameCalls(ws: seq<World>, start: Dev, opens: nat, ops: seq<Locked>, i: nat)
    requires |start.buf| == BUF_SIZE && RunOf(ws, start, opens, ops) && i < |ws|
    ensures |ws[i].threads| == |ops| && forall u :: 0 <= u < |ops| ==> ws[i].threads[u].op == ops[u]
  {
    if i == 0 {
    } else {
      SameCalls(ws, start, opens, ops, i - 1);
      assert OneMove(ws[i - 1], ws[i - 1 + 1]);
      forall u: nat | u < |ops| {
        ThreadStep(ws[i - 1], ws[i], u);
      }
      ThreadCount(ws, start, i - 1, i);
    }
  }

  /** The header's "atomically" fails for a GET_STATS beside a single increment. */
  lemma StatsAreNotOneInstant()
    ensures exists ws: seq<World>, t: nat :: RunOf(ws, Empty(), 0, [LStats, LAdd(1)]) && Torn(ws, t)
  {
    var ops := [LStats, LAdd(1)];
    assert ops[0].LStats? && Shifts(Empty(), ops[1]);
    TornIff(Empty(), 0, ops);
  }
}
