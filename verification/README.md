# Verified models of the fleet scheduler, the CUDA kernels and the `valdev` driver

This project models the parts of the repository whose correctness is hardest to see from the code: the
concurrent task scheduler of `dtest`, the parallel kernels of `cudatest` against their CPU references, the
`valdev` character device under concurrent callers, the admission gate of the test agent, and the base64
decoder of `vmtest`. `dafny verify dfyconfig.toml` checks everything.

## What is modelled, and how

**Scheduler** (`Scheduler*.dfy`, `JobLabels.dfy`). `SchedulerRun.Run` is the class of the source with its fields
and loops. Each of its methods is proved against the value-level steps of `SchedulerModel`, and the theorems are
about those steps. The atomic step is one lock-held section of one worker: from the return of the executor (or
from the start, or from a wake-up) to the next unlock, wait or exit. A run is any sequence of sections, taken by
any worker that can move, with any answer from the executor. `SchedulerCall.RunTasks` is the whole call with an
arbitrary executor, and its promises are about the values it returns. A fleet is fixed by what a caller passes in: agents
with slots and labels, and tasks with retries and required labels. `retries >= 0` is what the job-file parser
guarantees. The `Running` worker holds its task, so several workers of one agent are distinct.

The documentation says that a task nobody can run is reported unschedulable *rather than hanging the run*
(`dtest/include/dtest/scheduler.hpp:74`, `README.md:168`, `docs/TEST_PLAN.md:104`). The code does not always do so.
`resolve_unschedulable` runs only when an agent is first retired; a second slot that brings its task back after
that leaves the task pending with nobody to run it. The model follows the code, exhibits such a run, and proves
the exact condition on the fleet in both directions: some run hangs if and only if an agent with two or more slots
can run two of the tasks and some other agent cannot run one of them (`HangsIff`); some run ends with work left
over if and only if such an agent exists at all (`StrandsIff`). Every run ends: the run either joins all its
workers or stops in exactly such a state. For the same reason the message documented as *set for Unschedulable*
(`dtest/include/dtest/scheduler.hpp:51`) can be empty in a summary that is returned. That happens for some run of a
fleet if and only if an agent with two or more slots can run two of the tasks and every agent can run at least one
of them, so that all agents can be retired (`UnexplainedIff`); one two-slot agent and two tasks are enough
(`UnexplainedExample`). Within a run it is exactly the stranded tasks that lack it (`MessageMissingIffOrphan`).

**Kernels** (`GridStride.dfy`, `Reduce.dfy`, `Histogram.dfy`, `Gemm.dfy`, `RowMajor.dfy`, `Transpose.dfy`). A block is
a sequence of phases separated by the barriers of the source, over shared arrays. Inside a phase the threads run
in an arbitrary order, chosen by a nondeterministic `:|`, and so do the blocks of the grid; atomics are separate
steps in the histogram's counting and merging phases and in the reduction's final addition. Outside those atomics
no thread of a phase writes a cell that another one touches, so a thread's share of a phase is one step. The CPU
references are the specifications. The reduction and the histogram are exact over machine integers, with the
absence of 32- and 64-bit wrap proved; the matrix product is exact over `real`. Every index computed as an `int`
in the source is bounded by an assertion.

The launchers accept every `n` up to 2^31 - 1, but the grid-stride loop overflows `int` near that limit. The exact
condition, `LaunchFits`, is computed from `n` and `block` alone, with the grid that `blocks_for` gives on a wrapping
`int`; `LaunchEscapesIff` shows that exactly beyond it some thread steps to a negative index that passes the loop test.

**valdev** (`Valdev.dfy`, `ValdevHistory.dfy`). The class `Device` holds the buffer, length, counter and open count;
faults of the copying helpers are a parameter of each call. `*ppos` is private to a call, as the VFS passes a copy.
The concurrent model lets any thread take the next step, each call entering the lock once. The header promises
that GET_STATS is a snapshot taken *atomically* (`kmod/valdev_ioctl.h:37`), but `opens` is read after the lock is
dropped. `StatsReply` says which instants a reply is made of and when they are one; `TornIff` says exactly which sets
of concurrent calls can make a call report a combination that never held: those with a GET_STATS and a call that
changes the counter or the length of the device they start on.

**Agent gate** (`AgentGate.dfy`). The `fetch_add` and `fetch_sub` of `RunTask` are separate steps of any number of
calls, and the gate is composed with one scheduler that uses the slots the agent reports. A worker waits for its
reply, or gives the call up with an agent error; its request may then still be served, or only just arrive.

**Base64** (`Base64.dfy`). The specification is the bit stream: concatenate six bits per alphabet character before
the first `=`, cut it into bytes. The accumulator loop is proved to compute it, and the encoding of section 4 of
RFC 4648 to be its inverse.

`Arithmetic.dfy`, `Sums.dfy`, `Bytes.dfy` and `Threads.dfy` hold what several models share.

## Model

| member | source | states |
|---|---|---|
| `JobLabels.LabelsSatisfy` | dtest/src/jobs.cpp:11-25 | true exactly when every requirement is provided by some label: the same key, and the same value if one is asked for |
| `JobLabels.MatchesIff` | dtest/src/jobs.cpp:13-17 | the string comparisons of the loop decide exactly that |
| `JobLabels.BareNeedIsKey` | dtest/src/jobs.cpp:13-17 | a requirement without `=` matches a label exactly when it is the label's whole key, never a prefix of it |
| `SchedulerModel.Pick` | dtest/src/scheduler.cpp:106-116 | the first task at or after a position that the pick rule allows: what it returns is pickable and nothing before it is |
| `SchedulerSteps.StartKeepsInv` | dtest/src/scheduler.cpp:65-74 | the invariant holds when the workers start |
| `SchedulerSteps.CompleteKeepsInv` | dtest/src/scheduler.cpp:155-183 | recording and judging an answer keeps the invariant: books balanced, one owner per running task, verdicts justified, sleepers with nothing to do |
| `SchedulerSteps.CheckKeepsInv` | dtest/src/scheduler.cpp:144-153 | the loop head (leave, take a task, or wait) keeps it too |
| `SchedulerSteps.ScheduleKeepsInv` | dtest/src/scheduler.cpp:63-205 | conservation: every state of every interleaving satisfies the invariant, so `remaining_` counts the open tasks and `dead_` lists each retired agent once |
| `SchedulerTermination.SectionLowersPhi` | dtest/src/scheduler.cpp:144-186 | every lock-held section, whoever takes it and whatever the answer, lowers an explicit potential |
| `SchedulerTermination.RunsAreFinite` | dtest/src/scheduler.cpp:144-186 | no interleaving is longer than a bound computed from workers and retry budgets |
| `SchedulerTermination.EveryRunEnds` | dtest/src/scheduler.cpp:144-186 | every reachable state can be run on until no worker can move |
| `SchedulerTermination.AttemptBound` | dtest/src/scheduler.cpp:155-182 | a whole run makes at most `retries + 1` attempts per task plus one per worker |
| `SchedulerTermination.AttemptBoundForJobFiles` | dtest/src/jobs.cpp:146-149 | with the parser's limit of ten retries: at most 11 per task plus one per worker |
| `SchedulerOutcome.FreshRuleLeavesAPicker` | dtest/src/scheduler.cpp:98-116 | preferring a fresh agent never makes a task with a live capable agent unpickable by all of them |
| `SchedulerOutcome.SleepersHaveNothingToDo` | dtest/src/scheduler.cpp:144-151 | no lost wakeup: whoever waits has a live agent, work remains, and its `pick` fails |
| `SchedulerOutcome.OpenTasksAreOrphans` | dtest/src/scheduler.cpp:106-186 | when nobody can move, the open tasks are exactly those left without a live capable agent |
| `SchedulerOutcome.AllFinishedIffNoOrphan` | dtest/src/scheduler.cpp:144-186 | a run that has stopped has finished everything exactly when it left no such task |
| `SchedulerOutcome.HangsIffOrphanAndLiveAgent` | dtest/src/scheduler.cpp:79-79 | a stopped run fails to join exactly when it left such a task and some agent is alive |
| `SchedulerOutcome.HungTasks` | dtest/src/scheduler.cpp:173-181 | in a hang, every open task's last attempt was on a retired agent |
| `SchedulerOutcome.OrphansComeFromLateReturns` | dtest/src/scheduler.cpp:173-181 | a task becomes orphaned only when brought back, without passing, to an agent another slot has already retired |
| `SchedulerOutcome.Verdicts` | dtest/src/scheduler.cpp:163-172 | in every reachable state: Passed iff the last attempt passed; Failed or TimedOut iff the last attempt was that and exactly `retries + 1` attempts spent budget |
| `SchedulerOutcome.UnschedulableVerdict` | dtest/src/scheduler.cpp:124-142 | at the end, Unschedulable means no live capable agent, no passed attempt, budget left |
| `SchedulerOutcome.MessageMissingIffOrphan` | dtest/src/scheduler.cpp:136-140 | in any run that has stopped, hung or returned, the explanation of an unschedulable task is empty exactly for the orphans |
| `SchedulerOutcome.FlakyMeansRetried` | dtest/src/scheduler.cpp:11-17 | flaky iff Passed after between one and `retries` failures |
| `SchedulerOutcome.AttemptsAreRouted` | dtest/src/scheduler.cpp:96-109 | every attempt is on a capable agent, and an agent error always retires its agent |
| `SchedulerOutcome.PickPrefersFreshAgents` | dtest/src/scheduler.cpp:98-112 | whenever any lock-held section ends with its worker holding a task its agent has had before, every other agent alive and able at that moment has had it |
| `SchedulerHistory.AttemptWasPicked` | dtest/src/scheduler.cpp:106-160 | every attempt of a run was picked by some section, at its agent, when the attempts before it were all there were |
| `SchedulerHistory.RetryPlacement` | dtest/src/scheduler.cpp:98-160 | if a final attempt list repeats an agent, then every other agent that was alive and able when the later attempt was picked appears earlier in the list |
| `SchedulerHistory.FinishedOnce` | dtest/src/scheduler.cpp:118-186 | each task is finished at most once: its status, message and attempts never change afterwards |
| `SchedulerHistory.RetiredIffErred` | dtest/src/scheduler.cpp:173-181 | an agent is on the dead list iff one of its attempts ended in an agent error |
| `SchedulerHistory.SectionAnswered` | dtest/src/scheduler.cpp:155-160 | every attempt keeps the executor's answer for its agent, task and number |
| `SchedulerOutcome.SlotLimit` | dtest/src/scheduler.cpp:75-78 | in every reachable state each running task runs on some agent, and those of one agent are as many as its busy workers, never more than its workers |
| `SchedulerHazard.Drive` | dtest/src/scheduler.cpp:144-155 | a worker of a live agent can be steered to a given fresh task while another task stays untouched |
| `SchedulerHazard.StrandingRun` | dtest/src/scheduler.cpp:173-181 | from any fleet with two workers on one agent that can run both of two tasks, a run that ends with one of them stranded |
| `SchedulerHazard.StrandsIffHazard` | dtest/src/scheduler.cpp:144-186 | some run stops with work left iff such workers and tasks exist |
| `SchedulerHazard.HangsIffHazardAndBystander` | dtest/src/scheduler.cpp:144-186 | some run hangs iff, besides, an agent cannot run the task at risk |
| `SchedulerFleet.WorkersAreSlots` | dtest/src/scheduler.cpp:43-48 | an agent gets as many workers as it has slots, or one if it reports none |
| `SchedulerFleet.LaunchIsValid` | dtest/src/scheduler.cpp:75-78 | every agent has a worker and every worker an agent, for any list of agents |
| `SchedulerFleet.StrandsIff` | dtest/src/scheduler.cpp:144-186 | in the caller's terms: work can be left over iff some agent with two slots can run two of the tasks |
| `SchedulerFleet.HangsIff` | dtest/src/scheduler.cpp:144-186 | in the caller's terms: a run can hang iff, besides, another agent cannot run one of them |
| `SchedulerFleet.HangExample` | dtest/src/scheduler.cpp:173-181 | the smallest hang: a two-slot KVM agent, a plain agent, two KVM tasks |
| `SchedulerFleet.OneSlotFleetsFinish` | dtest/src/scheduler.cpp:144-186 | with one slot per agent, or one task, every interleaving finishes everything and joins |
| `SchedulerFleet.ReliableRunsFinish` | dtest/src/scheduler.cpp:144-186 | so does every run in which each task has a capable agent that never returns an agent error |
| `SchedulerFleet.NeverMoreThanSlots` | dtest/include/dtest/scheduler.hpp:69-69 | in every reachable state at most as many tasks are running on an agent as it has slots, or one if it reports none |
| `SchedulerFleet.AttemptsPerJobFile` | dtest/src/jobs.cpp:146-149 | at most 11 attempts per task plus the total number of slots |
| `SchedulerUnexplained.RetiredAgentsAreEmployable` | dtest/src/scheduler.cpp:173-181 | only an agent that can run some task is ever retired |
| `SchedulerUnexplained.UnexplainedRun` | dtest/src/scheduler.cpp:124-186 | from such a fleet, a run that joins all workers and reports a given task as unschedulable without a message |
| `SchedulerUnexplained.ReturnsUnexplainedIff` | dtest/src/scheduler.cpp:124-186 | a returned summary can lack an explanation iff the hazard of stranding exists and every agent can run some task |
| `SchedulerUnexplained.UnexplainedIff` | dtest/include/dtest/scheduler.hpp:51 | the same in the caller's terms: slots, labels and tasks |
| `SchedulerUnexplained.UnexplainedExample` | dtest/src/scheduler.cpp:173-181 | the smallest case: one two-slot agent and two tasks it can run |
| `SchedulerUnexplained.ReturnedTasksAreExplained` | dtest/include/dtest/scheduler.hpp:51 | for every other fleet, every unschedulable task of a returned summary has its message |
| `SchedulerReplay.FollowsLoop` | dtest/src/scheduler.cpp:155-182 | from any of its attempts on, a task finished by its answers went the way of a sequential retry loop, agent errors not counted |
| `SchedulerReplay.StatusIndependence` | dtest/src/scheduler.cpp:155-182 | agents may break anywhere in the run: if the other answers depend only on the task and its failures so far, every finished task that is not unschedulable has the status of that loop, after the loop's attempts plus those lost to agent errors |
| `SchedulerReplay.ScheduleIndependence` | dtest/src/scheduler.cpp:106-186 | when answers depend only on task and attempt number and no agent errs, every interleaving on every fleet gives each task the status and attempt count of that loop |
| `SchedulerReplay.ScriptedRunsFinish` | dtest/src/scheduler.cpp:144-186 | such runs cannot hang or leave work behind |
| `SchedulerRun.Run.constructor` | dtest/src/scheduler.cpp:65-67 | the initial fields, one resolver call away from the model's start |
| `SchedulerRun.Run.Able` | dtest/src/scheduler.cpp:96-96 | whether the agent's labels satisfy the task |
| `SchedulerRun.Run.FreshCandidate` | dtest/src/scheduler.cpp:99-104 | true iff another live capable agent has not been tried |
| `SchedulerRun.Run.PickTask` | dtest/src/scheduler.cpp:106-116 | the search loop returns the first pickable task, or none if there is none |
| `SchedulerRun.Run.Finish` | dtest/src/scheduler.cpp:118-123 | closes the task and nothing else; `remaining_` falls by one and does not underflow |
| `SchedulerRun.Run.CapableAgents` | dtest/src/scheduler.cpp:129-134 | the two flags are what they are named after |
| `SchedulerRun.Run.JoinNeeds` | dtest/src/scheduler.cpp:136-137 | the requirements joined as in the message |
| `SchedulerRun.Run.Explanation` | dtest/src/scheduler.cpp:138-140 | which explanation an unschedulable task gets |
| `SchedulerRun.Run.ResolveUnschedulable` | dtest/src/scheduler.cpp:125-142 | closes exactly the pending tasks without a live capable agent |
| `SchedulerRun.Run.TakeBack` | dtest/src/scheduler.cpp:155-183 | the section after the executor's answer is the model's completion step |
| `SchedulerRun.Run.CountFailure` | dtest/src/scheduler.cpp:166-172 | spends budget, and closes the task when it is exceeded |
| `SchedulerRun.Run.LoopHead` | dtest/src/scheduler.cpp:146-153 | the loop head is the model's check step |
| `SchedulerRun.Run.WorkerSection` | dtest/src/scheduler.cpp:144-186 | one lock-held section is one model step and keeps the invariant |
| `SchedulerRun.Run.Answer` | dtest/src/scheduler.cpp:155-155 | the executor is asked about the worker's agent and task |
| `SchedulerRun.Run.Execute` | dtest/src/scheduler.cpp:69-79 | under any thread scheduling and any executor it stops, every attempt answered by the executor; it joins iff nothing remains or no agent is alive; outside the fleets of `HangsIff` it always joins, outside those of `StrandsIff` it also finishes everything, outside those of `UnexplainedIff` what it returns explains every unschedulable task |
| `SchedulerRun.Run.Summary` | dtest/src/scheduler.cpp:81-92 | outcomes in input order with addresses put back; retired agents listed once each |
| `SchedulerRun.Outcomes` | dtest/src/scheduler.cpp:82-89 | one outcome per task, showing its verdict, message and attempts |
| `SchedulerCall.RunTasks` | dtest/src/scheduler.cpp:203-206 | a whole call: when it returns; one outcome per task with a status its attempts call for, every attempt on an able agent with the executor's answer; which agents are reported dead, which tasks unschedulable and with what message; and that what is returned shows the end of a run of the model |
| `SchedulerCall.OutcomesAreOk` | dtest/src/scheduler.cpp:81-92 | all of that from the final state of any run that returns |
| `SchedulerCall.DeadIsOk` | dtest/include/dtest/scheduler.hpp:59 | the reported dead agents are exactly the addresses with an agent error among the reported attempts, each once |
| `SchedulerCall.SchedulingIsOk` | dtest/src/scheduler.cpp:125-142 | unschedulable only where every able agent is reported dead; a task nobody is able to run is unschedulable without an attempt |
| `SchedulerCall.NoneDead` | dtest/src/scheduler.cpp:125-142 | with no agent retired, unschedulable iff no agent's labels satisfy the task |
| `SchedulerCall.ReasonIs` | dtest/src/scheduler.cpp:136-140 | which of the two explanations a task gets, by whether some agent is able to run it |
| `SchedulerCall.JoinIs` | dtest/src/scheduler.cpp:136-137 | the requirements are listed with commas |
| `SchedulerRun.CountIsSize` | dtest/src/scheduler.cpp:19-23 | a count is the number of outcomes with that status |
| `SchedulerRun.FlakyCountIsSize` | dtest/src/scheduler.cpp:25-29 | the flaky count is the number of flaky outcomes |
| `SchedulerRun.CountsSplit` | dtest/src/scheduler.cpp:19-31 | the four counts add up to the number of tasks, `all_passed` means every task passed, and the flaky ones are counted among the passed |
| `SchedulerRun.FlakyIsReported` | dtest/src/scheduler.cpp:11-17 | the returned outcome is flaky exactly when the recorded attempts say so |
| `AgentGate.AgentService.constructor` | dtest/src/agent_service.cpp:28-29 | zero slots become one; the gate starts at zero |
| `AgentGate.AgentService.EnterRunTask` | dtest/src/agent_service.cpp:71-75 | admitted iff fewer calls than slots stood between their two atomics |
| `AgentGate.AgentService.LeaveRunTask` | dtest/src/agent_service.cpp:73-84 | the decrement on either way out |
| `AgentGate.ArriveKeeps` | dtest/src/agent_service.cpp:72-75 | the increment keeps the gate's invariant, including no 32-bit wrap |
| `AgentGate.DepartKeeps` | dtest/src/agent_service.cpp:84-84 | so does the decrement, which never goes below zero |
| `AgentGate.QuietGateIsZero` | dtest/src/agent_service.cpp:71-84 | the counter is zero exactly when no call is in progress |
| `AgentGate.RefusedAtAnIdleAgent` | dtest/src/agent_service.cpp:72-75 | the smallest case: one slot, three callers, a refusal while no process runs |
| `AgentGate.RefusedEarlyIff` | dtest/src/agent_service.cpp:71-84 | a gate at rest can come to refuse a call while fewer processes than slots run iff there are more callers than slots |
| `AgentGate.AdmittedWithinSlots` | dtest/src/agent_service.cpp:71-84 | at most `slots` processes at once, whoever calls and however the atomics interleave |
| `AgentGate.JointRunKeeps` | dtest/src/grpc_executor.cpp:58-86 | the invariant of scheduler and gate together, in every interleaving of sections, sends and replies, with calls given up while the agent still serves them or before their request reaches it |
| `AgentGate.NeverRefused` | dtest/src/agent_service.cpp:28-75 | one scheduler using the slots the agent was given or reports is never refused, even when connections are lost or deadlines pass, and requests arrive late |
| `Valdev.Device.constructor` | kmod/valdev.c:48-50 | a loaded module holds an empty device |
| `Valdev.Device.Open` | kmod/valdev.c:52-57 | counts the open and touches nothing behind the lock |
| `Valdev.Device.Read` | kmod/valdev.c:65-97 | end of file, out of memory, fault or the bytes at the offset; the offset moves only on success and stays in range; the bytes are those of the locked section of the concurrent model |
| `Valdev.Device.Write` | kmod/valdev.c:99-128 | short write at the end, ENOSPC beyond it; a failing write changes nothing; bytes at and beyond `len` stay zero; the effect is that of the locked section of the concurrent model, if it gets there |
| `Valdev.Device.Ioctl` | kmod/valdev.c:130-181 | every command's reply and effect, tied to the locked section of the concurrent model; a copy-out fault in ADD_COUNTER still adds; GET_STATS counts the opens that came in after it dropped the lock |
| `Valdev.Device.Llseek` | kmod/valdev.c:183-206 | the new offset or EINVAL, without overflow; offsets stay in 0..4096 |
| `Valdev.SeekMeans` | kmod/valdev.c:187-205 | what each of the three ways of seeking gives, and that anything out of range is EINVAL |
| `Valdev.SeekEndAppends` | kmod/valdev.c:194-198 | after seeking to the end a read is at end of file and a write appends |
| `Valdev.SeekThereAndBack` | kmod/valdev.c:191-193 | moving by a distance and back comes back; moving by nothing stays |
| `Valdev.WritesAddUp` | kmod/valdev.c:99-128 | however a stream is cut into writes, the device ends as after one write of it |
| `Valdev.LongStream` | kmod/valdev.c:105-124 | a stream longer than the room stores exactly its first bytes, up to the end of the buffer |
| `Valdev.NoRoom` | kmod/valdev.c:105-106 | where nothing fits a non-empty write is ENOSPC and changes nothing |
| `Valdev.ReadsAddUp` | kmod/valdev.c:65-97 | however reads are cut, they return one contiguous piece of the valid bytes |
| `Valdev.StreamRoundTrip` | kmod/valdev.c:65-206 | any split into writes, a seek to zero and any split into reads returns the stream followed by any older tail, as far as the reads ask; end of file comes exactly when they have asked for all of it |
| `ValdevHistory.CounterIsSum` | kmod/valdev.c:150-163 | the counter is the sum of the deltas since the last reset, modulo 2^64 |
| `ValdevHistory.BytesAreLastWritten` | kmod/valdev.c:120-125 | every byte is the last one written there since the last reset |
| `ValdevHistory.LengthIsFurthestWrite` | kmod/valdev.c:122-124 | `len` is the end of the furthest write since the last reset |
| `ValdevHistory.PrivateRangesSurvive` | kmod/valdev.c:120-125 | a writer alone in its range reads its own bytes back, whatever others write elsewhere |
| `ValdevHistory.MoveKeepsLinear` | kmod/valdev.c:65-181 | one step of any thread keeps all answers those of a sequential device |
| `ValdevHistory.HistoriesAreLinear` | kmod/valdev.c:65-181 | concurrent histories are sequential in lock order, in every interleaving |
| `ValdevHistory.NoLostUpdates` | kmod/valdev.c:143-157 | concurrent increments are never lost, including those whose reply faulted |
| `ValdevHistory.StatsReply` | kmod/valdev.c:165-176 | a GET_STATS reply is the counter and length of the lock point and the open count of a later read; it held at the lock point iff nobody opened in between, and at the read iff counter and length were the same |
| `ValdevHistory.ShiftsIff` | kmod/valdev.c:120-163 | which calls change counter or length: a non-zero delta, a write past the end, a reset of a device in use |
| `ValdevHistory.TornIff` | kmod/valdev_ioctl.h:37 | exactly which sets of calls can report a combination that never held: a GET_STATS and a call that changes counter or length |
| `ValdevHistory.StatsAreNotOneInstant` | kmod/valdev_ioctl.h:37 | a GET_STATS beside one increment can |
| `GridStride.BlocksCover` | cudatest/src/kernels.cu:16-17 | enough blocks to cover `n` unless capped and none too many; a single block once the rounding overflows |
| `GridStride.MachineArithmetic` | cudatest/src/kernels.cu:17-17 | wrapped sums differ by a multiple of 2^32, quotients round toward zero |
| `GridStride.VisitedExactlyOnce` | cudatest/src/kernels.cu:22-24 | the loops of all threads visit every index below `n` exactly once |
| `GridStride.StrideLoop` | cudatest/src/kernels.cu:33-33 | the loop on a wrapping `int` visits those indices, if the last index plus the stride fits |
| `GridStride.NoOverflowIff` | cudatest/src/kernels.cu:33-33 | no thread's index overflows iff `n - 1 + stride` fits |
| `GridStride.EscapesIff` | cudatest/src/kernels.cu:33-33 | otherwise, and only otherwise, some thread goes on at a negative index |
| `GridStride.FitsMeansNoOverflow` | cudatest/src/kernels.cu:16-17 | the launchers' condition on `n` and `block` is exactly that no thread's index overflows; it also covers the rounding in `blocks_for` |
| `GridStride.LaunchEscapesIff` | cudatest/src/kernels.cu:131-138 | on the launcher's own arguments, with the grid the wrapping expression gives: some thread goes on at a negative index iff the launch does not fit |
| `GridStride.OverflowExample` | cudatest/src/kernels.cu:131-138 | the largest accepted `n` always overflows; `n + 65535 * block` within `int` never does |
| `GridStride.ThreadsAddUp` | cudatest/src/kernels.cu:32-34 | the threads' partial sums add up to the sum of the input |
| `GridStride.BlocksAddUp` | cudatest/src/kernels.cu:41-41 | grouping threads into blocks keeps the sum |
| `Reduce.CpuReduceSum` | cudatest/src/reference.cpp:50-54 | the sum modulo 2^64 for any length, and the exact sum for any `n` a kernel takes |
| `Reduce.WordsSum` | cudatest/src/reference.cpp:50-54 | fewer than 2^31 words sum to less than 2^64 |
| `Reduce.BitTrick` | cudatest/src/kernels.cu:14-14 | `v & (v - 1)` is zero exactly for the powers of two |
| `Reduce.HalveKeepsSum` | cudatest/src/kernels.cu:37-40 | a halving step keeps the sum of the live prefix, except for an odd last cell |
| `Reduce.TreeFoldIsSum` | cudatest/src/kernels.cu:37-40 | the tree leaves the sum in cell 0 when the block is a power of two |
| `Reduce.TreeNeedsPowerOfTwo` | cudatest/src/kernels.cu:133-133 | for every other block size some input is summed wrongly |
| `Reduce.HalvingPhase` | cudatest/src/kernels.cu:37-40 | one barrier-to-barrier pass in place, for every thread order, without 64-bit wrap |
| `Reduce.ThreadTotal` | cudatest/src/kernels.cu:32-33 | one thread's strided sum |
| `Reduce.ReduceBlock` | cudatest/src/kernels.cu:30-41 | a block contributes the tree of its threads' sums |
| `Reduce.ReduceGrid` | cudatest/src/kernels.cu:29-42 | all blocks, in any order of blocks, threads and atomics, give the exact sum, without 64-bit wrap |
| `Reduce.LaunchReduceSum` | cudatest/src/kernels.cu:131-139 | accepts exactly the powers of two from 32 to 1024 and returns the exact sum |
| `Histogram.CountIsMultiplicity` | cudatest/src/reference.cpp:66-70 | the count of a byte is its multiplicity in the input |
| `Histogram.CpuHistogram256` | cudatest/src/reference.cpp:66-70 | each bin counts its byte modulo 2^32 for any length, and is its multiplicity below 2^32 bytes |
| `Histogram.BinsSumToLength` | cudatest/src/reference.cpp:66-70 | the bins account for every input byte |
| `Histogram.ClearPhase` | cudatest/src/kernels.cu:80-82 | every shared bin is cleared, for every block size and thread order |
| `Histogram.CountPhase` | cudatest/src/kernels.cu:84-85 | for every interleaving of the threads' atomic increments the shared bins hold the block's counts, without wrap |
| `Histogram.HistogramBlock` | cudatest/src/kernels.cu:79-85 | the shared bins of one block |
| `Histogram.BlocksCountAll` | cudatest/src/kernels.cu:84-89 | the blocks' counts of a bin add up to its count in the whole input |
| `Histogram.MergePhase` | cudatest/src/kernels.cu:87-89 | for every order of the global atomics, skipping zeros, each bin receives the sum of the blocks' bins, without 32-bit wrap |
| `Histogram.HistogramGrid` | cudatest/src/kernels.cu:79-90 | the kernel computes what the reference computes |
| `Histogram.LaunchHistogram256` | cudatest/src/kernels.cu:159-167 | accepts exactly blocks of 1 to 1024 threads, and leaves in each bin the multiplicity of its byte |
| `Gemm.CpuGemm` | cudatest/src/reference.cpp:56-64 | the reference computes the matrix product, over exact arithmetic |
| `Gemm.ProductIsUnique` | cudatest/src/reference.cpp:56-64 | there is only one: whatever computes the product computes the same buffer |
| `Gemm.PaddingIsZero` | cudatest/src/kernels.cu:64-68 | the zero-filled part of the last tile adds nothing |
| `Gemm.LoadPhase` | cudatest/src/kernels.cu:65-69 | after the load phase every shared cell holds this tile's entry or zero, for every thread order |
| `Gemm.TileProduct` | cudatest/src/kernels.cu:70-70 | one thread's pass over the tile adds the tile's sixteen terms |
| `Gemm.AccumulatePhase` | cudatest/src/kernels.cu:70-71 | so do all threads, in any order, reading only cells loaded for this tile |
| `Gemm.StorePhase` | cudatest/src/kernels.cu:73-73 | the block's cells get their sums and no other cell changes |
| `Gemm.TiledBlock` | cudatest/src/kernels.cu:56-74 | a tiled block produces exactly its cells of the product |
| `Gemm.NaiveBlock` | cudatest/src/kernels.cu:47-54 | so does a block of the naive kernel |
| `Gemm.GemmGrid` | cudatest/src/kernels.cu:144-145 | all blocks in any order produce the matrix product |
| `Gemm.LaunchGemm` | cudatest/src/kernels.cu:141-157 | rejects exactly negative dimensions, leaves an empty result alone, and otherwise stores the product, ragged edges and `K = 0` included |
| `Gemm.AllThreeAgree` | cudatest/src/kernels.cu:47-74 | naive kernel, tiled kernel and reference leave the same buffer |
| `Gemm.TimesIdentity` | docs/TEST_PLAN.md:119 | A times the identity is A, exactly |
| `RowMajor.SameCells` | cudatest/src/reference.cpp:72-76 | a row-major buffer is determined by its entries |
| `RowMajor.FlattenCell` | cudatest/src/reference.cpp:72-76 | entries are laid out row by row |
| `RowMajor.StoreCell` | cudatest/src/reference.cpp:61-61 | storing at `row * cols + col` changes that entry and no other |
| `Transpose.CpuTranspose` | cudatest/src/reference.cpp:72-76 | the reference computes the transpose |
| `Transpose.TransposeIsUnique` | cudatest/src/reference.cpp:72-76 | there is only one |
| `Transpose.TransposeTwice` | docs/TEST_PLAN.md:121 | transposing twice is the identity |
| `Transpose.LoadPhase` | cudatest/src/kernels.cu:98-103 | after the four guarded passes every tile cell inside the matrix holds its input entry |
| `Transpose.StoreOnce` | cudatest/src/kernels.cu:108-108 | a store to an output cell that has not been written before |
| `Transpose.StorePhase` | cudatest/src/kernels.cu:105-109 | the block writes exactly its output cells, each once, reading only loaded tile cells |
| `Transpose.TransposeGrid` | cudatest/src/kernels.cu:95-110 | all blocks and threads in any order write every output cell exactly once, with the transpose |
| `Transpose.LaunchTranspose` | cudatest/src/kernels.cu:169-176 | rejects exactly negative dimensions, leaves an empty result alone, and otherwise stores the transpose |
| `Transpose.ProductTransposed` | cudatest/src/reference.cpp:56-76 | the transpose of a product is the product of the transposes in the other order |
| `Base64.Base64Decode` | vmtest/src/util.cpp:10-27 | the accumulator loop computes the bit-stream specification |
| `Base64.Take` | vmtest/src/util.cpp:18-23 | one character: no signed overflow, and what is pending stays the tail of the stream |
| `Base64.Decode` | vmtest/src/util.cpp:10-27 | exactly floor(6k/8) bytes for k alphabet characters before the first `=` |
| `Base64.RoundTrip` | vmtest/src/util.cpp:10-27 | decoding the RFC 4648 encoding of any byte string gives it back |
| `Base64.AlphabetIs` | vmtest/src/util.cpp:11-11 | the alphabet is the literal of the source, position by position |
| `Base64.KnownEncodings` | vmtest/src/util.cpp:10-27 | the encoding inverted is that of RFC 4648, on its own test vectors |
| `Base64.StopsAtPad` | vmtest/src/util.cpp:16-16 | everything from the first `=` on is ignored |
| `Base64.GarbageIsSkipped` | vmtest/src/util.cpp:17-18 | a character outside the alphabet may be inserted anywhere before or after without effect |

## Left out

- Condition-variable detail: waiting is a worker state and `notify_all` wakes every sleeper; spurious wakeups are not steps, since the loop rechecks its condition.
- The executor: gRPC transport, wall-clock times, argv, environment and timeouts; the executor is an arbitrary function of the agent, the task and the number of its attempt. Attempt records and the retired list hold agent indices until `Summary` puts the addresses back.
- JSON parsing in `parse_jobs`, repeat expansion and duplicate names; the model takes a list of tasks with the parser's range of `retries`.
- `RunTask` around the gate: authentication, argument and policy checks, and `run_process`; a call ends at an arbitrary later step.
- Null device pointers, CUDA streams, memset and launch errors reported by the driver, and its limits on grid dimensions.
- Floating-point rounding in the matrix product, `allclose`, the random generators and the vector-add kernel, whose loop is the one of `GridStride`.
- Thread steps finer than a phase where threads share no cell; in the reduction, GEMM and transpose each thread's part of a phase is one step.
- `Reduce.LaunchReduceSum`: stated for launches within `LaunchFits`, because exactly beyond it the kernel leaves its buffer, as `GridStride.LaunchEscapesIff` shows.
- `Histogram.LaunchHistogram256`: the same condition for the same reason.
- `Gemm.CpuGemm`: over `real`; accumulation in `double` and rounding to `float` are left out.
- `Gemm.LaunchGemm`: stated for dimensions whose index products and rounded-up sides fit `int`, as the kernels compute them in `int`.
- `Transpose.LaunchTranspose`: the same condition for the same reason.
- `vfs_setpos` is not part of the repository; its range check and error are modelled from its kernel semantics in `Valdev.Seek`.
- Allocation failures in `valdev` appear as an error that changes nothing; module load and unload, and the debug messages, are left out.
- Libvirt wrappers, the guest agent client, `platcheck`, reports and XML output: input and output around the core, easy to state.
