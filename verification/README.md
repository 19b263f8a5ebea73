# CPU scheduling simulator: the scheduling engine

A Dafny model of the engine of `cpu_scheduling_algorithms_simulator.py`, a
teaching simulator. It runs one of five scheduling policies:

- FCFS: first come, first served;
- SJF: shortest job first;
- SRTF: shortest remaining time first, the preemptive SJF;
- PJF: priority job first;
- PJF_P: preemptive PJF.

Processes are submitted to a job queue. Once per simulated second the
scheduler runs six steps, in this order:

1. It admits arrived jobs to the ready queue.
2. It counts the wait queue down and returns expired waits to the ready queue.
3. It charges the running process one second and retires it at zero.
4. It moves the running process to the wait queue when it reaches its wait point.
5. It sorts the ready queue by the policy's key and applies preemption.
6. It dispatches the head of the ready queue to an idle CPU.

## Structure

- `processes.dfy`, module `Processes`:
  - the process record, with an optional priority and an optional single wait window (start, duration);
  - the policy;
  - the validity rules a process must meet;
  - the sort keys, and the preemption comparison.
- `ordering.dfy`, module `Ordering`: the stable sort by key that stands for Python's `sorted(..., key=...)`.
- `arrivals.dfy`, module `Arrivals`: what one admission pass over the job queue does.
- `waits.dfy`, module `Waits`: what one countdown pass over the wait queue does.
- `ticks.dfy`, module `Ticks`:
  - the scheduler's state as a value `State`;
  - each of the six steps as a function on it;
  - `Tick`, one whole second;
  - the invariant `Inv`, which every step keeps.
- `engine.dfy`, module `Engine`:
  - the `Scheduler` class, whose fields are the scheduler's queues, its running process and its clock;
  - one method per step, plus `AddProcess` and `Advance`.

  Each method states its new state as the matching `Ticks` function of the old state. The two loops of the source are `AdmitPass` and `ExpirePass`, proved against `Admit` and `Expire`.
- `properties.dfy`, module `Properties`: what a step and a whole second do, stated outright.
- `sequences.dfy` and `wrappers.dfy`: `Distinct`, `Interleaves` (an order-preserving split of a sequence in two) and `Option`.

### How the source is represented

- **Process identity.** Python shares `Process` objects between its queues and mutates `remaining_time` in place (line 127).
  - The model keeps every submitted process in a map `table` from id to a value record. The containers hold ids.
  - Decrementing the running process's time is a map update of that one record.
  - Ids are unique; a process object's identity plays that role in the source. So `list.remove(process)` (line 110) removes the element at the loop index.
- **The waiting dictionary.** `waiting_queue` (line 46) is a dict keyed by process, with the seconds left as values. Python dicts iterate in insertion order, and that order decides the order in which expired processes rejoin the ready queue. So the model keeps it as a sequence of `Waiting(pid, ticks)` entries in insertion order.
- **The admission skip.** The admission loop (lines 106-110) removes jobs from `job_queue` while a `for` loop iterates over that same list. Python's list iterator then skips the job that slides into the removed job's place.
  - The model follows the code, not the intent of "move every arrived job". `AdmitPass` walks the queue by index. Its index always advances, and a removal shifts later jobs left.
  - `Arrivals.Admit` describes the outcome of one pass directly: an arrived job is admitted, and the job after it stays in the job queue.
  - `Arrivals.AdmitPositions` characterises exactly which jobs one pass admits.
  - `Arrivals.AdmitSkipsNext` exhibits the skip on two arrived jobs.
  - Nothing is lost (`Arrivals.AdmitConserves`), and a skipped job is admitted by a later pass: while any job in the queue has arrived, a pass admits at least one, so the number of arrived jobs still waiting strictly drops (`Arrivals.AdmitProgress`).
- **The clock.** The current second starts at -1 (line 57). The timer thread first moves it to 0 (lines 78-79) and then adds one per second.
  - The scheduler's busy loop (lines 98-101) runs the body once for each new value of the current second.
  - The model therefore has one `Advance` call per second. It first moves `clock` on by one (`Ticks.NextSecond`) and then runs the six steps with the new value.
  - `previous_second` only guards that busy loop and is not a field of the model.
- **The policy.** Line 144 tests the module-level `scheduling_algorithm` rather than the scheduler's own field (line 48). In the program the two always hold the same value. The model uses the scheduler's policy, fixed at construction.
- **Sort keys.** The keys are:
  - `(arrival, 0)` for FCFS;
  - `(remaining, arrival)` for SJF and SRTF;
  - `(priority, arrival)` for PJF and PJF_P.

  The sort is stable. FCFS sorts on the arrival time alone, and a constant second component leaves ties in the same order as a one-part key.
- **Preemption.** It compares only the first key component, strictly (lines 153 and 164). The preempted process is appended after the sorted processes without being re-sorted (lines 155 and 168).
- **Wait start.** A wait start of 0 counts as "no wait", because line 136 is a truthiness test. That test is `Processes.WaitsNow`.
- **Validity.** The input form's checks only show an alert and do not stop the submission. Some of them compare raw strings. The model states the rules the form means to enforce as the precondition of `AddProcess`: `Processes.Admissible` of the process `Processes.NewProcess` builds from the form's fields:
  - a non-negative arrival;
  - a burst of at least one second;
  - a priority under PJF and PJF_P;
  - a wait window whose start is before the end of the burst and whose duration is at least one second.

  The invariant `Inv` also requires that every process in a container is known and can be ranked by the policy. The sort and the preemption test need this; without it the source would fail comparing `None`.

## Model

| member | source | states |
|---|---|---|
| Processes.NewProcess | cpu_scheduling_algorithms_simulator.py:5-23 | a new process starts with its remaining time equal to its burst: it has used no CPU time and is not at a wait point |
| Processes.NewProcessFits | cpu_scheduling_algorithms_simulator.py:5-23 | a new process that meets the validity rules is recorded under its own id, has time left to run but no more than its burst, and can be ranked by the policy |
| Processes.Admissible | cpu_scheduling_algorithms_simulator.py:251-307 | (predicate, no ensures) the rules the input form alerts on, stated as what a submitted process must meet: arrival at least 0, burst at least 1, a priority under PJF and PJF_P, a wait window whose start is before the end of the burst and whose duration is at least 1 |
| Processes.WaitsNow | cpu_scheduling_algorithms_simulator.py:136-137 | (predicate, no ensures) the running process is at its wait point: its wait start is truthy (not absent and not 0) and equals the CPU time it has received; used by `Ticks.WaitStep` and stated as an if-and-only-if in `Properties.WaitStepExactly` |
| Processes.KeyOf | cpu_scheduling_algorithms_simulator.py:143-159 | (no ensures) the sort keys of lines 145, 148 and 159: arrival for FCFS, (remaining, arrival) for SJF and SRTF, (priority, arrival) for PJF and PJF_P; its properties are those of `Ordering.Sort`, `Ordering.SortStable` and `Processes.Preempts` |
| Processes.Preempts | cpu_scheduling_algorithms_simulator.py:150-169 | the sorted head takes the CPU if and only if the policy is SRTF or PJF_P and the head's primary key (remaining time, or priority) is strictly smaller than the running process's; FCFS, SJF and PJF never preempt; a preempting head has a strictly smaller full key |
| Ordering.Sort | cpu_scheduling_algorithms_simulator.py:144-159 | the sorted ready queue is a permutation of the old one and its keys never decrease |
| Ordering.SortStable | cpu_scheduling_algorithms_simulator.py:144-159 | for every key, the processes with that key appear in the same relative order before and after sorting (Python's `sorted` is stable) |
| Ordering.SortKeepsSorted | cpu_scheduling_algorithms_simulator.py:144-159 | sorting an already sorted queue leaves it unchanged |
| Ordering.SortedHeadIsLeast | cpu_scheduling_algorithms_simulator.py:144-159 | the head of a sorted queue has a key no larger than any process in it |
| Arrivals.Admit | cpu_scheduling_algorithms_simulator.py:106-110 | (no ensures) the outcome of one admission pass, with the list-iterator skip: an arrived job is admitted and the job after it stays; its contract is `Arrivals.AdmitPositions`, `Arrivals.AdmitKeepsOrder`, `Arrivals.AdmitConserves`, `Arrivals.AdmitsArrived`, `Arrivals.AdmitsFirstArrival`, `Arrivals.AdmitProgress` and `Arrivals.AdmitSkipsNext`, and `Engine.AdmitPass` is proved equal to it |
| Arrivals.AdmitConserves | cpu_scheduling_algorithms_simulator.py:106-110 | one admission pass loses no job and gains none: the jobs left and the jobs admitted together are the old job queue |
| Arrivals.AdmitsArrived | cpu_scheduling_algorithms_simulator.py:106-110 | only jobs from the job queue whose arrival time is at most the current second are admitted |
| Arrivals.AdmitKeepsOrder | cpu_scheduling_algorithms_simulator.py:106-110 | the jobs left behind and the jobs admitted each keep their job-queue order |
| Arrivals.AdmitPositions | cpu_scheduling_algorithms_simulator.py:106-110 | the job at position i is admitted if and only if it has arrived and the job just before it was not admitted in the same pass |
| Arrivals.AdmitsFirstArrival | cpu_scheduling_algorithms_simulator.py:106-110 | if some job has arrived, the first arrived job in the queue is admitted, ahead of all others |
| Arrivals.AdmitSkipsNext | cpu_scheduling_algorithms_simulator.py:106-110 | of two jobs that have both arrived, one pass admits only the first: the iterator skips the second |
| Arrivals.AdmitCounts | cpu_scheduling_algorithms_simulator.py:106-110 | every admitted job had arrived: the number of arrived jobs left in the queue plus the number admitted is the number of arrived jobs before the pass |
| Arrivals.AdmitProgress | cpu_scheduling_algorithms_simulator.py:106-110 | while some job in the queue has arrived, a pass admits at least one, so the number of arrived jobs still waiting strictly drops and a skipped job is admitted by a later pass |
| Waits.Expire | cpu_scheduling_algorithms_simulator.py:116-121 | (no ensures) the outcome of one countdown pass over the wait queue in insertion order; its contract is `Waits.ExpireCountsDown` and `Waits.ExpireKeepsOrder`, and `Engine.ExpirePass` is proved equal to it |
| Waits.ExpireKeepsOrder | cpu_scheduling_algorithms_simulator.py:116-121 | the entries kept and the processes released each keep their wait-queue order |
| Waits.ExpireCountsDown | cpu_scheduling_algorithms_simulator.py:116-121 | every waiting entry loses exactly one second; a process is released if and only if its counter was 1 (reaches 0); every kept entry had one more second before and is not at 0 |
| Ticks.Initial | cpu_scheduling_algorithms_simulator.py:38-57 | a new scheduler knows no process, has empty queues and an idle CPU, has clock -1, and satisfies the invariant under every policy |
| Ticks.Submit | cpu_scheduling_algorithms_simulator.py:81-86 | the process built by `NewProcess` from the form's fields is recorded under its id and appended to the job queue; the ready queue, wait queue, CPU and clock are unchanged; the invariant holds and the containers gain exactly that id |
| Ticks.NextSecond | cpu_scheduling_algorithms_simulator.py:74-79 | the timer moves the current second on by one and changes nothing else |
| Ticks.AdmitStep | cpu_scheduling_algorithms_simulator.py:105-110 | admission keeps the invariant and the multiset of ids in the containers, and changes neither the records, the wait queue, the CPU nor the clock |
| Ticks.ExpireStep | cpu_scheduling_algorithms_simulator.py:112-121 | the countdown keeps the invariant and the multiset of ids in the containers, and changes neither the records, the job queue, the CPU nor the clock |
| Ticks.Completing | cpu_scheduling_algorithms_simulator.py:127-128 | (no ensures) the running process completes this second when it has exactly one second left, so the decrement brings it to 0; `Ticks.RunStep` clears the CPU exactly then and `Properties.CompletedLeaves` shows it then leaves every container |
| Ticks.RunStep | cpu_scheduling_algorithms_simulator.py:123-130 | charging the CPU leaves the queues, the clock and the set of known processes unchanged; the CPU becomes idle if and only if its process had one second left (it completes), and otherwise keeps the same process |
| Ticks.RunCharges | cpu_scheduling_algorithms_simulator.py:123-130 | in step 3 exactly the running process loses one second of remaining time, and every other record is unchanged |
| Ticks.RunKeepsInvariant | cpu_scheduling_algorithms_simulator.py:123-130 | step 3 keeps the invariant, and the containers lose exactly the process that completes, if any |
| Ticks.WaitStep | cpu_scheduling_algorithms_simulator.py:132-140 | the voluntary move to the wait queue keeps the invariant and the multiset of ids in the containers |
| Ticks.Reorder | cpu_scheduling_algorithms_simulator.py:142-169 | the first part of the new ready queue is a sorted permutation of the old one; the CPU either keeps its process and nothing is appended, or is cleared and exactly the preempted process is appended after the sorted ones |
| Ticks.ReorderStep | cpu_scheduling_algorithms_simulator.py:142-169 | the reorder step keeps the invariant and the multiset of ids in the containers, and leaves the ready queue non-empty |
| Ticks.DispatchStep | cpu_scheduling_algorithms_simulator.py:172-178 | dispatch keeps the invariant and the multiset of ids in the containers |
| Ticks.ScheduleStep | cpu_scheduling_algorithms_simulator.py:142-178 | steps 5 and 6, run only when the ready queue is non-empty, keep the invariant and the multiset of ids in the containers |
| Ticks.Settled | cpu_scheduling_algorithms_simulator.py:101-140 | after steps 1 to 4 the invariant holds, the containers have lost exactly the completing process, the clock has moved on by one and no process record was added or removed |
| Ticks.Tick | cpu_scheduling_algorithms_simulator.py:101-180 | one second keeps the invariant (every live process in exactly one container, finished ones in none, records well formed); the containers lose exactly the process that completes and nothing else; the clock moves on by one |
| Engine.AdmitPass | cpu_scheduling_algorithms_simulator.py:106-110 | the index loop that removes admitted jobs while walking the job queue leaves exactly the jobs `Admit` leaves, and appends exactly the jobs `Admit` admits, in order, to the ready queue |
| Engine.ExpirePass | cpu_scheduling_algorithms_simulator.py:116-121 | the countdown loop leaves exactly the entries `Expire` keeps and appends exactly the processes `Expire` releases, in order, to the ready queue |
| Engine.Scheduler.constructor | cpu_scheduling_algorithms_simulator.py:38-57 | a new scheduler is in the initial state with the given policy and satisfies its invariant |
| Engine.Scheduler.AddProcess | cpu_scheduling_algorithms_simulator.py:81-86 | builds the process with `NewProcess` from the form's fields; the new state is `Submit` of the old one, and the invariant is kept |
| Engine.Scheduler.AdmitArrived | cpu_scheduling_algorithms_simulator.py:105-110 | the new state is `AdmitStep` of the old one, and the invariant is kept |
| Engine.Scheduler.ReleaseWaiting | cpu_scheduling_algorithms_simulator.py:112-121 | the new state is `ExpireStep` of the old one, and the invariant is kept |
| Engine.Scheduler.RunCurrent | cpu_scheduling_algorithms_simulator.py:123-130 | the new state is `RunStep` of the old one; the invariant is kept; it returns the process that completed, if any |
| Engine.Scheduler.StartWaiting | cpu_scheduling_algorithms_simulator.py:132-140 | the new state is `WaitStep` of the old one, and the invariant is kept |
| Engine.Scheduler.Reorder | cpu_scheduling_algorithms_simulator.py:142-169 | the new state is `ReorderStep` of the old one, and the invariant is kept |
| Engine.Scheduler.Dispatch | cpu_scheduling_algorithms_simulator.py:172-178 | the new state is `DispatchStep` of the old one, and the invariant is kept |
| Engine.Scheduler.Advance | cpu_scheduling_algorithms_simulator.py:101-180 | one pass of the main loop body after the timer moves the second on: the new state is `Tick` of the old one; the invariant is kept; it returns the process that completed in this second |
| Properties.NoProcessTwice | cpu_scheduling_algorithms_simulator.py:101-180 | under the invariant no process is in two of the job queue, the ready queue, the wait queue and the CPU |
| Properties.FinishedIsNowhere | cpu_scheduling_algorithms_simulator.py:127-130 | a process with no remaining time is in no container |
| Properties.CompletedLeaves | cpu_scheduling_algorithms_simulator.py:127-130 | the process that completes has zero remaining time and is in no container afterwards |
| Properties.WaitStepExactly | cpu_scheduling_algorithms_simulator.py:132-140 | the running process leaves the CPU in step 4 if and only if its wait start is non-zero and equals its elapsed time; it then joins the end of the wait queue with its wait duration; otherwise nothing changes |
| Properties.ReorderPreempts | cpu_scheduling_algorithms_simulator.py:142-169 | the running process is preempted in step 5 if and only if the policy is SRTF or PJF_P and some ready process has a strictly smaller remaining time (SRTF) or priority (PJF_P) |
| Properties.ReorderKeepsTies | cpu_scheduling_algorithms_simulator.py:144-159 | step 5 keeps the ready-queue order of processes with equal keys |
| Properties.ReorderHeadIsLeast | cpu_scheduling_algorithms_simulator.py:144-159 | after step 5 the head of the ready queue is a ready process with the least key |
| Properties.NonPreemptiveKeepsCpu | cpu_scheduling_algorithms_simulator.py:142-178 | under FCFS, SJF and PJF a running process keeps the CPU through steps 5 and 6 |
| Properties.ScheduleRunsLeast | cpu_scheduling_algorithms_simulator.py:142-178 | after steps 5 and 6 the CPU is busy whenever the ready queue was non-empty; a process newly given the CPU came from the ready queue, has the least key there, and the ready queue shrank by one if the CPU was idle (otherwise its length is unchanged, the preempted process having taken its place) |
| Properties.DispatchTakesHead | cpu_scheduling_algorithms_simulator.py:172-178 | an idle CPU takes the head of a non-empty ready queue, which loses exactly that head; otherwise nothing changes |
| Properties.TickChargesRunning | cpu_scheduling_algorithms_simulator.py:101-180 | over one second exactly the process on the CPU at its start loses one second of remaining time; every other record is unchanged |
| Properties.IdleTick | cpu_scheduling_algorithms_simulator.py:101-180 | with every queue empty and an idle CPU, a second changes nothing but the clock |

## Left out

- The timer thread (lines 68-79), thread creation (lines 64-66) and the pause/resume toggle (lines 88-95) exist only for real-time pacing and concurrency. One `Advance` call stands for each new second.
- `previous_second` (lines 59 and 180) only guards the busy loop. It is not modelled.
- All console output and the colour codes (lines 51-54 and every `print`), and `Process.__str__` (lines 25-35), are not modelled. `Advance` and `RunCurrent` return the id of the process that completed (line 129). The other reported events are not returned: admission to the ready queue (line 108), release from the wait queue (line 119), the move to the wait queue (line 138), preemption (lines 154 and 165) and dispatch with the current second (line 176). The new state shows each of them.
- The elapsed time printed on completion (line 129) is display only.
- The `Ui` class (lines 182-345) and the `__main__` block (lines 347-365) are Tkinter glue and configuration. The form's intended rules are the precondition of `AddProcess`.
- `Engine.Scheduler.AddProcess` demands a burst of at least one second. The form alerts only on a negative burst, and the engine never completes a zero-second burst, because its remaining time goes below zero and never equals zero.
- `Engine.Scheduler.AddProcess` does not require a positive priority. The form asks for one, but the engine only compares priorities.
- The containers hold process ids, and the process records live in one map. The model does not capture several names for one mutable `Process` object, beyond the single in-place decrement of the running process.
