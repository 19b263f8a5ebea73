/**
 * The process record of the simulator and the per-policy sort keys and
 * preemption test that the scheduler applies to it.
 */
module Processes {
  import opened Wrappers

  /** The five scheduling policies; one is fixed when the scheduler is built. */
  datatype Policy = FCFS | SJF | SRTF | PJF | PJF_P {
    /** PJF and PJF_P order the ready queue by priority. */
    predicate UsesPriority() { this == PJF || this == PJF_P }
    /** SRTF and PJF_P may take the CPU away from the running process. */
    predicate Preemptive() { this == SRTF || this == PJF_P }
  }

  /**
   * The single I/O interruption of a process: after `start` seconds of
   * running it leaves the CPU, and `duration` seconds later it is ready again.
   */
  datatype WaitWindow = WaitWindow(start: int, duration: int)

  /**
   * A simulated process. Only `remaining` changes after creation; `priority`
   * and `wait` are optional (Python `None`). `wait` holds both of the source's
   * start/end waiting times or neither.
   */
  datatype Process = Process(
    id: int,
    arrival: int,
    burst: int,
    remaining: int,
    priority: Option<int>,
    wait: Option<WaitWindow>)

  /** The processes the scheduler knows, by id (the heap of Process objects). */
  type Table = map<int, Process>

  /**
   * A freshly created process: its remaining time starts at its burst, so it
   * has used no CPU time and is not at a (truthy) wait point.
   */
  function NewProcess(id: int, arrival: int, burst: int, priority: Option<int>, wait: Option<WaitWindow>): (p: Process)
    ensures Elapsed(p) == 0 && !WaitsNow(p)
  {
    Process(id, arrival, burst, burst, priority, wait)
  }

  /**
   * A new process that meets the validity rules has time left to run, no
   * more than its burst, and can be ranked by the policy.
   */
  lemma NewProcessFits(policy: Policy, id: int, arrival: int, burst: int, priority: Option<int>, wait: Option<WaitWindow>)
    requires Admissible(policy, NewProcess(id, arrival, burst, priority, wait))
    ensures var p := NewProcess(id, arrival, burst, priority, wait);
      && p.id == id
      && 0 < p.remaining <= p.burst
      && HasKey(policy, p)
  {
  }

  /** CPU time the process has received so far. */
  function Elapsed(p: Process): int {
    p.burst - p.remaining
  }

  /**
   * The validity rules the input form means to enforce before a process is
   * submitted: a non-negative arrival, a positive burst, a priority under the
   * priority policies, and a wait window that starts before the burst ends
   * and lasts at least one second.
   */
  predicate Admissible(policy: Policy, p: Process) {
    && p.arrival >= 0
    && p.burst > 0
    && (policy.UsesPriority() ==> p.priority.Some?)
    && (p.wait.Some? ==> 0 <= p.wait.value.start < p.burst && p.wait.value.duration > 0)
  }

  /**
   * The running process leaves for the wait queue now: it declares a wait
   * whose start is truthy (a start of 0 counts as no wait) and has run for
   * exactly that many seconds.
   */
  predicate WaitsNow(p: Process) {
    p.wait.Some? && p.wait.value.start != 0 && p.wait.value.start == Elapsed(p)
  }

  /** The process can be ranked under the policy (a priority policy needs a priority). */
  predicate HasKey(policy: Policy, p: Process) {
    policy.UsesPriority() ==> p.priority.Some?
  }

  /** A sort key: ordered by `major`, ties broken by `minor`. */
  datatype Key = Key(major: int, minor: int)

  predicate KeyLe(a: Key, b: Key) {
    a.major < b.major || (a.major == b.major && a.minor <= b.minor)
  }

  predicate KeyLt(a: Key, b: Key) {
    a.major < b.major || (a.major == b.major && a.minor < b.minor)
  }

  /**
   * The key the ready queue is sorted by: arrival time for FCFS,
   * (remaining, arrival) for SJF and SRTF, (priority, arrival) for PJF and
   * PJF_P. FCFS has no second component; its `minor` is constant.
   */
  function KeyOf(policy: Policy, p: Process): Key
    requires HasKey(policy, p)
  {
    match policy
    case FCFS => Key(p.arrival, 0)
    case SJF | SRTF => Key(p.remaining, p.arrival)
    case PJF | PJF_P => Key(p.priority.value, p.arrival)
  }

  /**
   * Whether the head of the sorted ready queue takes the CPU from the
   * running process: only under a preemptive policy, and only when its
   * remaining time (SRTF) or priority (PJF_P) is strictly smaller.
   */
  function Preempts(policy: Policy, head: Process, running: Process): (r: bool)
    requires HasKey(policy, head) && HasKey(policy, running)
    ensures r <==> policy.Preemptive() && KeyOf(policy, head).major < KeyOf(policy, running).major
    ensures r ==> KeyLt(KeyOf(policy, head), KeyOf(policy, running))
  {
    match policy
    case SRTF => head.remaining < running.remaining
    case PJF_P => head.priority.value < running.priority.value
    case _ => false
  }
}
