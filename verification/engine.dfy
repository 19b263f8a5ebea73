/**
 * The scheduler object. Its fields are the source's job queue, ready queue,
 * wait queue and running process, plus the process heap and the clock;
 * `Advance` is one pass of the scheduler's main loop body, run once for
 * every new value of the current second.
 */
module Engine {
  import opened Wrappers
  import opened Processes
  import opened Ordering
  import opened Arrivals
  import opened Waits
  import opened Ticks

  /** The first `i` elements of `s`, or all of it when `i` is past its end. */
  function Take(s: seq<int>, i: nat): seq<int> {
    if i <= |s| then s[..i] else s
  }

  /** What follows the first `i` elements of `s`. */
  function Drop(s: seq<int>, i: nat): seq<int> {
    if i <= |s| then s[i..] else []
  }

  /** An arrived job at index `i` with a job after it: the job after it is left in place. */
  lemma AdmitIterationPair(table: Table, jobs: seq<int>, i: nat, now: int)
    requires i + 1 < |jobs| && forall id | id in jobs :: id in table
    requires Arrived(table, jobs[i], now)
    ensures var after := jobs[..i] + jobs[i + 1..];
      && Take(after, i + 1) + Admit(table, Drop(after, i + 1), now).left
         == Take(jobs, i) + Admit(table, Drop(jobs, i), now).left
      && [jobs[i]] + Admit(table, Drop(after, i + 1), now).admitted
         == Admit(table, Drop(jobs, i), now).admitted
  {
    var after := jobs[..i] + jobs[i + 1..];
    var rest := jobs[i..];
    assert rest[0] == jobs[i] && rest[1] == jobs[i + 1] && rest[2..] == jobs[i + 2..];
    assert Take(after, i + 1) == jobs[..i] + [jobs[i + 1]];
    assert Drop(after, i + 1) == jobs[i + 2..];
  }

  /** An arrived job in the last place: it is admitted and the pass ends. */
  lemma AdmitIterationLast(table: Table, jobs: seq<int>, i: nat, now: int)
    requires i + 1 == |jobs| && forall id | id in jobs :: id in table
    requires Arrived(table, jobs[i], now)
    ensures var after := jobs[..i] + jobs[i + 1..];
      && Take(after, i + 1) + Admit(table, Drop(after, i + 1), now).left
         == Take(jobs, i) + Admit(table, Drop(jobs, i), now).left
      && [jobs[i]] + Admit(table, Drop(after, i + 1), now).admitted
         == Admit(table, Drop(jobs, i), now).admitted
  {
    assert jobs[..i] + jobs[i + 1..] == jobs[..i];
    assert jobs[i..] == [jobs[i]];
  }

  /** A job that has not arrived stays where it is. */
  lemma AdmitIterationStay(table: Table, jobs: seq<int>, i: nat, now: int)
    requires i < |jobs| && forall id | id in jobs :: id in table
    requires !Arrived(table, jobs[i], now)
    ensures Take(jobs, i + 1) + Admit(table, Drop(jobs, i + 1), now).left
         == Take(jobs, i) + Admit(table, Drop(jobs, i), now).left
    ensures Admit(table, Drop(jobs, i + 1), now).admitted == Admit(table, Drop(jobs, i), now).admitted
  {
    var rest := jobs[i..];
    assert rest[0] == jobs[i] && rest[1..] == jobs[i + 1..];
    assert jobs[..i + 1] == jobs[..i] + [jobs[i]];
  }

  lemma ExpireRelease(ws: seq<Waiting>, j: nat)
    requires j < |ws| && ws[j].ticks - 1 == 0
    ensures var after := ws[..j] + ws[j + 1..];
      && after[..j] + Expire(after[j..]).kept == ws[..j] + Expire(ws[j..]).kept
      && [ws[j].pid] + Expire(after[j..]).released == Expire(ws[j..]).released
  {
    var after := ws[..j] + ws[j + 1..];
    assert ws[j..][0] == ws[j] && ws[j..][1..] == ws[j + 1..];
    assert after[..j] == ws[..j] && after[j..] == ws[j + 1..];
  }

  lemma ExpireKeep(ws: seq<Waiting>, j: nat)
    requires j < |ws| && ws[j].ticks - 1 != 0
    ensures var after := ws[j := ws[j].(ticks := ws[j].ticks - 1)];
      && after[..j + 1] + Expire(after[j + 1..]).kept == ws[..j] + Expire(ws[j..]).kept
      && Expire(after[j + 1..]).released == Expire(ws[j..]).released
  {
    var w := ws[j].(ticks := ws[j].ticks - 1);
    var after := ws[j := w];
    assert ws[j..][0] == ws[j] && ws[j..][1..] == ws[j + 1..];
    assert after[..j + 1] == ws[..j] + [w];
    assert after[j + 1..] == ws[j + 1..];
  }

  /**
   * The admission loop: walks the job queue by index, moving every arrived
   * job to the end of the ready queue; the index advances even after a
   * removal, so the job that slid into the removed job's place is not looked
   * at in this pass.
   */
  method AdmitPass(table: Table, jobs: seq<int>, ready: seq<int>, now: int) returns (left: seq<int>, ready': seq<int>)
    requires forall id | id in jobs :: id in table
    ensures left == Admit(table, jobs, now).left
    ensures ready' == ready + Admit(table, jobs, now).admitted
  {
    ghost var a := Admit(table, jobs, now);
    left, ready' := jobs, ready;
    var i := 0;
    while i < |left|
      invariant 0 <= i <= |left| + 1
      invariant forall id | id in left :: id in table
      invariant Take(left, i) + Admit(table, Drop(left, i), now).left == a.left
      invariant ready' + Admit(table, Drop(left, i), now).admitted == ready + a.admitted
      decreases |left| - i
    {
      var id := left[i];
      if table[id].arrival <= now {
        if i + 1 < |left| {
          AdmitIterationPair(table, left, i, now);
        } else {
          AdmitIterationLast(table, left, i, now);
        }
        ready' := ready' + [id];
        left := left[..i] + left[i + 1..];
      } else {
        AdmitIterationStay(table, left, i, now);
      }
      i := i + 1;
    }
    assert Take(left, i) == left && Drop(left, i) == [];
  }

  /**
   * The wait-queue countdown: walks the entries in order, taking one second
   * off each; an entry that reaches zero is removed and its process appended
   * to the ready queue.
   */
  method ExpirePass(waits: seq<Waiting>, ready: seq<int>) returns (kept: seq<Waiting>, ready': seq<int>)
    ensures kept == Expire(waits).kept
    ensures ready' == ready + Expire(waits).released
  {
    ghost var e := Expire(waits);
    kept, ready' := waits, ready;
    var j := 0;
    while j < |kept|
      invariant 0 <= j <= |kept|
      invariant kept[..j] + Expire(kept[j..]).kept == e.kept
      invariant ready' + Expire(kept[j..]).released == ready + e.released
      decreases |kept| - j
    {
      if kept[j].ticks - 1 == 0 {
        ExpireRelease(kept, j);
      } else {
        ExpireKeep(kept, j);
      }
      kept := kept[j := kept[j].(ticks := kept[j].ticks - 1)];
      if kept[j].ticks == 0 {
        ready' := ready' + [kept[j].pid];
        kept := kept[..j] + kept[j + 1..];
      } else {
        j := j + 1;
      }
    }
    assert kept[j..] == [] && kept[..j] == kept;
  }

  class Scheduler {
    const policy: Policy
    /** The processes ever submitted, by id; stands for the Process objects on the heap. */
    var table: Table
    var jobQueue: seq<int>
    var readyQueue: seq<int>
    /** The waiting-queue dictionary, in insertion order: process id and seconds left. */
    var waitQueue: seq<Waiting>
    var current: Option<int>
    /** The current second; -1 until the timer starts. */
    var clock: int

    /** A read-only view of the scheduler's state. */
    function Snapshot(): State
      reads this
    {
      State(table, jobQueue, readyQueue, waitQueue, current, clock)
    }

    ghost predicate Valid()
      reads this
    {
      Inv(policy, Snapshot())
    }

    constructor (policy: Policy)
      ensures this.policy == policy && Valid()
      ensures Snapshot() == Initial()
    {
      this.policy := policy;
      table := map[];
      jobQueue := [];
      readyQueue := [];
      waitQueue := [];
      current := None;
      clock := -1;
    }

    /** Creates a process from the form's fields and appends it to the job queue. */
    method AddProcess(id: int, arrival: int, burst: int, priority: Option<int>, wait: Option<WaitWindow>)
      requires Valid() && id !in table
      requires Admissible(policy, NewProcess(id, arrival, burst, priority, wait))
      modifies this
      ensures Snapshot() == Submit(policy, old(Snapshot()), id, arrival, burst, priority, wait)
      ensures Valid()
    {
      var p := NewProcess(id, arrival, burst, priority, wait);
      table := table[id := p];
      jobQueue := jobQueue + [id];
    }

    /**
     * Step 1. Walks the job queue by index, moving every arrived job to the
     * ready queue; the index advances even after a removal, so the job that
     * slid into the removed job's place is not looked at in this pass.
     */
    method AdmitArrived()
      requires Valid()
      modifies this
      ensures Snapshot() == AdmitStep(policy, old(Snapshot()))
      ensures Valid()
    {
      AdmitStepMoves(policy, Snapshot());
      jobQueue, readyQueue := AdmitPass(table, jobQueue, readyQueue, clock);
    }

    /**
     * Step 2. Counts every wait down by one second, in queue order; an entry
     * that reaches zero is removed and its process appended to the ready queue.
     */
    method ReleaseWaiting()
      requires Valid()
      modifies this
      ensures Snapshot() == ExpireStep(policy, old(Snapshot()))
      ensures Valid()
    {
      ExpireStepMoves(policy, Snapshot());
      waitQueue, readyQueue := ExpirePass(waitQueue, readyQueue);
    }

    /** Step 3. The running process uses one second; at zero it has completed and leaves the CPU. */
    method RunCurrent() returns (finished: Option<int>)
      requires Valid()
      modifies this
      ensures Snapshot() == RunStep(old(Snapshot()))
      ensures Valid()
      ensures finished == Completing(old(Snapshot()))
    {
      ghost var s := Snapshot();
      RunKeepsInvariant(policy, s);
      finished := None;
      if current.Some? {
        var c := current.value;
        assert c in table by { assert Placed(policy, s); }
        table := table[c := table[c].(remaining := table[c].remaining - 1)];
        if table[c].remaining == 0 {
          finished := current;
          current := None;
        }
        assert Snapshot() == RunStep(s);
      }
    }

    /** Step 4. A running process whose truthy wait start equals its elapsed time moves to the wait queue. */
    method StartWaiting()
      requires Valid()
      modifies this
      ensures Snapshot() == WaitStep(policy, old(Snapshot()))
      ensures Valid()
    {
      if current.Some? {
        InvFacts(policy, Snapshot());
        var p := table[current.value];
        if p.wait.Some? && p.wait.value.start != 0 {
          if p.wait.value.start == p.burst - p.remaining {
            waitQueue := waitQueue + [Waiting(current.value, p.wait.value.duration)];
            current := None;
          }
        }
      }
    }

    /** Step 5. Sorts the ready queue by the policy's key and applies the preemption rule. */
    method Reorder()
      requires Valid() && readyQueue != []
      modifies this
      ensures Snapshot() == ReorderStep(policy, old(Snapshot()))
      ensures Valid()
    {
      InvFacts(policy, Snapshot());
      readyQueue := Sort(policy, table, readyQueue);
      if current.Some? && Preempts(policy, table[readyQueue[0]], table[current.value]) {
        readyQueue := readyQueue + [current.value];
        current := None;
      }
    }

    /** Step 6. An idle CPU takes the head of the ready queue. */
    method Dispatch()
      requires Valid() && readyQueue != []
      modifies this
      ensures Snapshot() == DispatchStep(policy, old(Snapshot()))
      ensures Valid()
    {
      if current.None? {
        current := Some(readyQueue[0]);
        readyQueue := readyQueue[1..];
      }
    }

    /**
     * One second: the timer moves the clock on, then steps 1 to 6 run in
     * order. Returns the process that completed in this second, if any.
     */
    method Advance() returns (finished: Option<int>)
      requires Valid()
      modifies this
      ensures Snapshot() == Tick(policy, old(Snapshot()))
      ensures Valid()
      ensures finished == Completing(old(Snapshot()))
    {
      ghost var start := Snapshot();
      clock := clock + 1;
      assert Snapshot() == NextSecond(policy, start);
      AdmitArrived();
      ReleaseWaiting();
      assert Completing(Snapshot()) == Completing(start);
      finished := RunCurrent();
      StartWaiting();
      assert Snapshot() == Settled(policy, start);
      if readyQueue != [] {
        Reorder();
        Dispatch();
      }
    }
  }
}
