/**
 * One second of the scheduler as a function on snapshots of its state. The
 * steps run in the source's fixed order: admission, wait countdown, CPU
 * time, voluntary wait, reorder and preemption, dispatch. Each step keeps
 * the invariant `Inv`, which includes "every live process is in exactly one
 * of the job queue, the ready queue, the wait queue and the CPU".
 */
module Ticks {
  import opened Wrappers
  import opened Processes
  import opened Sequences
  import opened Ordering
  import opened Arrivals
  import opened Waits

  /** A snapshot of the scheduler: the process heap, the four containers and the clock. */
  datatype State = State(
    table: Table,
    jobs: seq<int>,
    ready: seq<int>,
    waiting: seq<Waiting>,
    current: Option<int>,
    clock: int)

  /** The ids held by the containers, with multiplicity. */
  function Members(st: State): multiset<int> {
    multiset(st.jobs) + multiset(st.ready) + multiset(Pids(st.waiting)) + AsMultiset(st.current)
  }

  /** 1 for a known process that still has CPU time to run, 0 otherwise. */
  function Live(table: Table, id: int): nat {
    if id in table && table[id].remaining > 0 then 1 else 0
  }

  /** The process that finishes in the coming second: the running one, if it has one second left. */
  function Completing(st: State): Option<int> {
    if st.current.Some? && st.current.value in st.table && st.table[st.current.value].remaining == 1
    then st.current else None
  }

  /** Every known process is valid and has between none and all of its burst left. */
  ghost predicate TableOk(policy: Policy, table: Table) {
    forall id | id in table ::
      && table[id].id == id
      && Admissible(policy, table[id])
      && 0 <= table[id].remaining <= table[id].burst
  }

  /** A process with time left is in exactly one container; a finished one is in none. */
  ghost predicate Accounted(st: State) {
    forall id :: Members(st)[id] == Live(st.table, id)
  }

  /** Jobs have not run yet. */
  ghost predicate JobsUnrun(st: State) {
    forall id | id in st.jobs :: id in st.table && st.table[id].remaining == st.table[id].burst
  }

  /** A waiting process left the CPU at its wait point, and its counter is within its duration. */
  ghost predicate WaitsOk(st: State) {
    forall w | w in st.waiting ::
      && w.pid in st.table
      && WaitsNow(st.table[w.pid])
      && 1 <= w.ticks <= st.table[w.pid].wait.value.duration
  }

  /** The facts each step re-establishes directly. */
  ghost predicate Core(policy: Policy, st: State) {
    && st.clock >= -1
    && TableOk(policy, st.table)
    && Accounted(st)
    && JobsUnrun(st)
    && WaitsOk(st)
  }

  /** The ready processes and the running one are known and can be ranked by the policy. */
  ghost predicate Placed(policy: Policy, st: State) {
    && Ranked(policy, st.table, st.ready)
    && (st.current.Some? ==> st.current.value in st.table && HasKey(policy, st.table[st.current.value]))
  }

  ghost predicate Inv(policy: Policy, st: State) {
    Core(policy, st) && Placed(policy, st)
  }

  /** The state of a new scheduler, before the clock starts. */
  function Initial(): (st: State)
    ensures forall policy: Policy :: Inv(policy, st)
    ensures Members(st) == multiset{} && st.table == map[] && st.clock == -1
  {
    State(map[], [], [], [], None, -1)
  }

  lemma Located(policy: Policy, st: State, id: int)
    requires Core(policy, st) && id in Members(st)
    ensures id in st.table && st.table[id].remaining > 0 && Members(st)[id] == 1
  {
    assert Members(st)[id] == Live(st.table, id);
  }

  /** Every process in a container is known, so the ready queue and the CPU can be ranked. */
  lemma CorePlaced(policy: Policy, st: State)
    requires Core(policy, st)
    ensures Placed(policy, st)
  {
    forall id | id in st.ready
      ensures id in st.table && HasKey(policy, st.table[id])
    {
      assert id in multiset(st.ready);
      Located(policy, st, id);
    }
    if st.current.Some? {
      Located(policy, st, st.current.value);
    }
  }

  /** What the invariant says about the CPU. */
  lemma InvFacts(policy: Policy, st: State)
    requires Inv(policy, st)
    ensures st.current.Some? ==>
      && st.current.value in st.table
      && st.table[st.current.value].remaining > 0
      && st.current.value !in st.ready
      && st.current.value !in st.jobs
      && (forall w | w in st.waiting :: w.pid != st.current.value)
  {
    if st.current.Some? {
      var c := st.current.value;
      Located(policy, st, c);
      var m := Members(st);
      assert m[c] == multiset(st.jobs)[c] + multiset(st.ready)[c] + multiset(Pids(st.waiting))[c] + 1;
      assert c !in st.ready && c !in st.jobs && c !in Pids(st.waiting);
      forall w | w in st.waiting
        ensures w.pid != c
      {
        var k :| 0 <= k < |st.waiting| && st.waiting[k] == w;
        assert Pids(st.waiting)[k] == w.pid;
      }
    }
  }

  /** A step that only moves ids between containers (and never into the job queue or a new wait entry) keeps the invariant. */
  lemma InvTransfer(policy: Policy, st: State, r: State)
    requires Inv(policy, st)
    requires r.table == st.table && r.clock >= -1 && Members(r) == Members(st)
    requires forall id | id in r.jobs :: id in st.jobs
    requires forall w | w in r.waiting :: w in st.waiting
    ensures Inv(policy, r)
  {
    assert Core(policy, r);
    CorePlaced(policy, r);
  }

  /**
   * add_process: the form builds a new process from its fields and submits
   * it; a valid one is recorded and joins the end of the job queue.
   */
  function Submit(policy: Policy, st: State, id: int, arrival: int, burst: int,
                  priority: Option<int>, wait: Option<WaitWindow>): (r: State)
    requires Inv(policy, st) && id !in st.table
    requires Admissible(policy, NewProcess(id, arrival, burst, priority, wait))
    ensures Inv(policy, r)
    ensures Members(r) == Members(st) + multiset{id}
    ensures r == st.(table := st.table[id := NewProcess(id, arrival, burst, priority, wait)], jobs := st.jobs + [id])
  {
    var p := NewProcess(id, arrival, burst, priority, wait);
    NewProcessFits(policy, id, arrival, burst, priority, wait);
    var r := st.(table := st.table[id := p], jobs := st.jobs + [id]);
    SubmitKeepsInv(policy, st, p, r);
    r
  }

  lemma SubmitAccounted(policy: Policy, st: State, p: Process, r: State)
    requires Inv(policy, st) && p.id !in st.table && p.remaining > 0
    requires r == st.(table := st.table[p.id := p], jobs := st.jobs + [p.id])
    ensures Accounted(r) && Members(r) == Members(st) + multiset{p.id}
  {
    assert Members(r) == Members(st) + multiset{p.id};
    forall id
      ensures Members(r)[id] == Live(r.table, id)
    {
      assert Members(st)[id] == Live(st.table, id);
    }
  }

  lemma SubmitKeepsInv(policy: Policy, st: State, p: Process, r: State)
    requires Inv(policy, st) && p.id !in st.table
    requires Admissible(policy, p) && p.remaining == p.burst
    requires r == st.(table := st.table[p.id := p], jobs := st.jobs + [p.id])
    ensures Inv(policy, r) && Members(r) == Members(st) + multiset{p.id}
  {
    SubmitAccounted(policy, st, p, r);
    assert TableOk(policy, r.table);
    assert JobsUnrun(r);
    assert WaitsOk(r);
    CorePlaced(policy, r);
  }

  /** The timer moves to the next second. */
  function NextSecond(policy: Policy, st: State): (r: State)
    requires Inv(policy, st)
    ensures Inv(policy, r) && Members(r) == Members(st)
    ensures r == st.(clock := st.clock + 1)
  {
    var r := st.(clock := st.clock + 1);
    InvTransfer(policy, st, r);
    r
  }

  /** Step 1: one admission pass over the job queue at the current second. */
  function AdmitStep(policy: Policy, st: State): (r: State)
    requires Inv(policy, st)
    ensures Inv(policy, r) && Members(r) == Members(st)
    ensures r.table == st.table && r.waiting == st.waiting && r.current == st.current && r.clock == st.clock
  {
    var a := Admit(st.table, st.jobs, st.clock);
    var r := st.(jobs := a.left, ready := st.ready + a.admitted);
    AdmitConserves(st.table, st.jobs, st.clock);
    AdmitsArrived(st.table, st.jobs, st.clock);
    assert multiset(st.ready + a.admitted) == multiset(st.ready) + multiset(a.admitted);
    assert Members(r) == Members(st);
    assert forall id | id in a.left :: id in st.jobs by {
      forall id | id in a.left
        ensures id in st.jobs
      {
        assert id in multiset(a.left);
        assert id in multiset(st.jobs);
      }
    }
    InvTransfer(policy, st, r);
    r
  }

  lemma AdmitStepMoves(policy: Policy, st: State)
    requires Inv(policy, st)
    ensures var a := Admit(st.table, st.jobs, st.clock);
      AdmitStep(policy, st) == st.(jobs := a.left, ready := st.ready + a.admitted)
  {
  }

  /** Step 2: every wait counter drops by one; expired waits rejoin the ready queue. */
  function ExpireStep(policy: Policy, st: State): (r: State)
    requires Inv(policy, st)
    ensures Inv(policy, r) && Members(r) == Members(st)
    ensures r.table == st.table && r.jobs == st.jobs && r.current == st.current && r.clock == st.clock
  {
    var e := Expire(st.waiting);
    var r := st.(waiting := e.kept, ready := st.ready + e.released);
    ExpireKeepsOrder(st.waiting);
    InterleavesSplits(Pids(st.waiting), Pids(e.kept), e.released);
    ExpireBackward(st.waiting);
    assert Members(r) == Members(st);
    r
  }

  lemma ExpireStepMoves(policy: Policy, st: State)
    requires Inv(policy, st)
    ensures var e := Expire(st.waiting);
      ExpireStep(policy, st) == st.(waiting := e.kept, ready := st.ready + e.released)
  {
  }

  /**
   * Step 3: the running process uses one second; at zero it is done and
   * leaves the CPU. Exactly the running process loses a second, and the CPU
   * is cleared exactly when that process completes.
   */
  function RunStep(st: State): (r: State)
    requires st.current.Some? ==> st.current.value in st.table
    ensures r.jobs == st.jobs && r.ready == st.ready && r.waiting == st.waiting && r.clock == st.clock
    ensures r.table.Keys == st.table.Keys
    ensures r.current == if Completing(st).Some? then None else st.current
  {
    if st.current.None? then
      st
    else
      var c := st.current.value;
      var p := st.table[c].(remaining := st.table[c].remaining - 1);
      st.(table := st.table[c := p], current := if p.remaining == 0 then None else st.current)
  }

  /** Step 3 charges exactly the running process one second; every other record is unchanged. */
  lemma RunCharges(st: State)
    requires st.current.Some? ==> st.current.value in st.table
    ensures var r := RunStep(st);
      forall id | id in st.table ::
        r.table[id] == st.table[id].(remaining := st.table[id].remaining - (if st.current == Some(id) then 1 else 0))
  {
    if st.current.Some? {
      var c := st.current.value;
      ChargeOnly(st.table, c, st.table[c].(remaining := st.table[c].remaining - 1));
    }
  }

  /** Step 3 keeps the invariant; the containers lose exactly the process that completes, if any. */
  lemma RunKeepsInvariant(policy: Policy, st: State)
    requires Inv(policy, st)
    ensures Inv(policy, RunStep(st)) && Members(RunStep(st)) == Members(st) - AsMultiset(Completing(st))
  {
    if st.current.Some? {
      RunKeepsInv(policy, st, RunStep(st));
    }
  }

  /** Updating one record's remaining time leaves every other record as it was. */
  lemma ChargeOnly(table: Table, c: int, p: Process)
    requires c in table && p == table[c].(remaining := table[c].remaining - 1)
    ensures forall id | id in table ::
      table[c := p][id] == table[id].(remaining := table[id].remaining - (if c == id then 1 else 0))
  {
  }

  lemma RunAccounted(st: State, r: State)
    requires Accounted(st) && st.current.Some? && st.current.value in st.table
    requires st.table[st.current.value].remaining > 0
    requires var c := st.current.value;
      var p := st.table[c].(remaining := st.table[c].remaining - 1);
      r == st.(table := st.table[c := p], current := if p.remaining == 0 then None else st.current)
    ensures Accounted(r) && Members(r) == Members(st) - AsMultiset(Completing(st))
  {
    RunMembers(st, r);
    forall id
      ensures Members(r)[id] == Live(r.table, id)
    {
      RunLive(st, r, id, Members(st)[id]);
    }
  }

  /** One process's count after step 3, from its count before. */
  lemma RunLive(st: State, r: State, id: int, n: nat)
    requires st.current.Some? && st.current.value in st.table
    requires st.table[st.current.value].remaining > 0
    requires var c := st.current.value;
      var p := st.table[c].(remaining := st.table[c].remaining - 1);
      r == st.(table := st.table[c := p], current := if p.remaining == 0 then None else st.current)
    requires Members(r) == Members(st) - AsMultiset(Completing(st))
    requires n == Members(st)[id] == Live(st.table, id)
    ensures Members(r)[id] == Live(r.table, id)
  {
    var gone := AsMultiset(Completing(st));
    assert Members(r)[id] == n - gone[id];
    if id != st.current.value {
      assert gone[id] == 0;
      assert Live(r.table, id) == Live(st.table, id);
    }
  }

  /** The containers lose the running process if it completes, and nothing else. */
  lemma RunMembers(st: State, r: State)
    requires st.current.Some? && st.current.value in st.table
    requires var c := st.current.value;
      var p := st.table[c].(remaining := st.table[c].remaining - 1);
      r == st.(table := st.table[c := p], current := if p.remaining == 0 then None else st.current)
    ensures Members(r) == Members(st) - AsMultiset(Completing(st))
  {
  }

  lemma RunKeepsInv(policy: Policy, st: State, r: State)
    requires Inv(policy, st) && st.current.Some? && r == RunStep(st)
    ensures Inv(policy, r) && Members(r) == Members(st) - AsMultiset(Completing(st))
  {
    var c := st.current.value;
    var p := st.table[c].(remaining := st.table[c].remaining - 1);
    assert r == st.(table := st.table[c := p], current := if p.remaining == 0 then None else st.current);
    InvFacts(policy, st);
    assert Accounted(r) && Members(r) == Members(st) - AsMultiset(Completing(st)) by {
      RunAccounted(st, r);
    }
    RunKeepsRecords(policy, st, r);
    CorePlaced(policy, r);
  }

  /** Taking one second off the running process keeps every record well formed, and leaves jobs and waits alone. */
  lemma RunKeepsRecords(policy: Policy, st: State, r: State)
    requires TableOk(policy, st.table) && JobsUnrun(st) && WaitsOk(st)
    requires st.current.Some? && st.current.value in st.table && st.table[st.current.value].remaining > 0
    requires st.current.value !in st.jobs && (forall w | w in st.waiting :: w.pid != st.current.value)
    requires var c := st.current.value;
      var p := st.table[c].(remaining := st.table[c].remaining - 1);
      r == st.(table := st.table[c := p], current := if p.remaining == 0 then None else st.current)
    ensures TableOk(policy, r.table) && JobsUnrun(r) && WaitsOk(r)
  {
  }

  /** Step 4: a running process at its wait point moves to the wait queue for its declared duration. */
  function WaitStep(policy: Policy, st: State): (r: State)
    requires Inv(policy, st)
    ensures Inv(policy, r) && Members(r) == Members(st)
    ensures r.table == st.table && r.jobs == st.jobs && r.ready == st.ready && r.clock == st.clock
  {
    InvFacts(policy, st);
    if st.current.Some? && WaitsNow(st.table[st.current.value]) then
      var c := st.current.value;
      var r := st.(waiting := st.waiting + [Waiting(c, st.table[c].wait.value.duration)], current := None);
      WaitKeepsInv(policy, st, r);
      r
    else st
  }

  lemma WaitKeepsInv(policy: Policy, st: State, r: State)
    requires Inv(policy, st) && st.current.Some? && st.current.value in st.table
    requires WaitsNow(st.table[st.current.value])
    requires var c := st.current.value;
      r == st.(waiting := st.waiting + [Waiting(c, st.table[c].wait.value.duration)], current := None)
    ensures Inv(policy, r) && Members(r) == Members(st)
  {
    WaitAccounted(st, r);
    assert Admissible(policy, st.table[st.current.value]);
    WaitKeepsWaits(st, r);
    CorePlaced(policy, r);
  }

  lemma WaitAccounted(st: State, r: State)
    requires Accounted(st) && st.current.Some? && st.current.value in st.table
    requires st.table[st.current.value].wait.Some?
    requires var c := st.current.value;
      r == st.(waiting := st.waiting + [Waiting(c, st.table[c].wait.value.duration)], current := None)
    ensures Accounted(r) && Members(r) == Members(st)
  {
    var c := st.current.value;
    var w := Waiting(c, st.table[c].wait.value.duration);
    assert Members(r) == Members(st) by {
      PidsAppend(st.waiting, [w]);
      assert Pids([w]) == [c];
    }
    forall id
      ensures Members(r)[id] == Live(r.table, id)
    {
      assert Members(st)[id] == Live(st.table, id);
    }
  }

  lemma WaitKeepsWaits(st: State, r: State)
    requires WaitsOk(st) && st.current.Some? && st.current.value in st.table
    requires WaitsNow(st.table[st.current.value]) && st.table[st.current.value].wait.value.duration >= 1
    requires var c := st.current.value;
      r == st.(waiting := st.waiting + [Waiting(c, st.table[c].wait.value.duration)], current := None)
    ensures WaitsOk(r)
  {
    var c := st.current.value;
    var w := Waiting(c, st.table[c].wait.value.duration);
    forall v | v in r.waiting
      ensures v.pid in r.table && WaitsNow(r.table[v.pid]) && 1 <= v.ticks <= r.table[v.pid].wait.value.duration
    {
      if v != w {
        assert v in st.waiting;
      }
    }
  }

  /** The ready queue and the CPU slot, the part of the state that steps 5 and 6 change. */
  datatype Cpu = Cpu(ready: seq<int>, current: Option<int>)

  /**
   * Step 5 on the ready queue and the CPU slot: a stable sort by the
   * policy's key, then the preemption test against the sorted head. The
   * ready processes keep their relative order up to the key, and a
   * preempted process is appended after them, unsorted.
   */
  function Reorder(policy: Policy, table: Table, ready: seq<int>, current: Option<int>): (r: Cpu)
    requires Ranked(policy, table, ready) && ready != []
    requires current.Some? ==> current.value in table && HasKey(policy, table[current.value])
    ensures |ready| <= |r.ready| && multiset(r.ready[..|ready|]) == multiset(ready)
    ensures Ranked(policy, table, r.ready[..|ready|]) && SortedBy(policy, table, r.ready[..|ready|])
    ensures r.current == current ==> r.ready == r.ready[..|ready|]
    ensures r.current != current ==> r.current.None? && r.ready == r.ready[..|ready|] + [current.value]
  {
    var sorted := Sort(policy, table, ready);
    if current.Some? && Preempts(policy, table[sorted[0]], table[current.value]) then
      var r := Cpu(sorted + [current.value], None);
      assert r.ready[..|ready|] == sorted;
      r
    else
      assert sorted[..|ready|] == sorted;
      Cpu(sorted, current)
  }

  /** Step 5: sort the ready queue by the policy's key; a preempted process goes to its end, unsorted. */
  function ReorderStep(policy: Policy, st: State): (r: State)
    requires Inv(policy, st) && st.ready != []
    ensures Inv(policy, r) && Members(r) == Members(st) && r.ready != []
    ensures r.table == st.table && r.jobs == st.jobs && r.waiting == st.waiting && r.clock == st.clock
    ensures r.ready == Reorder(policy, st.table, st.ready, st.current).ready
    ensures r.current == Reorder(policy, st.table, st.ready, st.current).current
  {
    InvFacts(policy, st);
    var o := Reorder(policy, st.table, st.ready, st.current);
    var r := st.(ready := o.ready, current := o.current);
    assert multiset(o.ready) + AsMultiset(o.current) == multiset(st.ready) + AsMultiset(st.current) by {
      if o.current != st.current {
        assert o.ready == o.ready[..|st.ready|] + [st.current.value];
      } else {
        assert o.ready == o.ready[..|st.ready|];
      }
    }
    assert Members(r) == Members(st);
    InvTransfer(policy, st, r);
    r
  }

  /** Step 6: an idle CPU takes the head of the ready queue. */
  function DispatchStep(policy: Policy, st: State): (r: State)
    requires Inv(policy, st)
    ensures Inv(policy, r) && Members(r) == Members(st)
    ensures r.table == st.table && r.jobs == st.jobs && r.waiting == st.waiting && r.clock == st.clock
  {
    if st.current.None? && st.ready != [] then
      var r := st.(current := Some(st.ready[0]), ready := st.ready[1..]);
      DispatchMembers(st, r);
      InvTransfer(policy, st, r);
      r
    else st
  }

  /** Moving the head of the ready queue to an idle CPU keeps the same members. */
  lemma DispatchMembers(st: State, r: State)
    requires st.current.None? && st.ready != []
    requires r == st.(current := Some(st.ready[0]), ready := st.ready[1..])
    ensures Members(r) == Members(st)
  {
    assert st.ready == [st.ready[0]] + st.ready[1..];
  }

  /** Steps 5 and 6, which the scheduler runs only when the ready queue is not empty. */
  function ScheduleStep(policy: Policy, st: State): (r: State)
    requires Inv(policy, st)
    ensures Inv(policy, r) && Members(r) == Members(st)
    ensures r.table == st.table && r.jobs == st.jobs && r.waiting == st.waiting && r.clock == st.clock
  {
    if st.ready == [] then st else DispatchStep(policy, ReorderStep(policy, st))
  }

  /** The state after steps 1 to 4 of the second that starts at `st`. */
  function Settled(policy: Policy, st: State): (r: State)
    requires Inv(policy, st)
    ensures Inv(policy, r) && Members(r) == Members(st) - AsMultiset(Completing(st))
    ensures r.clock == st.clock + 1 && r.table.Keys == st.table.Keys
  {
    var s1 := AdmitStep(policy, NextSecond(policy, st));
    var s2 := ExpireStep(policy, s1);
    assert Completing(s2) == Completing(st);
    RunKeepsInvariant(policy, s2);
    WaitStep(policy, RunStep(s2))
  }

  /**
   * One second of simulated time. Over a tick nothing enters or leaves the
   * containers except the process that completes, and the invariant holds.
   */
  function Tick(policy: Policy, st: State): (r: State)
    requires Inv(policy, st)
    ensures Inv(policy, r)
    ensures Members(r) == Members(st) - AsMultiset(Completing(st))
    ensures r.clock == st.clock + 1 && r.table.Keys == st.table.Keys
  {
    ScheduleStep(policy, Settled(policy, st))
  }
}
