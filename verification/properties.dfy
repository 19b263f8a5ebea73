/**
 * What one second of the scheduler does, stated step by step and for the
 * whole second: who loses CPU time, when the CPU is handed over and to whom,
 * and where a process can be.
 */
module Properties {
  import opened Wrappers
  import opened Processes
  import opened Ordering
  import opened Waits
  import opened Ticks

  /** No process is in two containers at once. */
  lemma NoProcessTwice(policy: Policy, st: State, id: int)
    requires Inv(policy, st)
    ensures id in st.jobs ==> id !in st.ready && id !in Pids(st.waiting) && st.current != Some(id)
    ensures id in st.ready ==> id !in Pids(st.waiting) && st.current != Some(id)
    ensures id in Pids(st.waiting) ==> st.current != Some(id)
  {
    assert Members(st)[id] == Live(st.table, id);
    assert Members(st)[id] == multiset(st.jobs)[id] + multiset(st.ready)[id]
      + multiset(Pids(st.waiting))[id] + AsMultiset(st.current)[id];
  }

  /** A process with no time left is in no container. */
  lemma FinishedIsNowhere(policy: Policy, st: State, id: int)
    requires Inv(policy, st) && id in st.table && st.table[id].remaining == 0
    ensures id !in st.jobs && id !in st.ready && id !in Pids(st.waiting) && st.current != Some(id)
  {
    assert Members(st)[id] == 0;
    assert Members(st)[id] == multiset(st.jobs)[id] + multiset(st.ready)[id]
      + multiset(Pids(st.waiting))[id] + AsMultiset(st.current)[id];
  }

  /** The process that completes in a second is in no container afterwards. */
  lemma CompletedLeaves(policy: Policy, st: State)
    requires Inv(policy, st) && Completing(st).Some?
    ensures var r := RunStep(st); var c := Completing(st).value;
      && r.table[c].remaining == 0
      && c !in r.jobs && c !in r.ready && c !in Pids(r.waiting) && r.current != Some(c)
  {
    var r := RunStep(st);
    var c := Completing(st).value;
    RunKeepsInvariant(policy, st);
    FinishedIsNowhere(policy, r, c);
  }

  /**
   * Step 4: the running process leaves the CPU for the wait queue, with its
   * declared wait duration, if and only if it has a (non-zero) wait start
   * equal to its elapsed CPU time; otherwise nothing changes.
   */
  lemma WaitStepExactly(policy: Policy, st: State)
    requires Inv(policy, st)
    ensures var r := WaitStep(policy, st);
      && (r.current != st.current <==> st.current.Some? && WaitsNow(st.table[st.current.value]))
      && (r.current != st.current ==>
            var c := st.current.value;
            && r.current.None?
            && r.waiting == st.waiting + [Waiting(c, st.table[c].wait.value.duration)]
            && 0 < st.table[c].wait.value.start == st.table[c].burst - st.table[c].remaining)
      && (r.current == st.current ==> r == st)
  {
    InvFacts(policy, st);
  }

  /**
   * Step 5: the running process is preempted if and only if the policy is
   * preemptive and some ready process has a strictly smaller primary key
   * (remaining time under SRTF, priority under PJF_P) than the running one.
   */
  lemma ReorderPreempts(policy: Policy, table: Table, ready: seq<int>, current: Option<int>)
    requires Ranked(policy, table, ready) && ready != []
    requires current.Some? ==> current.value in table && HasKey(policy, table[current.value])
    ensures Reorder(policy, table, ready, current).current != current <==>
      && current.Some?
      && policy.Preemptive()
      && exists id | id in ready :: KeyOf(policy, table[id]).major < KeyOf(policy, table[current.value]).major
  {
    var sorted := Sort(policy, table, ready);
    if current.Some? {
      var head := sorted[0];
      assert head in multiset(ready);
      SortedHeadIsLeast(policy, table, sorted);
      forall id | id in ready
        ensures KeyOf(policy, table[head]).major <= KeyOf(policy, table[id]).major
      {
        assert id in multiset(sorted);
      }
    }
  }

  /** Step 5 keeps the order of ready processes whose keys are equal, as Python's stable sort does. */
  lemma ReorderKeepsTies(policy: Policy, table: Table, ready: seq<int>, current: Option<int>, k: Key)
    requires Ranked(policy, table, ready) && ready != []
    requires current.Some? ==> current.value in table && HasKey(policy, table[current.value])
    ensures var r := Reorder(policy, table, ready, current);
      WithKey(policy, table, r.ready[..|ready|], k) == WithKey(policy, table, ready, k)
  {
    var r := Reorder(policy, table, ready, current);
    assert r.ready[..|ready|] == Sort(policy, table, ready);
    SortStable(policy, table, ready, k);
  }

  /** FCFS, SJF and PJF never take the CPU away from a running process. */
  lemma NonPreemptiveKeepsCpu(policy: Policy, st: State)
    requires Inv(policy, st) && !policy.Preemptive() && st.current.Some?
    ensures ScheduleStep(policy, st).current == st.current
  {
    if st.ready != [] {
      ReorderPreempts(policy, st.table, st.ready, st.current);
    }
  }

  /**
   * Steps 5 and 6 together: whenever a process is ready the CPU ends up
   * busy, and a process newly given the CPU has the least key of the ready
   * queue.
   */
  lemma ScheduleRunsLeast(policy: Policy, st: State)
    requires Inv(policy, st)
    ensures var r := ScheduleStep(policy, st);
      && (st.ready != [] ==> r.current.Some?)
      && (r.current != st.current ==>
            && r.current.Some?
            && r.current.value in st.ready
            && |r.ready| == |st.ready| - (if st.current.Some? then 0 else 1)
            && forall id | id in st.ready ::
                 KeyLe(Rank(policy, st.table, r.current.value), Rank(policy, st.table, id)))
  {
    if st.ready != [] {
      var o := Reorder(policy, st.table, st.ready, st.current);
      var s1 := ReorderStep(policy, st);
      assert s1.ready == o.ready && s1.current == o.current && s1.table == st.table;
      ReorderHeadIsLeast(policy, st.table, st.ready, st.current);
    }
  }

  /** After step 5 the head of the ready queue is a ready process of least key. */
  lemma ReorderHeadIsLeast(policy: Policy, table: Table, ready: seq<int>, current: Option<int>)
    requires Ranked(policy, table, ready) && ready != []
    requires current.Some? ==> current.value in table && HasKey(policy, table[current.value])
    ensures var head := Reorder(policy, table, ready, current).ready[0];
      && head in ready
      && forall id | id in ready :: KeyLe(Rank(policy, table, head), Rank(policy, table, id))
  {
    var sorted := Reorder(policy, table, ready, current).ready[..|ready|];
    assert sorted[0] in multiset(ready);
    SortedHeadIsLeast(policy, table, sorted);
    forall id | id in ready
      ensures KeyLe(Rank(policy, table, sorted[0]), Rank(policy, table, id))
    {
      assert id in multiset(sorted);
    }
  }

  /** Step 6 on its own: an idle CPU takes the head of the ready queue and the queue loses exactly that head. */
  lemma DispatchTakesHead(policy: Policy, st: State)
    requires Inv(policy, st)
    ensures var r := DispatchStep(policy, st);
      && (st.current.None? && st.ready != [] ==>
            && r.current == Some(st.ready[0])
            && |r.ready| == |st.ready| - 1
            && [st.ready[0]] + r.ready == st.ready)
      && (st.current.Some? || st.ready == [] ==> r == st)
  {
  }

  /**
   * Over a whole second, exactly the process that held the CPU at the start
   * of it loses one second of remaining time; every other record is unchanged.
   */
  lemma TickChargesRunning(policy: Policy, st: State)
    requires Inv(policy, st)
    ensures var r := Tick(policy, st);
      forall id | id in st.table ::
        r.table[id] == st.table[id].(remaining := st.table[id].remaining - (if st.current == Some(id) then 1 else 0))
  {
    var s1 := AdmitStep(policy, NextSecond(policy, st));
    var s2 := ExpireStep(policy, s1);
  }

  /** An idle scheduler with nothing submitted-but-unfinished only moves its clock. */
  lemma IdleTick(policy: Policy, st: State)
    requires Inv(policy, st)
    requires st.jobs == [] && st.ready == [] && st.waiting == [] && st.current.None?
    ensures Tick(policy, st) == st.(clock := st.clock + 1)
  {
    var s0 := NextSecond(policy, st);
    AdmitStepMoves(policy, s0);
    var s1 := AdmitStep(policy, s0);
    ExpireStepMoves(policy, s1);
  }
}
