/**
 * Admission from the job queue to the ready queue. The scheduler walks the
 * job queue with a list iterator while removing the jobs it admits, so the
 * job right after an admitted one is skipped in that pass. `Admit` describes
 * the outcome of one pass directly.
 */
module Arrivals {
  import opened Processes
  import opened Sequences

  /** The jobs left in the job queue and the jobs admitted, each in queue order. */
  datatype Admission = Admission(left: seq<int>, admitted: seq<int>)

  predicate Arrived(table: Table, id: int, now: int)
    requires id in table
  {
    table[id].arrival <= now
  }

  /**
   * One admission pass at second `now`: an arrived job is admitted, and then
   * the job after it stays where it is whatever its arrival time.
   */
  function Admit(table: Table, jobs: seq<int>, now: int): Admission
    requires forall id | id in jobs :: id in table
    decreases |jobs|
  {
    if jobs == [] then Admission([], [])
    else if Arrived(table, jobs[0], now) then
      if |jobs| == 1 then Admission([], [jobs[0]])
      else
        var a := Admit(table, jobs[2..], now);
        Admission([jobs[1]] + a.left, [jobs[0]] + a.admitted)
    else
      var a := Admit(table, jobs[1..], now);
      Admission([jobs[0]] + a.left, a.admitted)
  }

  /** A pass admits only jobs of the queue that have arrived. */
  lemma {:induction false} AdmitsArrived(table: Table, jobs: seq<int>, now: int)
    requires forall id | id in jobs :: id in table
    ensures forall id | id in Admit(table, jobs, now).admitted :: id in jobs && Arrived(table, id, now)
    decreases |jobs|
  {
    if jobs == [] {
    } else if Arrived(table, jobs[0], now) {
      if |jobs| > 1 {
        AdmitsArrived(table, jobs[2..], now);
        forall id | id in jobs[2..] ensures id in jobs {
          assert id in jobs[1..][1..];
        }
      }
    } else {
      AdmitsArrived(table, jobs[1..], now);
    }
  }

  /** Both the jobs left behind and the jobs admitted keep their job-queue order. */
  lemma {:induction false} AdmitKeepsOrder(table: Table, jobs: seq<int>, now: int)
    requires forall id | id in jobs :: id in table
    ensures Interleaves(jobs, Admit(table, jobs, now).left, Admit(table, jobs, now).admitted)
    decreases |jobs|
  {
    var a := Admit(table, jobs, now);
    if jobs == [] {
    } else if Arrived(table, jobs[0], now) {
      if |jobs| == 1 {
        assert jobs[1..] == [] && a.admitted[1..] == [];
      } else {
        var b := Admit(table, jobs[2..], now);
        AdmitKeepsOrder(table, jobs[2..], now);
        assert jobs[1..][1..] == jobs[2..];
        assert a.admitted[1..] == b.admitted && a.left[1..] == b.left;
        assert Interleaves(jobs[1..], a.left, b.admitted);
      }
    } else {
      var b := Admit(table, jobs[1..], now);
      AdmitKeepsOrder(table, jobs[1..], now);
      assert a.left[1..] == b.left;
    }
  }

  /** A pass loses no job and gains none. */
  lemma AdmitConserves(table: Table, jobs: seq<int>, now: int)
    requires forall id | id in jobs :: id in table
    ensures multiset(Admit(table, jobs, now).left) + multiset(Admit(table, jobs, now).admitted) == multiset(jobs)
  {
    AdmitKeepsOrder(table, jobs, now);
    InterleavesSplits(jobs, Admit(table, jobs, now).left, Admit(table, jobs, now).admitted);
  }

  /**
   * Exactly which jobs one pass admits: the job at position `i` is admitted
   * if and only if it has arrived and the job just before it was not admitted
   * in the same pass.
   */
  lemma {:induction false} AdmitPositions(table: Table, jobs: seq<int>, now: int, i: int)
    requires forall id | id in jobs :: id in table
    requires Distinct(jobs) && 0 <= i < |jobs|
    ensures jobs[i] in Admit(table, jobs, now).admitted
        <==> Arrived(table, jobs[i], now) && (i == 0 || jobs[i - 1] !in Admit(table, jobs, now).admitted)
    decreases |jobs|
  {
    var a := Admit(table, jobs, now);
    DistinctTail(jobs);
    if Arrived(table, jobs[0], now) && |jobs| > 1 {
      var t := jobs[2..];
      DistinctTail(jobs[1..]);
      assert jobs[1..][1..] == t;
      var b := Admit(table, t, now);
      AdmitsArrived(table, t, now);
      assert jobs[1] !in b.admitted;
      if i >= 2 {
        assert jobs[i] == t[i - 2];
        assert jobs[i] != jobs[0];
        AdmitPositions(table, t, now, i - 2);
        if i > 2 {
          assert jobs[i - 1] == t[i - 3];
          assert jobs[i - 1] != jobs[0];
        }
      }
    } else if !Arrived(table, jobs[0], now) {
      var t := jobs[1..];
      var b := Admit(table, t, now);
      AdmitsArrived(table, t, now);
      assert jobs[0] !in b.admitted;
      if i >= 1 {
        assert jobs[i] == t[i - 1];
        AdmitPositions(table, t, now, i - 1);
        if i > 1 {
          assert jobs[i - 1] == t[i - 2];
        }
      }
    }
  }

  /** If any job has arrived, a pass admits the first arrived job in the queue, ahead of any other. */
  lemma {:induction false} AdmitsFirstArrival(table: Table, jobs: seq<int>, now: int, i: int)
    requires forall id | id in jobs :: id in table
    requires 0 <= i < |jobs| && Arrived(table, jobs[i], now)
    requires forall j | 0 <= j < i :: !Arrived(table, jobs[j], now)
    ensures Admit(table, jobs, now).admitted != [] && Admit(table, jobs, now).admitted[0] == jobs[i]
    decreases i
  {
    if i > 0 {
      assert forall j | 0 <= j < i - 1 :: jobs[1..][j] == jobs[j + 1];
      AdmitsFirstArrival(table, jobs[1..], now, i - 1);
    }
  }

  /** How many jobs of the queue are known processes that have arrived by second `now`. */
  function ArrivedCount(table: Table, jobs: seq<int>, now: int): nat
    decreases |jobs|
  {
    if jobs == [] then 0
    else (if jobs[0] in table && Arrived(table, jobs[0], now) then 1 else 0) + ArrivedCount(table, jobs[1..], now)
  }

  /** Every admitted job had arrived: the arrived jobs left are the arrived jobs before, less those admitted. */
  lemma {:induction false} AdmitCounts(table: Table, jobs: seq<int>, now: int)
    requires forall id | id in jobs :: id in table
    ensures var a := Admit(table, jobs, now);
      ArrivedCount(table, a.left, now) + |a.admitted| == ArrivedCount(table, jobs, now)
    decreases |jobs|
  {
    if jobs != [] {
      if Arrived(table, jobs[0], now) {
        if |jobs| > 1 {
          var b := Admit(table, jobs[2..], now);
          AdmitCounts(table, jobs[2..], now);
          assert jobs[1..][1..] == jobs[2..];
          assert ([jobs[1]] + b.left)[1..] == b.left;
        }
      } else {
        AdmitCounts(table, jobs[1..], now);
        var b := Admit(table, jobs[1..], now);
        assert ([jobs[0]] + b.left)[1..] == b.left;
      }
    }
  }

  /**
   * Progress despite the skip: while some job in the queue has arrived, a
   * pass admits at least one, so the number of arrived jobs still waiting
   * strictly drops and every skipped job is admitted by a later pass.
   */
  lemma {:induction false} AdmitProgress(table: Table, jobs: seq<int>, now: int)
    requires forall id | id in jobs :: id in table
    requires ArrivedCount(table, jobs, now) > 0
    ensures Admit(table, jobs, now).admitted != []
    ensures ArrivedCount(table, Admit(table, jobs, now).left, now) < ArrivedCount(table, jobs, now)
    decreases |jobs|
  {
    AdmitCounts(table, jobs, now);
    if !Arrived(table, jobs[0], now) {
      AdmitProgress(table, jobs[1..], now);
    }
  }

  /**
   * The skip, on the smallest input that shows it: of two jobs that have
   * both arrived, one pass admits only the first.
   */
  lemma AdmitSkipsNext(table: Table, x: int, y: int, now: int)
    requires x in table && y in table && Arrived(table, x, now) && Arrived(table, y, now)
    ensures Admit(table, [x, y], now) == Admission([y], [x])
  {
    assert [x, y][2..] == [];
  }
}
