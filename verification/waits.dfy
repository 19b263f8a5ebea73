/**
 * The wait queue: processes doing their I/O, each with the seconds it still
 * has to wait. Insertion order is kept, as in the Python dict it models,
 * because it is the order in which expired waits rejoin the ready queue.
 */
module Waits {
  import opened Sequences

  datatype Waiting = Waiting(pid: int, ticks: int)

  /** What one countdown leaves in the wait queue and what it releases to the ready queue. */
  datatype Expiry = Expiry(kept: seq<Waiting>, released: seq<int>)

  /** The ids in the wait queue, in order. */
  function Pids(ws: seq<Waiting>): (r: seq<int>)
    ensures |r| == |ws| && forall i | 0 <= i < |ws| :: r[i] == ws[i].pid
    decreases |ws|
  {
    if ws == [] then [] else [ws[0].pid] + Pids(ws[1..])
  }

  lemma PidsAppend(a: seq<Waiting>, b: seq<Waiting>)
    ensures Pids(a + b) == Pids(a) + Pids(b)
  {
    assert forall i | 0 <= i < |a + b| :: Pids(a + b)[i] == (Pids(a) + Pids(b))[i];
  }

  /**
   * One second of waiting: every counter drops by one; an entry that reaches
   * zero leaves the wait queue and its process is released, in queue order.
   */
  function Expire(ws: seq<Waiting>): Expiry
    decreases |ws|
  {
    if ws == [] then Expiry([], [])
    else
      var e := Expire(ws[1..]);
      var w := ws[0].(ticks := ws[0].ticks - 1);
      if w.ticks == 0 then Expiry(e.kept, [w.pid] + e.released)
      else Expiry([w] + e.kept, e.released)
  }

  /** The countdown keeps the wait-queue order both among the kept entries and among the released processes. */
  lemma {:induction false} ExpireKeepsOrder(ws: seq<Waiting>)
    ensures Interleaves(Pids(ws), Pids(Expire(ws).kept), Expire(ws).released)
    decreases |ws|
  {
    if ws != [] {
      var e := Expire(ws[1..]);
      var w := ws[0].(ticks := ws[0].ticks - 1);
      ExpireKeepsOrder(ws[1..]);
      assert Pids(ws)[1..] == Pids(ws[1..]);
      if w.ticks != 0 {
        assert Pids([w] + e.kept)[1..] == Pids(e.kept);
      }
    }
  }

  /** Every entry is either released (its counter was 1) or kept with its counter one lower. */
  lemma {:induction false} ExpireForward(ws: seq<Waiting>)
    ensures forall w | w in ws :: w.ticks == 1 ==> w.pid in Expire(ws).released
    ensures forall w | w in ws && w.ticks != 1 :: Waiting(w.pid, w.ticks - 1) in Expire(ws).kept
    decreases |ws|
  {
    if ws != [] {
      ExpireForward(ws[1..]);
      assert ws == [ws[0]] + ws[1..];
    }
  }

  /** Nothing is kept or released that was not in the wait queue with the matching counter. */
  lemma {:induction false} ExpireBackward(ws: seq<Waiting>)
    ensures forall w | w in Expire(ws).kept :: w.ticks != 0 && Waiting(w.pid, w.ticks + 1) in ws
    ensures forall pid | pid in Expire(ws).released :: Waiting(pid, 1) in ws
    decreases |ws|
  {
    if ws != [] {
      ExpireBackward(ws[1..]);
      assert ws == [ws[0]] + ws[1..];
    }
  }

  /** In a wait queue without repeated ids, an id names a single entry. */
  lemma DistinctPidsName(ws: seq<Waiting>, v: Waiting, w: Waiting)
    requires Distinct(Pids(ws)) && v in ws && w in ws && v.pid == w.pid
    ensures v == w
  {
    var i :| 0 <= i < |ws| && ws[i] == v;
    var j :| 0 <= j < |ws| && ws[j] == w;
    var ps := Pids(ws);
    assert ps[i] == v.pid && ps[j] == w.pid;
    assert i == j;
  }

  /**
   * The countdown entry by entry: an entry's process is released exactly
   * when its counter was 1; every other entry stays with its counter one
   * lower; and nothing else appears in either list.
   */
  lemma ExpireCountsDown(ws: seq<Waiting>)
    requires Distinct(Pids(ws))
    ensures forall w | w in ws :: w.ticks == 1 <==> w.pid in Expire(ws).released
    ensures forall w | w in ws && w.ticks != 1 :: Waiting(w.pid, w.ticks - 1) in Expire(ws).kept
    ensures forall w | w in Expire(ws).kept :: w.ticks != 0 && Waiting(w.pid, w.ticks + 1) in ws
    ensures forall pid | pid in Expire(ws).released :: Waiting(pid, 1) in ws
  {
    ExpireForward(ws);
    ExpireBackward(ws);
    forall w | w in ws && w.pid in Expire(ws).released
      ensures w.ticks == 1
    {
      DistinctPidsName(ws, w, Waiting(w.pid, 1));
    }
  }
}
