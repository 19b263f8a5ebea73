/**
 * The ready-queue order: a stable sort of process ids by the policy's key,
 * standing for Python's `sorted(..., key=...)`.
 */
module Ordering {
  import opened Processes
  import opened Sequences

  /** Every id in `s` is a known process that the policy can rank. */
  predicate Ranked(policy: Policy, table: Table, s: seq<int>) {
    forall id | id in s :: id in table && HasKey(policy, table[id])
  }

  function Rank(policy: Policy, table: Table, id: int): Key
    requires id in table && HasKey(policy, table[id])
  {
    KeyOf(policy, table[id])
  }

  /** Keys never decrease along `s`. */
  predicate SortedBy(policy: Policy, table: Table, s: seq<int>)
    requires Ranked(policy, table, s)
  {
    forall i, j | 0 <= i < j < |s| :: KeyLe(Rank(policy, table, s[i]), Rank(policy, table, s[j]))
  }

  /** The ids of `s` whose key is `k`, in their order in `s`. */
  function WithKey(policy: Policy, table: Table, s: seq<int>, k: Key): seq<int>
    requires Ranked(policy, table, s)
    decreases |s|
  {
    if s == [] then []
    else (if Rank(policy, table, s[0]) == k then [s[0]] else []) + WithKey(policy, table, s[1..], k)
  }

  /** Puts `x` in front of the first element whose key is not smaller than its own. */
  function Insert(policy: Policy, table: Table, x: int, s: seq<int>): (r: seq<int>)
    requires Ranked(policy, table, s) && x in table && HasKey(policy, table[x])
    ensures multiset(r) == multiset(s) + multiset{x}
    ensures Ranked(policy, table, r)
    decreases |s|
  {
    if s == [] then [x]
    else if KeyLe(Rank(policy, table, x), Rank(policy, table, s[0])) then [x] + s
    else
      assert s == [s[0]] + s[1..];
      [s[0]] + Insert(policy, table, x, s[1..])
  }

  /** Stable insertion sort by the policy's key: a sorted permutation of `s`. */
  function Sort(policy: Policy, table: Table, s: seq<int>): (r: seq<int>)
    requires Ranked(policy, table, s)
    ensures multiset(r) == multiset(s) && |r| == |s|
    ensures Ranked(policy, table, r) && SortedBy(policy, table, r)
    decreases |s|
  {
    if s == [] then []
    else
      assert s == [s[0]] + s[1..];
      var t := Sort(policy, table, s[1..]);
      InsertSorted(policy, table, s[0], t);
      Insert(policy, table, s[0], t)
  }

  /** The head of a sorted sequence has the smallest key in it. */
  lemma SortedHeadIsLeast(policy: Policy, table: Table, s: seq<int>)
    requires Ranked(policy, table, s) && SortedBy(policy, table, s) && s != []
    ensures forall id | id in s :: KeyLe(Rank(policy, table, s[0]), Rank(policy, table, id))
  {
    forall id | id in s
      ensures KeyLe(Rank(policy, table, s[0]), Rank(policy, table, id))
    {
      var k :| 0 <= k < |s| && s[k] == id;
      if k > 0 {
        assert KeyLe(Rank(policy, table, s[0]), Rank(policy, table, s[k]));
      }
    }
  }

  lemma SortedTail(policy: Policy, table: Table, s: seq<int>)
    requires Ranked(policy, table, s) && SortedBy(policy, table, s) && s != []
    ensures Ranked(policy, table, s[1..]) && SortedBy(policy, table, s[1..])
  {
    assert forall i | 0 <= i < |s[1..]| :: s[1..][i] == s[i + 1];
  }

  /** Putting an element no larger than all of a sorted sequence in front keeps it sorted. */
  lemma SortedCons(policy: Policy, table: Table, x: int, s: seq<int>)
    requires Ranked(policy, table, s) && x in table && HasKey(policy, table[x])
    requires SortedBy(policy, table, s)
    requires forall e | e in s :: KeyLe(Rank(policy, table, x), Rank(policy, table, e))
    ensures Ranked(policy, table, [x] + s) && SortedBy(policy, table, [x] + s)
  {
    var r := [x] + s;
    forall i, j | 0 <= i < j < |r|
      ensures KeyLe(Rank(policy, table, r[i]), Rank(policy, table, r[j]))
    {
      assert r[j] == s[j - 1];
      if i > 0 {
        assert r[i] == s[i - 1];
      }
    }
  }

  /** Inserting into a sorted sequence keeps it sorted. */
  lemma {:induction false} InsertSorted(policy: Policy, table: Table, x: int, s: seq<int>)
    requires Ranked(policy, table, s) && x in table && HasKey(policy, table[x])
    requires SortedBy(policy, table, s)
    ensures SortedBy(policy, table, Insert(policy, table, x, s))
    decreases |s|
  {
    if s == [] {
    } else if KeyLe(Rank(policy, table, x), Rank(policy, table, s[0])) {
      SortedHeadIsLeast(policy, table, s);
      SortedCons(policy, table, x, s);
    } else {
      var rest := Insert(policy, table, x, s[1..]);
      SortedTail(policy, table, s);
      InsertSorted(policy, table, x, s[1..]);
      SortedHeadIsLeast(policy, table, s);
      forall e | e in rest
        ensures KeyLe(Rank(policy, table, s[0]), Rank(policy, table, e))
      {
        assert e in multiset(rest);
        if e != x {
          assert e in multiset(s[1..]);
          assert e in s;
        }
      }
      SortedCons(policy, table, s[0], rest);
    }
  }

  lemma WithKeyCons(policy: Policy, table: Table, x: int, s: seq<int>, k: Key)
    requires Ranked(policy, table, [x] + s)
    ensures Ranked(policy, table, s)
    ensures WithKey(policy, table, [x] + s, k)
         == (if Rank(policy, table, x) == k then [x] else []) + WithKey(policy, table, s, k)
  {
    assert ([x] + s)[1..] == s;
  }

  /** Inserting `x` adds it to the group of its key ahead of the equal-key elements already there. */
  lemma {:induction false} InsertWithKey(policy: Policy, table: Table, x: int, s: seq<int>, k: Key)
    requires Ranked(policy, table, s) && x in table && HasKey(policy, table[x])
    ensures WithKey(policy, table, Insert(policy, table, x, s), k)
         == (if Rank(policy, table, x) == k then [x] else []) + WithKey(policy, table, s, k)
    decreases |s|
  {
    if s == [] || KeyLe(Rank(policy, table, x), Rank(policy, table, s[0])) {
      WithKeyCons(policy, table, x, s, k);
    } else {
      var rest := Insert(policy, table, x, s[1..]);
      var head := if Rank(policy, table, s[0]) == k then [s[0]] else [];
      var mine := if Rank(policy, table, x) == k then [x] else [];
      assert head == [] || mine == [];
      assert Ranked(policy, table, s[1..]);
      assert Insert(policy, table, x, s) == [s[0]] + rest;
      assert [s[0]] + s[1..] == s;
      calc {
        WithKey(policy, table, Insert(policy, table, x, s), k);
        { WithKeyCons(policy, table, s[0], rest, k); }
        head + WithKey(policy, table, rest, k);
        { InsertWithKey(policy, table, x, s[1..], k); }
        head + (mine + WithKey(policy, table, s[1..], k));
        { PrefixesCommute(head, mine, WithKey(policy, table, s[1..], k)); }
        mine + (head + WithKey(policy, table, s[1..], k));
        { WithKeyCons(policy, table, s[0], s[1..], k); }
        mine + WithKey(policy, table, s, k);
      }
    }
  }

  /**
   * The sort is stable: for every key, the elements with that key come out
   * in the order they went in.
   */
  lemma {:induction false} SortStable(policy: Policy, table: Table, s: seq<int>, k: Key)
    requires Ranked(policy, table, s)
    ensures WithKey(policy, table, Sort(policy, table, s), k) == WithKey(policy, table, s, k)
    decreases |s|
  {
    if s != [] {
      var t := Sort(policy, table, s[1..]);
      SortStable(policy, table, s[1..], k);
      InsertWithKey(policy, table, s[0], t, k);
    }
  }

  /** Sorting a queue that is already in order changes nothing. */
  lemma {:induction false} SortKeepsSorted(policy: Policy, table: Table, s: seq<int>)
    requires Ranked(policy, table, s) && SortedBy(policy, table, s)
    ensures Sort(policy, table, s) == s
    decreases |s|
  {
    if s != [] {
      SortedTail(policy, table, s);
      SortKeepsSorted(policy, table, s[1..]);
      if |s| > 1 {
        assert KeyLe(Rank(policy, table, s[0]), Rank(policy, table, s[1]));
        assert s[1..][0] == s[1];
      }
      assert [s[0]] + s[1..] == s;
    }
  }
}
