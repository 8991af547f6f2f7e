/** The lists of suspended threads that every IPC object keeps, and the
    kernel types the IPC objects share. */
module WaitList {
  import opened Bytes
  import opened Collections

  type ThreadId = nat

  /** RT_IPC_FLAG_FIFO and RT_IPC_FLAG_PRIO. */
  datatype Flag = Fifo | Prio

  /** The error codes the IPC calls return. */
  datatype Error = EOk | EError | ETimeout | EFull

  /** `current_priority` of every thread at one instant; a smaller number is more urgent. */
  type Priorities = ThreadId -> nat

  function SetPriority(prio: Priorities, t: ThreadId, p: nat): Priorities {
    (x: ThreadId) => if x == t then p else prio(x)
  }

  /** The waiting time left after `elapsed` ticks; forever stays forever. */
  function Remaining(timeout: int, elapsed: nat): int {
    if timeout <= 0 then timeout
    else if Int32(timeout - elapsed) < 0 then 0
    else Int32(timeout - elapsed)
  }

  /** More urgent threads come first. */
  ghost predicate Sorted(list: seq<ThreadId>, prio: Priorities) {
    forall i, j :: 0 <= i < j < |list| ==> prio(list[i]) <= prio(list[j])
  }

  /** The first position whose thread is strictly less urgent than `t`. */
  function InsertPosition(list: seq<ThreadId>, t: ThreadId, prio: Priorities): (k: nat)
    ensures k <= |list|
    ensures forall i :: 0 <= i < k ==> prio(list[i]) <= prio(t)
    ensures k < |list| ==> prio(t) < prio(list[k])
  {
    if list == [] || prio(t) < prio(list[0]) then 0
    else 1 + InsertPosition(list[1..], t, prio)
  }

  /** The list after `rt_ipc_list_suspend`. */
  function Suspended(list: seq<ThreadId>, t: ThreadId, flag: Flag, prio: Priorities): (r: seq<ThreadId>)
    ensures |r| == |list| + 1
    ensures multiset(r) == multiset(list) + multiset{t}
  {
    match flag
    case Fifo => list + [t]
    case Prio =>
      var k := InsertPosition(list, t, prio);
      assert list == list[..k] + list[k..];
      list[..k] + [t] + list[k..]
  }

  /** The list after one of its threads is resumed or times out. */
  function Without(list: seq<ThreadId>, t: ThreadId): (r: seq<ThreadId>)
    ensures t !in list ==> r == list
    ensures |r| <= |list|
  {
    if list == [] then []
    else if list[0] == t then list[1..]
    else [list[0]] + Without(list[1..], t)
  }

  /** `rt_ipc_list_suspend`: walk the list to the insertion point. */
  method ListSuspend(list: seq<ThreadId>, t: ThreadId, flag: Flag, prio: Priorities)
    returns (r: seq<ThreadId>)
    ensures r == Suspended(list, t, flag, prio)
  {
    match flag {
      case Fifo => r := list + [t];
      case Prio =>
        var n := 0;
        while n < |list| && !(prio(t) < prio(list[n]))
          invariant 0 <= n <= |list|
          invariant InsertPosition(list, t, prio) == n + InsertPosition(list[n..], t, prio)
        {
          n := n + 1;
        }
        r := list[..n] + [t] + list[n..];
    }
  }

  /** The threads left when the first one is taken off the list. */
  lemma TailMembers(list: seq<nat>)
    requires NoDuplicates(list) && list != []
    ensures NoDuplicates(list[1..])
    ensures forall x :: x in list[1..] <==> x in list && x != list[0]
  {
    assert list == [list[0]] + list[1..];
  }

  lemma ConcatNoDuplicates(a: seq<nat>, b: seq<nat>)
    requires NoDuplicates(a) && NoDuplicates(b)
    requires forall x :: x in a ==> x !in b
    ensures NoDuplicates(a + b)
    ensures forall x :: x in a + b <==> x in a || x in b
  {
    forall i, j | 0 <= i < j < |a + b| ensures (a + b)[i] != (a + b)[j] {
      if i < |a| <= j {
        assert (a + b)[i] in a && (a + b)[j] in b;
      }
    }
  }

  lemma SuspendedMembers(list: seq<ThreadId>, t: ThreadId, flag: Flag, prio: Priorities)
    ensures forall x :: x in Suspended(list, t, flag, prio) <==> x in list || x == t
  {
    var r := Suspended(list, t, flag, prio);
    forall x ensures x in r <==> x in list || x == t {
      assert x in r <==> x in multiset(r);
      assert x in list <==> x in multiset(list);
    }
  }

  lemma SuspendedNoDuplicates(list: seq<ThreadId>, t: ThreadId, flag: Flag, prio: Priorities)
    requires NoDuplicates(list) && t !in list
    ensures NoDuplicates(Suspended(list, t, flag, prio))
  {
  }

  /** A priority list stays sorted, and the new thread goes behind its equals. */
  lemma SuspendedSorted(list: seq<ThreadId>, t: ThreadId, prio: Priorities)
    requires Sorted(list, prio)
    ensures Sorted(Suspended(list, t, Prio, prio), prio)
    ensures var k := InsertPosition(list, t, prio);
            && (forall i :: 0 <= i < k ==> prio(list[i]) <= prio(t))
            && (forall i :: k <= i < |list| ==> prio(t) < prio(list[i]))
  {
    var k := InsertPosition(list, t, prio);
    forall i | k <= i < |list| ensures prio(t) < prio(list[i]) {
      assert prio(list[k]) <= prio(list[i]);
    }
    var r := Suspended(list, t, Prio, prio);
    forall i, j | 0 <= i < j < |r| ensures prio(r[i]) <= prio(r[j]) {
      assert r[i] == if i < k then list[i] else if i == k then t else list[i - 1];
      assert r[j] == if j < k then list[j] else if j == k then t else list[j - 1];
    }
  }

  /** Removing a thread keeps the others. */
  lemma {:induction false} WithoutMembers(list: seq<ThreadId>, t: ThreadId)
    requires NoDuplicates(list)
    ensures NoDuplicates(Without(list, t))
    ensures forall x :: x in Without(list, t) <==> x in list && x != t
  {
    if list != [] {
      assert list == [list[0]] + list[1..];
      WithoutMembers(list[1..], t);
      assert list[0] !in list[1..];
      if list[0] != t {
        var rest := Without(list[1..], t);
        assert list[0] !in rest;
        assert forall i, j :: 0 <= i < j < |rest| ==> rest[i] != rest[j];
      }
    }
  }

  /** Removing a thread keeps the order of the others. */
  lemma {:induction false} WithoutSorted(list: seq<ThreadId>, t: ThreadId, prio: Priorities)
    requires NoDuplicates(list) && Sorted(list, prio)
    ensures Sorted(Without(list, t), prio)
  {
    if list != [] && list[0] != t {
      WithoutSorted(list[1..], t, prio);
      WithoutMembers(list[1..], t);
      var rest := Without(list[1..], t);
      forall j | 0 <= j < |rest| ensures prio(list[0]) <= prio(rest[j]) {
        assert rest[j] in list[1..];
      }
    }
  }
}
