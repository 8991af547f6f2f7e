/** Who is served first: the order of a wait list, and what the operations on it do to that order. */
module WaitOrder {
  import opened Bytes
  import opened Collections
  import opened WaitList

  /** `t` stands before `u`. */
  ghost predicate Ahead(list: seq<ThreadId>, t: ThreadId, u: ThreadId) {
    exists i, j :: 0 <= i < j < |list| && list[i] == t && list[j] == u
  }

  /** The positions of two threads in a longer list. */
  lemma AheadAt(list: seq<ThreadId>, i: nat, j: nat)
    requires i < j < |list|
    ensures Ahead(list, list[i], list[j])
  {
  }

  /** A thread that joins the list changes nothing between those already there. */
  lemma SuspendedKeepsOrder(list: seq<ThreadId>, x: ThreadId, flag: Flag, prio: Priorities, t: ThreadId, u: ThreadId)
    requires Ahead(list, t, u)
    ensures Ahead(Suspended(list, x, flag, prio), t, u)
  {
    var i, j :| 0 <= i < j < |list| && list[i] == t && list[j] == u;
    var r := Suspended(list, x, flag, prio);
    if flag == Fifo {
      AheadAt(r, i, j);
    } else {
      var k := InsertPosition(list, x, prio);
      var i', j' := if i < k then i else i + 1, if j < k then j else j + 1;
      assert r[i'] == t && r[j'] == u;
      AheadAt(r, i', j');
    }
  }

  /** First come first served: with RT_IPC_FLAG_FIFO a new thread stands behind all others; with
      RT_IPC_FLAG_PRIO it stands behind every thread that is at least as urgent, up to the first
      that is less urgent. */
  lemma SuspendedPlace(list: seq<ThreadId>, x: ThreadId, flag: Flag, prio: Priorities, i: nat)
    requires i < |list|
    ensures flag == Fifo ==> Ahead(Suspended(list, x, flag, prio), list[i], x)
    ensures flag == Prio && (forall k :: 0 <= k <= i ==> prio(list[k]) <= prio(x)) ==>
              Ahead(Suspended(list, x, flag, prio), list[i], x)
    ensures flag == Prio && prio(x) < prio(list[i]) ==> Ahead(Suspended(list, x, flag, prio), x, list[i])
  {
    var r := Suspended(list, x, flag, prio);
    if flag == Fifo {
      AheadAt(r, i, |list|);
    } else {
      var k := InsertPosition(list, x, prio);
      assert r[k] == x;
      if i < k {
        assert r[i] == list[i];
        AheadAt(r, i, k);
      } else {
        assert r[i + 1] == list[i];
        AheadAt(r, k, i + 1);
      }
    }
  }

  /** When the head is taken off, the others keep their order. */
  lemma TailKeepsOrder(list: seq<ThreadId>, t: ThreadId, u: ThreadId)
    requires Ahead(list, t, u) && t != list[0]
    ensures Ahead(list[1..], t, u)
  {
    var i, j :| 0 <= i < j < |list| && list[i] == t && list[j] == u;
    AheadAt(list[1..], i - 1, j - 1);
  }

  lemma {:induction false} WithoutKeepsOrder(list: seq<ThreadId>, x: ThreadId, t: ThreadId, u: ThreadId)
    requires Ahead(list, t, u) && x != t && x != u
    ensures Ahead(Without(list, x), t, u)
    decreases |list|
  {
    var i, j :| 0 <= i < j < |list| && list[i] == t && list[j] == u;
    var r := Without(list, x);
    if list[0] == x {
      AheadAt(list[1..], i - 1, j - 1);
    } else if i == 0 {
      WithoutKeeps(list[1..], x, j - 1);
      var k :| 0 <= k < |Without(list[1..], x)| && Without(list[1..], x)[k] == u;
      assert r[k + 1] == u && r[0] == t;
      AheadAt(r, 0, k + 1);
    } else {
      AheadAt(list[1..], i - 1, j - 1);
      WithoutKeepsOrder(list[1..], x, t, u);
      var k, l :| 0 <= k < l < |Without(list[1..], x)| && Without(list[1..], x)[k] == t && Without(list[1..], x)[l] == u;
      assert r[k + 1] == t && r[l + 1] == u;
      AheadAt(r, k + 1, l + 1);
    }
  }

  lemma {:induction false} WithoutKeeps(list: seq<ThreadId>, x: ThreadId, j: nat)
    requires j < |list| && list[j] != x
    ensures list[j] in Without(list, x)
    decreases |list|
  {
    if list[0] == x {
      assert list[1..][j - 1] == list[j];
    } else if j > 0 {
      WithoutKeeps(list[1..], x, j - 1);
    }
  }

  /** The waiting time that is left: as long as the clock has not gone half around, the rest of the
      bound and at least 0; no bound and no waiting stay what they are. */
  lemma RemainingTime(timeout: int, elapsed: nat)
    requires timeout < 0x8000_0000 && elapsed < 0x8000_0000
    ensures timeout <= 0 ==> Remaining(timeout, elapsed) == timeout
    ensures 0 < timeout ==> Remaining(timeout, elapsed) == if elapsed < timeout then timeout - elapsed else 0
  {
  }
}
