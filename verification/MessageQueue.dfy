/** The message queue: `rt_mq_send`, `rt_mq_urgent`, `rt_mq_recv` and the reset command.

    Sending and receiving touch a slot in three atomic steps: a sender claims a free slot,
    copies its message into it and links it; a receiver unlinks a slot, copies the message
    out and returns the slot to the free list.  Only the first and last of the three run
    with interrupts disabled, so the steps of different threads interleave freely. */
module MessageQueue {
  import opened Bytes
  import opened Collections
  import opened WaitList

  type Message = seq<byte>

  /** What a thread does with the slot it holds. */
  datatype Work =
    | Claimed(message: Message, urgent: bool)
    | Filled(message: Message, urgent: bool)
    | Taken(message: Message, room: nat)
    | Copied(message: Message, room: nat, out: Message)

  predicate Sending(w: Work) {
    w.Claimed? || w.Filled?
  }

  datatype Stage =
    | Waiting(room: nat, timeout: int)
    | Woken(room: nat, timeout: int, error: Error)
    | Holding(slot: nat, work: Work)

  /** `deque` is the specification: the messages linked and not yet unlinked. */
  datatype State = State(
    msgSize: nat,
    flag: Flag,
    data: seq<Message>,
    free: seq<nat>,
    queue: seq<nat>,
    receivers: seq<ThreadId>,
    calls: map<ThreadId, Stage>,
    deque: seq<Message>)

  predicate Works(s: State, t: ThreadId) {
    t in s.calls && s.calls[t].Holding?
  }

  datatype Result = Continues | Blocks | Returns(error: Error) | Delivers(out: Message)

  datatype Action =
    | Send(t: ThreadId, message: Message, urgent: bool)
    | Fill(t: ThreadId)
    | Link(t: ThreadId)
    | Recv(t: ThreadId, room: nat, timeout: int, prio: Priorities)
    | Wake(t: ThreadId, elapsed: nat, prio: Priorities)
    | Timeout(t: ThreadId)
    | CopyOut(t: ThreadId)
    | Release(t: ThreadId)
    | Reset

  // ----- the steps

  function Reversed(s: seq<nat>): (r: seq<nat>)
    ensures |r| == |s|
    ensures forall x :: x in r <==> x in s
  {
    if s == [] then [] else Reversed(s[1..]) + [s[0]]
  }

  function Resumed(calls: map<ThreadId, Stage>, t: ThreadId, e: Error): map<ThreadId, Stage> {
    if t in calls && calls[t].Waiting? then calls[t := Woken(calls[t].room, calls[t].timeout, e)] else calls
  }

  function ResumedAll(calls: map<ThreadId, Stage>, list: seq<ThreadId>): map<ThreadId, Stage> {
    if list == [] then calls else ResumedAll(Resumed(calls, list[0], EError), list[1..])
  }

  /** Take a free slot, unless the message is too long or no slot is free. */
  function Claim(s: State, t: ThreadId, message: Message, urgent: bool): (State, Result) {
    if |message| > s.msgSize then (s, Returns(EError))
    else if s.free == [] then (s, Returns(EFull))
    else (s.(free := s.free[1..], calls := s.calls[t := Holding(s.free[0], Claimed(message, urgent))]), Continues)
  }

  /** The slot after a message is copied over its first bytes. */
  function Overwritten(slot: Message, message: Message): (r: Message)
    ensures |message| <= |slot| ==> |r| == |slot| && message <= r
  {
    if |message| <= |slot| then message + slot[|message|..] else message
  }

  function FillSlot(s: State, t: ThreadId): State
    requires Works(s, t) && s.calls[t].work.Claimed? && s.calls[t].slot < |s.data|
  {
    var Holding(slot, Claimed(message, urgent)) := s.calls[t];
    s.(data := s.data[slot := Overwritten(s.data[slot], message)],
       calls := s.calls[t := Holding(slot, Filled(message, urgent))])
  }

  /** Link the slot at the back, or at the front if urgent, and resume the first receiver. */
  function LinkSlot(s: State, t: ThreadId): State
    requires Works(s, t) && s.calls[t].work.Filled?
  {
    var Holding(slot, Filled(message, urgent)) := s.calls[t];
    var s1 := s.(queue := if urgent then [slot] + s.queue else s.queue + [slot],
                 deque := if urgent then [message] + s.deque else s.deque + [message],
                 calls := s.calls - {t});
    if s.receivers == [] then s1
    else s1.(receivers := s.receivers[1..], calls := Resumed(s1.calls, s.receivers[0], EOk))
  }

  /** One pass of the receive loop: unlink the first slot, give up, or wait. */
  function TryRecv(s: State, t: ThreadId, room: nat, timeout: int, prio: Priorities): (State, Result) {
    if s.queue != [] then
      var message := if s.deque == [] then [] else s.deque[0];
      (s.(queue := s.queue[1..],
          deque := if s.deque == [] then [] else s.deque[1..],
          calls := s.calls[t := Holding(s.queue[0], Taken(message, room))]), Continues)
    else if timeout == 0 then (s.(calls := s.calls - {t}), Returns(ETimeout))
    else
      (s.(receivers := Suspended(s.receivers, t, s.flag, prio), calls := s.calls[t := Waiting(room, timeout)]),
       Blocks)
  }

  function WakeUp(s: State, t: ThreadId, elapsed: nat, prio: Priorities): (State, Result)
    requires t in s.calls && s.calls[t].Woken?
  {
    var Woken(room, timeout, error) := s.calls[t];
    if error != EOk then (s.(calls := s.calls - {t}), Returns(error))
    else TryRecv(s, t, room, Remaining(timeout, elapsed), prio)
  }

  function CopyMessage(s: State, t: ThreadId): State
    requires Works(s, t) && s.calls[t].work.Taken? && s.calls[t].slot < |s.data|
  {
    var Holding(slot, Taken(message, room)) := s.calls[t];
    var n := Min(Min(room, s.msgSize), |s.data[slot]|);
    s.(calls := s.calls[t := Holding(slot, Copied(message, room, s.data[slot][..n]))])
  }

  function ReleaseSlot(s: State, t: ThreadId): (State, Result)
    requires Works(s, t) && s.calls[t].work.Copied?
  {
    (s.(free := [s.calls[t].slot] + s.free, calls := s.calls - {t}), Delivers(s.calls[t].work.out))
  }

  function TimedOut(s: State, t: ThreadId): State {
    s.(receivers := Without(s.receivers, t), calls := Resumed(s.calls, t, ETimeout))
  }

  function Cleared(s: State): State {
    s.(receivers := [], calls := ResumedAll(s.calls, s.receivers),
       free := Reversed(s.queue) + s.free, queue := [], deque := [])
  }

  ghost predicate Enabled(s: State, a: Action) {
    match a
    case Send(t, _, _) => t !in s.calls
    case Fill(t) => Works(s, t) && s.calls[t].work.Claimed? && s.calls[t].slot < |s.data|
    case Link(t) => Works(s, t) && s.calls[t].work.Filled?
    case Recv(t, _, _, _) => t !in s.calls
    case Wake(t, _, _) => t in s.calls && s.calls[t].Woken?
    case Timeout(t) => t in s.calls && s.calls[t].Waiting? && 0 < s.calls[t].timeout
    case CopyOut(t) => Works(s, t) && s.calls[t].work.Taken? && s.calls[t].slot < |s.data|
    case Release(t) => Works(s, t) && s.calls[t].work.Copied?
    case Reset => true
  }

  ghost function Step(s: State, a: Action): (State, Result)
    requires Enabled(s, a)
  {
    match a
    case Send(t, message, urgent) => Claim(s, t, message, urgent)
    case Fill(t) => (FillSlot(s, t), Continues)
    case Link(t) => (LinkSlot(s, t), Returns(EOk))
    case Recv(t, room, timeout, prio) => TryRecv(s, t, room, timeout, prio)
    case Wake(t, elapsed, prio) => WakeUp(s, t, elapsed, prio)
    case Timeout(t) => (TimedOut(s, t), Continues)
    case CopyOut(t) => (CopyMessage(s, t), Continues)
    case Release(t) => ReleaseSlot(s, t)
    case Reset => (Cleared(s), Continues)
  }

  ghost predicate IsRun(s: State, run: seq<Action>, s': State)
    decreases run
  {
    if run == [] then s == s'
    else Enabled(s, run[0]) && IsRun(Step(s, run[0]).0, run[1..], s')
  }

  ghost predicate Initial(s: State) {
    && s.queue == [] && s.receivers == [] && s.calls == map[] && s.deque == []
    && NoDuplicates(s.free)
    && (forall x: nat :: x in s.free <==> 0 <= x < |s.data|)
    && (forall i :: 0 <= i < |s.data| ==> |s.data[i]| == s.msgSize)
  }

  // ----- the invariant

  /** The threads that hold a slot. */
  ghost function Holders(calls: map<ThreadId, Stage>): set<ThreadId> {
    set t | t in calls && calls[t].Holding?
  }

  /** No slot is in two places, and none is missing. */
  ghost predicate Partition(s: State) {
    && NoDuplicates(s.free)
    && NoDuplicates(s.queue)
    && (forall x :: x in s.free ==> x < |s.data| && x !in s.queue)
    && (forall x :: x in s.queue ==> x < |s.data|)
    && (forall t :: t in Holders(s.calls) ==>
                      s.calls[t].slot < |s.data| && s.calls[t].slot !in s.free && s.calls[t].slot !in s.queue)
    && (forall t, u :: t in Holders(s.calls) && u in Holders(s.calls) && t != u ==> s.calls[t].slot != s.calls[u].slot)
    && |s.free| + |s.queue| + |Holders(s.calls)| == |s.data|
  }

  /** What a thread in the middle of a call knows about its slot. */
  ghost predicate StageSound(s: State, t: ThreadId)
    requires t in s.calls
  {
    match s.calls[t]
    case Holding(slot, Claimed(message, _)) => |message| <= s.msgSize
    case Holding(slot, Filled(message, _)) => slot < |s.data| && message <= s.data[slot]
    case Holding(slot, Taken(message, _)) => slot < |s.data| && message <= s.data[slot]
    case Holding(slot, Copied(message, room, out)) => |out| == Min(room, s.msgSize) && Agree(message, out)
    case _ => true
  }

  /** The two agree on their common length. */
  ghost predicate Agree(a: Message, b: Message) {
    a[..Min(|a|, |b|)] == b[..Min(|a|, |b|)]
  }

  ghost predicate Contents(s: State) {
    && (forall i :: 0 <= i < |s.data| ==> |s.data[i]| == s.msgSize)
    && |s.deque| == |s.queue|
    && (forall i :: 0 <= i < |s.queue| ==> s.queue[i] < |s.data| && s.deque[i] <= s.data[s.queue[i]])
    && (forall t :: t in s.calls ==> StageSound(s, t))
  }

  ghost function Runnable(calls: map<ThreadId, Stage>): set<ThreadId> {
    set t | t in calls && calls[t].Woken? && calls[t].error == EOk
  }

  ghost predicate Wakeups(s: State) {
    && NoDuplicates(s.receivers)
    && (forall t :: t in s.receivers <==> t in s.calls && s.calls[t].Waiting?)
    && (s.receivers != [] ==> |s.queue| <= |Runnable(s.calls)|)
  }

  ghost predicate Inv(s: State) {
    Partition(s) && Contents(s) && Wakeups(s)
  }

  // ----- preservation

  lemma ClaimKeepsPartition(s: State, t: ThreadId, stage: Stage)
    requires Partition(s) && t !in s.calls
    requires s.free != [] && stage.Holding? && stage.slot == s.free[0]
    ensures Partition(s.(free := s.free[1..], calls := s.calls[t := stage]))
  {
    var s' := s.(free := s.free[1..], calls := s.calls[t := stage]);
    assert Holders(s'.calls) == Holders(s.calls) + {t};
    TailMembers(s.free);
    assert s.free[0] in s.free;
    forall u | u in Holders(s'.calls)
      ensures s'.calls[u].slot < |s.data| && s'.calls[u].slot !in s'.free && s'.calls[u].slot !in s'.queue
      ensures forall v :: v in Holders(s'.calls) && u != v ==> s'.calls[u].slot != s'.calls[v].slot
    {
      if u != t { assert u in Holders(s.calls); }
    }
  }

  lemma ClaimKeepsInv(s: State, t: ThreadId, message: Message, urgent: bool)
    requires Inv(s) && t !in s.calls
    ensures Inv(Claim(s, t, message, urgent).0)
  {
    var s' := Claim(s, t, message, urgent).0;
    if s' != s {
      ClaimKeepsPartition(s, t, s'.calls[t]);
      assert Wakeups(s') by {
        assert Runnable(s'.calls) == Runnable(s.calls);
      }
      forall u | u in s'.calls ensures StageSound(s', u) {
        if u != t { assert StageSound(s, u); }
      }
    }
  }

  lemma FillKeepsInv(s: State, t: ThreadId)
    requires Inv(s) && Works(s, t) && s.calls[t].work.Claimed?
    ensures s.calls[t].slot < |s.data| && Inv(FillSlot(s, t))
  {
    assert t in Holders(s.calls);
    var s' := FillSlot(s, t);
    assert Holders(s'.calls) == Holders(s.calls);
    assert Runnable(s'.calls) == Runnable(s.calls);
    forall u | u in s'.calls ensures StageSound(s', u) {
      assert StageSound(s, u);
      assert s.calls[u].Holding? ==> u in Holders(s.calls);
    }
  }

  lemma LinkKeepsPartition(s: State, t: ThreadId)
    requires Partition(s) && Works(s, t) && s.calls[t].work.Filled?
    ensures Partition(LinkSlot(s, t))
  {
    LinkKeepsHolders(s, t);
    var slot := s.calls[t].slot;
    ConcatNoDuplicates([slot], s.queue);
    ConcatNoDuplicates(s.queue, [slot]);
  }

  /** Only `t` lets go of its slot. */
  lemma LinkKeepsHolders(s: State, t: ThreadId)
    requires Works(s, t) && s.calls[t].work.Filled?
    ensures t in Holders(s.calls)
    ensures var calls' := LinkSlot(s, t).calls;
            && Holders(calls') == Holders(s.calls) - {t} && |Holders(calls')| == |Holders(s.calls)| - 1
            && (forall u :: u in Holders(calls') ==> calls'[u] == s.calls[u])
  {
    assert t in Holders(s.calls);
    assert Holders(LinkSlot(s, t).calls) == Holders(s.calls) - {t};
  }

  lemma LinkKeepsContents(s: State, t: ThreadId)
    requires Contents(s) && Works(s, t) && s.calls[t].work.Filled?
    ensures Contents(LinkSlot(s, t))
  {
    assert StageSound(s, t);
    var s' := LinkSlot(s, t);
    forall u | u in s'.calls ensures StageSound(s', u) {
      assert StageSound(s, u);
    }
  }

  lemma LinkKeepsInv(s: State, t: ThreadId)
    requires Inv(s) && Works(s, t) && s.calls[t].work.Filled?
    ensures Inv(LinkSlot(s, t))
  {
    var s' := LinkSlot(s, t);
    assert Wakeups(s') by {
      if s.receivers != [] {
        assert Runnable(s'.calls) == Runnable(s.calls) + {s.receivers[0]};
        TailMembers(s.receivers);
      } else {
        assert Runnable(s'.calls) == Runnable(s.calls);
      }
    }
    LinkKeepsPartition(s, t);
    LinkKeepsContents(s, t);
  }

  lemma OneMoreHolder(calls: map<ThreadId, Stage>, t: ThreadId, stage: Stage)
    requires stage.Holding? && t !in Holders(calls)
    ensures Holders(calls[t := stage]) == Holders(calls) + {t} && |Holders(calls[t := stage])| == |Holders(calls)| + 1
  {
    assert Holders(calls[t := stage]) == Holders(calls) + {t};
  }

  lemma TakeKeepsPartition(s: State, t: ThreadId, stage: Stage)
    requires Partition(s) && (t in s.calls ==> s.calls[t].Woken?)
    requires s.queue != [] && stage.Holding? && stage.slot == s.queue[0]
    ensures Partition(s.(queue := s.queue[1..], calls := s.calls[t := stage]))
  {
    var s' := s.(queue := s.queue[1..], calls := s.calls[t := stage]);
    OneMoreHolder(s.calls, t, stage);
    var x := s.queue[0];
    assert x in s.queue && x !in s.free;
    assert NoDuplicates(s'.queue) && x !in s'.queue && forall y :: y in s'.queue ==> y in s.queue by {
      TailMembers(s.queue);
    }
    forall u | u in Holders(s.calls) ensures s.calls[u].slot != x && s.calls[u].slot !in s'.queue {
      assert s.calls[u].slot !in s.queue;
    }
  }

  lemma TryRecvKeepsPartition(s: State, t: ThreadId, room: nat, timeout: int, prio: Priorities)
    requires Partition(s) && (t in s.calls ==> s.calls[t].Woken?)
    ensures Partition(TryRecv(s, t, room, timeout, prio).0)
  {
    var s' := TryRecv(s, t, room, timeout, prio).0;
    if s.queue != [] {
      TakeKeepsPartition(s, t, s'.calls[t]);
    } else {
      assert Holders(s'.calls) == Holders(s.calls);
    }
  }

  lemma TryRecvKeepsContents(s: State, t: ThreadId, room: nat, timeout: int, prio: Priorities)
    requires Contents(s) && (t in s.calls ==> s.calls[t].Woken?)
    ensures Contents(TryRecv(s, t, room, timeout, prio).0)
  {
    var s' := TryRecv(s, t, room, timeout, prio).0;
    forall u | u in s'.calls ensures StageSound(s', u) {
      if u != t { assert StageSound(s, u); }
    }
  }

  lemma TryRecvKeepsWakeups(s: State, t: ThreadId, room: nat, timeout: int, prio: Priorities)
    requires Wakeups(s) && (t in s.calls ==> s.calls[t].Woken?)
    ensures Wakeups(TryRecv(s, t, room, timeout, prio).0)
  {
    var s' := TryRecv(s, t, room, timeout, prio).0;
    assert Runnable(s'.calls) == Runnable(s.calls) - {t};
    assert |Runnable(s.calls) - {t}| >= |Runnable(s.calls)| - 1;
    if s.queue == [] && timeout != 0 {
      SuspendedMembers(s.receivers, t, s.flag, prio);
      SuspendedNoDuplicates(s.receivers, t, s.flag, prio);
    }
  }

  lemma TryRecvKeepsInv(s: State, t: ThreadId, room: nat, timeout: int, prio: Priorities)
    requires Inv(s) && (t in s.calls ==> s.calls[t].Woken?)
    ensures Inv(TryRecv(s, t, room, timeout, prio).0)
  {
    TryRecvKeepsPartition(s, t, room, timeout, prio);
    TryRecvKeepsContents(s, t, room, timeout, prio);
    TryRecvKeepsWakeups(s, t, room, timeout, prio);
  }

  lemma ReturnKeepsInv(s: State, t: ThreadId)
    requires Inv(s) && t in s.calls && s.calls[t].Woken? && s.calls[t].error != EOk
    ensures Inv(s.(calls := s.calls - {t}))
  {
    var s' := s.(calls := s.calls - {t});
    assert Holders(s'.calls) == Holders(s.calls);
    assert Runnable(s'.calls) == Runnable(s.calls);
    forall u | u in s'.calls ensures StageSound(s', u) {
      assert StageSound(s, u);
    }
  }

  lemma CopyOutKeepsInv(s: State, t: ThreadId)
    requires Inv(s) && Works(s, t) && s.calls[t].work.Taken?
    ensures s.calls[t].slot < |s.data| && Inv(CopyMessage(s, t))
  {
    assert t in Holders(s.calls);
    var s' := CopyMessage(s, t);
    assert Holders(s'.calls) == Holders(s.calls);
    assert Runnable(s'.calls) == Runnable(s.calls);
    forall u | u in s'.calls ensures StageSound(s', u) {
      assert StageSound(s, u);
    }
  }

  lemma ReleaseKeepsInv(s: State, t: ThreadId)
    requires Inv(s) && Works(s, t) && s.calls[t].work.Copied?
    ensures Inv(ReleaseSlot(s, t).0)
  {
    assert t in Holders(s.calls);
    var s' := ReleaseSlot(s, t).0;
    assert Holders(s'.calls) == Holders(s.calls) - {t};
    assert Runnable(s'.calls) == Runnable(s.calls);
    forall u | u in s'.calls ensures StageSound(s', u) {
      assert StageSound(s, u);
    }
  }

  lemma TimedOutKeepsInv(s: State, t: ThreadId)
    requires Inv(s) && t in s.calls && s.calls[t].Waiting?
    ensures Inv(TimedOut(s, t))
  {
    var s' := TimedOut(s, t);
    WithoutMembers(s.receivers, t);
    assert Holders(s'.calls) == Holders(s.calls);
    assert Runnable(s'.calls) == Runnable(s.calls);
    forall u | u in s'.calls ensures StageSound(s', u) {
      assert StageSound(s, u);
    }
  }

  lemma {:induction false} ResumedAllCalls(calls: map<ThreadId, Stage>, list: seq<ThreadId>)
    ensures var calls' := ResumedAll(calls, list);
            && calls'.Keys == calls.Keys
            && forall t :: t in calls ==>
                 calls'[t] == if t in list && calls[t].Waiting? then Woken(calls[t].room, calls[t].timeout, EError)
                              else calls[t]
  {
    if list != [] {
      assert list == [list[0]] + list[1..];
      ResumedAllCalls(Resumed(calls, list[0], EError), list[1..]);
    }
  }

  lemma {:induction false} ReversedNoDuplicates(s: seq<nat>)
    requires NoDuplicates(s)
    ensures NoDuplicates(Reversed(s))
  {
    if s != [] {
      ReversedNoDuplicates(s[1..]);
      assert s[0] !in s[1..];
    }
  }

  lemma ClearedKeepsInv(s: State)
    requires Inv(s)
    ensures Inv(Cleared(s))
  {
    var s' := Cleared(s);
    ResumedAllCalls(s.calls, s.receivers);
    ReversedNoDuplicates(s.queue);
    ConcatNoDuplicates(Reversed(s.queue), s.free);
    assert Holders(s'.calls) == Holders(s.calls);
    forall u | u in s'.calls ensures StageSound(s', u) {
      assert StageSound(s, u);
    }
  }

  lemma StepKeepsInv(s: State, a: Action)
    requires Inv(s) && Enabled(s, a)
    ensures Inv(Step(s, a).0)
  {
    match a {
      case Send(t, message, urgent) => ClaimKeepsInv(s, t, message, urgent);
      case Fill(t) => FillKeepsInv(s, t);
      case Link(t) => LinkKeepsInv(s, t);
      case Recv(t, room, timeout, prio) => TryRecvKeepsInv(s, t, room, timeout, prio);
      case Wake(t, elapsed, prio) =>
        if s.calls[t].error != EOk {
          ReturnKeepsInv(s, t);
        } else {
          TryRecvKeepsInv(s, t, s.calls[t].room, Remaining(s.calls[t].timeout, elapsed), prio);
        }
      case Timeout(t) => TimedOutKeepsInv(s, t);
      case CopyOut(t) => CopyOutKeepsInv(s, t);
      case Release(t) => ReleaseKeepsInv(s, t);
      case Reset => ClearedKeepsInv(s);
    }
  }

  // ----- theorems over whole runs

  lemma {:induction false} RunKeepsInv(s: State, run: seq<Action>, s': State)
    requires Inv(s) && IsRun(s, run, s')
    ensures Inv(s')
    decreases run
  {
    if run != [] {
      StepKeepsInv(s, run[0]);
      RunKeepsInv(Step(s, run[0]).0, run[1..], s');
    }
  }

  ghost function Slots(calls: map<ThreadId, Stage>, holders: set<ThreadId>): set<nat>
    requires holders <= Holders(calls)
  {
    set t | t in holders :: calls[t].slot
  }

  lemma {:induction false} SlotCount(calls: map<ThreadId, Stage>, holders: set<ThreadId>)
    requires holders <= Holders(calls)
    requires forall t, u :: t in holders && u in holders && t != u ==> calls[t].slot != calls[u].slot
    ensures |Slots(calls, holders)| == |holders|
  {
    if holders != {} {
      var t :| t in holders;
      SlotCount(calls, holders - {t});
      assert Slots(calls, holders) == Slots(calls, holders - {t}) + {calls[t].slot};
    }
  }

  ghost function Elements(list: seq<nat>): set<nat> {
    set x | x in list
  }

  lemma {:induction false} ListCount(list: seq<nat>)
    requires NoDuplicates(list)
    ensures |Elements(list)| == |list|
  {
    if list != [] {
      TailMembers(list);
      ListCount(list[1..]);
      assert Elements(list) == Elements(list[1..]) + {list[0]};
    }
  }

  ghost function Below(n: nat): (r: set<nat>)
    ensures |r| == n
    ensures forall x: nat :: x in r <==> x < n
  {
    if n == 0 then {} else Below(n - 1) + {n - 1}
  }

  lemma SubsetCount(a: set<nat>, b: set<nat>)
    requires a < b
    ensures |a| < |b|
  {
    assert b == a + (b - a);
  }

  lemma CoverCount(F: set<nat>, Q: set<nat>, H: set<nat>, n: nat, x: nat)
    requires F !! Q && (F + Q) !! H && F + Q + H <= Below(n)
    requires |F| + |Q| + |H| == n && x < n
    ensures x in F + Q + H
  {
    assert |F + Q| == |F| + |Q|;
    assert |F + Q + H| == n;
    if x !in F + Q + H {
      assert x in Below(n);
      SubsetCount(F + Q + H, Below(n));
    }
  }

  lemma PartitionCovers(s: State, x: nat)
    requires Partition(s) && x < |s.data|
    ensures x in s.free || x in s.queue || exists t :: t in Holders(s.calls) && s.calls[t].slot == x
  {
    var F, Q, H := Elements(s.free), Elements(s.queue), Slots(s.calls, Holders(s.calls));
    ListCount(s.free);
    ListCount(s.queue);
    SlotCount(s.calls, Holders(s.calls));
    CoverCount(F, Q, H, |s.data|, x);
  }

  lemma InitialInv(s: State)
    requires Initial(s)
    ensures Inv(s)
  {
    ListCount(s.free);
    assert Elements(s.free) == Below(|s.data|);
    assert Holders(s.calls) == {};
  }

  /** In every reachable state, every slot is free, linked or held by a thread, in exactly
      one of these places. */
  lemma EverySlotAccounted(s0: State, run: seq<Action>, s: State, x: nat)
    requires Initial(s0) && IsRun(s0, run, s) && x < |s.data|
    ensures x in s.free || x in s.queue || exists t :: t in Holders(s.calls) && s.calls[t].slot == x
    ensures !(x in s.free && x in s.queue)
    ensures forall t :: t in Holders(s.calls) && s.calls[t].slot == x ==> x !in s.free && x !in s.queue
    ensures forall t, u :: t in Holders(s.calls) && u in Holders(s.calls) && s.calls[t].slot == x == s.calls[u].slot ==> t == u
  {
    InitialInv(s0);
    RunKeepsInv(s0, run, s);
    PartitionCovers(s, x);
  }

  // ----- the specification: a deque that knows nothing about slots

  datatype Event =
    | Offered(t: ThreadId, message: Message, urgent: bool)   // a send call found room
    | Pushed(t: ThreadId)                                    // and linked its message
    | Popped(t: ThreadId, room: nat)                         // a receive call took a message
    | Delivered(t: ThreadId, out: Message)                   // and returned it
    | Emptied
    | Internal

  datatype Deque = Deque(
    items: seq<Message>,
    offers: map<ThreadId, (Message, bool)>,
    taken: map<ThreadId, (Message, nat)>)

  /** What an observer concludes from a call and its answer; `room` is the size of the caller's buffer. */
  function EventOf(a: Action, r: Result, room: nat): Event {
    match a
    case Send(t, message, urgent) => if r == Continues then Offered(t, message, urgent) else Internal
    case Link(t) => if r == Returns(EOk) then Pushed(t) else Internal
    case Recv(t, _, _, _) => if r == Continues then Popped(t, room) else Internal
    case Wake(t, _, _) => if r == Continues then Popped(t, room) else Internal
    case Release(t) => if r.Delivers? then Delivered(t, r.out) else Internal
    case Reset => Emptied
    case _ => Internal
  }

  /** The size of the buffer that a receive call was given. */
  ghost function RoomOf(s: State, a: Action): nat
    requires Enabled(s, a)
  {
    match a
    case Recv(_, room, _, _) => room
    case Wake(t, _, _) => s.calls[t].room
    case _ => 0
  }

  /** What a deque allows: push what was offered, pop only when there is something, deliver
      the popped message, cut to the receiver's room. */
  ghost predicate Accepts(d: Deque, e: Event, msgSize: nat) {
    match e
    case Offered(t, message, _) => |message| <= msgSize && t !in d.offers
    case Pushed(t) => t in d.offers
    case Popped(t, _) => d.items != [] && t !in d.taken
    case Delivered(t, out) => t in d.taken && |out| == Min(d.taken[t].1, msgSize) && Agree(d.taken[t].0, out)
    case Emptied => true
    case Internal => true
  }

  ghost function Next(d: Deque, e: Event, msgSize: nat): Deque
    requires Accepts(d, e, msgSize)
  {
    match e
    case Offered(t, message, urgent) => d.(offers := d.offers[t := (message, urgent)])
    case Pushed(t) =>
      var (message, urgent) := d.offers[t];
      d.(items := if urgent then [message] + d.items else d.items + [message], offers := d.offers - {t})
    case Popped(t, room) => d.(items := d.items[1..], taken := d.taken[t := (d.items[0], room)])
    case Delivered(t, _) => d.(taken := d.taken - {t})
    case Emptied => d.(items := [])
    case Internal => d
  }

  ghost predicate AcceptsRun(d: Deque, s: State, run: seq<Action>)
    decreases run
  {
    run != [] && Enabled(s, run[0]) ==>
      var e := EventOf(run[0], Step(s, run[0]).1, RoomOf(s, run[0]));
      Accepts(d, e, s.msgSize) && AcceptsRun(Next(d, e, s.msgSize), Step(s, run[0]).0, run[1..])
  }

  ghost function Offers(calls: map<ThreadId, Stage>): map<ThreadId, (Message, bool)> {
    map t | t in calls && calls[t].Holding? && Sending(calls[t].work) :: (calls[t].work.message, calls[t].work.urgent)
  }

  ghost function TakenBy(calls: map<ThreadId, Stage>): map<ThreadId, (Message, nat)> {
    map t | t in calls && calls[t].Holding? && !Sending(calls[t].work) :: (calls[t].work.message, calls[t].work.room)
  }

  /** The deque a state stands for. */
  ghost function Abstract(s: State): Deque {
    Deque(s.deque, Offers(s.calls), TakenBy(s.calls))
  }

  lemma CallChanged(calls: map<ThreadId, Stage>, t: ThreadId, c: Stage)
    ensures Offers(calls[t := c]) == if c.Holding? && Sending(c.work) then Offers(calls)[t := (c.work.message, c.work.urgent)]
                                     else Offers(calls) - {t}
    ensures TakenBy(calls[t := c]) == if c.Holding? && !Sending(c.work) then TakenBy(calls)[t := (c.work.message, c.work.room)]
                                      else TakenBy(calls) - {t}
  {
  }

  lemma CallReturned(calls: map<ThreadId, Stage>, t: ThreadId)
    ensures Offers(calls - {t}) == Offers(calls) - {t}
    ensures TakenBy(calls - {t}) == TakenBy(calls) - {t}
    ensures t !in Offers(calls) ==> Offers(calls) - {t} == Offers(calls)
    ensures t !in TakenBy(calls) ==> TakenBy(calls) - {t} == TakenBy(calls)
  {
  }

  lemma CallResumed(calls: map<ThreadId, Stage>, t: ThreadId, e: Error)
    ensures Offers(Resumed(calls, t, e)) == Offers(calls)
    ensures TakenBy(Resumed(calls, t, e)) == TakenBy(calls)
  {
  }

  lemma {:induction false} AllResumed(calls: map<ThreadId, Stage>, list: seq<ThreadId>)
    ensures Offers(ResumedAll(calls, list)) == Offers(calls)
    ensures TakenBy(ResumedAll(calls, list)) == TakenBy(calls)
  {
    if list != [] {
      CallResumed(calls, list[0], EError);
      AllResumed(Resumed(calls, list[0], EError), list[1..]);
    }
  }

  lemma LinkRefines(s: State, t: ThreadId)
    requires Works(s, t) && s.calls[t].work.Filled?
    ensures Accepts(Abstract(s), Pushed(t), s.msgSize)
    ensures Next(Abstract(s), Pushed(t), s.msgSize) == Abstract(LinkSlot(s, t))
  {
    CallReturned(s.calls, t);
    if s.receivers != [] {
      CallResumed(s.calls - {t}, s.receivers[0], EOk);
    }
  }

  lemma TakeRefines(s: State, t: ThreadId, room: nat, timeout: int, prio: Priorities)
    requires (t in s.calls ==> s.calls[t].Woken?) && |s.deque| == |s.queue|
    ensures s.queue != [] ==>
              && Accepts(Abstract(s), Popped(t, room), s.msgSize)
              && Next(Abstract(s), Popped(t, room), s.msgSize) == Abstract(TryRecv(s, t, room, timeout, prio).0)
    ensures s.queue == [] ==> Abstract(s) == Abstract(TryRecv(s, t, room, timeout, prio).0)
  {
    CallReturned(s.calls, t);
    var s' := TryRecv(s, t, room, timeout, prio).0;
    if s.queue != [] || timeout != 0 {
      CallChanged(s.calls, t, s'.calls[t]);
    }
  }

  lemma CopyRefines(s: State, t: ThreadId)
    requires Works(s, t) && s.calls[t].slot < |s.data|
    ensures s.calls[t].work.Claimed? ==> Abstract(s) == Abstract(FillSlot(s, t))
    ensures s.calls[t].work.Taken? ==> Abstract(s) == Abstract(CopyMessage(s, t))
  {
    CallReturned(s.calls, t);
    if s.calls[t].work.Claimed? {
      CallChanged(s.calls, t, FillSlot(s, t).calls[t]);
      assert Offers(s.calls)[t := Offers(s.calls)[t]] == Offers(s.calls);
    }
    if s.calls[t].work.Taken? {
      CallChanged(s.calls, t, CopyMessage(s, t).calls[t]);
      assert TakenBy(s.calls)[t := TakenBy(s.calls)[t]] == TakenBy(s.calls);
    }
  }

  /** Each step is what the deque does at its event. */
  lemma StepRefines(s: State, a: Action)
    requires Contents(s) && Enabled(s, a)
    ensures var e := EventOf(a, Step(s, a).1, RoomOf(s, a));
            Accepts(Abstract(s), e, s.msgSize) && Next(Abstract(s), e, s.msgSize) == Abstract(Step(s, a).0)
  {
    match a {
      case Send(t, message, urgent) =>
        if |message| <= s.msgSize && s.free != [] {
          CallReturned(s.calls, t);
          CallChanged(s.calls, t, Holding(s.free[0], Claimed(message, urgent)));
        }
      case Fill(t) => CopyRefines(s, t);
      case Link(t) => LinkRefines(s, t);
      case Recv(t, room, timeout, prio) => TakeRefines(s, t, room, timeout, prio);
      case Wake(t, elapsed, prio) =>
        CallReturned(s.calls, t);
        if s.calls[t].error == EOk {
          TakeRefines(s, t, s.calls[t].room, Remaining(s.calls[t].timeout, elapsed), prio);
        }
      case Timeout(t) => CallResumed(s.calls, t, ETimeout);
      case CopyOut(t) => CopyRefines(s, t);
      case Release(t) =>
        CallReturned(s.calls, t);
        assert StageSound(s, t);
      case Reset => AllResumed(s.calls, s.receivers);
    }
  }

  lemma {:induction false} DequeRefinement(s: State, run: seq<Action>)
    requires Inv(s)
    ensures AcceptsRun(Abstract(s), s, run)
    decreases run
  {
    if run != [] && Enabled(s, run[0]) {
      StepRefines(s, run[0]);
      StepKeepsInv(s, run[0]);
      DequeRefinement(Step(s, run[0]).0, run[1..]);
    }
  }

  /** Every run is a run of the deque, whatever the interleaving. */
  lemma EveryRunIsADeque(s: State, run: seq<Action>)
    requires Initial(s)
    ensures AcceptsRun(Deque([], map[], map[]), s, run)
  {
    InitialInv(s);
    assert Abstract(s) == Deque([], map[], map[]);
    DequeRefinement(s, run);
  }

  /** When no resumed receiver is left to run, receivers sleep only on an empty queue. */
  lemma QuiescentQueue(s0: State, run: seq<Action>, s: State)
    requires Initial(s0) && IsRun(s0, run, s) && Runnable(s.calls) == {}
    ensures s.receivers != [] ==> s.queue == []
  {
    InitialInv(s0);
    RunKeepsInv(s0, run, s);
  }

  // ----- the kernel object

  /** `next` links the slots of `list`, starting at `first`; -1 is the null pointer. */
  ghost predicate Linked(next: seq<int>, first: int, list: seq<nat>)
    decreases list
  {
    if list == [] then first == -1
    else first == list[0] && first < |next| && Linked(next, next[first], list[1..])
  }

  lemma {:induction false} LinkedElsewhere(next: seq<int>, first: int, list: seq<nat>, x: nat, v: int)
    requires Linked(next, first, list) && x < |next| && x !in list
    ensures Linked(next[x := v], first, list)
    decreases list
  {
    if list != [] {
      LinkedElsewhere(next, next[first], list[1..], x, v);
    }
  }

  lemma LinkedPush(next: seq<int>, first: int, list: seq<nat>, x: nat)
    requires Linked(next, first, list) && x < |next| && x !in list
    ensures Linked(next[x := first], x, [x] + list)
  {
    LinkedElsewhere(next, first, list, x, first);
    assert ([x] + list)[1..] == list;
  }

  lemma {:induction false} LinkedAppend(next: seq<int>, first: int, list: seq<nat>, x: nat)
    requires Linked(next, first, list) && NoDuplicates(list) && list != []
    requires x < |next| && x !in list && next[x] == -1
    ensures var last := list[|list| - 1];
            0 <= last < |next| && next[last] == -1 && Linked(next[last := x], first, list + [x])
    decreases list
  {
    if |list| == 1 {
      assert next[first] == -1;
      var n := next[first := x];
      assert (list + [x])[1..] == [x] && [x][1..] == [];
      assert Linked(n, x, [x]);
    } else {
      TailMembers(list);
      LinkedAppend(next, next[first], list[1..], x);
      assert list[1..][|list| - 2] == list[|list| - 1];
      assert (list + [x])[1..] == list[1..] + [x];
    }
  }

  /** `struct rt_messagequeue` and its pool of slots. */
  class MessageQueueObject {
    const msgSize: nat
    const flag: Flag
    const next: array<int>
    const data: array<Message>
    var head: int
    var tail: int
    var free: int
    var entry: nat
    var receivers: seq<ThreadId>
    var calls: map<ThreadId, Stage>
    ghost var freeList: seq<nat>
    ghost var queueList: seq<nat>
    var deque: seq<Message>   // history: the messages in the queue; it decides nothing

    /** The two lists are linked through the slots, head and tail are null together, and
        `entry` counts the queue. */
    ghost predicate Shape()
      reads this, next
    {
      && next.Length == data.Length
      && Linked(next[..], free, freeList)
      && Linked(next[..], head, queueList)
      && tail == (if queueList == [] then -1 else queueList[|queueList| - 1])
      && entry == |queueList|
      && (forall t :: t in calls && calls[t].Holding? && calls[t].work.Filled? && !calls[t].work.urgent ==>
                        calls[t].slot < next.Length && next[calls[t].slot] == -1)
    }

    ghost function Abs(): State
      reads this, data
    {
      State(msgSize, flag, data[..], freeList, queueList, receivers, calls, deque)
    }

    ghost predicate Valid()
      reads this, next, data
    {
      Shape() && Partition(Abs())
    }

    /** `rt_mq_init`: round the message size up to words, divide the pool into slots of one
        message and one link each, and chain them all into the free list.  Both the message size
        and the number of slots are kept in 16 bits. */
    constructor (size: nat, poolSize: nat, flag: Flag)
      ensures Shape() && Initial(Abs()) && fresh(next) && fresh(data)
      ensures msgSize == (size + 3) / 4 * 4 % 0x1_0000 && data.Length == poolSize / (msgSize + 4) % 0x1_0000
      ensures size + 3 < 0x1_0000 ==> size <= msgSize < size + 4
    {
      var slotSize := (size + 3) / 4 * 4 % 0x1_0000;
      var slots := poolSize / (slotSize + 4) % 0x1_0000;
      msgSize := slotSize;
      this.flag := flag;
      next := new int[slots];
      data := new Message[slots](_ => seq(slotSize, _ => 0));
      head, tail, free, entry := -1, -1, -1, 0;
      receivers, calls := [], map[];
      freeList, queueList, deque := [], [], [];
      new;
      ChainSlots();
    }

    /** The loop over the pool. */
    method ChainSlots()
      requires Shape() && freeList == [] && queueList == [] && calls == map[]
      modifies `free, `freeList, next
      ensures Shape() && NoDuplicates(freeList) && forall x: nat :: x in freeList <==> x < next.Length
    {
      var temp := 0;
      while temp < next.Length
        invariant 0 <= temp <= next.Length
        invariant Shape() && NoDuplicates(freeList) && forall x: nat :: x in freeList <==> x < temp
      {
        ghost var list := freeList;
        PushFree(temp);
        ConcatNoDuplicates([temp], list);
        temp := temp + 1;
      }
    }

    /** First critical region of `rt_mq_send` and `rt_mq_urgent`. */
    method ClaimSlot(t: ThreadId, message: Message, urgent: bool) returns (r: Result)
      requires Shape()
      modifies this
      ensures Shape()
      ensures (Abs(), r) == Claim(old(Abs()), t, message, urgent)
    {
      if |message| > msgSize {
        return Returns(EError);
      }
      if free == -1 {
        return Returns(EFull);
      }
      var slot := free;
      free := next[slot];
      freeList := freeList[1..];
      calls := calls[t := Holding(slot, Claimed(message, urgent))];
      r := Continues;
    }

    /** Between the critical regions: clear the link (ordinary messages only) and copy. */
    method FillStep(t: ThreadId)
      requires Valid() && Works(Abs(), t) && calls[t].work.Claimed? && calls[t].slot < data.Length
      modifies this, next, data
      ensures Shape()
      ensures Abs() == FillSlot(old(Abs()), t)
    {
      var Holding(slot, Claimed(message, urgent)) := calls[t];
      assert t in Holders(calls);
      if !urgent {
        LinkedElsewhere(next[..], free, freeList, slot, -1);
        LinkedElsewhere(next[..], head, queueList, slot, -1);
        next[slot] := -1;
        assert next[..] == old(next[..])[slot := -1];
      }
      data[slot] := Overwritten(data[slot], message);
      calls := calls[t := Holding(slot, Filled(message, urgent))];
    }

    /** Last critical region of `rt_mq_send` and `rt_mq_urgent`. */
    method LinkStep(t: ThreadId)
      requires Valid() && Works(Abs(), t) && calls[t].work.Filled?
      modifies this, next
      ensures Shape()
      ensures Abs() == LinkSlot(old(Abs()), t)
    {
      LinkOwn(t);
      calls := calls - {t};
      if receivers != [] {
        calls := Resumed(calls, receivers[0], EOk);
        receivers := receivers[1..];
      }
    }

    /** Links the slot of thread `t`, at the front if it is urgent. */
    method LinkOwn(t: ThreadId)
      requires Valid() && Works(Abs(), t) && calls[t].work.Filled?
      modifies `head, `tail, `entry, `queueList, `deque, next
      ensures Shape()
      ensures var Holding(slot, Filled(message, urgent)) := calls[t];
              && queueList == (if urgent then [slot] + old(queueList) else old(queueList) + [slot])
              && deque == (if urgent then [message] + old(deque) else old(deque) + [message])
    {
      var Holding(slot, Filled(message, urgent)) := calls[t];
      assert t in Holders(calls);
      if urgent {
        PushFront(slot, message);
      } else {
        PushBack(slot, message);
      }
    }

    method PushFront(slot: nat, message: Message)
      requires Shape() && slot < next.Length && slot !in freeList && slot !in queueList
      requires forall t :: t in calls && calls[t].Holding? && calls[t].work.Filled? && !calls[t].work.urgent ==>
                        calls[t].slot != slot
      modifies `head, `tail, `entry, `queueList, `deque, next
      ensures Shape() && queueList == [slot] + old(queueList) && deque == [message] + old(deque)
    {
      LinkedElsewhere(next[..], free, freeList, slot, head);
      LinkedPush(next[..], head, queueList, slot);
      next[slot] := head;
      assert next[..] == old(next[..])[slot := head];
      head := slot;
      if tail == -1 {
        tail := slot;
      }
      entry := entry + 1;
      queueList := [slot] + queueList;
      deque := [message] + deque;
    }

    method PushBack(slot: nat, message: Message)
      requires Valid() && slot < next.Length && slot !in freeList && slot !in queueList && next[slot] == -1
      modifies `head, `tail, `entry, `queueList, `deque, next
      ensures Shape() && queueList == old(queueList) + [slot] && deque == old(deque) + [message]
    {
      if tail != -1 {
        assert tail == queueList[|queueList| - 1];
        LinkedAppend(next[..], head, queueList, slot);
        LinkedElsewhere(next[..], free, freeList, tail, slot);
        next[tail] := slot;
        assert next[..] == old(next[..])[tail := slot];
      }
      tail := slot;
      if head == -1 {
        head := slot;
      }
      entry := entry + 1;
      queueList := queueList + [slot];
      deque := deque + [message];
    }

    /** Unlink the first slot of the queue. */
    method PopFront() returns (slot: nat)
      requires Shape() && NoDuplicates(queueList) && entry != 0 && |deque| == |queueList|
      modifies `head, `tail, `entry, `queueList, `deque
      ensures Shape()
      ensures old(queueList) == [slot] + queueList && deque == old(deque)[1..]
    {
      slot := head;
      head := next[slot];
      assert tail == slot <==> |queueList| == 1;
      if tail == slot {
        tail := -1;
      }
      entry := entry - 1;
      queueList := queueList[1..];
      deque := deque[1..];
    }

    /** One pass of the loop in `rt_mq_recv`. */
    method RecvPass(t: ThreadId, room: nat, timeout: int, prio: Priorities) returns (r: Result)
      requires Shape() && NoDuplicates(queueList) && |deque| == |queueList|
      modifies this
      ensures Shape()
      ensures (Abs(), r) == TryRecv(old(Abs()), t, room, timeout, prio)
    {
      if entry == 0 {
        if timeout == 0 {
          calls := calls - {t};
          r := Returns(ETimeout);
        } else {
          calls := calls[t := Waiting(room, timeout)];
          receivers := ListSuspend(receivers, t, flag, prio);
          r := Blocks;
        }
      } else {
        var message := deque[0];
        var slot := PopFront();
        calls := calls[t := Holding(slot, Taken(message, room))];
        r := Continues;
      }
    }

    /** A resumed receiver runs on. */
    method RunOn(t: ThreadId, elapsed: nat, prio: Priorities) returns (r: Result)
      requires Shape() && NoDuplicates(queueList) && |deque| == |queueList| && t in calls && calls[t].Woken?
      modifies this
      ensures Shape()
      ensures (Abs(), r) == WakeUp(old(Abs()), t, elapsed, prio)
    {
      var Woken(room, timeout, error) := calls[t];
      if error != EOk {
        calls := calls - {t};
        r := Returns(error);
      } else {
        r := RecvPass(t, room, Remaining(timeout, elapsed), prio);
      }
    }

    /** The copy out of the slot, with interrupts enabled. */
    method CopyStep(t: ThreadId)
      requires Shape() && Works(Abs(), t) && calls[t].work.Taken? && calls[t].slot < data.Length
      modifies this
      ensures Shape()
      ensures Abs() == CopyMessage(old(Abs()), t)
    {
      var Holding(slot, Taken(message, room)) := calls[t];
      var n := Min(Min(room, msgSize), |data[slot]|);
      calls := calls[t := Holding(slot, Copied(message, room, data[slot][..n]))];
    }

    /** Put a slot in front of the free list. */
    method PushFree(slot: nat)
      requires Shape() && slot < next.Length && slot !in freeList && slot !in queueList
      requires forall t :: t in calls && calls[t].Holding? && calls[t].work.Filled? && !calls[t].work.urgent ==>
                        calls[t].slot != slot
      modifies `free, `freeList, next
      ensures Shape() && freeList == [slot] + old(freeList)
    {
      LinkedElsewhere(next[..], head, queueList, slot, free);
      LinkedPush(next[..], free, freeList, slot);
      next[slot] := free;
      assert next[..] == old(next[..])[slot := free];
      free := slot;
      freeList := [slot] + freeList;
    }

    /** Last critical region of `rt_mq_recv`. */
    method ReleaseStep(t: ThreadId) returns (r: Result)
      requires Valid() && Works(Abs(), t) && calls[t].work.Copied?
      modifies this, next
      ensures Shape()
      ensures (Abs(), r) == ReleaseSlot(old(Abs()), t)
    {
      assert t in Holders(calls);
      r := Delivers(calls[t].work.out);
      PushFree(calls[t].slot);
      calls := calls - {t};
    }

    method TimerFires(t: ThreadId)
      requires Shape()
      modifies this
      ensures Shape()
      ensures Abs() == TimedOut(old(Abs()), t)
    {
      receivers := Without(receivers, t);
      calls := Resumed(calls, t, ETimeout);
    }

    method ResumeReceivers()
      requires Shape()
      modifies `receivers, `calls
      ensures Shape() && receivers == [] && calls == ResumedAll(old(calls), old(receivers))
    {
      while receivers != []
        invariant Shape()
        invariant ResumedAll(calls, receivers) == ResumedAll(old(calls), old(receivers))
        decreases |receivers|
      {
        calls := Resumed(calls, receivers[0], EError);
        receivers := receivers[1..];
      }
    }

    /** Move every linked slot to the front of the free list. */
    method DrainQueue()
      requires Shape() && NoDuplicates(queueList) && |deque| == |queueList|
      requires forall x :: x in queueList ==> x < next.Length && x !in freeList
      requires forall t :: t in calls && calls[t].Holding? ==> calls[t].slot !in queueList
      modifies `head, `tail, `entry, `queueList, `deque, `free, `freeList, next
      ensures Shape() && queueList == [] && deque == []
      ensures freeList == Reversed(old(queueList)) + old(freeList)
    {
      while head != -1
        invariant Shape() && NoDuplicates(queueList) && |deque| == |queueList|
        invariant forall x :: x in queueList ==> x < next.Length && x !in freeList
        invariant forall t :: t in calls && calls[t].Holding? ==> calls[t].slot !in queueList
        invariant Reversed(queueList) + freeList == Reversed(old(queueList)) + old(freeList)
        decreases |queueList|
      {
        DrainOne();
      }
    }

    /** Moves the first slot of the queue to the free list. */
    method DrainOne()
      requires Shape() && NoDuplicates(queueList) && |deque| == |queueList| && head != -1
      requires forall x :: x in queueList ==> x < next.Length && x !in freeList
      requires forall t :: t in calls && calls[t].Holding? ==> calls[t].slot !in queueList
      modifies `head, `tail, `entry, `queueList, `deque, `free, `freeList, next
      ensures Shape() && NoDuplicates(queueList) && |deque| == |queueList| == |old(queueList)| - 1
      ensures forall x :: x in queueList ==> x in old(queueList) && x !in freeList
      ensures Reversed(queueList) + freeList == Reversed(old(queueList)) + old(freeList)
    {
      ghost var list, rest := queueList, freeList;
      TailMembers(list);
      var slot := PopFront();
      assert slot == list[0] && queueList == list[1..];
      PushFree(slot);
      ReversedStep(list, rest);
    }

    /** `rt_mq_control` with RT_IPC_CMD_RESET: resume the receivers with an error and move
        every linked slot to the free list. */
    method ResetQueue()
      requires Valid() && |deque| == |queueList|
      modifies this, next
      ensures Shape()
      ensures Abs() == Cleared(old(Abs()))
    {
      NoHolderIn(Abs());
      ResumedAllCalls(calls, receivers);
      ResumeReceivers();
      DrainQueue();
      entry := 0;
    }

    /** Any step the kernel allows, run on the object. */
    method Perform(a: Action) returns (r: Result)
      requires Shape() && Inv(Abs()) && Enabled(Abs(), a)
      modifies this, next, data
      ensures Shape() && Inv(Abs())
      ensures (Abs(), r) == Step(old(Abs()), a)
    {
      StepKeepsInv(Abs(), a);
      r := Continues;
      match a {
        case Send(t, message, urgent) => r := ClaimSlot(t, message, urgent);
        case Fill(t) => FillStep(t);
        case Link(t) => LinkStep(t); r := Returns(EOk);
        case Recv(t, room, timeout, prio) => r := RecvPass(t, room, timeout, prio);
        case Wake(t, elapsed, prio) => r := RunOn(t, elapsed, prio);
        case Timeout(t) => TimerFires(t);
        case CopyOut(t) => CopyStep(t);
        case Release(t) => r := ReleaseStep(t);
        case Reset => ResetQueue();
      }
    }
  }

  lemma ReversedStep(list: seq<nat>, rest: seq<nat>)
    requires list != []
    ensures Reversed(list) + rest == Reversed(list[1..]) + ([list[0]] + rest)
  {
    AssociateSlots(Reversed(list[1..]), [list[0]], rest);
  }

  lemma AssociateSlots(a: seq<nat>, b: seq<nat>, c: seq<nat>)
    ensures a + b + c == a + (b + c)
  {
  }

  lemma NoHolderIn(s: State)
    requires Partition(s)
    ensures forall t :: t in s.calls && s.calls[t].Holding? ==> s.calls[t].slot !in s.queue
  {
    forall t | t in s.calls && s.calls[t].Holding? ensures s.calls[t].slot !in s.queue {
      assert t in Holders(s.calls);
    }
  }
}
