/** The blocking mailbox: `rt_mb_send_wait`, `rt_mb_recv` and the reset command.

    Every stretch that runs with interrupts disabled is one atomic step.  A call
    that has to wait is split in two or more steps: the one that suspends the
    thread and the one that runs when the scheduler picks it again. */
module Mailbox {
  import opened Bytes
  import opened Collections
  import opened WaitList

  datatype Role = Sender(mail: nat) | Receiver

  /** A call that has started and not returned.  `waiting` means suspended on the
      mailbox; otherwise the thread was resumed with `error` and has not run yet. */
  datatype Call = Call(role: Role, timeout: int, waiting: bool, error: Error)

  datatype State = State(
    size: nat,
    flag: Flag,
    mails: seq<nat>,
    receivers: seq<ThreadId>,
    senders: seq<ThreadId>,
    calls: map<ThreadId, Call>,
    committed: seq<nat>,   // mails stored since the last reset
    received: seq<nat>)    // mails handed out since the last reset

  datatype Result = Blocks | Returns(error: Error) | Delivers(mail: nat) | Silent

  datatype Action =
    | Send(t: ThreadId, mail: nat, timeout: int, prio: Priorities)
    | Recv(t: ThreadId, timeout: int, prio: Priorities)
    | Wake(t: ThreadId, elapsed: nat, prio: Priorities)   // a resumed thread runs on
    | Timeout(t: ThreadId)                                // its timer fires
    | Reset

  ghost function Initial(size: nat, flag: Flag): State {
    State(size, flag, [], [], [], map[], [], [])
  }

  // ----- the steps

  function Resumed(calls: map<ThreadId, Call>, t: ThreadId, e: Error): map<ThreadId, Call> {
    if t in calls then calls[t := calls[t].(waiting := false, error := e)] else calls
  }

  function ResumedAll(calls: map<ThreadId, Call>, list: seq<ThreadId>): map<ThreadId, Call> {
    if list == [] then calls
    else ResumedAll(Resumed(calls, list[0], EError), list[1..])
  }

  /** Store a mail and resume the first waiting receiver. */
  function Store(s: State, t: ThreadId, mail: nat): State {
    var s1 := s.(mails := s.mails + [mail], committed := s.committed + [mail], calls := s.calls - {t});
    if s1.receivers != [] then
      s1.(receivers := s1.receivers[1..], calls := Resumed(s1.calls, s1.receivers[0], EOk))
    else s1
  }

  /** Take the oldest mail and resume the first waiting sender. */
  function Fetch(s: State, t: ThreadId): State
    requires s.mails != []
  {
    var s1 := s.(mails := s.mails[1..], received := s.received + [s.mails[0]], calls := s.calls - {t});
    if s1.senders != [] then
      s1.(senders := s1.senders[1..], calls := Resumed(s1.calls, s1.senders[0], EOk))
    else s1
  }

  function TrySend(s: State, t: ThreadId, mail: nat, timeout: int, prio: Priorities): (State, Result) {
    if |s.mails| != s.size then (Store(s, t, mail), Returns(EOk))
    else if timeout == 0 then (s.(calls := s.calls - {t}), Returns(EFull))
    else
      (s.(senders := Suspended(s.senders, t, s.flag, prio),
          calls := s.calls[t := Call(Sender(mail), timeout, true, EOk)]), Blocks)
  }

  function TryRecv(s: State, t: ThreadId, timeout: int, prio: Priorities): (State, Result) {
    if |s.mails| != 0 then (Fetch(s, t), Delivers(s.mails[0]))
    else if timeout == 0 then (s.(calls := s.calls - {t}), Returns(ETimeout))
    else
      (s.(receivers := Suspended(s.receivers, t, s.flag, prio),
          calls := s.calls[t := Call(Receiver, timeout, true, EOk)]), Blocks)
  }

  function WakeUp(s: State, t: ThreadId, elapsed: nat, prio: Priorities): (State, Result)
    requires t in s.calls
  {
    var c := s.calls[t];
    if c.error != EOk then (s.(calls := s.calls - {t}), Returns(c.error))
    else if c.role.Sender? then TrySend(s, t, c.role.mail, Remaining(c.timeout, elapsed), prio)
    else TryRecv(s, t, Remaining(c.timeout, elapsed), prio)
  }

  function TimedOut(s: State, t: ThreadId): State
    requires t in s.calls
  {
    s.(receivers := Without(s.receivers, t),
       senders := Without(s.senders, t),
       calls := Resumed(s.calls, t, ETimeout))
  }

  function Cleared(s: State): State {
    s.(mails := [], receivers := [], senders := [], committed := [], received := [],
       calls := ResumedAll(ResumedAll(s.calls, s.receivers), s.senders))
  }

  /** What the kernel allows: a thread starts a call only when it is in none, runs on
      only when it was resumed, and has a timer only when it waits for a bounded time. */
  ghost predicate Enabled(s: State, a: Action) {
    match a
    case Send(t, _, _, _) => t !in s.calls
    case Recv(t, _, _) => t !in s.calls
    case Wake(t, _, _) => t in s.calls && !s.calls[t].waiting
    case Timeout(t) => t in s.calls && s.calls[t].waiting && 0 < s.calls[t].timeout
    case Reset => true
  }

  ghost function Step(s: State, a: Action): (State, Result)
    requires Enabled(s, a)
  {
    match a
    case Send(t, mail, timeout, prio) => TrySend(s, t, mail, timeout, prio)
    case Recv(t, timeout, prio) => TryRecv(s, t, timeout, prio)
    case Wake(t, elapsed, prio) => WakeUp(s, t, elapsed, prio)
    case Timeout(t) => (TimedOut(s, t), Silent)
    case Reset => (Cleared(s), Silent)
  }

  ghost predicate IsRun(s: State, run: seq<Action>, s': State)
    decreases run
  {
    if run == [] then s == s'
    else Enabled(s, run[0]) && IsRun(Step(s, run[0]).0, run[1..], s')
  }

  // ----- the invariant

  ghost predicate Waits(s: State, t: ThreadId, sender: bool) {
    t in s.calls && s.calls[t].waiting && s.calls[t].role.Sender? == sender
  }

  /** Threads that were resumed without error and have not run yet. */
  ghost function Runnable(calls: map<ThreadId, Call>, sender: bool): set<ThreadId> {
    set t | t in calls && !calls[t].waiting && calls[t].error == EOk && calls[t].role.Sender? == sender
  }

  ghost predicate ListsMatchCalls(s: State) {
    && NoDuplicates(s.receivers)
    && NoDuplicates(s.senders)
    && (forall t :: t in s.receivers <==> Waits(s, t, false))
    && (forall t :: t in s.senders <==> Waits(s, t, true))
  }

  /** A mail never lies there while a receiver sleeps, unless enough receivers are
      already on their way to fetch it; and the same for free slots and senders. */
  ghost predicate NoLostWakeUp(s: State) {
    && (s.receivers != [] ==> |s.mails| <= |Runnable(s.calls, false)|)
    && (s.senders != [] ==> s.size - |s.mails| <= |Runnable(s.calls, true)|)
  }

  ghost predicate FirstInFirstOut(s: State) {
    s.received + s.mails == s.committed
  }

  ghost predicate Inv(s: State) {
    && 0 < s.size
    && |s.mails| <= s.size
    && ListsMatchCalls(s)
    && NoLostWakeUp(s)
    && FirstInFirstOut(s)
  }

  // ----- preservation

  lemma RunnableAfterRemoval(calls: map<ThreadId, Call>, t: ThreadId)
    ensures forall b :: Runnable(calls - {t}, b) == Runnable(calls, b) - {t}
  {
  }

  lemma RunnableAfterResume(calls: map<ThreadId, Call>, t: ThreadId)
    requires t in calls && calls[t].waiting
    ensures var b := calls[t].role.Sender?;
            && |Runnable(Resumed(calls, t, EOk), b)| == |Runnable(calls, b)| + 1
            && Runnable(Resumed(calls, t, EOk), !b) == Runnable(calls, !b)
  {
    var b := calls[t].role.Sender?;
    assert Runnable(Resumed(calls, t, EOk), b) == Runnable(calls, b) + {t};
    assert Runnable(Resumed(calls, t, EOk), !b) == Runnable(calls, !b);
  }

  /** A call that ends removes at most one runnable thread of its own kind. */
  lemma RunnableAfterReturn(s: State, t: ThreadId, sender: bool)
    requires t in s.calls ==> !s.calls[t].waiting && (s.calls[t].error == EOk ==> s.calls[t].role.Sender? == sender)
    ensures |Runnable(s.calls - {t}, sender)| >= |Runnable(s.calls, sender)| - 1
    ensures Runnable(s.calls - {t}, !sender) == Runnable(s.calls, !sender)
    ensures t !in Runnable(s.calls, sender) ==> Runnable(s.calls - {t}, sender) == Runnable(s.calls, sender)
  {
    RunnableAfterRemoval(s.calls, t);
    assert Runnable(s.calls, !sender) - {t} == Runnable(s.calls, !sender);
    if t in Runnable(s.calls, sender) {
      assert |Runnable(s.calls, sender) - {t}| == |Runnable(s.calls, sender)| - 1;
    }
  }

  lemma StoreKeepsInv(s: State, t: ThreadId, mail: nat)
    requires Inv(s) && |s.mails| < s.size
    requires t in s.calls ==> !s.calls[t].waiting && (s.calls[t].error == EOk ==> s.calls[t].role.Sender?)
    ensures Inv(Store(s, t, mail))
  {
    var s1 := s.(mails := s.mails + [mail], committed := s.committed + [mail], calls := s.calls - {t});
    RunnableAfterReturn(s, t, true);
    assert s1.received + s1.mails == (s.received + s.mails) + [mail];
    assert forall x :: Waits(s1, x, true) <==> Waits(s, x, true);
    assert forall x :: Waits(s1, x, false) <==> Waits(s, x, false);
    if s.receivers != [] {
      var h := s.receivers[0];
      assert Waits(s, h, false);
      RunnableAfterResume(s1.calls, h);
      var s2 := Store(s, t, mail);
      assert forall x :: Waits(s2, x, true) <==> Waits(s1, x, true);
      assert forall x :: Waits(s2, x, false) <==> Waits(s1, x, false) && x != h;
    }
  }

  lemma FetchKeepsInv(s: State, t: ThreadId)
    requires Inv(s) && s.mails != []
    requires t in s.calls ==> !s.calls[t].waiting && (s.calls[t].error == EOk ==> s.calls[t].role.Receiver?)
    ensures Inv(Fetch(s, t))
  {
    var s1 := s.(mails := s.mails[1..], received := s.received + [s.mails[0]], calls := s.calls - {t});
    RunnableAfterReturn(s, t, false);
    assert s1.received + s1.mails == s.received + s.mails;
    assert forall x :: Waits(s1, x, true) <==> Waits(s, x, true);
    assert forall x :: Waits(s1, x, false) <==> Waits(s, x, false);
    if s.senders != [] {
      var h := s.senders[0];
      assert Waits(s, h, true);
      RunnableAfterResume(s1.calls, h);
      var s2 := Fetch(s, t);
      assert forall x :: Waits(s2, x, true) <==> Waits(s1, x, true) && x != h;
      assert forall x :: Waits(s2, x, false) <==> Waits(s1, x, false);
    }
  }

  /** A call that returns without touching the mails. */
  lemma ReturnKeepsInv(s: State, t: ThreadId, sender: bool)
    requires Inv(s)
    requires t in s.calls ==> !s.calls[t].waiting && (s.calls[t].error == EOk ==> s.calls[t].role.Sender? == sender)
    requires t in Runnable(s.calls, sender) ==> |s.mails| == (if sender then s.size else 0)
    ensures Inv(s.(calls := s.calls - {t}))
  {
    var s1 := s.(calls := s.calls - {t});
    RunnableAfterReturn(s, t, sender);
    assert forall x :: Waits(s1, x, true) <==> Waits(s, x, true);
    assert forall x :: Waits(s1, x, false) <==> Waits(s, x, false);
  }

  /** A thread that is not waiting yet, seen before its call is set to waiting. */
  lemma BlockedCalls(s: State, t: ThreadId, role: Role, timeout: int)
    requires Inv(s) && |s.mails| == (if role.Sender? then s.size else 0)
    requires t in s.calls ==> !s.calls[t].waiting && (s.calls[t].error == EOk ==> s.calls[t].role.Sender? == role.Sender?)
    ensures var s1, s2 := s.(calls := s.calls - {t}), s.(calls := s.calls[t := Call(role, timeout, true, EOk)]);
            && Inv(s1) && !Waits(s1, t, true) && !Waits(s1, t, false)
            && (forall b :: Runnable(s2.calls, b) == Runnable(s1.calls, b))
            && (forall x, b :: Waits(s2, x, b) <==> Waits(s1, x, b) || (x == t && b == role.Sender?))
  {
    ReturnKeepsInv(s, t, role.Sender?);
  }

  lemma BlockKeepsInv(s: State, t: ThreadId, role: Role, timeout: int, prio: Priorities)
    requires Inv(s) && |s.mails| == (if role.Sender? then s.size else 0)
    requires t in s.calls ==> !s.calls[t].waiting && (s.calls[t].error == EOk ==> s.calls[t].role.Sender? == role.Sender?)
    ensures var s2 := s.(calls := s.calls[t := Call(role, timeout, true, EOk)]);
            && (role.Sender? ==> Inv(s2.(senders := Suspended(s.senders, t, s.flag, prio))))
            && (role.Receiver? ==> Inv(s2.(receivers := Suspended(s.receivers, t, s.flag, prio))))
  {
    BlockedCalls(s, t, role, timeout);
    var s1, s2 := s.(calls := s.calls - {t}), s.(calls := s.calls[t := Call(role, timeout, true, EOk)]);
    var list := if role.Sender? then s.senders else s.receivers;
    SuspendedMembers(list, t, s.flag, prio);
    SuspendedNoDuplicates(list, t, s.flag, prio);
    var s3 := if role.Sender? then s2.(senders := Suspended(s.senders, t, s.flag, prio))
              else s2.(receivers := Suspended(s.receivers, t, s.flag, prio));
    assert forall x, b :: Waits(s3, x, b) <==> Waits(s2, x, b);
  }

  lemma TimedOutKeepsInv(s: State, t: ThreadId)
    requires Inv(s) && t in s.calls && s.calls[t].waiting
    ensures Inv(TimedOut(s, t))
  {
    var s' := TimedOut(s, t);
    WithoutMembers(s.receivers, t);
    WithoutMembers(s.senders, t);
    assert forall b :: Runnable(s'.calls, b) == Runnable(s.calls, b);
    assert forall x, b :: Waits(s', x, b) <==> Waits(s, x, b) && x != t;
    assert t in s.receivers ==> t !in s.senders;
  }

  lemma {:induction false} ResumedAllCalls(calls: map<ThreadId, Call>, list: seq<ThreadId>)
    ensures var calls' := ResumedAll(calls, list);
            && calls'.Keys == calls.Keys
            && forall t :: t in calls ==> calls'[t] == if t in list then calls[t].(waiting := false, error := EError) else calls[t]
  {
    if list != [] {
      assert list == [list[0]] + list[1..];
      ResumedAllCalls(Resumed(calls, list[0], EError), list[1..]);
    }
  }

  lemma ClearedKeepsInv(s: State)
    requires Inv(s)
    ensures Inv(Cleared(s))
  {
    ResumedAllCalls(s.calls, s.receivers);
    ResumedAllCalls(ResumedAll(s.calls, s.receivers), s.senders);
    var s' := Cleared(s);
    forall t ensures !Waits(s', t, true) && !Waits(s', t, false) {
      if t in s.calls && s.calls[t].waiting {
        assert Waits(s, t, s.calls[t].role.Sender?);
      }
    }
  }

  lemma SendKeepsInv(s: State, t: ThreadId, mail: nat, timeout: int, prio: Priorities)
    requires Inv(s)
    requires t in s.calls ==> !s.calls[t].waiting && (s.calls[t].error == EOk ==> s.calls[t].role.Sender?)
    ensures Inv(TrySend(s, t, mail, timeout, prio).0)
  {
    if |s.mails| != s.size {
      StoreKeepsInv(s, t, mail);
    } else if timeout == 0 {
      ReturnKeepsInv(s, t, true);
    } else {
      BlockKeepsInv(s, t, Sender(mail), timeout, prio);
    }
  }

  lemma RecvKeepsInv(s: State, t: ThreadId, timeout: int, prio: Priorities)
    requires Inv(s)
    requires t in s.calls ==> !s.calls[t].waiting && (s.calls[t].error == EOk ==> s.calls[t].role.Receiver?)
    ensures Inv(TryRecv(s, t, timeout, prio).0)
  {
    if |s.mails| != 0 {
      FetchKeepsInv(s, t);
    } else if timeout == 0 {
      ReturnKeepsInv(s, t, false);
    } else {
      BlockKeepsInv(s, t, Receiver, timeout, prio);
    }
  }

  lemma StepKeepsInv(s: State, a: Action)
    requires Inv(s) && Enabled(s, a)
    ensures Inv(Step(s, a).0)
  {
    match a {
      case Send(t, mail, timeout, prio) => SendKeepsInv(s, t, mail, timeout, prio);
      case Recv(t, timeout, prio) => RecvKeepsInv(s, t, timeout, prio);
      case Wake(t, elapsed, prio) =>
        var c := s.calls[t];
        if c.error != EOk {
          ReturnKeepsInv(s, t, c.role.Sender?);
        } else if c.role.Sender? {
          SendKeepsInv(s, t, c.role.mail, Remaining(c.timeout, elapsed), prio);
        } else {
          RecvKeepsInv(s, t, Remaining(c.timeout, elapsed), prio);
        }
      case Timeout(t) => TimedOutKeepsInv(s, t);
      case Reset => ClearedKeepsInv(s);
    }
  }

  // ----- theorems over whole runs

  lemma {:induction false} RunKeepsInv(s: State, run: seq<Action>, s': State)
    requires Inv(s) && IsRun(s, run, s')
    ensures Inv(s')
    decreases run
  {
    if run != [] {
      StepKeepsInv(s, run[0]);
      RunKeepsInv(Step(s, run[0]).0, run[1..], s');
    }
  }

  /** In every reachable state no wake-up has been lost and mails come out in the order
      they were stored. */
  lemma EveryRun(size: nat, flag: Flag, run: seq<Action>, s: State)
    requires 0 < size && IsRun(Initial(size, flag), run, s)
    ensures NoLostWakeUp(s)
    ensures FirstInFirstOut(s) && |s.mails| <= s.size
    ensures forall t :: t in s.receivers <==> Waits(s, t, false)
    ensures forall t :: t in s.senders <==> Waits(s, t, true)
  {
    RunKeepsInv(Initial(size, flag), run, s);
  }

  /** When no resumed thread is left to run, a sleeping receiver means an empty mailbox and
      a sleeping sender a full one, so the two never sleep side by side. */
  lemma QuiescentMailbox(size: nat, flag: Flag, run: seq<Action>, s: State)
    requires 0 < size && IsRun(Initial(size, flag), run, s)
    requires forall t :: t in s.calls ==> s.calls[t].waiting
    ensures s.receivers != [] ==> s.mails == []
    ensures s.senders != [] ==> |s.mails| == s.size
    ensures s.receivers == [] || s.senders == []
  {
    RunKeepsInv(Initial(size, flag), run, s);
    RunSize(Initial(size, flag), run, s);
    assert Runnable(s.calls, true) == {} && Runnable(s.calls, false) == {};
  }

  lemma {:induction false} RunSize(s: State, run: seq<Action>, s': State)
    requires IsRun(s, run, s')
    ensures s'.size == s.size
    decreases run
  {
    if run != [] {
      RunSize(Step(s, run[0]).0, run[1..], s');
    }
  }

  // ----- the kernel object

  /** `struct rt_mailbox`: a ring over a fixed pool, and the calls in progress. */
  class MailboxObject {
    const pool: array<nat>
    const flag: Flag
    var entry: nat
    var inOffset: nat
    var outOffset: nat
    var receivers: seq<ThreadId>
    var senders: seq<ThreadId>
    var calls: map<ThreadId, Call>
    ghost var committed: seq<nat>
    ghost var received: seq<nat>

    /** `inOffset` is `outOffset + entry` modulo the size of the ring. */
    ghost predicate RingValid()
      reads this
    {
      && 0 < pool.Length <= 65535
      && entry <= pool.Length
      && outOffset < pool.Length
      && inOffset == (if outOffset + entry < pool.Length then outOffset + entry else outOffset + entry - pool.Length)
    }

    ghost predicate Valid()
      reads this, pool
    {
      RingValid() && Inv(Abs())
    }

    /** The mails in the ring, oldest first. */
    ghost function Mails(): (r: seq<nat>)
      requires outOffset < pool.Length && entry <= pool.Length
      reads `outOffset, `entry, pool
      ensures |r| == entry
    {
      if outOffset + entry <= pool.Length then pool[outOffset..outOffset + entry]
      else pool[outOffset..] + pool[..outOffset + entry - pool.Length]
    }

    ghost function Abs(): State
      requires outOffset < pool.Length && entry <= pool.Length
      reads this, pool
    {
      State(pool.Length, flag, Mails(), receivers, senders, calls, committed, received)
    }

    /** `rt_mb_init`. */
    constructor (size: nat, flag: Flag)
      requires 1 <= size <= 65535
      ensures Valid() && fresh(pool)
      ensures Abs() == Initial(size, flag)
    {
      this.pool := new nat[size];
      this.flag := flag;
      entry, inOffset, outOffset := 0, 0, 0;
      receivers, senders, calls := [], [], map[];
      committed, received := [], [];
    }

    /** Write at `inOffset` and advance it round the ring. */
    method Put(mail: nat)
      requires RingValid() && entry < pool.Length
      modifies `inOffset, `entry, pool
      ensures RingValid() && Mails() == old(Mails()) + [mail]
    {
      pool[inOffset] := mail;
      inOffset := inOffset + 1;
      if inOffset >= pool.Length {
        inOffset := 0;
      }
      entry := entry + 1;
    }

    /** Read at `outOffset` and advance it round the ring. */
    method Take() returns (mail: nat)
      requires RingValid() && 0 < entry
      modifies `outOffset, `entry
      ensures RingValid() && mail == old(Mails())[0] && Mails() == old(Mails())[1..]
    {
      mail := pool[outOffset];
      outOffset := outOffset + 1;
      if outOffset >= pool.Length {
        outOffset := 0;
      }
      entry := entry - 1;
    }

    /** One pass of the loop in `rt_mb_send_wait`: wait while full, else store. */
    method SendPass(t: ThreadId, mail: nat, timeout: int, prio: Priorities) returns (r: Result)
      requires RingValid()
      modifies this, pool
      ensures RingValid()
      ensures (Abs(), r) == TrySend(old(Abs()), t, mail, timeout, prio)
    {
      if entry == pool.Length {
        if timeout == 0 {
          calls := calls - {t};
          r := Returns(EFull);
        } else {
          calls := calls[t := Call(Sender(mail), timeout, true, EOk)];
          senders := ListSuspend(senders, t, flag, prio);
          r := Blocks;
        }
      } else {
        StoreMail(t, mail);
        r := Returns(EOk);
      }
    }

    /** Stores a mail and resumes one receiver. */
    method StoreMail(t: ThreadId, mail: nat)
      requires RingValid() && entry < pool.Length
      modifies this, pool
      ensures RingValid() && Abs() == Store(old(Abs()), t, mail)
    {
      Put(mail);
      committed := committed + [mail];
      calls := calls - {t};
      if receivers != [] {
        calls := Resumed(calls, receivers[0], EOk);
        receivers := receivers[1..];
      }
    }

    /** One pass of the loop in `rt_mb_recv`: wait while empty, else fetch. */
    method RecvPass(t: ThreadId, timeout: int, prio: Priorities) returns (r: Result)
      requires RingValid()
      modifies this
      ensures RingValid()
      ensures (Abs(), r) == TryRecv(old(Abs()), t, timeout, prio)
    {
      if entry == 0 {
        if timeout == 0 {
          calls := calls - {t};
          r := Returns(ETimeout);
        } else {
          calls := calls[t := Call(Receiver, timeout, true, EOk)];
          receivers := ListSuspend(receivers, t, flag, prio);
          r := Blocks;
        }
      } else {
        var mail := FetchMail(t);
        r := Delivers(mail);
      }
    }

    /** Takes a mail and resumes one sender. */
    method FetchMail(t: ThreadId) returns (mail: nat)
      requires RingValid() && entry != 0
      modifies this
      ensures RingValid() && mail == old(Mails())[0] && Abs() == Fetch(old(Abs()), t)
    {
      mail := Take();
      ghost var rest := Mails();
      ResumeSender(t, mail);
      assert Mails() == rest;
    }

    method ResumeSender(t: ThreadId, ghost mail: nat)
      modifies `received, `calls, `senders
      ensures received == old(received) + [mail]
      ensures calls == if old(senders) == [] then old(calls) - {t} else Resumed(old(calls) - {t}, old(senders)[0], EOk)
      ensures senders == if old(senders) == [] then [] else old(senders)[1..]
    {
      received := received + [mail];
      calls := calls - {t};
      if senders != [] {
        calls := Resumed(calls, senders[0], EOk);
        senders := senders[1..];
      }
    }

    /** A resumed thread runs on: return the error it was resumed with, or try again with
        the waiting time that is left. */
    method RunOn(t: ThreadId, elapsed: nat, prio: Priorities) returns (r: Result)
      requires RingValid() && t in calls
      modifies this, pool
      ensures RingValid()
      ensures (Abs(), r) == WakeUp(old(Abs()), t, elapsed, prio)
    {
      var c := calls[t];
      if c.error != EOk {
        calls := calls - {t};
        r := Returns(c.error);
      } else {
        var timeout := c.timeout;
        if timeout > 0 {
          timeout := Int32(timeout - elapsed);
          if timeout < 0 {
            timeout := 0;
          }
        }
        match c.role {
          case Sender(mail) => r := SendPass(t, mail, timeout, prio);
          case Receiver => r := RecvPass(t, timeout, prio);
        }
      }
    }

    /** Remove the thread from its list and resume it with a timeout error. */
    method TimerFires(t: ThreadId)
      requires RingValid() && t in calls
      modifies this
      ensures RingValid()
      ensures Abs() == TimedOut(old(Abs()), t)
    {
      receivers := Without(receivers, t);
      senders := Without(senders, t);
      calls := Resumed(calls, t, ETimeout);
    }

    /** Resume every waiting thread with an error and empty the ring. */
    method Clear()
      requires RingValid()
      modifies this
      ensures RingValid()
      ensures Abs() == Cleared(old(Abs()))
    {
      ghost var before := Abs();
      while receivers != []
        invariant ResumedAll(calls, receivers) == ResumedAll(before.calls, before.receivers)
        invariant senders == before.senders
        decreases |receivers|
      {
        calls := Resumed(calls, receivers[0], EError);
        receivers := receivers[1..];
      }
      while senders != []
        invariant receivers == []
        invariant ResumedAll(calls, senders) == ResumedAll(ResumedAll(before.calls, before.receivers), before.senders)
        decreases |senders|
      {
        calls := Resumed(calls, senders[0], EError);
        senders := senders[1..];
      }
      entry, inOffset, outOffset := 0, 0, 0;
      committed, received := [], [];
    }

    /** Any step the kernel allows, run on the object: it is the step of the specification
        and keeps the invariant. */
    method Perform(a: Action) returns (r: Result)
      requires Valid() && Enabled(Abs(), a)
      modifies this, pool
      ensures Valid()
      ensures (Abs(), r) == Step(old(Abs()), a)
    {
      StepKeepsInv(Abs(), a);
      match a {
        case Send(t, mail, timeout, prio) => r := SendPass(t, mail, timeout, prio);
        case Recv(t, timeout, prio) => r := RecvPass(t, timeout, prio);
        case Wake(t, elapsed, prio) => r := RunOn(t, elapsed, prio);
        case Timeout(t) => TimerFires(t); r := Silent;
        case Reset => Clear(); r := Silent;
      }
    }
  }
}
