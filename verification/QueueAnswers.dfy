/** What the callers of the message queue are told, and whom it serves first. */
module QueueAnswers {
  import opened Bytes
  import opened Collections
  import opened WaitList
  import opened WaitOrder
  import opened MessageQueue

  lemma Reachable(s0: State, run: seq<Action>, s: State)
    requires Initial(s0) && IsRun(s0, run, s)
    ensures Inv(s) && s.msgSize == s0.msgSize && |s.data| == |s0.data|
  {
    InitialInv(s0);
    RunKeepsInv(s0, run, s);
    RunSizes(s0, run, s);
  }

  lemma {:induction false} RunSizes(s: State, run: seq<Action>, s': State)
    requires IsRun(s, run, s')
    ensures s'.msgSize == s.msgSize && |s'.data| == |s.data|
    decreases run
  {
    if run != [] {
      RunSizes(Step(s, run[0]).0, run[1..], s');
    }
  }

  // ----- the answer of a call that does not wait

  /** A send goes on exactly when the message is not longer than the queue's message size and some slot
      is neither queued nor held, and then it has a slot of its own; otherwise nothing changes. */
  lemma SendAnswer(s0: State, run: seq<Action>, s: State, t: ThreadId, message: Message, urgent: bool)
    requires Initial(s0) && IsRun(s0, run, s) && t !in s.calls
    ensures var (s', r) := Step(s, Send(t, message, urgent));
            && (r == Continues <==> |message| <= s0.msgSize && |s.queue| + |Holders(s.calls)| < |s0.data|)
            && (r == Returns(EError) <==> |message| > s0.msgSize)
            && (r == Returns(EFull) <==> |message| <= s0.msgSize && |s.queue| + |Holders(s.calls)| == |s0.data|)
            && (r == Continues ==>
                  && Works(s', t) && s'.calls[t].work == Claimed(message, urgent)
                  && s'.calls[t].slot < |s0.data| && s'.calls[t].slot !in s.queue
                  && forall u :: u in Holders(s.calls) ==> s.calls[u].slot != s'.calls[t].slot)
            && (r != Continues ==> s' == s)
  {
    Reachable(s0, run, s);
    assert s.free != [] ==> s.free[0] in s.free;
  }

  lemma PassAnswers(s: State, t: ThreadId, room: nat, timeout: int, prio: Priorities)
    requires Inv(s) && (t in s.calls ==> s.calls[t].Woken?)
    ensures var (s', r) := TryRecv(s, t, room, timeout, prio);
            && r == (if s.deque != [] then Continues else if timeout == 0 then Returns(ETimeout) else Blocks)
            && (r == Continues ==> Works(s', t) && s.deque == [s'.calls[t].work.message] + s'.deque
                                   && s'.calls[t].work == Taken(s.deque[0], room) && s'.calls[t].slot == s.queue[0])
            && (r == Blocks ==> s'.calls == s.calls[t := Waiting(room, timeout)] && t in s'.receivers && s'.deque == s.deque)
            && (r.Returns? ==> t !in s'.calls && s'.deque == s.deque)
  {
    assert s.deque == [] <==> s.queue == [];
    if s.deque == [] {
      SuspendedMembers(s.receivers, t, s.flag, prio);
    }
  }

  /** A receive takes the first message of the queue exactly when there is one; otherwise it gives up
      exactly when it was told not to wait. */
  lemma RecvAnswer(s0: State, run: seq<Action>, s: State, t: ThreadId, room: nat, timeout: int, prio: Priorities)
    requires Initial(s0) && IsRun(s0, run, s) && t !in s.calls
    ensures var (s', r) := Step(s, Recv(t, room, timeout, prio));
            && (r == Continues <==> s.deque != [])
            && (r == Returns(ETimeout) <==> s.deque == [] && timeout == 0)
            && (r == Blocks <==> s.deque == [] && timeout != 0)
            && (r == Continues ==> Works(s', t) && s'.calls[t].work.Taken? && s.deque == [s'.calls[t].work.message] + s'.deque)
            && (r == Blocks ==> t in s'.calls && s'.calls[t] == Waiting(room, timeout) && t in s'.receivers)
            && (r == Returns(ETimeout) ==> t !in s'.calls)
            && (r != Continues ==> s'.deque == s.deque)
  {
    Reachable(s0, run, s);
    PassAnswers(s, t, room, timeout, prio);
  }

  // ----- the whole story, from calls and answers alone

  /** What the callers have seen: the deque, and the buffer size of each thread's last receive call. */
  datatype Story = Story(deque: Deque, rooms: map<ThreadId, nat>)

  function RoomTold(o: Story, a: Action): nat {
    match a
    case Recv(_, room, _, _) => room
    case Wake(t, _, _) => if t in o.rooms then o.rooms[t] else 0
    case _ => 0
  }

  /** The answer is the one a deque of `slots` places gives. */
  ghost predicate Agreed(o: Story, a: Action, r: Result, msgSize: nat, slots: nat) {
    && Accepts(o.deque, EventOf(a, r, RoomTold(o, a)), msgSize)
    && match a
       case Send(_, message, _) =>
         r == if |message| > msgSize then Returns(EError)
              else if |o.deque.items| + |o.deque.offers| + |o.deque.taken| < slots then Continues
              else Returns(EFull)
       case Recv(_, _, timeout, _) =>
         r == if o.deque.items != [] then Continues else if timeout == 0 then Returns(ETimeout) else Blocks
       case Wake(_, _, _) => if o.deque.items != [] then r == Continues || r.Returns? else r == Blocks || r.Returns?
       case Link(_) => r == Returns(EOk)
       case Release(_) => r.Delivers?
       case _ => r == Continues
  }

  ghost function Told(o: Story, a: Action, r: Result, msgSize: nat): Story
    requires Accepts(o.deque, EventOf(a, r, RoomTold(o, a)), msgSize)
  {
    Story(Next(o.deque, EventOf(a, r, RoomTold(o, a)), msgSize), if a.Recv? then o.rooms[a.t := a.room] else o.rooms)
  }

  ghost predicate AgreedRun(o: Story, s: State, run: seq<Action>, msgSize: nat, slots: nat)
    decreases run
  {
    run != [] && Enabled(s, run[0]) ==>
      var (s', r) := Step(s, run[0]);
      Agreed(o, run[0], r, msgSize, slots) && AgreedRun(Told(o, run[0], r, msgSize), s', run[1..], msgSize, slots)
  }

  ghost predicate RoomKnown(rooms: map<ThreadId, nat>, calls: map<ThreadId, Stage>, t: ThreadId) {
    t in calls && !calls[t].Holding? ==> t in rooms && rooms[t] == calls[t].room
  }

  ghost predicate RoomsKnown(rooms: map<ThreadId, nat>, calls: map<ThreadId, Stage>) {
    forall t :: RoomKnown(rooms, calls, t)
  }

  /** A call that waits or was resumed keeps its buffer. */
  lemma RoomStep(s: State, a: Action, rooms: map<ThreadId, nat>, t: ThreadId)
    requires Enabled(s, a) && RoomKnown(rooms, s.calls, t)
    ensures RoomKnown(if a.Recv? then rooms[a.t := a.room] else rooms, Step(s, a).0.calls, t)
  {
    if a == Reset {
      ResumedAllCalls(s.calls, s.receivers);
    }
  }

  lemma RoomsStep(s: State, a: Action, rooms: map<ThreadId, nat>)
    requires Enabled(s, a) && RoomsKnown(rooms, s.calls)
    ensures RoomsKnown(if a.Recv? then rooms[a.t := a.room] else rooms, Step(s, a).0.calls)
  {
    var rooms', calls' := if a.Recv? then rooms[a.t := a.room] else rooms, Step(s, a).0.calls;
    forall t ensures RoomKnown(rooms', calls', t) {
      assert RoomKnown(rooms, s.calls, t);
      RoomStep(s, a, rooms, t);
    }
  }

  lemma HolderCount(calls: map<ThreadId, Stage>)
    ensures |Holders(calls)| == |Offers(calls)| + |TakenBy(calls)|
  {
    var a, b := Offers(calls), TakenBy(calls);
    assert a.Keys !! b.Keys;
    assert Holders(calls) == a.Keys + b.Keys;
    assert |a| == |a.Keys| && |b| == |b.Keys|;
  }

  lemma AnswerAgreed(s: State, a: Action, o: Story)
    requires Inv(s) && Enabled(s, a) && o.deque == Abstract(s) && RoomsKnown(o.rooms, s.calls)
    ensures Agreed(o, a, Step(s, a).1, s.msgSize, |s.data|)
    ensures Told(o, a, Step(s, a).1, s.msgSize).deque == Abstract(Step(s, a).0)
  {
    assert a.Wake? ==> RoomKnown(o.rooms, s.calls, a.t);
    assert RoomTold(o, a) == RoomOf(s, a);
    StepRefines(s, a);
    HolderCount(s.calls);
    match a {
      case Recv(t, room, timeout, prio) => PassAnswers(s, t, room, timeout, prio);
      case Wake(t, elapsed, prio) => PassAnswers(s, t, s.calls[t].room, Remaining(s.calls[t].timeout, elapsed), prio);
      case _ =>
    }
  }

  lemma {:induction false} RunAgreed(s: State, run: seq<Action>, o: Story)
    requires Inv(s) && o.deque == Abstract(s) && RoomsKnown(o.rooms, s.calls)
    ensures AgreedRun(o, s, run, s.msgSize, |s.data|)
    decreases run
  {
    if run != [] && Enabled(s, run[0]) {
      AnswerAgreed(s, run[0], o);
      RoomsStep(s, run[0], o.rooms);
      StepKeepsInv(s, run[0]);
      StepSizes(s, run[0]);
      RunAgreed(Step(s, run[0]).0, run[1..], Told(o, run[0], Step(s, run[0]).1, s.msgSize));
    }
  }

  lemma StepSizes(s: State, a: Action)
    requires Enabled(s, a)
    ensures Step(s, a).0.msgSize == s.msgSize && |Step(s, a).0.data| == |s.data|
  {
  }

  /** In every run, every call is answered as a deque of bounded capacity answers it, judged from the
      calls and the earlier answers alone: when a send is refused and why, which message a receive
      returns, and how much of it. */
  lemma EveryAnswer(s: State, run: seq<Action>)
    requires Initial(s)
    ensures AgreedRun(Story(Deque([], map[], map[]), map[]), s, run, s.msgSize, |s.data|)
  {
    InitialInv(s);
    assert Abstract(s) == Deque([], map[], map[]);
    RunAgreed(s, run, Story(Deque([], map[], map[]), map[]));
  }

  // ----- the answer of a receive that waited

  ghost predicate NoWake(run: seq<Action>, t: ThreadId) {
    forall i :: 0 <= i < |run| && run[i].Wake? ==> run[i].t != t
  }

  /** The reset command empties the queue, frees its slots and resumes everybody who waits, with an
      error; a thread that holds a slot keeps it. */
  lemma ResetAnswer(s: State, t: ThreadId)
    requires Inv(s) && t in s.calls
    ensures var s', c := Step(s, Reset).0, s.calls[t];
            && s'.queue == [] && s'.deque == [] && s'.receivers == [] && t in s'.calls
            && s'.calls[t] == if c.Waiting? then Woken(c.room, c.timeout, EError) else c
  {
    ResumedAllCalls(s.calls, s.receivers);
  }

  /** A step of another thread leaves a waiting or resumed receive alone, except that a message that is
      linked resumes the receive at the head of the list. */
  lemma OtherStep(s: State, a: Action, t: ThreadId)
    requires Inv(s) && Enabled(s, a) && t in s.calls && !s.calls[t].Holding?
    requires a != Reset && a != Timeout(t) && (a.Wake? ==> a.t != t)
    ensures var c, calls' := s.calls[t], Step(s, a).0.calls;
            && t in calls'
            && calls'[t] == if a.Link? && s.receivers != [] && t == s.receivers[0] then Woken(c.room, c.timeout, EOk) else c
  {
    assert s.receivers != [] ==> s.receivers[0] in s.receivers;
  }

  /** How far a waiting receive has come while its thread has not run. */
  ghost predicate Waited(c: Stage, room: nat, timeout: int, timedOut: bool, cleared: bool) {
    && !c.Holding? && c.room == room && c.timeout == timeout
    && (c.Waiting? ==> !timedOut && !cleared)
    && (c.Woken? ==> (c.error == ETimeout <==> timedOut) && (c.error == EError ==> cleared))
    && (c.Woken? ==> c.error in {EOk, ETimeout, EError})
  }

  lemma WaitedStep(s: State, a: Action, t: ThreadId, room: nat, timeout: int, timedOut: bool, cleared: bool)
    requires Inv(s) && Enabled(s, a) && (a.Wake? ==> a.t != t)
    requires t in s.calls && Waited(s.calls[t], room, timeout, timedOut, cleared)
    ensures t in Step(s, a).0.calls
    ensures Waited(Step(s, a).0.calls[t], room, timeout, timedOut || a == Timeout(t), cleared || a == Reset)
  {
    HeadWaits(s);
    if a == Reset {
      ResetAnswer(s, t);
    } else if a != Timeout(t) {
      OtherStep(s, a, t);
    }
  }

  lemma HeadWaits(s: State)
    requires Inv(s)
    ensures s.receivers != [] ==> s.receivers[0] in s.calls && s.calls[s.receivers[0]].Waiting?
  {
    assert s.receivers != [] ==> s.receivers[0] in s.receivers;
  }

  /** The same, to be opened only where it is needed. */
  ghost predicate WaitedIn(s: State, t: ThreadId, room: nat, timeout: int, timedOut: bool, cleared: bool) {
    forall z: nat :: Look(z) ==> Inv(s) && t in s.calls && Waited(s.calls[t], room, timeout, timedOut, cleared)
  }

  lemma WaitedInStep(s: State, a: Action, t: ThreadId, room: nat, timeout: int, timedOut: bool, cleared: bool)
    requires WaitedIn(s, t, room, timeout, timedOut, cleared) && Enabled(s, a) && (a.Wake? ==> a.t != t)
    ensures WaitedIn(Step(s, a).0, t, room, timeout, timedOut || a == Timeout(t), cleared || a == Reset)
  {
    assert Look(0);
    StepKeepsInv(s, a);
    WaitedStep(s, a, t, room, timeout, timedOut, cleared);
  }

  lemma {:induction false} WaitedRun(
    s: State, run: seq<Action>, s': State, t: ThreadId, room: nat, timeout: int, timedOut: bool, cleared: bool)
    requires IsRun(s, run, s') && NoWake(run, t) && WaitedIn(s, t, room, timeout, timedOut, cleared)
    ensures WaitedIn(s', t, room, timeout, timedOut || Timeout(t) in run, cleared || Reset in run)
    decreases run
  {
    if run != [] {
      WaitedInStep(s, run[0], t, room, timeout, timedOut, cleared);
      WaitedRun(Step(s, run[0]).0, run[1..], s', t, room, timeout,
                timedOut || run[0] == Timeout(t), cleared || run[0] == Reset);
      assert run == [run[0]] + run[1..];
    }
  }

  /** A resumed receive that runs returns its error, or makes another pass with the time that is left. */
  lemma WakeAnswer(s: State, t: ThreadId, elapsed: nat, prio: Priorities)
    requires Inv(s) && t in s.calls && s.calls[t].Woken?
    ensures var r, c := Step(s, Wake(t, elapsed, prio)).1, s.calls[t];
            r == if c.error != EOk then Returns(c.error) else if s.deque != [] then Continues
                 else if Remaining(c.timeout, elapsed) == 0 then Returns(ETimeout) else Blocks
  {
    PassAnswers(s, t, s.calls[t].room, Remaining(s.calls[t].timeout, elapsed), prio);
  }

  /** In every run, a receive that waits goes on waiting until it is resumed.  When its thread runs, it is
      told a timeout exactly if its timer fired, an error only after a reset, and otherwise it makes
      another pass with its own buffer and the time that is left. */
  lemma EveryWait(
    s0: State, before: seq<Action>, s: State, t: ThreadId, run: seq<Action>, s': State, elapsed: nat, prio: Priorities)
    requires Initial(s0) && IsRun(s0, before, s) && t in s.calls && s.calls[t].Waiting?
    requires IsRun(s, run, s') && NoWake(run, t)
    ensures t in s'.calls && !s'.calls[t].Holding?
    ensures s'.calls[t].room == s.calls[t].room && s'.calls[t].timeout == s.calls[t].timeout
    ensures s'.calls[t].Waiting? ==> Timeout(t) !in run && Reset !in run
    ensures s'.calls[t].Woken? ==>
              var r, left := Step(s', Wake(t, elapsed, prio)).1, Remaining(s.calls[t].timeout, elapsed);
              if Timeout(t) in run then r == Returns(ETimeout)
              else || (r == Returns(EError) && Reset in run)
                   || r == if s'.deque != [] then Continues else if left == 0 then Returns(ETimeout) else Blocks
  {
    assert WaitedIn(s, t, s.calls[t].room, s.calls[t].timeout, false, false) by {
      Reachable(s0, before, s);
    }
    var c := s.calls[t];
    WaitedRun(s, run, s', t, c.room, c.timeout, false, false);
    assert Look(0);
    if s'.calls[t].Woken? {
      WakeAnswer(s', t, elapsed, prio);
    }
  }

  // ----- the order of service

  lemma AheadStep(s: State, a: Action, x: ThreadId, y: ThreadId)
    requires Inv(s) && Enabled(s, a) && Ahead(s.receivers, x, y)
    requires x in Step(s, a).0.calls && Step(s, a).0.calls[x].Waiting? && a != Timeout(y)
    ensures Ahead(Step(s, a).0.receivers, x, y)
  {
    assert x in s.receivers && s.calls[x].Waiting?;
    match a {
      case Link(t) =>
        OtherStep(s, a, x);
        TailKeepsOrder(s.receivers, x, y);
      case Recv(t, _, _, prio) => SuspendedKeepsOrder(s.receivers, t, s.flag, prio, x, y);
      case Wake(t, _, prio) => SuspendedKeepsOrder(s.receivers, t, s.flag, prio, x, y);
      case Timeout(t) => WithoutKeepsOrder(s.receivers, t, x, y);
      case Reset => ResetAnswer(s, x);
      case _ =>
    }
  }

  lemma {:induction false} StaysAwake(s: State, run: seq<Action>, s': State, x: ThreadId)
    requires Inv(s) && IsRun(s, run, s') && NoWake(run, x) && x in s.calls && s.calls[x].Woken?
    ensures x in s'.calls && s'.calls[x].Woken?
    decreases run
  {
    if run != [] {
      var c := s.calls[x];
      StepKeepsInv(s, run[0]);
      AwakeStep(s, run[0], x);
      StaysAwake(Step(s, run[0]).0, run[1..], s', x);
    }
  }

  lemma AwakeStep(s: State, a: Action, x: ThreadId)
    requires Inv(s) && Enabled(s, a) && (a.Wake? ==> a.t != x) && x in s.calls && s.calls[x].Woken?
    ensures x in Step(s, a).0.calls && Step(s, a).0.calls[x].Woken?
  {
    if a == Reset {
      ResetAnswer(s, x);
    } else {
      OtherStep(s, a, x);
    }
  }

  /** A thread that waits at the end has waited all the time. */
  lemma StillWaits(s: State, a: Action, run: seq<Action>, s': State, x: ThreadId)
    requires Inv(s) && Enabled(s, a) && (a.Wake? ==> a.t != x) && x in s.calls && s.calls[x].Waiting?
    requires IsRun(Step(s, a).0, run, s') && NoWake(run, x) && x in s'.calls && s'.calls[x].Waiting?
    ensures x in Step(s, a).0.calls && Step(s, a).0.calls[x].Waiting?
  {
    StepKeepsInv(s, a);
    WaitedStep(s, a, x, s.calls[x].room, s.calls[x].timeout, false, false);
    if Step(s, a).0.calls[x].Woken? {
      StaysAwake(Step(s, a).0, run, s', x);
    }
  }

  lemma {:induction false} AheadRun(s: State, run: seq<Action>, s': State, x: ThreadId, y: ThreadId)
    requires Inv(s) && IsRun(s, run, s') && NoWake(run, x) && Timeout(y) !in run
    requires Ahead(s.receivers, x, y) && x in s'.calls && s'.calls[x].Waiting?
    ensures Ahead(s'.receivers, x, y)
    decreases run
  {
    if run != [] {
      assert x in s.receivers && s.calls[x].Waiting?;
      StepKeepsInv(s, run[0]);
      StillWaits(s, run[0], run[1..], s', x);
      AheadStep(s, run[0], x, y);
      AheadRun(Step(s, run[0]).0, run[1..], s', x, y);
    }
  }

  /** A receiver that stands behind another is not served before it: in every run in which the first goes
      on waiting, the second goes on waiting behind it, unless its timer fires. */
  lemma NoOvertaking(s0: State, before: seq<Action>, s: State, x: ThreadId, y: ThreadId, run: seq<Action>, s': State)
    requires Initial(s0) && IsRun(s0, before, s) && Ahead(s.receivers, x, y)
    requires IsRun(s, run, s') && NoWake(run, x) && x in s'.calls && s'.calls[x].Waiting?
    ensures Ahead(s'.receivers, x, y) || Timeout(y) in run
  {
    Reachable(s0, before, s);
    if Timeout(y) !in run {
      AheadRun(s, run, s', x, y);
    }
  }
}
