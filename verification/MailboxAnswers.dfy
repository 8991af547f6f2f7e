/** What the callers of the mailbox are told, and whom it serves first. */
module MailboxAnswers {
  import opened Bytes
  import opened Collections
  import opened WaitList
  import opened WaitOrder
  import opened Mailbox

  lemma Reachable(size: nat, flag: Flag, run: seq<Action>, s: State)
    requires 0 < size && IsRun(Initial(size, flag), run, s)
    ensures Inv(s) && s.size == size
  {
    assert Inv(Initial(size, flag));
    RunKeepsInv(Initial(size, flag), run, s);
    RunSize(Initial(size, flag), run, s);
  }

  // ----- the answer of one pass

  /** A send is accepted exactly when the mailbox is not full; otherwise it gives up exactly when it has
      no time left. */
  lemma SendAnswer(size: nat, flag: Flag, run: seq<Action>, s: State, t: ThreadId, mail: nat, timeout: int, prio: Priorities)
    requires 0 < size && IsRun(Initial(size, flag), run, s) && t !in s.calls
    ensures var (s', r) := Step(s, Send(t, mail, timeout, prio));
            && (r == Returns(EOk) <==> |s.mails| < size)
            && (r == Returns(EFull) <==> |s.mails| == size && timeout == 0)
            && (r == Blocks <==> |s.mails| == size && timeout != 0)
            && (r == Returns(EOk) ==> s'.mails == s.mails + [mail] && t !in s'.calls)
            && (r != Returns(EOk) ==> s'.mails == s.mails)
            && (r == Blocks <==> Waits(s', t, true))
  {
    Reachable(size, flag, run, s);
    PassAnswers(s, t, mail, timeout, prio);
  }

  /** A receive is answered with the oldest mail exactly when there is one; otherwise it gives up
      exactly when it has no time left. */
  lemma RecvAnswer(size: nat, flag: Flag, run: seq<Action>, s: State, t: ThreadId, timeout: int, prio: Priorities)
    requires 0 < size && IsRun(Initial(size, flag), run, s) && t !in s.calls
    ensures var (s', r) := Step(s, Recv(t, timeout, prio));
            && (r.Delivers? <==> s.mails != [])
            && (r.Delivers? ==> s.mails == [r.mail] + s'.mails && t !in s'.calls)
            && (r == Returns(ETimeout) <==> s.mails == [] && timeout == 0)
            && (r == Blocks <==> s.mails == [] && timeout != 0)
            && (!r.Delivers? ==> s'.mails == s.mails)
            && (r == Blocks <==> Waits(s', t, false))
  {
    Reachable(size, flag, run, s);
    PassAnswers(s, t, 0, timeout, prio);
  }

  /** A thread in a call that is not suspended is on neither list. */
  lemma PassAnswers(s: State, t: ThreadId, mail: nat, timeout: int, prio: Priorities)
    requires Inv(s) && (t in s.calls ==> !s.calls[t].waiting)
    ensures t !in s.senders && t !in s.receivers
    ensures var (s', r) := TrySend(s, t, mail, timeout, prio);
            && r == (if |s.mails| < s.size then Returns(EOk) else if timeout == 0 then Returns(EFull) else Blocks)
            && s'.mails == (if |s.mails| < s.size then s.mails + [mail] else s.mails)
            && (if r == Blocks then Waits(s', t, true) && s'.calls[t].role == Sender(mail) && s'.calls[t].timeout == timeout
                else t !in s'.calls)
    ensures var (s', r) := TryRecv(s, t, timeout, prio);
            && r == (if s.mails != [] then Delivers(s.mails[0]) else if timeout == 0 then Returns(ETimeout) else Blocks)
            && s'.mails == (if s.mails != [] then s.mails[1..] else s.mails)
            && (if r == Blocks then Waits(s', t, false) && s'.calls[t].timeout == timeout else t !in s'.calls)
  {
    assert t in s.senders <==> Waits(s, t, true);
    assert t in s.receivers <==> Waits(s, t, false);
    assert s.senders != [] ==> s.senders[0] in s.senders;
    assert s.receivers != [] ==> s.receivers[0] in s.receivers;
  }

  // ----- the whole story, from calls and answers alone

  /** What the callers have seen since the last reset: mails of accepted sends and mails received, in
      order.  `pending` is the mail of each thread's last send call. */
  datatype Story = Story(pending: map<ThreadId, nat>, accepted: seq<nat>, delivered: seq<nat>)

  function Told(o: Story, a: Action, r: Result): Story {
    match a
    case Send(t, mail, _, _) =>
      Story(o.pending[t := mail], if r == Returns(EOk) then o.accepted + [mail] else o.accepted, o.delivered)
    case Recv(t, _, _) => Story(o.pending - {t}, o.accepted, if r.Delivers? then o.delivered + [r.mail] else o.delivered)
    case Wake(t, _, _) =>
      Story(o.pending,
            if r == Returns(EOk) && t in o.pending then o.accepted + [o.pending[t]] else o.accepted,
            if r.Delivers? then o.delivered + [r.mail] else o.delivered)
    case Timeout(_) => o
    case Reset => Story(o.pending, [], [])
  }

  ghost function StoryOf(s: State, run: seq<Action>, o: Story): Story
    decreases run
  {
    if run == [] || !Enabled(s, run[0]) then o
    else StoryOf(Step(s, run[0]).0, run[1..], Told(o, run[0], Step(s, run[0]).1))
  }

  ghost predicate SenderKnown(pending: map<ThreadId, nat>, calls: map<ThreadId, Call>, t: ThreadId) {
    t in calls && calls[t].role.Sender? ==> t in pending && pending[t] == calls[t].role.mail
  }

  ghost predicate StoryMatches(o: Story, s: State) {
    o.accepted == s.committed && o.delivered == s.received && forall t :: SenderKnown(o.pending, s.calls, t)
  }

  /** Every call but that of `t` is about what it was about before. */
  ghost predicate SameRoles(calls: map<ThreadId, Call>, calls': map<ThreadId, Call>, t: ThreadId) {
    forall u :: u in calls' && u != t ==> u in calls && calls'[u].role == calls[u].role
  }

  lemma StillKnown(calls: map<ThreadId, Call>, calls': map<ThreadId, Call>, pending: map<ThreadId, nat>, t: ThreadId)
    requires (forall u :: SenderKnown(pending, calls, u)) && SameRoles(calls, calls', t) && SenderKnown(pending, calls', t)
    ensures forall u :: SenderKnown(pending, calls', u)
  {
    forall u ensures SenderKnown(pending, calls', u) {
      assert SenderKnown(pending, calls, u);
    }
  }

  lemma PassRoles(s: State, t: ThreadId, mail: nat, timeout: int, prio: Priorities)
    ensures SameRoles(s.calls, TrySend(s, t, mail, timeout, prio).0.calls, t)
    ensures SameRoles(s.calls, TryRecv(s, t, timeout, prio).0.calls, t)
  {
  }

  lemma SendTold(s: State, o: Story, t: ThreadId, mail: nat, timeout: int, prio: Priorities)
    requires Inv(s) && StoryMatches(o, s) && (t in s.calls ==> !s.calls[t].waiting) && t in o.pending && o.pending[t] == mail
    ensures var (s', r) := TrySend(s, t, mail, timeout, prio);
            && StoryMatches(Story(o.pending, if r == Returns(EOk) then o.accepted + [mail] else o.accepted, o.delivered), s')
            && !r.Delivers?
  {
    var s' := TrySend(s, t, mail, timeout, prio).0;
    PassAnswers(s, t, mail, timeout, prio);
    PassRoles(s, t, mail, timeout, prio);
    StillKnown(s.calls, s'.calls, o.pending, t);
  }

  lemma RecvTold(s: State, o: Story, t: ThreadId, timeout: int, prio: Priorities)
    requires Inv(s) && StoryMatches(o, s) && (t in s.calls ==> !s.calls[t].waiting && s.calls[t].role.Receiver?)
    ensures var (s', r) := TryRecv(s, t, timeout, prio);
            && StoryMatches(Story(o.pending, o.accepted, if r.Delivers? then o.delivered + [r.mail] else o.delivered), s')
            && r != Returns(EOk)
  {
    var s' := TryRecv(s, t, timeout, prio).0;
    PassAnswers(s, t, 0, timeout, prio);
    PassRoles(s, t, 0, timeout, prio);
    assert t in s'.calls ==> s'.calls[t].role.Receiver?;
    StillKnown(s.calls, s'.calls, o.pending, t);
  }

  /** What a thread outside every call has sent before does not matter. */
  lemma Forgotten(o: Story, s: State, t: ThreadId, pending: map<ThreadId, nat>)
    requires StoryMatches(o, s) && t !in s.calls
    requires forall u :: u != t && u in o.pending ==> u in pending && pending[u] == o.pending[u]
    ensures StoryMatches(Story(pending, o.accepted, o.delivered), s)
  {
    forall u ensures SenderKnown(pending, s.calls, u) {
      assert SenderKnown(o.pending, s.calls, u);
    }
  }

  lemma WakeTold(s: State, o: Story, t: ThreadId, elapsed: nat, prio: Priorities)
    requires Inv(s) && Enabled(s, Wake(t, elapsed, prio)) && StoryMatches(o, s)
    ensures StoryMatches(Told(o, Wake(t, elapsed, prio), WakeUp(s, t, elapsed, prio).1), WakeUp(s, t, elapsed, prio).0)
  {
    var c := s.calls[t];
    assert SenderKnown(o.pending, s.calls, t);
    if c.error != EOk {
      StillKnown(s.calls, s.calls - {t}, o.pending, t);
    } else if c.role.Sender? {
      SendTold(s, o, t, c.role.mail, Remaining(c.timeout, elapsed), prio);
    } else {
      RecvTold(s, o, t, Remaining(c.timeout, elapsed), prio);
    }
  }

  lemma ResetTold(s: State, o: Story)
    requires StoryMatches(o, s)
    ensures StoryMatches(Story(o.pending, [], []), Cleared(s))
  {
    ResumedAllCalls(s.calls, s.receivers);
    ResumedAllCalls(ResumedAll(s.calls, s.receivers), s.senders);
    forall u ensures SenderKnown(o.pending, Cleared(s).calls, u) {
      assert SenderKnown(o.pending, s.calls, u);
    }
  }

  lemma StepTold(s: State, a: Action, o: Story)
    requires Inv(s) && Enabled(s, a) && StoryMatches(o, s)
    ensures StoryMatches(Told(o, a, Step(s, a).1), Step(s, a).0)
  {
    match a {
      case Send(t, mail, timeout, prio) =>
        Forgotten(o, s, t, o.pending[t := mail]);
        SendTold(s, Story(o.pending[t := mail], o.accepted, o.delivered), t, mail, timeout, prio);
      case Recv(t, timeout, prio) =>
        Forgotten(o, s, t, o.pending - {t});
        RecvTold(s, Story(o.pending - {t}, o.accepted, o.delivered), t, timeout, prio);
      case Wake(t, elapsed, prio) => WakeTold(s, o, t, elapsed, prio);
      case Timeout(t) =>
        assert SenderKnown(o.pending, s.calls, t);
        StillKnown(s.calls, TimedOut(s, t).calls, o.pending, t);
      case Reset => ResetTold(s, o);
    }
  }

  lemma {:induction false} RunTold(s: State, run: seq<Action>, s': State, o: Story)
    requires Inv(s) && IsRun(s, run, s') && StoryMatches(o, s)
    ensures StoryMatches(StoryOf(s, run, o), s')
    decreases run
  {
    if run != [] {
      StepKeepsInv(s, run[0]);
      StepTold(s, run[0], o);
      RunTold(Step(s, run[0]).0, run[1..], s', Told(o, run[0], Step(s, run[0]).1));
    }
  }

  /** In every run, the mails the receivers were given, in order, followed by the mails still stored,
      are the mails of the sends that were told success, in order, since the last reset. */
  lemma DeliveredInOrder(size: nat, flag: Flag, run: seq<Action>, s: State)
    requires 0 < size && IsRun(Initial(size, flag), run, s)
    ensures var o := StoryOf(Initial(size, flag), run, Story(map[], [], []));
            o.delivered + s.mails == o.accepted
  {
    RunKeepsInv(Initial(size, flag), run, s);
    RunTold(Initial(size, flag), run, s, Story(map[], [], []));
  }

  // ----- the answer of a call that waited

  ghost predicate NoWake(run: seq<Action>, t: ThreadId) {
    forall i :: 0 <= i < |run| && run[i].Wake? ==> run[i].t != t
  }

  /** A mail that is stored, or a slot that gets free, resumes the thread at the head of the other list
      and nobody else; every other call stays as it is. */
  lemma ResumesHead(s: State, t: ThreadId, mail: nat, timeout: int, prio: Priorities, u: ThreadId)
    requires Inv(s) && (t in s.calls ==> !s.calls[t].waiting) && u in s.calls && u != t
    ensures var s' := TrySend(s, t, mail, timeout, prio).0;
            u in s'.calls && s'.calls[u] == if |s.mails| < s.size && s.receivers != [] && u == s.receivers[0]
                                            then s.calls[u].(waiting := false, error := EOk) else s.calls[u]
    ensures var s' := TryRecv(s, t, timeout, prio).0;
            u in s'.calls && s'.calls[u] == if s.mails != [] && s.senders != [] && u == s.senders[0]
                                            then s.calls[u].(waiting := false, error := EOk) else s.calls[u]
  {
  }

  /** The reset command empties the mailbox and resumes everybody who waits, with an error. */
  lemma ResetAnswer(s: State, u: ThreadId)
    requires Inv(s) && u in s.calls
    ensures var s' := Step(s, Reset).0;
            && s'.mails == [] && s'.receivers == [] && s'.senders == [] && u in s'.calls
            && s'.calls[u] == if s.calls[u].waiting then s.calls[u].(waiting := false, error := EError) else s.calls[u]
  {
    ResumedAllCalls(s.calls, s.receivers);
    ResumedAllCalls(ResumedAll(s.calls, s.receivers), s.senders);
    assert u in s.receivers <==> Waits(s, u, false);
    assert u in s.senders <==> Waits(s, u, true);
  }

  /** How far a waiting call has come while its thread has not run. */
  ghost predicate Waited(c: Call, role: Role, timeout: int, timedOut: bool, cleared: bool) {
    && c.role == role && c.timeout == timeout
    && (c.waiting ==> !timedOut && !cleared)
    && (!c.waiting ==> (c.error == ETimeout <==> timedOut) && (c.error == EError ==> cleared))
    && (!c.waiting ==> c.error in {EOk, ETimeout, EError})
  }

  lemma HeadsWait(s: State)
    requires Inv(s)
    ensures s.senders != [] ==> Waits(s, s.senders[0], true)
    ensures s.receivers != [] ==> Waits(s, s.receivers[0], false)
  {
    assert s.senders != [] ==> s.senders[0] in s.senders;
    assert s.receivers != [] ==> s.receivers[0] in s.receivers;
  }

  /** A step of another thread leaves a call alone or resumes it. */
  lemma OtherPass(s: State, a: Action, t: ThreadId)
    requires Inv(s) && Enabled(s, a) && (a.Send? || a.Recv? || a.Wake?) && a.t != t && t in s.calls
    ensures var c, calls' := s.calls[t], Step(s, a).0.calls;
            t in calls' && (calls'[t] == c || (c.waiting && calls'[t] == c.(waiting := false, error := EOk)))
  {
    HeadsWait(s);
    match a {
      case Send(u, mail, time, prio) => ResumesHead(s, u, mail, time, prio, t);
      case Recv(u, time, prio) => ResumesHead(s, u, 0, time, prio, t);
      case Wake(u, elapsed, prio) =>
        var c := s.calls[u];
        ResumesHead(s, u, if c.role.Sender? then c.role.mail else 0, Remaining(c.timeout, elapsed), prio, t);
    }
  }

  lemma WaitedStep(s: State, a: Action, t: ThreadId, role: Role, timeout: int, timedOut: bool, cleared: bool)
    requires Inv(s) && Enabled(s, a) && (a.Wake? ==> a.t != t)
    requires t in s.calls && Waited(s.calls[t], role, timeout, timedOut, cleared)
    ensures t in Step(s, a).0.calls
    ensures Waited(Step(s, a).0.calls[t], role, timeout, timedOut || a == Timeout(t), cleared || a == Reset)
  {
    if a == Reset {
      ResetAnswer(s, t);
    } else if !a.Timeout? {
      OtherPass(s, a, t);
    }
  }

  lemma {:induction false} WaitedRun(
    s: State, run: seq<Action>, s': State, t: ThreadId, role: Role, timeout: int, timedOut: bool, cleared: bool)
    requires Inv(s) && IsRun(s, run, s') && NoWake(run, t)
    requires t in s.calls && Waited(s.calls[t], role, timeout, timedOut, cleared)
    ensures Inv(s') && t in s'.calls
    ensures Waited(s'.calls[t], role, timeout, timedOut || Timeout(t) in run, cleared || Reset in run)
    decreases run
  {
    if run != [] {
      StepKeepsInv(s, run[0]);
      WaitedStep(s, run[0], t, role, timeout, timedOut, cleared);
      WaitedRun(Step(s, run[0]).0, run[1..], s', t, role, timeout,
                timedOut || run[0] == Timeout(t), cleared || run[0] == Reset);
      assert run == [run[0]] + run[1..];
    }
  }

  /** In every run, a call that waits goes on waiting until it is resumed.  When its thread runs, it is
      told a timeout exactly if its timer fired, an error only after a reset, and otherwise it makes
      another pass with the time that is left. */
  lemma EveryWait(
    size: nat, flag: Flag, before: seq<Action>, s: State, t: ThreadId, run: seq<Action>, s': State, elapsed: nat, prio: Priorities)
    requires 0 < size && IsRun(Initial(size, flag), before, s) && t in s.calls && s.calls[t].waiting
    requires IsRun(s, run, s') && NoWake(run, t)
    ensures t in s'.calls && s'.calls[t].role == s.calls[t].role && s'.calls[t].timeout == s.calls[t].timeout
    ensures s'.calls[t].waiting ==> Timeout(t) !in run && Reset !in run
    ensures !s'.calls[t].waiting ==>
              var r, left := Step(s', Wake(t, elapsed, prio)).1, Remaining(s.calls[t].timeout, elapsed);
              if Timeout(t) in run then r == Returns(ETimeout)
              else || (r == Returns(EError) && Reset in run)
                   || (s.calls[t].role.Sender? &&
                       r == if |s'.mails| < size then Returns(EOk) else if left == 0 then Returns(EFull) else Blocks)
                   || (s.calls[t].role.Receiver? &&
                       r == if s'.mails != [] then Delivers(s'.mails[0]) else if left == 0 then Returns(ETimeout) else Blocks)
  {
    Reachable(size, flag, before, s);
    RunSize(s, run, s');
    var c := s.calls[t];
    WaitedRun(s, run, s', t, c.role, c.timeout, false, false);
    if !s'.calls[t].waiting {
      PassAnswers(s', t, if c.role.Sender? then c.role.mail else 0, Remaining(c.timeout, elapsed), prio);
    }
  }

  // ----- the order of service

  ghost function Line(s: State, sender: bool): seq<ThreadId> {
    if sender then s.senders else s.receivers
  }

  lemma AheadPass(s: State, t: ThreadId, mail: nat, timeout: int, prio: Priorities, x: ThreadId, y: ThreadId, sender: bool)
    requires Inv(s) && (t in s.calls ==> !s.calls[t].waiting) && Ahead(Line(s, sender), x, y)
    ensures var s' := TrySend(s, t, mail, timeout, prio).0; Waits(s', x, sender) ==> Ahead(Line(s', sender), x, y)
    ensures var s' := TryRecv(s, t, timeout, prio).0; Waits(s', x, sender) ==> Ahead(Line(s', sender), x, y)
  {
    SuspendedKeepsOrder(Line(s, sender), t, s.flag, prio, x, y);
    assert x in Line(s, sender);
    assert Waits(s, x, sender);
    ResumesHead(s, t, mail, timeout, prio, x);
    if x != Line(s, sender)[0] {
      TailKeepsOrder(Line(s, sender), x, y);
    }
  }

  lemma AheadStep(s: State, a: Action, x: ThreadId, y: ThreadId, sender: bool)
    requires Inv(s) && Enabled(s, a) && Ahead(Line(s, sender), x, y)
    requires Waits(Step(s, a).0, x, sender) && a != Timeout(y)
    ensures Ahead(Line(Step(s, a).0, sender), x, y)
  {
    match a {
      case Send(t, mail, timeout, prio) => AheadPass(s, t, mail, timeout, prio, x, y, sender);
      case Recv(t, timeout, prio) => AheadPass(s, t, 0, timeout, prio, x, y, sender);
      case Wake(t, elapsed, prio) =>
        var c := s.calls[t];
        AheadPass(s, t, if c.role.Sender? then c.role.mail else 0, Remaining(c.timeout, elapsed), prio, x, y, sender);
      case Timeout(t) => WithoutKeepsOrder(Line(s, sender), t, x, y);
      case Reset =>
        assert x in Line(s, sender);
        ResetAnswer(s, x);
    }
  }

  lemma {:induction false} AheadRun(s: State, run: seq<Action>, s': State, x: ThreadId, y: ThreadId, sender: bool)
    requires Inv(s) && IsRun(s, run, s') && NoWake(run, x) && Timeout(y) !in run
    requires Ahead(Line(s, sender), x, y) && Waits(s', x, sender)
    ensures Ahead(Line(s', sender), x, y)
    decreases run
  {
    if run != [] {
      var s1 := Step(s, run[0]).0;
      assert x in Line(s, sender) && Waits(s, x, sender);
      StepKeepsInv(s, run[0]);
      StillWaits(s, run[0], run[1..], s', x);
      AheadStep(s, run[0], x, y, sender);
      AheadRun(s1, run[1..], s', x, y, sender);
    }
  }

  /** A thread that waits at the end has waited all the time. */
  lemma StillWaits(s: State, a: Action, run: seq<Action>, s': State, x: ThreadId)
    requires Inv(s) && Enabled(s, a) && (a.Wake? ==> a.t != x) && x in s.calls && s.calls[x].waiting
    requires IsRun(Step(s, a).0, run, s') && NoWake(run, x) && x in s'.calls && s'.calls[x].waiting
    ensures x in Step(s, a).0.calls && s.calls[x].role == Step(s, a).0.calls[x].role && Step(s, a).0.calls[x].waiting
  {
    var c := s.calls[x];
    StepKeepsInv(s, a);
    WaitedStep(s, a, x, c.role, c.timeout, false, false);
    if !Step(s, a).0.calls[x].waiting {
      StaysAwake(Step(s, a).0, run, s', x);
    }
  }

  lemma {:induction false} StaysAwake(s: State, run: seq<Action>, s': State, x: ThreadId)
    requires Inv(s) && IsRun(s, run, s') && NoWake(run, x) && x in s.calls && !s.calls[x].waiting
    ensures x in s'.calls && !s'.calls[x].waiting
    decreases run
  {
    if run != [] {
      StepKeepsInv(s, run[0]);
      AwakeStep(s, run[0], x);
      StaysAwake(Step(s, run[0]).0, run[1..], s', x);
    }
  }

  lemma AwakeStep(s: State, a: Action, x: ThreadId)
    requires Inv(s) && Enabled(s, a) && (a.Wake? ==> a.t != x) && x in s.calls && !s.calls[x].waiting
    ensures x in Step(s, a).0.calls && !Step(s, a).0.calls[x].waiting
  {
    if a == Reset {
      ResetAnswer(s, x);
    }
  }

  /** A thread that stands behind another in the list of senders or receivers is not served before it:
      in every run in which the first goes on waiting, the second goes on waiting behind it, unless its
      timer fires. */
  lemma NoOvertaking(
    size: nat, flag: Flag, before: seq<Action>, s: State, x: ThreadId, y: ThreadId, sender: bool, run: seq<Action>, s': State)
    requires 0 < size && IsRun(Initial(size, flag), before, s) && Ahead(Line(s, sender), x, y)
    requires IsRun(s, run, s') && NoWake(run, x) && Waits(s', x, sender)
    ensures Ahead(Line(s', sender), x, y) || Timeout(y) in run
  {
    Reachable(size, flag, before, s);
    if Timeout(y) !in run {
      AheadRun(s, run, s', x, y, sender);
    }
  }
}
