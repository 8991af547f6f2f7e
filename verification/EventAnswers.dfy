/** What the callers of an event are told, bit by bit. */
module EventAnswers {
  import opened Collections
  import opened WaitList
  import opened WaitOrder
  import opened Event

  /** RT_EVENT_FLAG_AND asks for every wanted bit, RT_EVENT_FLAG_OR for some wanted bit. */
  ghost predicate Met(want: Bits, options: Options, bits: Bits) {
    if options.all then forall b :: b in want ==> b in bits
    else exists b :: b in want && b in bits
  }

  lemma SatisfiedIsMet(want: Bits, options: Options, bits: Bits)
    requires options.all || options.any
    ensures Satisfied(want, options, bits) <==> Met(want, options, bits)
  {
    if options.all {
      if Met(want, options, bits) {
        assert want * bits == want;
      } else {
        var b :| b in want && b !in bits;
        assert b !in want * bits;
      }
    } else {
      if Met(want, options, bits) {
        var b :| b in want && b in bits;
        assert b in want * bits;
      } else {
        assert want * bits == {};
      }
    }
  }

  // ----- the answer of a call that does not wait

  /** `rt_event_recv` delivers the wanted bits that are set exactly when its condition is met, and takes
      them away exactly with RT_EVENT_FLAG_CLEAR; otherwise it gives up exactly when it was told not to
      wait, and changes no bit. */
  lemma RecvAnswer(s: State, t: ThreadId, want: Bits, options: Options, timeout: int, prio: Priorities)
    requires Enabled(s, Recv(t, want, options, timeout, prio))
    ensures var (s', r) := Step(s, Recv(t, want, options, timeout, prio));
            && (r == Returns(EError) <==> want == {})
            && (r.Delivers? <==> want != {} && Met(want, options, s.bits))
            && (r == Returns(ETimeout) <==> want != {} && !Met(want, options, s.bits) && timeout == 0)
            && (r == Blocks <==> want != {} && !Met(want, options, s.bits) && timeout != 0)
            && (r.Delivers? ==> && (forall b: Bit :: b in r.received <==> b in want && b in s.bits)
                                && (forall b: Bit :: b in s'.bits <==> b in s.bits && !(options.clear && b in want)))
            && (!r.Delivers? ==> s'.bits == s.bits)
            && (r == Blocks ==> t in s'.calls && s'.calls[t] == Waiting(want, options, timeout))
            && (r != Blocks ==> s'.calls == s.calls && s'.waiters == s.waiters)
  {
    SatisfiedIsMet(want, options, s.bits);
  }

  /** `rt_event_send` refuses exactly the empty mask. */
  lemma SendAnswer(s: State, added: Bits)
    ensures var (s', r) := Step(s, Send(added));
            && (r == Returns(EError) <==> added == {}) && (r == Returns(EOk) <==> added != {})
            && (added == {} ==> s' == s)
  {
  }

  // ----- sleepers

  ghost predicate Selective(calls: map<ThreadId, Call>, t: ThreadId) {
    t in calls && calls[t].Waiting? ==> calls[t].options.all || calls[t].options.any
  }

  lemma {:induction false} ScanCalls(s: State, todo: seq<ThreadId>, t: ThreadId)
    ensures t in Scan(s, todo).calls <==> t in s.calls
    ensures t in s.calls && Scan(s, todo).calls[t].Waiting? ==> Scan(s, todo).calls[t] == s.calls[t]
    decreases todo
  {
    if todo != [] {
      if Hit(s.calls, todo[0], s.bits) {
        var c := s.calls[todo[0]];
        var received := ReceivedBits(c, s.bits);
        ScanCalls(s.(bits := if c.options.clear then s.bits - received else s.bits,
                     calls := Resumed(s.calls, todo[0], received, EOk)), todo[1..], t);
      } else {
        ScanCalls(s.(waiters := s.waiters + [todo[0]]), todo[1..], t);
      }
    }
  }

  lemma SelectiveStep(s: State, a: Action, t: ThreadId)
    requires Enabled(s, a) && Selective(s.calls, t)
    ensures Selective(Step(s, a).0.calls, t)
  {
    match a {
      case Send(added) => ScanCalls(s.(bits := s.bits + added, waiters := []), s.waiters, t);
      case Reset => ResumedAllCalls(s.calls, s.waiters);
      case _ =>
    }
  }

  lemma {:induction false} SelectiveRun(s: State, run: seq<Action>, s': State, t: ThreadId)
    requires IsRun(s, run, s') && Selective(s.calls, t)
    ensures Selective(s'.calls, t)
    decreases run
  {
    if run != [] {
      SelectiveStep(s, run[0], t);
      SelectiveRun(Step(s, run[0]).0, run[1..], s', t);
    }
  }

  lemma Reachable(flag: Flag, run: seq<Action>, s: State)
    requires IsRun(State(flag, {}, [], map[]), run, s)
    ensures Inv(s) && forall t :: Selective(s.calls, t)
  {
    RunKeepsInv(State(flag, {}, [], map[]), run, s);
    forall t ensures Selective(s.calls, t) {
      SelectiveRun(State(flag, {}, [], map[]), run, s, t);
    }
  }

  /** In every reachable state, a thread that waits for all its bits lacks one of them, and a thread that
      waits for any of its bits has none. */
  lemma SleepersLackBits(flag: Flag, run: seq<Action>, s: State, t: ThreadId)
    requires IsRun(State(flag, {}, [], map[]), run, s) && t in s.calls && s.calls[t].Waiting?
    ensures s.calls[t].options.all ==> exists b :: b in s.calls[t].want && b !in s.bits
    ensures !s.calls[t].options.all ==> forall b :: b in s.calls[t].want ==> b !in s.bits
  {
    Reachable(flag, run, s);
    assert Selective(s.calls, t);
    assert !Hit(s.calls, t, s.bits);
    SatisfiedIsMet(s.calls[t].want, s.calls[t].options, s.bits);
  }

  // ----- what a send gives to the waiters

  /** What a resumed call has: all it asked for, or at least one of the bits it asked for. */
  ghost predicate Served(c: Call, received: Bits) {
    && c.Waiting? && received <= c.want && received != {}
    && (c.options.all ==> received == c.want)
  }

  ghost predicate Untouched(calls: map<ThreadId, Call>, calls': map<ThreadId, Call>, t: ThreadId) {
    t in calls' && t in calls && calls'[t] == calls[t]
  }

  lemma {:induction false} ScanElsewhere(s: State, todo: seq<ThreadId>, t: ThreadId)
    requires t in s.calls && t !in todo
    ensures Untouched(s.calls, Scan(s, todo).calls, t)
    decreases todo
  {
    if todo != [] {
      assert todo == [todo[0]] + todo[1..];
      if Hit(s.calls, todo[0], s.bits) {
        var c := s.calls[todo[0]];
        var received := ReceivedBits(c, s.bits);
        ScanElsewhere(s.(bits := if c.options.clear then s.bits - received else s.bits,
                         calls := Resumed(s.calls, todo[0], received, EOk)), todo[1..], t);
      } else {
        ScanElsewhere(s.(waiters := s.waiters + [todo[0]]), todo[1..], t);
      }
    }
  }

  lemma {:induction false} ScanTakesBits(s: State, todo: seq<ThreadId>)
    ensures Scan(s, todo).bits <= s.bits
    decreases todo
  {
    if todo != [] {
      if Hit(s.calls, todo[0], s.bits) {
        var c := s.calls[todo[0]];
        var received := ReceivedBits(c, s.bits);
        ScanTakesBits(s.(bits := if c.options.clear then s.bits - received else s.bits,
                         calls := Resumed(s.calls, todo[0], received, EOk)), todo[1..]);
      } else {
        ScanTakesBits(s.(waiters := s.waiters + [todo[0]]), todo[1..]);
      }
    }
  }

  lemma HitServes(c: Call, bits: Bits)
    requires c.Waiting? && c.want != {} && Satisfied(c.want, c.options, bits)
    ensures Served(c, ReceivedBits(c, bits)) && ReceivedBits(c, bits) == c.want * bits
  {
  }

  /** A thread of the list is passed over, or it is served with bits that were there; and what it
      clears is gone. */
  lemma {:induction false} ScanServes(s: State, todo: seq<ThreadId>, k: nat)
    requires NoDuplicates(todo) && k < |todo| && todo[k] in s.calls && s.calls[todo[k]].Waiting? && s.calls[todo[k]].want != {}
    ensures var s', c, t := Scan(s, todo), s.calls[todo[k]], todo[k];
            && t in s'.calls
            && (s'.calls[t] == c || (s'.calls[t].Woken? && s'.calls[t].error == EOk && Served(c, s'.calls[t].received)
                                     && s'.calls[t].received <= s.bits
                                     && (c.options.clear ==> s'.calls[t].received !! s'.bits)))
    decreases todo
  {
    var t, u := todo[k], todo[0];
    TailMembers(todo);
    if Hit(s.calls, u, s.bits) {
      var c := s.calls[u];
      var received := ReceivedBits(c, s.bits);
      var s1 := s.(bits := if c.options.clear then s.bits - received else s.bits, calls := Resumed(s.calls, u, received, EOk));
      if k == 0 {
        HitServes(c, s.bits);
        ScanElsewhere(s1, todo[1..], u);
        ScanTakesBits(s1, todo[1..]);
      } else {
        ScanServes(s1, todo[1..], k - 1);
      }
    } else {
      var s1 := s.(waiters := s.waiters + [u]);
      if k == 0 {
        ScanElsewhere(s1, todo[1..], u);
      } else {
        ScanServes(s1, todo[1..], k - 1);
      }
    }
  }

  /** A bit that one thread takes away is not given to a thread further down the list. */
  lemma {:induction false} ScanGivesOnce(s: State, todo: seq<ThreadId>, i: nat, j: nat)
    requires NoDuplicates(todo) && i < j < |todo|
    requires forall k :: 0 <= k < |todo| ==> todo[k] in s.calls && s.calls[todo[k]].Waiting? && s.calls[todo[k]].want != {}
    ensures var calls' := Scan(s, todo).calls;
            && todo[i] in calls' && todo[j] in calls'
            && (calls'[todo[i]].Woken? && calls'[todo[j]].Woken? && s.calls[todo[i]].options.clear ==>
                  calls'[todo[i]].received !! calls'[todo[j]].received)
    decreases todo
  {
    ScanServes(s, todo, i);
    ScanServes(s, todo, j);
    TailMembers(todo);
    var u := todo[0];
    if Hit(s.calls, u, s.bits) {
      var c := s.calls[u];
      var received := ReceivedBits(c, s.bits);
      var s1 := s.(bits := if c.options.clear then s.bits - received else s.bits, calls := Resumed(s.calls, u, received, EOk));
      if i == 0 {
        ScanElsewhere(s1, todo[1..], u);
        ScanServes(s1, todo[1..], j - 1);
      } else {
        ScanGivesOnce(s1, todo[1..], i - 1, j - 1);
      }
    } else {
      var s1 := s.(waiters := s.waiters + [u]);
      if i == 0 {
        ScanElsewhere(s1, todo[1..], u);
      } else {
        ScanGivesOnce(s1, todo[1..], i - 1, j - 1);
      }
    }
  }

  /** In every reachable state, a send leaves each waiter waiting or gives it all it asked for, or for
      RT_EVENT_FLAG_OR some of it, out of the bits now set; bits cleared for one waiter are gone and are
      given to nobody behind it. */
  lemma SendServes(flag: Flag, run: seq<Action>, s: State, added: Bits, i: nat, j: nat)
    requires IsRun(State(flag, {}, [], map[]), run, s) && added != {} && i < |s.waiters| && j < |s.waiters|
    ensures var s', t := Step(s, Send(added)).0, s.waiters[i];
            && t in s.calls && t in s'.calls
            && (s'.calls[t] == s.calls[t] || (s'.calls[t].Woken? && s'.calls[t].error == EOk))
            && (s'.calls[t].Woken? ==> && Served(s.calls[t], s'.calls[t].received)
                                       && s'.calls[t].received <= s.bits + added
                                       && (s.calls[t].options.clear ==> s'.calls[t].received !! s'.bits))
    ensures var s', t, u := Step(s, Send(added)).0, s.waiters[i], s.waiters[j];
            i < j && s'.calls[t].Woken? && u in s'.calls && s'.calls[u].Woken? && s.calls[t].options.clear ==>
              s'.calls[t].received !! s'.calls[u].received
  {
    Reachable(flag, run, s);
    var s1 := s.(bits := s.bits + added, waiters := []);
    forall k | 0 <= k < |s.waiters|
      ensures s.waiters[k] in s1.calls && s1.calls[s.waiters[k]].Waiting? && s1.calls[s.waiters[k]].want != {}
    {
      assert s.waiters[k] in s.waiters;
    }
    ScanServes(s1, s.waiters, i);
    if i < j {
      ScanGivesOnce(s1, s.waiters, i, j);
    }
  }

  /** Without RT_EVENT_FLAG_CLEAR a send is a broadcast: it resumes exactly the waiters whose condition the
      new bits meet, each with its own part of them. */
  lemma {:induction false} ScanBroadcasts(s: State, todo: seq<ThreadId>, k: nat)
    requires NoDuplicates(todo) && k < |todo|
    requires forall i :: 0 <= i < |todo| ==> todo[i] in s.calls && s.calls[todo[i]].Waiting? && !s.calls[todo[i]].options.clear
    ensures var s', c, t := Scan(s, todo), s.calls[todo[k]], todo[k];
            && s'.bits == s.bits && t in s'.calls
            && s'.calls[t] == if Satisfied(c.want, c.options, s.bits) then Woken(c.want * s.bits, EOk) else c
    decreases todo
  {
    TailMembers(todo);
    var u := todo[0];
    var s1 := if Hit(s.calls, u, s.bits) then s.(calls := Resumed(s.calls, u, ReceivedBits(s.calls[u], s.bits), EOk))
              else s.(waiters := s.waiters + [u]);
    if k == 0 {
      ScanElsewhere(s1, todo[1..], u);
      if |todo| > 1 {
        ScanBroadcasts(s1, todo[1..], 0);
      }
    } else {
      ScanBroadcasts(s1, todo[1..], k - 1);
    }
  }

  lemma SendBroadcasts(flag: Flag, run: seq<Action>, s: State, added: Bits, k: nat)
    requires IsRun(State(flag, {}, [], map[]), run, s) && added != {} && k < |s.waiters|
    requires forall t :: t in s.calls && s.calls[t].Waiting? ==> !s.calls[t].options.clear
    ensures var s', t := Step(s, Send(added)).0, s.waiters[k];
            && s'.bits == s.bits + added && t in s.calls && s.calls[t].Waiting? && t in s'.calls
            && s'.calls[t] == if Met(s.calls[t].want, s.calls[t].options, s.bits + added)
                              then Woken(s.calls[t].want * (s.bits + added), EOk) else s.calls[t]
  {
    Reachable(flag, run, s);
    var s1 := s.(bits := s.bits + added, waiters := []);
    forall i | 0 <= i < |s.waiters|
      ensures s.waiters[i] in s1.calls && s1.calls[s.waiters[i]].Waiting? && !s1.calls[s.waiters[i]].options.clear
    {
      assert s.waiters[i] in s.waiters;
    }
    var t := s.waiters[k];
    assert t in s.calls && Selective(s.calls, t);
    SatisfiedIsMet(s.calls[t].want, s.calls[t].options, s1.bits);
    ScanBroadcasts(s1, s.waiters, k);
  }

  // ----- the answer of a call that waited

  /** How far the waiting call `c` of `t` has come while `t` has not run. */
  ghost predicate Waited(s: State, t: ThreadId, c: Call, timedOut: bool, cleared: bool) {
    && t in s.calls
    && if s.calls[t].Waiting? then s.calls[t] == c && !timedOut && !cleared
       else && (s.calls[t].error == ETimeout <==> timedOut) && (s.calls[t].error == EError ==> cleared)
            && s.calls[t].error in {EOk, ETimeout, EError}
            && (s.calls[t].error == EOk ==> Served(c, s.calls[t].received))
  }

  lemma WaitedSend(s: State, added: Bits, t: ThreadId, c: Call, timedOut: bool, cleared: bool)
    requires Inv(s) && Waited(s, t, c, timedOut, cleared)
    ensures Waited(Sent(s, added).0, t, c, timedOut, cleared)
  {
    var s1 := s.(bits := s.bits + added, waiters := []);
    if t in s.waiters {
      var k :| 0 <= k < |s.waiters| && s.waiters[k] == t;
      ScanServes(s1, s.waiters, k);
    } else {
      ScanElsewhere(s1, s.waiters, t);
    }
  }

  lemma WaitedStep(s: State, a: Action, t: ThreadId, c: Call, timedOut: bool, cleared: bool)
    requires Inv(s) && Enabled(s, a) && a != Wake(t) && Waited(s, t, c, timedOut, cleared)
    ensures Waited(Step(s, a).0, t, c, timedOut || a == Timeout(t), cleared || a == Reset)
  {
    match a {
      case Send(added) => WaitedSend(s, added, t, c, timedOut, cleared);
      case Reset => ResumedAllCalls(s.calls, s.waiters);
      case _ =>
    }
  }

  lemma {:induction false} WaitedRun(s: State, run: seq<Action>, s': State, t: ThreadId, c: Call, timedOut: bool, cleared: bool)
    requires Inv(s) && IsRun(s, run, s') && Wake(t) !in run && Waited(s, t, c, timedOut, cleared)
    ensures Waited(s', t, c, timedOut || Timeout(t) in run, cleared || Reset in run)
    decreases run
  {
    if run != [] {
      StepKeepsInv(s, run[0]);
      WaitedStep(s, run[0], t, c, timedOut, cleared);
      WaitedRun(Step(s, run[0]).0, run[1..], s', t, c, timedOut || run[0] == Timeout(t), cleared || run[0] == Reset);
      assert run == [run[0]] + run[1..];
    }
  }

  /** In every run, a call that waits goes on waiting for the same bits until it is resumed.  When its
      thread runs, it is told a timeout exactly if its timer fired and an error only after a reset;
      otherwise it is given all the bits it asked for, or for RT_EVENT_FLAG_OR at least one of them. */
  lemma EveryWait(flag: Flag, before: seq<Action>, s: State, t: ThreadId, run: seq<Action>, s': State)
    requires IsRun(State(flag, {}, [], map[]), before, s) && t in s.calls && s.calls[t].Waiting?
    requires IsRun(s, run, s') && Wake(t) !in run
    ensures t in s'.calls
    ensures s'.calls[t].Waiting? ==> s'.calls[t] == s.calls[t] && Timeout(t) !in run && Reset !in run
    ensures s'.calls[t].Woken? ==>
              var r, c := Step(s', Wake(t)).1, s.calls[t];
              && t !in Step(s', Wake(t)).0.calls
              && (r == Returns(ETimeout) <==> Timeout(t) in run)
              && (r == Returns(ETimeout) || (r == Returns(EError) && Reset in run) || r.Delivers?)
              && (r.Delivers? ==> && (forall b: Bit :: b in r.received ==> b in c.want)
                                  && (exists b: Bit :: b in r.received)
                                  && (c.options.all ==> forall b: Bit :: b in c.want ==> b in r.received))
  {
    Reachable(flag, before, s);
    WaitedRun(s, run, s', t, s.calls[t], false, false);
    if s'.calls[t].Woken? && s'.calls[t].error == EOk {
      assert exists b: Bit :: b in s'.calls[t].received;
    }
  }

  // ----- the order of the waiters

  ghost predicate Sleeps(s: State, t: ThreadId) {
    t in s.calls && s.calls[t].Waiting?
  }

  lemma AheadCut(front: seq<ThreadId>, x: ThreadId, back: seq<ThreadId>, t: ThreadId, u: ThreadId)
    requires Ahead(front + [x] + back, t, u) && t != x && u != x
    ensures Ahead(front + back, t, u)
  {
    var list := front + [x] + back;
    var i, j :| 0 <= i < j < |list| && list[i] == t && list[j] == u;
    var i', j' := if i < |front| then i else i - 1, if j < |front| then j else j - 1;
    AheadAt(front + back, i', j');
  }

  /** Those a send passes over keep their order. */
  lemma {:induction false} ScanKeepsOrder(s: State, todo: seq<ThreadId>, t: ThreadId, u: ThreadId)
    requires Ahead(s.waiters + todo, t, u) && Sleeps(Scan(s, todo), t) && Sleeps(Scan(s, todo), u)
    ensures Ahead(Scan(s, todo).waiters, t, u)
    decreases todo
  {
    if todo == [] {
      assert s.waiters + todo == s.waiters;
    } else {
      var x := todo[0];
      assert s.waiters + todo == s.waiters + [x] + todo[1..];
      if Hit(s.calls, x, s.bits) {
        var c := s.calls[x];
        var received := ReceivedBits(c, s.bits);
        var s1 := s.(bits := if c.options.clear then s.bits - received else s.bits, calls := Resumed(s.calls, x, received, EOk));
        ScanCalls(s1, todo[1..], t);
        ScanCalls(s1, todo[1..], u);
        AheadCut(s.waiters, x, todo[1..], t, u);
        ScanKeepsOrder(s1, todo[1..], t, u);
      } else {
        ScanKeepsOrder(s.(waiters := s.waiters + [x]), todo[1..], t, u);
      }
    }
  }

  lemma AheadSend(s: State, added: Bits, t: ThreadId, u: ThreadId)
    requires Ahead(s.waiters, t, u) && Sleeps(Sent(s, added).0, t) && Sleeps(Sent(s, added).0, u)
    ensures Ahead(Sent(s, added).0.waiters, t, u)
  {
    if added != {} {
      assert [] + s.waiters == s.waiters;
      ScanKeepsOrder(s.(bits := s.bits + added, waiters := []), s.waiters, t, u);
    }
  }

  lemma AheadReset(s: State, t: ThreadId)
    requires Inv(s) && t in s.calls
    ensures !Sleeps(Cleared(s), t)
  {
    ResumedAllCalls(s.calls, s.waiters);
  }

  lemma AheadStep(s: State, a: Action, t: ThreadId, u: ThreadId)
    requires Inv(s) && Enabled(s, a) && Ahead(s.waiters, t, u) && Sleeps(Step(s, a).0, t) && Sleeps(Step(s, a).0, u)
    ensures Ahead(Step(s, a).0.waiters, t, u)
  {
    match a {
      case Send(added) => AheadSend(s, added, t, u);
      case Recv(x, _, _, _, prio) => SuspendedKeepsOrder(s.waiters, x, s.flag, prio, t, u);
      case Wake(_) =>
      case Timeout(x) => WithoutKeepsOrder(s.waiters, x, t, u);
      case Reset =>
        assert t in s.waiters;
        AheadReset(s, t);
    }
  }

  lemma AwakeStep(s: State, a: Action, t: ThreadId)
    requires Enabled(s, a) && a != Wake(t) && t in s.calls && s.calls[t].Woken?
    ensures t in Step(s, a).0.calls && Step(s, a).0.calls[t].Woken?
  {
    match a {
      case Send(added) => ScanCalls(s.(bits := s.bits + added, waiters := []), s.waiters, t);
      case Reset => ResumedAllCalls(s.calls, s.waiters);
      case _ =>
    }
  }

  /** A thread that waits at the end has waited all the time. */
  lemma {:induction false} SleptAllTheTime(s: State, run: seq<Action>, s': State, t: ThreadId)
    requires IsRun(s, run, s') && Wake(t) !in run && t in s.calls && Sleeps(s', t)
    ensures Sleeps(s, t)
    decreases run
  {
    if run != [] && !Sleeps(s, t) {
      AwakeStep(s, run[0], t);
      SleptAllTheTime(Step(s, run[0]).0, run[1..], s', t);
    }
  }

  lemma {:induction false} AheadRun(s: State, run: seq<Action>, s': State, t: ThreadId, u: ThreadId)
    requires Inv(s) && IsRun(s, run, s') && Wake(t) !in run && Wake(u) !in run
    requires Ahead(s.waiters, t, u) && Sleeps(s', t) && Sleeps(s', u)
    ensures Ahead(s'.waiters, t, u)
    decreases run
  {
    if run != [] {
      assert t in s.waiters && u in s.waiters;
      StepKeepsInv(s, run[0]);
      WaitedStep(s, run[0], t, s.calls[t], false, false);
      WaitedStep(s, run[0], u, s.calls[u], false, false);
      SleptAllTheTime(Step(s, run[0]).0, run[1..], s', t);
      SleptAllTheTime(Step(s, run[0]).0, run[1..], s', u);
      AheadStep(s, run[0], t, u);
      AheadRun(Step(s, run[0]).0, run[1..], s', t, u);
    }
  }

  /** Two calls that wait keep their order in the list, whatever happens in between. */
  lemma WaitersKeepOrder(flag: Flag, before: seq<Action>, s: State, t: ThreadId, u: ThreadId, run: seq<Action>, s': State)
    requires IsRun(State(flag, {}, [], map[]), before, s) && Ahead(s.waiters, t, u)
    requires IsRun(s, run, s') && Wake(t) !in run && Wake(u) !in run && Sleeps(s', t) && Sleeps(s', u)
    ensures Ahead(s'.waiters, t, u)
  {
    Reachable(flag, before, s);
    AheadRun(s, run, s', t, u);
  }
}
