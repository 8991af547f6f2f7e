/** What the callers of the mutex are told, and whom a release serves. */
module MutexAnswers {
  import opened Collections
  import opened WaitList
  import opened WaitOrder
  import opened Mutex

  // ----- the answer of a call that does not wait

  /** `rt_mutex_take` succeeds at once exactly when nobody else owns the mutex, and the caller then owns
      it once more than before; otherwise it gives up exactly when it was told not to wait. */
  lemma TakeAnswer(s0: System, run: seq<Action>, s: System, t: ThreadId, m: MutexId, time: int)
    requires Initial(s0) && IsRun(s0, run, s) && Enabled(s, TakeIt(t, m, time))
    ensures var mx, (s', r) := s.mutexes[m], Step(s, TakeIt(t, m, time));
            && (r == Returns(EOk) <==> mx.owner == Nobody || mx.owner == Thread(t))
            && (r == Returns(ETimeout) <==> mx.owner.Thread? && mx.owner != Thread(t) && time == 0)
            && (r == Blocks <==> mx.owner.Thread? && mx.owner != Thread(t) && time != 0)
            && (r == Returns(EOk) ==> s'.mutexes[m].owner == Thread(t) && s'.mutexes[m].hold == mx.hold + 1 && t !in s'.calls)
            && (r == Returns(ETimeout) ==> s'.mutexes == s.mutexes && t !in s'.calls)
            && (r == Blocks ==> WaitsFor(s'.calls, t, m) && s'.calls[t].timeout == time)
  {
    RunKeepsOwnership(s0, run, s);
    assert Sound(s.mutexes[m]);
  }

  /** `rt_mutex_release` succeeds exactly for the owner and otherwise changes no mutex. */
  lemma ReleaseAnswer(s: System, t: ThreadId, m: MutexId)
    requires Enabled(s, ReleaseIt(t, m)) && Sound(s.mutexes[m])
    ensures var mx, (s', r) := s.mutexes[m], Step(s, ReleaseIt(t, m));
            && r == (if mx.owner == Thread(t) then Returns(EOk) else Returns(EError))
            && (mx.owner != Thread(t) ==> s'.mutexes == s.mutexes && s'.calls == s.calls)
            && (mx.owner == Thread(t) && mx.hold > 1 ==> s'.mutexes[m] == mx.(hold := mx.hold - 1) && s'.calls == s.calls)
            && (mx.owner == Thread(t) && mx.hold == 1 && mx.waiters == [] ==> s'.mutexes[m].owner == Nobody && s'.calls == s.calls)
  {
  }

  // ----- the answer of a take that waited

  /** How far the waiting take of `t` has come while `t` has not run. */
  ghost predicate Waited(s: System, t: ThreadId, m: MutexId, timedOut: bool) {
    && t in s.calls && m in s.mutexes
    && if timedOut then s.calls[t] == Woken(ETimeout) && s.mutexes[m].owner != Thread(t)
       else WaitsFor(s.calls, t, m)
            || (s.calls[t] == Woken(EOk) && s.mutexes[m].owner == Thread(t) && s.mutexes[m].hold == 1)
  }

  lemma WaitedTake(s: System, t: ThreadId, m: MutexId, timedOut: bool, u: ThreadId, k: MutexId, time: int)
    requires Ownership(s) && Waited(s, t, m, timedOut) && Enabled(s, TakeIt(u, k, time))
    ensures Waited(TakeStep(s, u, k, time).0, t, m, timedOut)
  {
    assert u != t && Sound(s.mutexes[m]);
  }

  lemma WaitedRelease(s: System, t: ThreadId, m: MutexId, timedOut: bool, u: ThreadId, k: MutexId)
    requires Ownership(s) && Waited(s, t, m, timedOut) && Enabled(s, ReleaseIt(u, k))
    ensures Waited(ReleaseStep(s, u, k).0, t, m, timedOut)
  {
    assert u != t && Sound(s.mutexes[m]) && Sound(s.mutexes[k]);
    assert s.mutexes[k].waiters != [] ==> s.mutexes[k].waiters[0] in s.mutexes[k].waiters;
    assert t in s.mutexes[k].waiters <==> WaitsFor(s.calls, t, k);
  }

  lemma WaitedTimeout(s: System, t: ThreadId, m: MutexId, timedOut: bool, u: ThreadId)
    requires Ownership(s) && Waited(s, t, m, timedOut) && Enabled(s, Timeout(u))
    ensures Waited(TimeoutStep(s, u), t, m, timedOut || u == t)
  {
    assert Sound(s.mutexes[m]);
    assert t in s.mutexes[m].waiters <==> WaitsFor(s.calls, t, m);
  }

  lemma WaitedStep(s: System, a: Action, t: ThreadId, m: MutexId, timedOut: bool)
    requires Ownership(s) && Enabled(s, a) && a != Wake(t) && Waited(s, t, m, timedOut)
    ensures Waited(Step(s, a).0, t, m, timedOut || a == Timeout(t))
  {
    match a {
      case TakeIt(u, k, time) => WaitedTake(s, t, m, timedOut, u, k, time);
      case ReleaseIt(u, k) => WaitedRelease(s, t, m, timedOut, u, k);
      case Wake(u) =>
      case Timeout(u) => WaitedTimeout(s, t, m, timedOut, u);
      case ChangePriority(_, _) =>
    }
  }

  lemma {:induction false} WaitedRun(s: System, run: seq<Action>, s': System, t: ThreadId, m: MutexId, timedOut: bool)
    requires Ownership(s) && IsRun(s, run, s') && Wake(t) !in run && Waited(s, t, m, timedOut)
    ensures Ownership(s') && Waited(s', t, m, timedOut || Timeout(t) in run)
    decreases run
  {
    if run != [] {
      StepKeepsOwnership(s, run[0]);
      WaitedStep(s, run[0], t, m, timedOut);
      WaitedRun(Step(s, run[0]).0, run[1..], s', t, m, timedOut || run[0] == Timeout(t));
      assert run == [run[0]] + run[1..];
    }
  }

  /** In every run, a take that waits goes on waiting, or was handed the mutex and owns it, once; or its
      timer fired and it does not own it.  So when the thread runs, it is told success exactly if it
      owns the mutex it waited for, and a timeout exactly if its timer fired. */
  lemma EveryWait(s0: System, before: seq<Action>, s: System, t: ThreadId, m: MutexId, run: seq<Action>, s': System)
    requires Initial(s0) && IsRun(s0, before, s) && WaitsFor(s.calls, t, m) && IsRun(s, run, s') && Wake(t) !in run
    ensures t in s'.calls && m in s'.mutexes
    ensures WaitsFor(s'.calls, t, m)
            || (s'.calls[t] == Woken(EOk) && s'.mutexes[m].owner == Thread(t) && s'.mutexes[m].hold == 1)
            || (s'.calls[t] == Woken(ETimeout) && s'.mutexes[m].owner != Thread(t))
    ensures s'.calls[t] == Woken(ETimeout) <==> Timeout(t) in run
    ensures Enabled(s', Wake(t)) ==>
              && (Step(s', Wake(t)).1 == Returns(EOk) <==> s'.mutexes[m].owner == Thread(t))
              && (Step(s', Wake(t)).1 == Returns(ETimeout) <==> Timeout(t) in run)
              && t !in Step(s', Wake(t)).0.calls && Step(s', Wake(t)).0.mutexes == s'.mutexes
  {
    RunKeepsOwnership(s0, before, s);
    assert m in s.mutexes;
    WaitedRun(s, run, s', t, m, false);
  }

  // ----- the order of service

  lemma AheadTake(s: System, u: ThreadId, k: MutexId, time: int, m: MutexId, t: ThreadId, v: ThreadId)
    requires Ownership(s) && Enabled(s, TakeIt(u, k, time)) && m in s.mutexes && Ahead(s.mutexes[m].waiters, t, v)
    ensures Ahead(TakeStep(s, u, k, time).0.mutexes[m].waiters, t, v)
  {
    if k == m {
      var mx := s.mutexes[m];
      SuspendedKeepsOrder(mx.waiters, u, mx.flag, Boosted(mx, s.prio, u), t, v);
    }
  }

  lemma AheadRelease(s: System, u: ThreadId, k: MutexId, m: MutexId, t: ThreadId, v: ThreadId)
    requires Ownership(s) && Enabled(s, ReleaseIt(u, k)) && m in s.mutexes && Ahead(s.mutexes[m].waiters, t, v)
    requires WaitsFor(ReleaseStep(s, u, k).0.calls, t, m)
    ensures Ahead(ReleaseStep(s, u, k).0.mutexes[m].waiters, t, v)
  {
    assert Sound(s.mutexes[m]);
    if k == m && s.mutexes[m].owner == Thread(u) && s.mutexes[m].hold == 1 && t != s.mutexes[m].waiters[0] {
      TailKeepsOrder(s.mutexes[m].waiters, t, v);
    }
  }

  lemma AheadTimeout(s: System, u: ThreadId, m: MutexId, t: ThreadId, v: ThreadId)
    requires Ownership(s) && Enabled(s, Timeout(u)) && m in s.mutexes && Ahead(s.mutexes[m].waiters, t, v) && u != t && u != v
    ensures Ahead(TimeoutStep(s, u).mutexes[m].waiters, t, v)
  {
    WaitOrder.WithoutKeepsOrder(s.mutexes[m].waiters, u, t, v);
  }

  lemma AheadStep(s: System, a: Action, m: MutexId, t: ThreadId, v: ThreadId)
    requires Ownership(s) && Enabled(s, a) && m in s.mutexes && Ahead(s.mutexes[m].waiters, t, v)
    requires WaitsFor(Step(s, a).0.calls, t, m) && a != Timeout(v)
    ensures m in Step(s, a).0.mutexes && Ahead(Step(s, a).0.mutexes[m].waiters, t, v)
  {
    match a {
      case TakeIt(u, k, time) => AheadTake(s, u, k, time, m, t, v);
      case ReleaseIt(u, k) => AheadRelease(s, u, k, m, t, v);
      case Wake(u) =>
      case Timeout(u) => AheadTimeout(s, u, m, t, v);
      case ChangePriority(_, _) =>
    }
  }

  lemma {:induction false} AheadRun(s: System, run: seq<Action>, s': System, m: MutexId, t: ThreadId, v: ThreadId)
    requires Ownership(s) && IsRun(s, run, s') && Wake(t) !in run && Timeout(v) !in run
    requires m in s.mutexes && WaitsFor(s.calls, t, m) && Ahead(s.mutexes[m].waiters, t, v) && WaitsFor(s'.calls, t, m)
    ensures m in s'.mutexes && Ahead(s'.mutexes[m].waiters, t, v)
    decreases run
  {
    if run != [] {
      var s1 := Step(s, run[0]).0;
      StepKeepsOwnership(s, run[0]);
      WaitedStep(s, run[0], t, m, false);
      StillWaits(s1, run[1..], s', t, m, run[0] == Timeout(t));
      AheadStep(s, run[0], m, t, v);
      AheadRun(s1, run[1..], s', m, t, v);
    }
  }

  /** A thread that waits at the end has waited all the time. */
  lemma StillWaits(s: System, run: seq<Action>, s': System, t: ThreadId, m: MutexId, timedOut: bool)
    requires Ownership(s) && IsRun(s, run, s') && Wake(t) !in run && Waited(s, t, m, timedOut) && WaitsFor(s'.calls, t, m)
    ensures !timedOut && WaitsFor(s.calls, t, m)
  {
    WaitedRun(s, run, s', t, m, timedOut);
    if !timedOut && !WaitsFor(s.calls, t, m) {
      RunKeepsHandover(s, run, s', m, t);
    }
  }

  /** A thread that stands behind another in the wait list is not served before it: in every run in which
      the first goes on waiting, the second goes on waiting behind it, unless its timer fires. */
  lemma NoOvertaking(s0: System, before: seq<Action>, s: System, m: MutexId, t: ThreadId, v: ThreadId, run: seq<Action>, s': System)
    requires Initial(s0) && IsRun(s0, before, s) && m in s.mutexes && Ahead(s.mutexes[m].waiters, t, v)
    requires IsRun(s, run, s') && Wake(t) !in run && WaitsFor(s'.calls, t, m)
    ensures m in s'.mutexes && (Ahead(s'.mutexes[m].waiters, t, v) || Timeout(v) in run)
  {
    RunKeepsOwnership(s0, before, s);
    assert t in s.mutexes[m].waiters;
    WaitedRun(s, run, s', t, m, false);
    if Timeout(v) !in run {
      AheadRun(s, run, s', m, t, v);
    }
  }

  // ----- first come first served

  ghost function Since(calls: map<ThreadId, Call>, t: ThreadId): nat {
    if t in calls && calls[t].Waiting? then calls[t].since else 0
  }

  ghost predicate Rising(list: seq<ThreadId>, calls: map<ThreadId, Call>) {
    forall i, j :: 0 <= i < j < |list| ==> Since(calls, list[i]) < Since(calls, list[j])
  }

  /** Waiting began in the past, and a FIFO list is in order of arrival. */
  ghost predicate Arrivals(s: System) {
    && (forall t :: t in s.calls && s.calls[t].Waiting? ==> s.calls[t].since < s.clock)
    && (forall m :: m in s.mutexes && s.mutexes[m].flag == Fifo ==> Rising(s.mutexes[m].waiters, s.calls))
  }

  lemma RisingElsewhere(list: seq<ThreadId>, calls: map<ThreadId, Call>, calls': map<ThreadId, Call>)
    requires Rising(list, calls) && forall x :: x in list ==> Since(calls', x) == Since(calls, x)
    ensures Rising(list, calls')
  {
    forall i, j | 0 <= i < j < |list| ensures Since(calls', list[i]) < Since(calls', list[j]) {
      assert list[i] in list && list[j] in list;
    }
  }

  lemma TakeArrives(s: System, t: ThreadId, m: MutexId, time: int)
    requires Ownership(s) && Arrivals(s) && Enabled(s, TakeIt(t, m, time))
    ensures Arrivals(TakeStep(s, t, m, time).0)
  {
    var s' := TakeStep(s, t, m, time).0;
    forall k | k in s'.mutexes && s'.mutexes[k].flag == Fifo ensures Rising(s'.mutexes[k].waiters, s'.calls) {
      TakeRises(s, t, m, time, k);
    }
  }

  lemma TakeRises(s: System, t: ThreadId, m: MutexId, time: int, k: MutexId)
    requires Ownership(s) && Arrivals(s) && Enabled(s, TakeIt(t, m, time)) && k in s.mutexes && s.mutexes[k].flag == Fifo
    ensures Rising(TakeStep(s, t, m, time).0.mutexes[k].waiters, TakeStep(s, t, m, time).0.calls)
  {
    var s', list := TakeStep(s, t, m, time).0, s.mutexes[k].waiters;
    forall x | x in list ensures x != t && Since(s'.calls, x) == Since(s.calls, x) < s.clock {
      assert WaitsFor(s.calls, x, k);
    }
    RisingElsewhere(list, s.calls, s'.calls);
    if TakeStep(s, t, m, time).1 == Blocks {
      RisingAppend(list, s'.calls, t);
    }
  }

  lemma RisingAppend(list: seq<ThreadId>, calls': map<ThreadId, Call>, t: ThreadId)
    requires Rising(list, calls') && (forall x :: x in list ==> Since(calls', x) < Since(calls', t))
    ensures Rising(list + [t], calls')
  {
    var r := list + [t];
    forall i, j | 0 <= i < j < |r| ensures Since(calls', r[i]) < Since(calls', r[j]) {
      assert r[i] in list;
    }
  }

  lemma {:induction false} RisingWithout(list: seq<ThreadId>, calls: map<ThreadId, Call>, x: ThreadId)
    requires NoDuplicates(list) && Rising(list, calls)
    ensures Rising(Without(list, x), calls)
    decreases |list|
  {
    if list != [] && list[0] != x {
      var rest := Without(list[1..], x);
      RisingWithout(list[1..], calls, x);
      WithoutMembers(list[1..], x);
      forall j | 0 <= j < |rest| ensures Since(calls, list[0]) < Since(calls, rest[j]) {
        assert rest[j] in list[1..];
        var k :| 0 <= k < |list[1..]| && list[1..][k] == rest[j];
        assert list[k + 1] == rest[j];
      }
    }
  }

  lemma ReleaseArrives(s: System, t: ThreadId, m: MutexId)
    requires Ownership(s) && Arrivals(s) && Enabled(s, ReleaseIt(t, m))
    ensures Arrivals(ReleaseStep(s, t, m).0)
  {
    var s' := ReleaseStep(s, t, m).0;
    forall k | k in s'.mutexes && s'.mutexes[k].flag == Fifo ensures Rising(s'.mutexes[k].waiters, s'.calls) {
      ReleaseRises(s, t, m, k);
    }
  }

  lemma ReleaseRises(s: System, t: ThreadId, m: MutexId, k: MutexId)
    requires Ownership(s) && Arrivals(s) && Enabled(s, ReleaseIt(t, m)) && k in s.mutexes && s.mutexes[k].flag == Fifo
    ensures Rising(ReleaseStep(s, t, m).0.mutexes[k].waiters, ReleaseStep(s, t, m).0.calls)
  {
    var s', mx := ReleaseStep(s, t, m).0, s.mutexes[m];
    var list := s'.mutexes[k].waiters;
    assert Sound(mx) && Sound(s.mutexes[k]);
    if mx.waiters != [] {
      var h := mx.waiters[0];
      assert h in mx.waiters && WaitsFor(s.calls, h, m);
      TailMembers(mx.waiters);
      assert h in s.mutexes[k].waiters <==> WaitsFor(s.calls, h, k);
    }
    RisingElsewhere(list, s.calls, s'.calls);
  }

  lemma TimeoutArrives(s: System, t: ThreadId)
    requires Ownership(s) && Arrivals(s) && Enabled(s, Timeout(t))
    ensures Arrivals(TimeoutStep(s, t))
  {
    var s' := TimeoutStep(s, t);
    forall k | k in s'.mutexes && s'.mutexes[k].flag == Fifo ensures Rising(s'.mutexes[k].waiters, s'.calls) {
      TimeoutRises(s, t, k);
    }
  }

  lemma TimeoutRises(s: System, t: ThreadId, k: MutexId)
    requires Ownership(s) && Arrivals(s) && Enabled(s, Timeout(t)) && k in s.mutexes && s.mutexes[k].flag == Fifo
    ensures Rising(TimeoutStep(s, t).mutexes[k].waiters, TimeoutStep(s, t).calls)
  {
    var s', list := TimeoutStep(s, t), s.mutexes[k].waiters;
    assert Sound(s.mutexes[k]);
    if k == s.calls[t].m {
      RisingWithout(list, s.calls, t);
      WithoutMembers(list, t);
      RisingElsewhere(Without(list, t), s.calls, s'.calls);
    } else {
      forall x | x in list ensures x != t {
        assert WaitsFor(s.calls, x, k);
      }
      RisingElsewhere(list, s.calls, s'.calls);
    }
  }

  lemma OtherArrives(s: System, a: Action)
    requires Ownership(s) && Arrivals(s) && Enabled(s, a) && (a.Wake? || a.ChangePriority?)
    ensures Arrivals(Step(s, a).0)
  {
    var s' := Step(s, a).0;
    forall k | k in s'.mutexes && s'.mutexes[k].flag == Fifo ensures Rising(s'.mutexes[k].waiters, s'.calls) {
      forall x | x in s.mutexes[k].waiters ensures Since(s'.calls, x) == Since(s.calls, x) {
        assert WaitsFor(s.calls, x, k);
      }
      RisingElsewhere(s.mutexes[k].waiters, s.calls, s'.calls);
    }
  }

  lemma {:induction false} RunArrives(s: System, run: seq<Action>, s': System)
    requires Ownership(s) && Arrivals(s) && IsRun(s, run, s')
    ensures Ownership(s') && Arrivals(s')
    decreases run
  {
    if run != [] {
      StepKeepsOwnership(s, run[0]);
      match run[0] {
        case TakeIt(t, m, time) => TakeArrives(s, t, m, time);
        case ReleaseIt(t, m) => ReleaseArrives(s, t, m);
        case Wake(_) => OtherArrives(s, run[0]);
        case Timeout(t) => TimeoutArrives(s, t);
        case ChangePriority(_, _) => OtherArrives(s, run[0]);
      }
      RunArrives(Step(s, run[0]).0, run[1..], s');
    }
  }

  /** In every reachable state the threads in the list of an RT_IPC_FLAG_FIFO mutex stand in the order in
      which they began to wait. */
  lemma FirstComeFirstServed(s0: System, run: seq<Action>, s: System, m: MutexId, i: nat, j: nat)
    requires Initial(s0) && IsRun(s0, run, s) && m in s.mutexes && s.mutexes[m].flag == Fifo && i < j < |s.mutexes[m].waiters|
    ensures var t, u := s.mutexes[m].waiters[i], s.mutexes[m].waiters[j];
            WaitsFor(s.calls, t, m) && WaitsFor(s.calls, u, m) && s.calls[t].since < s.calls[u].since
  {
    RunArrives(s0, run, s);
    var list := s.mutexes[m].waiters;
    assert list[i] in list && list[j] in list;
    assert Since(s.calls, list[i]) < Since(s.calls, list[j]);
  }
}
