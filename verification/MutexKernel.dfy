/** Mutex objects and the thread table together, step by step. */
module MutexKernel {
  import opened WaitList
  import opened Mutex

  /** The real part of the state `s'` after a take. */
  ghost predicate AfterTake(s: System, s': System, t: ThreadId, m: MutexId, time: int)
    requires m in s.mutexes
  {
    var (mx, prio, r) := Take(s.mutexes[m], s.prio, t, time);
    && s'.mutexes == s.mutexes[m := mx] && s'.prio == prio && s'.clock == s.clock + 1
    && s'.calls == if r == Blocks then s.calls[t := Waiting(m, time, s.clock)] else s.calls
  }

  lemma TakeParts(s: System, t: ThreadId, m: MutexId, time: int)
    requires m in s.mutexes
    ensures AfterTake(s, TakeStep(s, t, m, time).0, t, m, time)
    ensures TakeStep(s, t, m, time).1 == Take(s.mutexes[m], s.prio, t, time).2
  {
  }

  /** The release is the last one and somebody waits. */
  predicate HandsOver(mx: Mutex, t: ThreadId) {
    mx.owner == Thread(t) && (mx.hold + 255) % 256 == 0 && mx.waiters != []
  }

  /** The real part of the state `s'` after a release. */
  ghost predicate AfterRelease(s: System, s': System, t: ThreadId, m: MutexId)
    requires m in s.mutexes
  {
    var (mx, prio, r) := Release(s.mutexes[m], s.prio, t);
    && s'.mutexes == s.mutexes[m := mx] && s'.prio == prio && s'.clock == s.clock + 1
    && (HandsOver(s.mutexes[m], t) ==> mx.owner.Thread? && s'.calls == s.calls[mx.owner.t := Woken(EOk)])
    && (!HandsOver(s.mutexes[m], t) ==> s'.calls == s.calls)
  }

  lemma ReleaseParts(s: System, t: ThreadId, m: MutexId)
    requires m in s.mutexes && Sound(s.mutexes[m])
    ensures AfterRelease(s, ReleaseStep(s, t, m).0, t, m)
    ensures ReleaseStep(s, t, m).1 == Release(s.mutexes[m], s.prio, t).2
  {
    var mx := s.mutexes[m];
    assert mx.waiters != [] ==> mx.waiters[0] in mx.waiters;
  }

  class Kernel {
    const mutexes: map<MutexId, MutexObject>
    const threads: ThreadTable
    var calls: map<ThreadId, Call>
    var clock: nat
    ghost var holdings: map<ThreadId, Holdings>
    ghost var balance: map<(ThreadId, MutexId), int>

    /** No two names for one object. */
    ghost predicate Valid() {
      forall j, k :: j in mutexes && k in mutexes && mutexes[j] == mutexes[k] ==> j == k
    }

    ghost function Mutexes(): map<MutexId, Mutex>
      reads mutexes.Values
    {
      map k | k in mutexes :: mutexes[k].Abs()
    }

    ghost function Abs(): System
      reads this, threads, mutexes.Values
    {
      System(Mutexes(), threads.currentPriority, calls, clock, holdings, balance)
    }

    constructor (mutexes: map<MutexId, MutexObject>, threads: ThreadTable)
      requires forall j, k :: j in mutexes && k in mutexes && mutexes[j] == mutexes[k] ==> j == k
      requires forall k :: k in mutexes ==> mutexes[k].Abs() == Fresh(mutexes[k].flag)
      ensures Valid() && this.mutexes == mutexes && this.threads == threads && Initial(Abs())
    {
      this.mutexes, this.threads := mutexes, threads;
      calls, clock, holdings, balance := map[], 0, map[], map[];
    }

    method CallTake(t: ThreadId, m: MutexId, time: int) returns (r: Result)
      requires Valid() && m in mutexes
      modifies threads, mutexes[m]
      ensures var (mx, prio, r') := Take(old(mutexes[m].Abs()), old(threads.currentPriority), t, time);
              Mutexes() == old(Mutexes())[m := mx] && threads.currentPriority == prio && r == r'
    {
      r := mutexes[m].TakeMutex(threads, t, time);
      assert Mutexes() == old(Mutexes())[m := mutexes[m].Abs()];
    }

    /** A take; `next` tells the history. */
    method PerformTake(t: ThreadId, m: MutexId, time: int, ghost next: System) returns (r: Result)
      requires Valid() && m in mutexes && AfterTake(Abs(), next, t, m, time)
      modifies this, threads, mutexes[m]
      ensures Abs() == next && r == Take(old(mutexes[m].Abs()), old(threads.currentPriority), t, time).2
    {
      r := CallTake(t, m, time);
      assert Mutexes() == next.mutexes && threads.currentPriority == next.prio;
      Advance(if r == Blocks then calls[t := Waiting(m, time, clock)] else calls, next);
    }

    /** The bookkeeping behind a call. */
    method Advance(newCalls: map<ThreadId, Call>, ghost next: System)
      requires Mutexes() == next.mutexes && threads.currentPriority == next.prio && newCalls == next.calls
      requires clock + 1 == next.clock
      modifies `calls, `clock, `holdings, `balance
      ensures Abs() == next
    {
      calls, clock := newCalls, clock + 1;
      holdings, balance := next.holdings, next.balance;
      assert Mutexes() == next.mutexes;
    }

    method CallRelease(t: ThreadId, m: MutexId) returns (r: Result, resumed: Owner)
      requires Valid() && m in mutexes && Sound(mutexes[m].Abs())
      modifies threads, mutexes[m]
      ensures var (mx, prio, r') := Release(old(mutexes[m].Abs()), old(threads.currentPriority), t);
              && Mutexes() == old(Mutexes())[m := mx] && threads.currentPriority == prio && r == r'
              && resumed == if HandsOver(old(mutexes[m].Abs()), t) then mx.owner else Nobody
    {
      r, resumed := mutexes[m].ReleaseMutex(threads, t);
      assert Mutexes() == old(Mutexes())[m := mutexes[m].Abs()];
    }

    /** A release; `next` tells the history. */
    method PerformRelease(t: ThreadId, m: MutexId, ghost next: System) returns (r: Result)
      requires Valid() && m in mutexes && Sound(mutexes[m].Abs()) && AfterRelease(Abs(), next, t, m)
      modifies this, threads, mutexes[m]
      ensures Abs() == next && r == Release(old(mutexes[m].Abs()), old(threads.currentPriority), t).2
    {
      var resumed;
      r, resumed := CallRelease(t, m);
      assert Mutexes() == next.mutexes && threads.currentPriority == next.prio;
      Advance(if resumed.Thread? then calls[resumed.t := Woken(EOk)] else calls, next);
    }

    method PerformTimeout(t: ThreadId)
      requires Valid() && t in calls && calls[t].Waiting? && calls[t].m in mutexes
      modifies this, mutexes[calls[t].m]
      ensures Abs() == TimeoutStep(old(Abs()), t)
    {
      var m := calls[t].m;
      ghost var next := TimeoutStep(Abs(), t);
      mutexes[m].TimerFires(t);
      assert Mutexes() == next.mutexes;
      Advance(calls[t := Woken(ETimeout)], next);
    }

    method StepTake(t: ThreadId, m: MutexId, time: int) returns (r: Result)
      requires Valid() && m in mutexes
      modifies this, threads, mutexes[m]
      ensures Abs() == TakeStep(old(Abs()), t, m, time).0 && r == TakeStep(old(Abs()), t, m, time).1
    {
      TakeParts(Abs(), t, m, time);
      r := PerformTake(t, m, time, TakeStep(Abs(), t, m, time).0);
    }

    method StepRelease(t: ThreadId, m: MutexId) returns (r: Result)
      requires Valid() && m in mutexes && Sound(mutexes[m].Abs())
      modifies this, threads, mutexes[m]
      ensures Abs() == ReleaseStep(old(Abs()), t, m).0 && r == ReleaseStep(old(Abs()), t, m).1
    {
      ReleaseParts(Abs(), t, m);
      r := PerformRelease(t, m, ReleaseStep(Abs(), t, m).0);
    }

    /** One step of the system. */
    method Perform(a: Action) returns (r: Result)
      requires Valid() && Ownership(Abs()) && Enabled(Abs(), a)
      modifies this, threads, mutexes.Values
      ensures Valid() && Ownership(Abs())
      ensures Abs() == Step(old(Abs()), a).0 && r == Step(old(Abs()), a).1
    {
      StepKeepsOwnership(Abs(), a);
      match a {
        case TakeIt(t, m, time) => r := StepTake(t, m, time);
        case ReleaseIt(t, m) =>
          assert Abs().mutexes[m] == mutexes[m].Abs();
          r := StepRelease(t, m);
        case Wake(t) =>
          r := Returns(calls[t].error);
          Advance(calls - {t}, Step(Abs(), a).0);
        case Timeout(t) =>
          PerformTimeout(t);
          r := Silent;
        case ChangePriority(t, p) =>
          ghost var next := Step(Abs(), a).0;
          threads.ChangePriorityOf(t, p);
          assert Mutexes() == next.mutexes;
          Advance(calls, next);
          r := Silent;
      }
    }
  }
}
