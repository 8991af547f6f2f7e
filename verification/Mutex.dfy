/** The recursive mutex with priority inheritance: `rt_mutex_take` and `rt_mutex_release`,
    for any number of mutexes and threads. */
module Mutex {
  import opened Collections
  import opened WaitList

  type MutexId = nat

  datatype Owner = Nobody | Thread(t: ThreadId)

  /** `struct rt_mutex`.  `hold` is an `rt_uint8_t` and wraps. */
  datatype Mutex = Mutex(flag: Flag, value: nat, owner: Owner, hold: nat, original: nat, waiters: seq<ThreadId>)

  datatype Result = Blocks | Returns(error: Error) | Silent

  // ----- one mutex

  function Fresh(flag: Flag): Mutex {
    Mutex(flag, 1, Nobody, 0, 0xFF, [])
  }

  /** The owner runs at least at the priority of a thread that is about to wait. */
  function Boosted(mx: Mutex, prio: Priorities, t: ThreadId): Priorities {
    if mx.owner.Thread? && prio(t) < prio(mx.owner.t) then SetPriority(prio, mx.owner.t, prio(t)) else prio
  }

  function Take(mx: Mutex, prio: Priorities, t: ThreadId, time: int): (Mutex, Priorities, Result) {
    if mx.owner == Thread(t) then (mx.(hold := (mx.hold + 1) % 256), prio, Returns(EOk))
    else if mx.value > 0 then
      (mx.(value := mx.value - 1, owner := Thread(t), original := prio(t), hold := (mx.hold + 1) % 256), prio, Returns(EOk))
    else if time == 0 then (mx, prio, Returns(ETimeout))
    else
      var prio' := Boosted(mx, prio, t);
      (mx.(waiters := Suspended(mx.waiters, t, mx.flag, prio')), prio', Blocks)
  }

  /** The priorities when the owner `t` lets go completely. */
  function Restored(mx: Mutex, prio: Priorities, t: ThreadId): Priorities {
    if mx.original != prio(t) then SetPriority(prio, t, mx.original) else prio
  }

  function Release(mx: Mutex, prio: Priorities, t: ThreadId): (Mutex, Priorities, Result) {
    if mx.owner != Thread(t) then (mx, prio, Returns(EError))
    else
      var hold := (mx.hold + 255) % 256;
      if hold != 0 then (mx.(hold := hold), prio, Returns(EOk))
      else
        var prio' := Restored(mx, prio, t);
        if mx.waiters != [] then
          var h := mx.waiters[0];
          (mx.(owner := Thread(h), original := prio'(h), hold := 1, waiters := mx.waiters[1..]), prio', Returns(EOk))
        else (mx.(value := mx.value + 1, owner := Nobody, original := 0xFF, hold := 0), prio', Returns(EOk))
  }

  // ----- the system

  /** `since` is the step at which the thread was suspended. */
  datatype Call = Waiting(m: MutexId, timeout: int, since: nat) | Woken(error: Error)

  /** A mutex a thread owns, and the priority it had when it acquired it. */
  datatype Entry = Entry(m: MutexId, prio: nat)

  /** What a thread owns in order of acquisition (history).  `base` is the priority it had
      when it last owned nothing; `rooted` says that the mutex it acquired then is still
      the first entry and was never released since. */
  datatype Holdings = Holdings(entries: seq<Entry>, base: nat, rooted: bool)

  datatype System = System(
    mutexes: map<MutexId, Mutex>,
    prio: Priorities,
    calls: map<ThreadId, Call>,
    clock: nat,
    holdings: map<ThreadId, Holdings>,
    balance: map<(ThreadId, MutexId), int>)   // takes minus releases (history)

  datatype Action =
    | TakeIt(t: ThreadId, m: MutexId, time: int)
    | ReleaseIt(t: ThreadId, m: MutexId)
    | Wake(t: ThreadId)
    | Timeout(t: ThreadId)
    | ChangePriority(t: ThreadId, p: nat)

  function HoldingsOf(s: System, t: ThreadId): Holdings {
    if t in s.holdings then s.holdings[t] else Holdings([], s.prio(t), false)
  }

  function BalanceOf(s: System, t: ThreadId, m: MutexId): int {
    if (t, m) in s.balance then s.balance[(t, m)] else 0
  }

  function Gained(h: Holdings, m: MutexId, p: nat): Holdings {
    if h.entries == [] then Holdings([Entry(m, p)], p, true)
    else h.(entries := h.entries + [Entry(m, p)])
  }

  function Dropped(entries: seq<Entry>, m: MutexId): seq<Entry> {
    if entries == [] then []
    else if entries[0].m == m then entries[1..]
    else [entries[0]] + Dropped(entries[1..], m)
  }

  function Lost(h: Holdings, m: MutexId): Holdings {
    h.(entries := Dropped(h.entries, m), rooted := h.rooted && h.entries != [] && h.entries[0].m != m)
  }

  function TakeStep(s: System, t: ThreadId, m: MutexId, time: int): (System, Result)
    requires m in s.mutexes
  {
    var mx := s.mutexes[m];
    var (mx', prio', r) := Take(mx, s.prio, t, time);
    var s1 := s.(mutexes := s.mutexes[m := mx'], prio := prio', clock := s.clock + 1);
    if r == Blocks then (s1.(calls := s.calls[t := Waiting(m, time, s.clock)]), r)
    else if r == Returns(EOk) then
      (s1.(balance := s.balance[(t, m) := BalanceOf(s, t, m) + 1],
           holdings := if mx.owner == Thread(t) then s.holdings
                       else s.holdings[t := Gained(HoldingsOf(s, t), m, s.prio(t))]), r)
    else (s1, r)
  }

  function ReleaseStep(s: System, t: ThreadId, m: MutexId): (System, Result)
    requires m in s.mutexes
  {
    var mx := s.mutexes[m];
    var (mx', prio', r) := Release(mx, s.prio, t);
    var s1 := s.(mutexes := s.mutexes[m := mx'], prio := prio', clock := s.clock + 1);
    if r != Returns(EOk) then (s1, r)
    else
      var s2 := s1.(balance := s.balance[(t, m) := BalanceOf(s, t, m) - 1]);
      if mx'.owner == Thread(t) then (s2, r)
      else
        var s3 := s2.(holdings := s.holdings[t := Lost(HoldingsOf(s, t), m)]);
        if mx'.owner.Nobody? then (s3, r)
        else
          var h := mx'.owner.t;
          (s3.(calls := s.calls[h := Woken(EOk)],
               balance := s2.balance[(h, m) := BalanceOf(s2, h, m) + 1],
               holdings := s3.holdings[h := Gained(HoldingsOf(s3, h), m, prio'(h))]), r)
  }

  function TimeoutStep(s: System, t: ThreadId): System
    requires t in s.calls && s.calls[t].Waiting? && s.calls[t].m in s.mutexes
  {
    var m := s.calls[t].m;
    s.(mutexes := s.mutexes[m := s.mutexes[m].(waiters := Without(s.mutexes[m].waiters, t))],
       calls := s.calls[t := Woken(ETimeout)], clock := s.clock + 1)
  }

  /** A thread acts only while it is in no call; a nested take must not wrap `hold`. */
  ghost predicate Enabled(s: System, a: Action) {
    match a
    case TakeIt(t, m, _) => t !in s.calls && m in s.mutexes && (s.mutexes[m].owner == Thread(t) ==> s.mutexes[m].hold < 255)
    case ReleaseIt(t, m) => t !in s.calls && m in s.mutexes
    case Wake(t) => t in s.calls && s.calls[t].Woken?
    case Timeout(t) => t in s.calls && s.calls[t].Waiting? && 0 < s.calls[t].timeout && s.calls[t].m in s.mutexes
    case ChangePriority(_, _) => true
  }

  ghost function Step(s: System, a: Action): (System, Result)
    requires Enabled(s, a)
  {
    match a
    case TakeIt(t, m, time) => TakeStep(s, t, m, time)
    case ReleaseIt(t, m) => ReleaseStep(s, t, m)
    case Wake(t) => (s.(calls := s.calls - {t}, clock := s.clock + 1), Returns(s.calls[t].error))
    case Timeout(t) => (TimeoutStep(s, t), Silent)
    case ChangePriority(t, p) => (s.(prio := SetPriority(s.prio, t, p), clock := s.clock + 1), Silent)
  }

  ghost predicate IsRun(s: System, run: seq<Action>, s': System)
    decreases run
  {
    if run == [] then s == s'
    else Enabled(s, run[0]) && IsRun(Step(s, run[0]).0, run[1..], s')
  }

  ghost predicate Initial(s: System) {
    && (forall m :: m in s.mutexes ==> s.mutexes[m] == Fresh(s.mutexes[m].flag))
    && s.calls == map[] && s.holdings == map[] && s.balance == map[]
  }

  // ----- ownership

  /** What holds of a mutex by itself. */
  ghost predicate Sound(mx: Mutex) {
    && mx.value == (if mx.owner.Nobody? then 1 else 0)
    && (mx.owner.Nobody? <==> mx.hold == 0)
    && mx.hold < 256
    && (mx.waiters != [] ==> mx.owner.Thread?)
    && (mx.owner.Thread? ==> mx.owner.t !in mx.waiters)
    && NoDuplicates(mx.waiters)
  }

  ghost predicate WaitsFor(calls: map<ThreadId, Call>, t: ThreadId, m: MutexId) {
    t in calls && calls[t].Waiting? && calls[t].m == m
  }

  /** The waiters of each mutex are the threads suspended in a take of it. */
  ghost predicate Queued(s: System) {
    && (forall m, t :: m in s.mutexes ==> (t in s.mutexes[m].waiters <==> WaitsFor(s.calls, t, m)))
    && (forall t, m :: WaitsFor(s.calls, t, m) ==> m in s.mutexes)
  }

  /** `hold` counts the owner's takes that it has not released; others have none. */
  ghost predicate Balanced(s: System) {
    forall m, t :: m in s.mutexes ==>
      BalanceOf(s, t, m) == if s.mutexes[m].owner == Thread(t) then s.mutexes[m].hold else 0
  }

  ghost predicate Ownership(s: System) {
    && (forall m :: m in s.mutexes ==> Sound(s.mutexes[m]))
    && Queued(s)
    && Balanced(s)
  }

  /** A take keeps a mutex sound exactly when it is not the owner's 256th nested one. */
  lemma TakeSound(mx: Mutex, prio: Priorities, t: ThreadId, time: int)
    requires Sound(mx) && t !in mx.waiters
    ensures Sound(Take(mx, prio, t, time).0) <==> !(mx.owner == Thread(t) && mx.hold == 255)
  {
    var prio' := Boosted(mx, prio, t);
    SuspendedMembers(mx.waiters, t, mx.flag, prio');
    SuspendedNoDuplicates(mx.waiters, t, mx.flag, prio');
  }

  lemma ReleaseSound(mx: Mutex, prio: Priorities, t: ThreadId)
    requires Sound(mx)
    ensures Sound(Release(mx, prio, t).0)
  {
    if mx.waiters != [] {
      TailMembers(mx.waiters);
    }
  }

  lemma TakeKeepsQueues(s: System, t: ThreadId, m: MutexId, time: int)
    requires Queued(s) && m in s.mutexes && t !in s.calls
    ensures Queued(TakeStep(s, t, m, time).0)
  {
    var s' := TakeStep(s, t, m, time).0;
    SuspendedMembers(s.mutexes[m].waiters, t, s.mutexes[m].flag, s'.prio);
    forall k, u | k in s'.mutexes ensures u in s'.mutexes[k].waiters <==> WaitsFor(s'.calls, u, k) {
      assert u in s.mutexes[k].waiters <==> WaitsFor(s.calls, u, k);
    }
    forall u, k | WaitsFor(s'.calls, u, k) ensures k in s'.mutexes {
      if u != t { assert WaitsFor(s.calls, u, k); }
    }
  }

  lemma TakeKeepsBalance(s: System, t: ThreadId, m: MutexId, time: int)
    requires Balanced(s) && m in s.mutexes && Sound(s.mutexes[m])
    requires s.mutexes[m].owner == Thread(t) ==> s.mutexes[m].hold < 255
    ensures Balanced(TakeStep(s, t, m, time).0)
  {
    var s' := TakeStep(s, t, m, time).0;
    forall k, u | k in s'.mutexes
      ensures BalanceOf(s', u, k) == if s'.mutexes[k].owner == Thread(u) then s'.mutexes[k].hold else 0
    {
      assert BalanceOf(s, u, k) == if s.mutexes[k].owner == Thread(u) then s.mutexes[k].hold else 0;
    }
  }

  lemma ReleaseKeepsQueues(s: System, t: ThreadId, m: MutexId)
    requires Queued(s) && m in s.mutexes && Sound(s.mutexes[m])
    ensures Queued(ReleaseStep(s, t, m).0)
  {
    var s' := ReleaseStep(s, t, m).0;
    var waiters := s.mutexes[m].waiters;
    if waiters != [] {
      TailMembers(waiters);
      assert waiters[0] in waiters && WaitsFor(s.calls, waiters[0], m);
    }
    forall k, u | k in s'.mutexes ensures u in s'.mutexes[k].waiters <==> WaitsFor(s'.calls, u, k) {
      assert u in s.mutexes[k].waiters <==> WaitsFor(s.calls, u, k);
    }
    forall u, k | WaitsFor(s'.calls, u, k) ensures k in s'.mutexes {
      assert WaitsFor(s.calls, u, k);
    }
  }

  lemma ReleaseKeepsBalance(s: System, t: ThreadId, m: MutexId)
    requires Balanced(s) && m in s.mutexes && Sound(s.mutexes[m])
    ensures Balanced(ReleaseStep(s, t, m).0)
  {
    var s' := ReleaseStep(s, t, m).0;
    assert s.mutexes[m].waiters != [] ==> s.mutexes[m].waiters[0] in s.mutexes[m].waiters;
    forall k, u | k in s'.mutexes
      ensures BalanceOf(s', u, k) == if s'.mutexes[k].owner == Thread(u) then s'.mutexes[k].hold else 0
    {
      assert BalanceOf(s, u, k) == if s.mutexes[k].owner == Thread(u) then s.mutexes[k].hold else 0;
    }
  }

  lemma TimeoutKeepsOwnership(s: System, t: ThreadId)
    requires Ownership(s) && t in s.calls && s.calls[t].Waiting?
    ensures WaitsFor(s.calls, t, s.calls[t].m) && Ownership(TimeoutStep(s, t))
  {
    var m := s.calls[t].m;
    assert WaitsFor(s.calls, t, m);
    WithoutMembers(s.mutexes[m].waiters, t);
    var s' := TimeoutStep(s, t);
    assert Sound(s'.mutexes[m]);
    forall k, u | k in s'.mutexes
      ensures u in s'.mutexes[k].waiters <==> WaitsFor(s'.calls, u, k)
      ensures BalanceOf(s', u, k) == if s'.mutexes[k].owner == Thread(u) then s'.mutexes[k].hold else 0
    {
      assert u in s.mutexes[k].waiters <==> WaitsFor(s.calls, u, k);
      assert BalanceOf(s, u, k) == BalanceOf(s', u, k);
    }
    forall u, k | WaitsFor(s'.calls, u, k) ensures k in s'.mutexes {
      assert WaitsFor(s.calls, u, k);
    }
  }

  /** A step that touches neither mutexes nor waiting calls. */
  lemma OtherKeepsOwnership(s: System, s': System)
    requires Ownership(s) && s'.mutexes == s.mutexes && s'.balance == s.balance
    requires forall t, m :: WaitsFor(s'.calls, t, m) <==> WaitsFor(s.calls, t, m)
    ensures Ownership(s')
  {
    forall k, u | k in s'.mutexes
      ensures BalanceOf(s', u, k) == if s'.mutexes[k].owner == Thread(u) then s'.mutexes[k].hold else 0
    {
      assert BalanceOf(s, u, k) == BalanceOf(s', u, k);
    }
  }

  lemma TakeKeepsOwnership(s: System, t: ThreadId, m: MutexId, time: int)
    requires Ownership(s) && Enabled(s, TakeIt(t, m, time))
    ensures Ownership(TakeStep(s, t, m, time).0)
  {
    assert t in s.mutexes[m].waiters <==> WaitsFor(s.calls, t, m);
    TakeSound(s.mutexes[m], s.prio, t, time);
    TakeKeepsQueues(s, t, m, time);
    TakeKeepsBalance(s, t, m, time);
  }

  lemma ReleaseKeepsOwnership(s: System, t: ThreadId, m: MutexId)
    requires Ownership(s) && Enabled(s, ReleaseIt(t, m))
    ensures Ownership(ReleaseStep(s, t, m).0)
  {
    ReleaseSound(s.mutexes[m], s.prio, t);
    ReleaseKeepsQueues(s, t, m);
    ReleaseKeepsBalance(s, t, m);
  }

  lemma StepKeepsOwnership(s: System, a: Action)
    requires Ownership(s) && Enabled(s, a)
    ensures Ownership(Step(s, a).0)
  {
    match a {
      case TakeIt(t, m, time) => TakeKeepsOwnership(s, t, m, time);
      case ReleaseIt(t, m) => ReleaseKeepsOwnership(s, t, m);
      case Wake(t) => OtherKeepsOwnership(s, Step(s, a).0);
      case Timeout(t) => TimeoutKeepsOwnership(s, t);
      case ChangePriority(t, p) => OtherKeepsOwnership(s, Step(s, a).0);
    }
  }

  lemma {:induction false} RunKeepsOwnership(s: System, run: seq<Action>, s': System)
    requires Ownership(s) && IsRun(s, run, s')
    ensures Ownership(s')
    decreases run
  {
    if run != [] {
      StepKeepsOwnership(s, run[0]);
      RunKeepsOwnership(Step(s, run[0]).0, run[1..], s');
    }
  }

  /** Ownership in every reachable state of any number of mutexes and threads. */
  lemma EveryRunOwnership(s0: System, run: seq<Action>, s: System, m: MutexId)
    requires Initial(s0) && IsRun(s0, run, s) && m in s.mutexes
    ensures var mx := s.mutexes[m];
            && (mx.value == 1 <==> mx.owner.Nobody?) && (mx.owner.Nobody? <==> mx.hold == 0) && mx.value <= 1
            && (mx.waiters != [] ==> mx.owner.Thread?)
            && (mx.owner.Thread? ==> mx.owner.t !in mx.waiters && !WaitsFor(s.calls, mx.owner.t, m))
            && (forall t :: BalanceOf(s, t, m) == if mx.owner == Thread(t) then mx.hold else 0)
            && (forall t :: t in mx.waiters <==> WaitsFor(s.calls, t, m))
  {
    RunKeepsOwnership(s0, run, s);
  }

  /** The mutex was handed to `h`, which has not run yet. */
  ghost predicate HandedTo(s: System, m: MutexId, h: ThreadId) {
    m in s.mutexes && s.mutexes[m].owner == Thread(h) && h in s.calls && s.calls[h] == Woken(EOk)
  }

  lemma StepKeepsHandover(s: System, a: Action, m: MutexId, h: ThreadId)
    requires Ownership(s) && Enabled(s, a) && HandedTo(s, m, h) && a != Wake(h)
    ensures HandedTo(Step(s, a).0, m, h)
  {
    assert Sound(s.mutexes[m]);
  }

  lemma {:induction false} RunKeepsHandover(s: System, run: seq<Action>, s': System, m: MutexId, h: ThreadId)
    requires Ownership(s) && IsRun(s, run, s') && HandedTo(s, m, h) && Wake(h) !in run
    ensures Ownership(s') && HandedTo(s', m, h)
    decreases run
  {
    if run != [] {
      StepKeepsOwnership(s, run[0]);
      StepKeepsHandover(s, run[0], m, h);
      RunKeepsHandover(Step(s, run[0]).0, run[1..], s', m, h);
    }
  }

  /** A full release with waiters makes the head of the list the owner in the same step.  Whatever the
      other threads do before the head runs, it stays the owner and no other thread's take succeeds. */
  lemma HandoverIsDirect(s0: System, run: seq<Action>, s: System, t: ThreadId, m: MutexId,
                         later: seq<Action>, s': System, other: ThreadId, time: int)
    requires Initial(s0) && IsRun(s0, run, s) && Enabled(s, ReleaseIt(t, m))
    requires s.mutexes[m].owner == Thread(t) && s.mutexes[m].hold == 1 && s.mutexes[m].waiters != []
    requires IsRun(ReleaseStep(s, t, m).0, later, s') && Wake(s.mutexes[m].waiters[0]) !in later
    ensures HandedTo(s', m, s.mutexes[m].waiters[0])
    ensures other != s.mutexes[m].waiters[0] ==> TakeStep(s', other, m, time).1 != Returns(EOk)
  {
    var h := s.mutexes[m].waiters[0];
    RunKeepsOwnership(s0, run, s);
    ReleaseKeepsOwnership(s, t, m);
    ReleaseHandsOver(s, t, m);
    RunKeepsHandover(ReleaseStep(s, t, m).0, later, s', m, h);
    OthersAreRefused(s', m, h, other, time);
  }

  lemma ReleaseHandsOver(s: System, t: ThreadId, m: MutexId)
    requires m in s.mutexes && Sound(s.mutexes[m])
    requires s.mutexes[m].owner == Thread(t) && s.mutexes[m].hold == 1 && s.mutexes[m].waiters != []
    ensures HandedTo(ReleaseStep(s, t, m).0, m, s.mutexes[m].waiters[0])
  {
  }

  lemma OthersAreRefused(s: System, m: MutexId, h: ThreadId, other: ThreadId, time: int)
    requires HandedTo(s, m, h) && Sound(s.mutexes[m])
    ensures other != h ==> TakeStep(s, other, m, time).1 != Returns(EOk)
  {
  }

  /** The owner can take its mutex again until it holds it 255 times. */
  lemma {:induction false} NestedTakes(s: System, t: ThreadId, m: MutexId, time: int, n: nat)
    returns (run: seq<Action>, s': System)
    requires t !in s.calls && m in s.mutexes && s.mutexes[m].owner == Thread(t) && s.mutexes[m].hold + n <= 255
    ensures |run| == n && (forall i :: 0 <= i < n ==> run[i] == TakeIt(t, m, time)) && IsRun(s, run, s')
    ensures m in s'.mutexes && s'.mutexes[m] == s.mutexes[m].(hold := s.mutexes[m].hold + n)
    decreases n
  {
    run, s' := [], s;
    if n > 0 {
      run, s' := NestedTakes(TakeStep(s, t, m, time).0, t, m, time, n - 1);
      run := OneMore(s, TakeIt(t, m, time), run, s');
    }
  }

  /** 255 takes by one thread reach the limit of the counter, and the 256th wraps it: the thread then
      owns the mutex and holds it zero times. */
  lemma HoldWraps(s0: System, t: ThreadId, m: MutexId, time: int) returns (run: seq<Action>, s: System)
    requires Initial(s0) && m in s0.mutexes
    ensures |run| == 255 && (forall i :: 0 <= i < 255 ==> run[i] == TakeIt(t, m, time)) && IsRun(s0, run, s)
    ensures m in s.mutexes && s.mutexes[m].hold == 255 && Sound(s.mutexes[m])
    ensures var mx := Take(s.mutexes[m], s.prio, t, time).0; mx.owner == Thread(t) && mx.hold == 0 && !Sound(mx)
  {
    run, s := NestedTakes(TakeStep(s0, t, m, time).0, t, m, time, 254);
    run := OneMore(s0, TakeIt(t, m, time), run, s);
  }

  // ----- one priority mutex: inheritance

  /** More urgent first, and first come first served among equals. */
  ghost predicate Before(a: ThreadId, b: ThreadId, prio: Priorities, calls: map<ThreadId, Call>) {
    && a in calls && calls[a].Waiting? && b in calls && calls[b].Waiting?
    && (prio(a) < prio(b) || (prio(a) == prio(b) && calls[a].since < calls[b].since))
  }

  ghost predicate Ordered(list: seq<ThreadId>, prio: Priorities, calls: map<ThreadId, Call>) {
    forall i, j :: 0 <= i < j < |list| ==> Before(list[i], list[j], prio, calls)
  }

  /** `base` gives the priorities the threads have outside the mutex. */
  ghost predicate Inherits(mx: Mutex, m: MutexId, prio: Priorities, calls: map<ThreadId, Call>, clock: nat,
                           base: Priorities) {
    && mx.flag == Prio
    && Ordered(mx.waiters, prio, calls)
    && (forall t :: mx.owner != Thread(t) ==> prio(t) == base(t))
    && (mx.owner.Thread? ==>
          && mx.original == base(mx.owner.t)
          && prio(mx.owner.t) <= base(mx.owner.t)
          && (forall w :: w in mx.waiters ==> prio(mx.owner.t) <= prio(w)))
    && (forall t :: WaitsFor(calls, t, m) ==> calls[t].since < clock)
  }

  ghost predicate Inheritance(s: System, m: MutexId, base: Priorities)
    requires m in s.mutexes
  {
    Inherits(s.mutexes[m], m, s.prio, s.calls, s.clock, base)
  }

  /** The only mutex is `m`, and priorities change only through it. */
  ghost predicate OnlyThrough(a: Action, m: MutexId) {
    match a
    case TakeIt(_, k, _) => k == m
    case ReleaseIt(_, k) => k == m
    case ChangePriority(_, _) => false
    case _ => true
  }

  lemma SuspendKeepsOrder(list: seq<ThreadId>, t: ThreadId, prio: Priorities, calls: map<ThreadId, Call>, c: Call)
    requires Ordered(list, prio, calls) && t !in list && c.Waiting?
    requires forall i :: 0 <= i < |list| ==> list[i] in calls && calls[list[i]].Waiting? && calls[list[i]].since < c.since
    ensures Ordered(Suspended(list, t, Prio, prio), prio, calls[t := c])
  {
    var r := Suspended(list, t, Prio, prio);
    var calls' := calls[t := c];
    var k := InsertPosition(list, t, prio);
    assert forall i :: 0 <= i < |list| ==> list[i] != t;
    forall i | 0 <= i < k ensures Before(list[i], t, prio, calls') {
    }
    forall i | k <= i < |list| ensures Before(t, list[i], prio, calls') {
      if k < i { assert Before(list[k], list[i], prio, calls); }
    }
    forall i, j | 0 <= i < j < |list| ensures Before(list[i], list[j], prio, calls') {
      assert Before(list[i], list[j], prio, calls);
    }
    forall i, j | 0 <= i < j < |r| ensures Before(r[i], r[j], prio, calls') {
      if j < k {
        assert Before(list[i], list[j], prio, calls');
      } else if j == k {
        assert Before(list[i], t, prio, calls');
      } else if i == k {
        assert Before(t, list[j - 1], prio, calls');
      } else {
        assert Before(list[if i < k then i else i - 1], list[j - 1], prio, calls');
      }
    }
  }

  /** Changing neither the calls of the listed threads nor their priorities keeps the order. */
  lemma OrderUnaffected(list: seq<ThreadId>, prio: Priorities, prio': Priorities, calls: map<ThreadId, Call>,
                        calls': map<ThreadId, Call>)
    requires Ordered(list, prio, calls)
    requires forall i :: 0 <= i < |list| ==> prio'(list[i]) == prio(list[i])
    requires forall i :: 0 <= i < |list| && list[i] in calls ==> list[i] in calls' && calls'[list[i]] == calls[list[i]]
    ensures Ordered(list, prio', calls')
  {
    forall i, j | 0 <= i < j < |list| ensures Before(list[i], list[j], prio', calls') {
      assert Before(list[i], list[j], prio, calls);
    }
  }

  ghost predicate ListMatches(mx: Mutex, m: MutexId, calls: map<ThreadId, Call>) {
    forall t :: t in mx.waiters <==> WaitsFor(calls, t, m)
  }

  lemma BlockOrdered(mx: Mutex, m: MutexId, prio: Priorities, prio': Priorities, calls: map<ThreadId, Call>,
                     t: ThreadId, c: Call)
    requires ListMatches(mx, m, calls) && Ordered(mx.waiters, prio, calls) && t !in calls && c.Waiting?
    requires forall w :: w in mx.waiters ==> prio'(w) == prio(w)
    requires forall u :: WaitsFor(calls, u, m) ==> calls[u].since < c.since
    ensures t !in mx.waiters && Ordered(Suspended(mx.waiters, t, Prio, prio'), prio', calls[t := c])
  {
    assert t !in mx.waiters;
    forall i | 0 <= i < |mx.waiters| ensures WaitsFor(calls, mx.waiters[i], m) && prio'(mx.waiters[i]) == prio(mx.waiters[i]) {
      assert mx.waiters[i] in mx.waiters;
    }
    OrderUnaffected(mx.waiters, prio, prio', calls, calls);
    SuspendKeepsOrder(mx.waiters, t, prio', calls, c);
  }

  lemma BlockInherits(mx: Mutex, m: MutexId, prio: Priorities, calls: map<ThreadId, Call>, clock: nat,
                      base: Priorities, t: ThreadId, time: int)
    requires Sound(mx) && ListMatches(mx, m, calls) && Inherits(mx, m, prio, calls, clock, base)
    requires t !in calls && Take(mx, prio, t, time).2 == Blocks
    ensures var (mx', prio', r) := Take(mx, prio, t, time);
            Inherits(mx', m, prio', calls[t := Waiting(m, time, clock)], clock + 1, base)
  {
    var prio' := Boosted(mx, prio, t);
    BlockOrdered(mx, m, prio, prio', calls, t, Waiting(m, time, clock));
    var waiters' := Suspended(mx.waiters, t, mx.flag, prio');
    forall w | w in waiters' ensures prio'(mx.owner.t) <= prio'(w) {
      SuspendedMembers(mx.waiters, t, mx.flag, prio');
    }
    var calls' := calls[t := Waiting(m, time, clock)];
    forall u | WaitsFor(calls', u, m) ensures calls'[u].since < clock + 1 {
      if u != t { assert WaitsFor(calls, u, m); }
    }
  }

  lemma TakeKeepsInheritance(s: System, t: ThreadId, m: MutexId, time: int, base: Priorities)
    requires m in s.mutexes && Sound(s.mutexes[m]) && Queued(s) && t !in s.calls && Inheritance(s, m, base)
    ensures Inheritance(TakeStep(s, t, m, time).0, m, base)
  {
    var mx := s.mutexes[m];
    if Take(mx, s.prio, t, time).2 == Blocks {
      assert ListMatches(mx, m, s.calls);
      BlockInherits(mx, m, s.prio, s.calls, s.clock, base, t, time);
    }
  }

  lemma HandoverInherits(mx: Mutex, m: MutexId, prio: Priorities, calls: map<ThreadId, Call>, clock: nat,
                         base: Priorities, t: ThreadId)
    requires Sound(mx) && Inherits(mx, m, prio, calls, clock, base)
    requires mx.owner == Thread(t) && mx.hold == 1 && mx.waiters != []
    ensures var (mx', prio', r) := Release(mx, prio, t);
            Inherits(mx', m, prio', calls[mx.waiters[0] := Woken(EOk)], clock + 1, base)
  {
    var (mx', prio', r) := Release(mx, prio, t);
    var h, rest := mx.waiters[0], mx.waiters[1..];
    var calls' := calls[h := Woken(EOk)];
    TailMembers(mx.waiters);
    assert h in mx.waiters && h != t;
    forall i | 0 <= i < |rest| ensures rest[i] != h && rest[i] != t && prio(h) <= prio(rest[i]) {
      assert rest[i] == mx.waiters[i + 1] && rest[i] in mx.waiters;
      assert Before(mx.waiters[0], mx.waiters[i + 1], prio, calls);
    }
    forall i, j | 0 <= i < j < |rest| ensures Before(rest[i], rest[j], prio, calls) {
      assert Before(mx.waiters[i + 1], mx.waiters[j + 1], prio, calls);
    }
    OrderUnaffected(rest, prio, prio', calls, calls');
    forall u | WaitsFor(calls', u, m) ensures calls'[u].since < clock + 1 {
      assert WaitsFor(calls, u, m);
    }
  }

  /** A release that wakes nobody: not the owner, still nested, or no one waiting. */
  lemma ReleaseInherits(mx: Mutex, m: MutexId, prio: Priorities, calls: map<ThreadId, Call>, clock: nat,
                        base: Priorities, t: ThreadId)
    requires Sound(mx) && Inherits(mx, m, prio, calls, clock, base)
    requires !(mx.owner == Thread(t) && mx.hold == 1 && mx.waiters != [])
    ensures var (mx', prio', r) := Release(mx, prio, t);
            Inherits(mx', m, prio', calls, clock + 1, base)
  {
  }

  lemma ReleaseKeepsInheritance(s: System, t: ThreadId, m: MutexId, base: Priorities)
    requires m in s.mutexes && Sound(s.mutexes[m]) && Inheritance(s, m, base)
    ensures Inheritance(ReleaseStep(s, t, m).0, m, base)
  {
    var mx := s.mutexes[m];
    var (mx', prio', r) := Release(mx, s.prio, t);
    if mx.owner == Thread(t) && mx.hold == 1 && mx.waiters != [] {
      assert mx.waiters[0] in mx.waiters;
      HandoverInherits(mx, m, s.prio, s.calls, s.clock, base, t);
      assert ReleaseStep(s, t, m).0.calls == s.calls[mx.waiters[0] := Woken(EOk)];
    } else {
      ReleaseInherits(mx, m, s.prio, s.calls, s.clock, base, t);
      assert ReleaseStep(s, t, m).0.calls == s.calls;
    }
  }

  lemma TimeoutKeepsInheritance(s: System, t: ThreadId, m: MutexId, base: Priorities)
    requires Ownership(s) && s.mutexes.Keys == {m} && Inheritance(s, m, base)
    requires t in s.calls && s.calls[t].Waiting? && s.calls[t].m == m
    ensures Inheritance(TimeoutStep(s, t), m, base)
  {
    var mx, s' := s.mutexes[m], TimeoutStep(s, t);
    assert Sound(mx);
    WithoutMembers(mx.waiters, t);
    WithoutKeepsOrder(mx.waiters, t, s.prio, s.calls);
    forall i | 0 <= i < |s'.mutexes[m].waiters| ensures s'.mutexes[m].waiters[i] != t {
      assert s'.mutexes[m].waiters[i] in s'.mutexes[m].waiters;
    }
    OrderUnaffected(s'.mutexes[m].waiters, s.prio, s'.prio, s.calls, s'.calls);
    forall u | WaitsFor(s'.calls, u, m) ensures s'.calls[u].since < s'.clock {
      assert WaitsFor(s.calls, u, m);
    }
  }

  lemma {:induction false} WithoutKeepsOrder(list: seq<ThreadId>, t: ThreadId, prio: Priorities,
                                             calls: map<ThreadId, Call>)
    requires NoDuplicates(list) && Ordered(list, prio, calls)
    ensures Ordered(Without(list, t), prio, calls)
  {
    if list != [] {
      var rest := list[1..];
      forall i, j | 0 <= i < j < |rest| ensures Before(rest[i], rest[j], prio, calls) {
        assert Before(list[i + 1], list[j + 1], prio, calls);
      }
      if list[0] != t {
        WithoutKeepsOrder(rest, t, prio, calls);
        WithoutMembers(rest, t);
        var r := Without(rest, t);
        forall j | 0 <= j < |r| ensures Before(list[0], r[j], prio, calls) {
          assert r[j] in rest;
          var i :| 0 <= i < |rest| && rest[i] == r[j];
          assert Before(list[0], list[i + 1], prio, calls);
        }
      }
    }
  }

  lemma WakeKeepsInheritance(s: System, t: ThreadId, m: MutexId, base: Priorities)
    requires Ownership(s) && m in s.mutexes && Inheritance(s, m, base) && Enabled(s, Wake(t))
    ensures Inheritance(Step(s, Wake(t)).0, m, base)
  {
    var s' := Step(s, Wake(t)).0;
    forall i | 0 <= i < |s.mutexes[m].waiters| ensures s.mutexes[m].waiters[i] != t {
      assert s.mutexes[m].waiters[i] in s.mutexes[m].waiters;
    }
    OrderUnaffected(s.mutexes[m].waiters, s.prio, s'.prio, s.calls, s'.calls);
    forall u | WaitsFor(s'.calls, u, m) ensures s'.calls[u].since < s'.clock {
      assert WaitsFor(s.calls, u, m);
    }
  }

  lemma StepKeepsInheritance(s: System, a: Action, m: MutexId, base: Priorities)
    requires Ownership(s) && s.mutexes.Keys == {m} && Inheritance(s, m, base)
    requires Enabled(s, a) && OnlyThrough(a, m)
    ensures Step(s, a).0.mutexes.Keys == {m} && Inheritance(Step(s, a).0, m, base)
  {
    match a {
      case TakeIt(t, _, time) => TakeKeepsInheritance(s, t, m, time, base);
      case ReleaseIt(t, _) => ReleaseKeepsInheritance(s, t, m, base);
      case Wake(t) => WakeKeepsInheritance(s, t, m, base);
      case Timeout(t) =>
        assert WaitsFor(s.calls, t, s.calls[t].m);
        TimeoutKeepsInheritance(s, t, m, base);
    }
  }

  lemma {:induction false} RunKeepsInheritance(s: System, run: seq<Action>, s': System, m: MutexId, base: Priorities)
    requires Ownership(s) && s.mutexes.Keys == {m} && Inheritance(s, m, base)
    requires IsRun(s, run, s') && forall i :: 0 <= i < |run| ==> OnlyThrough(run[i], m)
    ensures Ownership(s') && s'.mutexes.Keys == {m} && Inheritance(s', m, base)
    decreases run
  {
    if run != [] {
      StepKeepsOwnership(s, run[0]);
      StepKeepsInheritance(s, run[0], m, base);
      RunKeepsInheritance(Step(s, run[0]).0, run[1..], s', m, base);
    }
  }

  /** Over every run of one RT_IPC_FLAG_PRIO mutex: the list is ordered, the owner is at least
      as urgent as every waiter, every other thread has its own priority, and a thread that
      releases completely gets its own priority back. */
  lemma PriorityInheritance(s0: System, run: seq<Action>, s: System, m: MutexId)
    requires Initial(s0) && s0.mutexes.Keys == {m} && s0.mutexes[m].flag == Prio
    requires IsRun(s0, run, s) && forall i :: 0 <= i < |run| ==> OnlyThrough(run[i], m)
    ensures m in s.mutexes
    ensures var mx := s.mutexes[m];
            && Ordered(mx.waiters, s.prio, s.calls)
            && (forall w :: w in mx.waiters ==> mx.owner.Thread? && s.prio(mx.owner.t) <= s.prio(w))
            && (forall t :: mx.owner != Thread(t) ==> s.prio(t) == s0.prio(t))
            && (mx.owner.Thread? && mx.hold == 1 ==>
                  ReleaseStep(s, mx.owner.t, m).0.prio(mx.owner.t) == s0.prio(mx.owner.t))
  {
    RunKeepsInheritance(s0, run, s, m, s0.prio);
    if s.mutexes[m].owner.Thread? && s.mutexes[m].hold == 1 {
      ReleasedPriority(s, s.mutexes[m].owner.t, m);
    }
  }

  /** The last release of a mutex gives its owner the priority it had when it acquired it. */
  lemma ReleasedPriority(s: System, t: ThreadId, m: MutexId)
    requires m in s.mutexes && s.mutexes[m].owner == Thread(t) && s.mutexes[m].hold == 1
    ensures ReleaseStep(s, t, m).0.prio(t) == s.mutexes[m].original
  {
  }

  // ----- any number of mutexes: what a thread gets back when it lets the last one go

  ghost predicate Lists(entries: seq<Entry>, m: MutexId) {
    exists i :: 0 <= i < |entries| && entries[i].m == m
  }

  ghost predicate Distinct(entries: seq<Entry>) {
    forall i, j :: 0 <= i < j < |entries| ==> entries[i].m != entries[j].m
  }

  /** `entries` are exactly the mutexes `t` owns, with the priorities recorded in them. */
  ghost predicate Recorded(s: System, t: ThreadId, entries: seq<Entry>) {
    && Distinct(entries)
    && (forall i :: 0 <= i < |entries| ==>
          entries[i].m in s.mutexes && s.mutexes[entries[i].m].owner == Thread(t)
          && s.mutexes[entries[i].m].original == entries[i].prio)
    && (forall m :: m in s.mutexes && s.mutexes[m].owner == Thread(t) ==> Lists(entries, m))
  }

  ghost predicate HoldingsSound(s: System, t: ThreadId) {
    var h := HoldingsOf(s, t);
    && Recorded(s, t, h.entries)
    && (h.rooted ==> h.entries != [] && h.entries[0].prio == h.base)
  }

  ghost predicate History(s: System) {
    forall t :: HoldingsSound(s, t)
  }

  lemma {:induction false} DroppedLists(entries: seq<Entry>, m: MutexId, k: MutexId)
    requires k != m && Lists(entries, k)
    ensures Lists(Dropped(entries, m), k)
  {
    var i :| 0 <= i < |entries| && entries[i].m == k;
    var r := Dropped(entries, m);
    if entries[0].m == m {
      assert r[i - 1].m == k;
    } else if i == 0 {
      assert r[0].m == k;
    } else {
      assert entries[1..][i - 1].m == k;
      DroppedLists(entries[1..], m, k);
      var j :| 0 <= j < |Dropped(entries[1..], m)| && Dropped(entries[1..], m)[j].m == k;
      assert r[j + 1].m == k;
    }
  }

  lemma {:induction false} DroppedEntries(entries: seq<Entry>, m: MutexId)
    requires Distinct(entries)
    ensures var r := Dropped(entries, m);
            && Distinct(r)
            && (forall i :: 0 <= i < |r| ==> r[i] in entries && r[i].m != m)
            && (entries != [] && entries[0].m != m ==> r != [] && r[0] == entries[0])
  {
    if entries != [] && entries[0].m != m {
      DroppedEntries(entries[1..], m);
      var d := Dropped(entries[1..], m);
      forall j | 0 <= j < |d| ensures d[j].m != entries[0].m {
        assert d[j] in entries[1..];
      }
    }
  }

  /** The mutex `m` changes hands but `t` neither gains nor loses it. */
  lemma RecordedElsewhere(s: System, s': System, t: ThreadId, m: MutexId, entries: seq<Entry>)
    requires Recorded(s, t, entries) && m in s.mutexes
    requires s'.mutexes.Keys == s.mutexes.Keys
    requires forall k :: k in s.mutexes && k != m ==> s'.mutexes[k] == s.mutexes[k]
    requires s.mutexes[m].owner == Thread(t) <==> s'.mutexes[m].owner == Thread(t)
    requires s.mutexes[m].owner == Thread(t) ==> s'.mutexes[m].original == s.mutexes[m].original
    ensures Recorded(s', t, entries)
  {
  }

  lemma RecordedGain(s: System, s': System, t: ThreadId, m: MutexId, entries: seq<Entry>, p: nat)
    requires Recorded(s, t, entries) && m in s.mutexes && s.mutexes[m].owner != Thread(t)
    requires s'.mutexes.Keys == s.mutexes.Keys
    requires forall k :: k in s.mutexes && k != m ==> s'.mutexes[k] == s.mutexes[k]
    requires s'.mutexes[m].owner == Thread(t) && s'.mutexes[m].original == p
    ensures Recorded(s', t, entries + [Entry(m, p)])
  {
    var r := entries + [Entry(m, p)];
    forall k | k in s'.mutexes && s'.mutexes[k].owner == Thread(t) ensures Lists(r, k) {
      if k == m {
        assert r[|entries|].m == k;
      } else {
        var i :| 0 <= i < |entries| && entries[i].m == k;
        assert r[i].m == k;
      }
    }
  }

  lemma RecordedLoss(s: System, s': System, t: ThreadId, m: MutexId, entries: seq<Entry>)
    requires Recorded(s, t, entries) && m in s.mutexes
    requires s'.mutexes.Keys == s.mutexes.Keys
    requires forall k :: k in s.mutexes && k != m ==> s'.mutexes[k] == s.mutexes[k]
    requires s'.mutexes[m].owner != Thread(t)
    ensures Recorded(s', t, Dropped(entries, m))
  {
    DroppedEntries(entries, m);
    forall k | k in s'.mutexes && s'.mutexes[k].owner == Thread(t) ensures Lists(Dropped(entries, m), k) {
      DroppedLists(entries, m, k);
    }
  }

  lemma TakeKeepsHistory(s: System, t: ThreadId, m: MutexId, time: int)
    requires History(s) && m in s.mutexes && Sound(s.mutexes[m])
    ensures History(TakeStep(s, t, m, time).0)
  {
    forall u ensures HoldingsSound(TakeStep(s, t, m, time).0, u) {
      assert HoldingsSound(s, u);
      TakeKeepsHoldings(s, t, m, time, u);
    }
  }

  lemma TakeKeepsHoldings(s: System, t: ThreadId, m: MutexId, time: int, u: ThreadId)
    requires HoldingsSound(s, u) && m in s.mutexes && Sound(s.mutexes[m])
    ensures HoldingsSound(TakeStep(s, t, m, time).0, u)
  {
    var mx, s', h := s.mutexes[m], TakeStep(s, t, m, time).0, HoldingsOf(s, u);
    if u == t && mx.owner != Thread(t) && mx.value > 0 {
      RecordedGain(s, s', u, m, h.entries, s.prio(t));
      assert h.entries == [] ==> h.entries + [Entry(m, s.prio(t))] == [Entry(m, s.prio(t))];
    } else {
      TakeElsewhere(s, t, m, time, u);
      RecordedElsewhere(s, s', u, m, h.entries);
    }
  }

  lemma TakeElsewhere(s: System, t: ThreadId, m: MutexId, time: int, u: ThreadId)
    requires m in s.mutexes && Sound(s.mutexes[m]) && !(u == t && s.mutexes[m].owner != Thread(t) && s.mutexes[m].value > 0)
    ensures var s', mx := TakeStep(s, t, m, time).0, s.mutexes[m];
            && HoldingsOf(s', u).entries == HoldingsOf(s, u).entries
            && (HoldingsOf(s', u).rooted ==> HoldingsOf(s', u) == HoldingsOf(s, u))
            && s'.mutexes.Keys == s.mutexes.Keys
            && (forall k :: k in s.mutexes && k != m ==> s'.mutexes[k] == s.mutexes[k])
            && (mx.owner == Thread(u) <==> s'.mutexes[m].owner == Thread(u))
            && (mx.owner == Thread(u) ==> s'.mutexes[m].original == mx.original)
  {
  }

  lemma ReleaseKeepsHistory(s: System, t: ThreadId, m: MutexId)
    requires History(s) && m in s.mutexes && Sound(s.mutexes[m])
    ensures History(ReleaseStep(s, t, m).0)
  {
    forall u ensures HoldingsSound(ReleaseStep(s, t, m).0, u) {
      ReleaseKeepsHoldings(s, t, m, u);
    }
  }

  lemma ReleaseKeepsHoldings(s: System, t: ThreadId, m: MutexId, u: ThreadId)
    requires HoldingsSound(s, u) && m in s.mutexes && Sound(s.mutexes[m])
    ensures HoldingsSound(ReleaseStep(s, t, m).0, u)
  {
    var mx := s.mutexes[m];
    if u == t && mx.owner == Thread(t) && mx.hold == 1 {
      OwnerLoses(s, t, m);
    } else if mx.owner == Thread(t) && mx.hold == 1 && mx.waiters != [] && u == mx.waiters[0] {
      HeirGains(s, t, m, u);
    } else {
      ReleaseElsewhere(s, t, m, u);
      var s' := ReleaseStep(s, t, m).0;
      RecordedElsewhere(s, s', u, m, HoldingsOf(s, u).entries);
    }
  }

  lemma ReleaseElsewhere(s: System, t: ThreadId, m: MutexId, u: ThreadId)
    requires m in s.mutexes && Sound(s.mutexes[m])
    requires s.mutexes[m].owner == Thread(t) && s.mutexes[m].hold == 1 ==>
               u != t && (s.mutexes[m].waiters == [] || u != s.mutexes[m].waiters[0])
    ensures var s', mx := ReleaseStep(s, t, m).0, s.mutexes[m];
            && HoldingsOf(s', u) == HoldingsOf(s, u)
            && s'.mutexes.Keys == s.mutexes.Keys
            && (forall k :: k in s.mutexes && k != m ==> s'.mutexes[k] == s.mutexes[k])
            && (mx.owner == Thread(u) <==> s'.mutexes[m].owner == Thread(u))
            && (mx.owner == Thread(u) ==> s'.mutexes[m].original == mx.original)
  {
  }

  lemma OwnerLoses(s: System, t: ThreadId, m: MutexId)
    requires HoldingsSound(s, t) && m in s.mutexes && Sound(s.mutexes[m])
    requires s.mutexes[m].owner == Thread(t) && s.mutexes[m].hold == 1
    ensures HoldingsSound(ReleaseStep(s, t, m).0, t)
  {
    var mx, s' := s.mutexes[m], ReleaseStep(s, t, m).0;
    var h := HoldingsOf(s, t);
    assert mx.waiters != [] ==> mx.waiters[0] in mx.waiters;
    RecordedLoss(s, s', t, m, h.entries);
    DroppedEntries(h.entries, m);
    assert HoldingsOf(s', t) == Lost(h, m);
  }

  lemma HeirGains(s: System, t: ThreadId, m: MutexId, u: ThreadId)
    requires HoldingsSound(s, u) && m in s.mutexes && Sound(s.mutexes[m])
    requires s.mutexes[m].owner == Thread(t) && s.mutexes[m].hold == 1 && s.mutexes[m].waiters != []
    requires s.mutexes[m].waiters[0] == u
    ensures HoldingsSound(ReleaseStep(s, t, m).0, u)
  {
    var mx, s' := s.mutexes[m], ReleaseStep(s, t, m).0;
    var h := HoldingsOf(s, u);
    assert u in mx.waiters;
    RecordedGain(s, s', u, m, h.entries, s'.prio(u));
    assert h.entries == [] ==> h.entries + [Entry(m, s'.prio(u))] == [Entry(m, s'.prio(u))];
    assert HoldingsOf(s', u).entries == h.entries + [Entry(m, s'.prio(u))];
  }

  /** The mutexes differ at most in their wait lists, and the history not at all. */
  lemma OtherKeepsHistory(s: System, s': System)
    requires History(s) && s'.holdings == s.holdings && s'.mutexes.Keys == s.mutexes.Keys
    requires forall k :: k in s.mutexes ==> s'.mutexes[k].owner == s.mutexes[k].owner && s'.mutexes[k].original == s.mutexes[k].original
    ensures History(s')
  {
    forall u ensures HoldingsSound(s', u) {
      assert HoldingsSound(s, u);
    }
  }

  lemma StepKeepsHistory(s: System, a: Action)
    requires Ownership(s) && History(s) && Enabled(s, a)
    ensures History(Step(s, a).0)
  {
    match a {
      case TakeIt(t, m, time) => TakeKeepsHistory(s, t, m, time);
      case ReleaseIt(t, m) => ReleaseKeepsHistory(s, t, m);
      case Wake(t) => OtherKeepsHistory(s, Step(s, a).0);
      case Timeout(t) => OtherKeepsHistory(s, Step(s, a).0);
      case ChangePriority(t, p) => OtherKeepsHistory(s, Step(s, a).0);
    }
  }

  lemma {:induction false} RunKeepsHistory(s: System, run: seq<Action>, s': System)
    requires Ownership(s) && History(s) && IsRun(s, run, s')
    ensures Ownership(s') && History(s')
    decreases run
  {
    if run != [] {
      StepKeepsOwnership(s, run[0]);
      StepKeepsHistory(s, run[0]);
      RunKeepsHistory(Step(s, run[0]).0, run[1..], s');
    }
  }

  /** Whatever the other mutexes, boosts and priority changes: when a thread lets go of the last
      mutex it owns, it gets the priority it had when it acquired that mutex.  This is
      the priority it had when it owned nothing if that mutex was also its first. */
  lemma LastReleaseRestores(s0: System, run: seq<Action>, s: System, t: ThreadId, m: MutexId)
    requires Initial(s0) && IsRun(s0, run, s) && Enabled(s, ReleaseIt(t, m))
    requires s.mutexes[m].owner == Thread(t) && s.mutexes[m].hold == 1
    requires |HoldingsOf(s, t).entries| == 1
    ensures var h := HoldingsOf(s, t);
            && h.entries[0].m == m
            && ReleaseStep(s, t, m).0.prio(t) == h.entries[0].prio
            && (ReleaseStep(s, t, m).0.prio(t) == h.base <==> s.mutexes[m].original == h.base)
            && (h.rooted ==> s.mutexes[m].original == h.base)
            && (forall k :: k in s.mutexes && k != m ==> s.mutexes[k].owner != Thread(t))
  {
    assert forall u :: Recorded(s0, u, []);
    RunKeepsHistory(s0, run, s);
    assert HoldingsSound(s, t);
    assert Lists(HoldingsOf(s, t).entries, m);
    ReleasedPriority(s, t, m);
  }

  /** A state of two mutexes, seen by thread 0; thread 1 has priority 5. */
  ghost predicate Scene(s: System, m0: Mutex, m1: Mutex, p: nat, calls: map<ThreadId, Call>, h: Holdings) {
    && s.mutexes.Keys == {0, 1} && s.mutexes[0] == m0 && s.mutexes[1] == m1
    && s.prio(0) == p && s.prio(1) == 5 && s.calls == calls
    && HoldingsOf(s, 0) == h
  }

  lemma OneMore(s: System, a: Action, run: seq<Action>, s': System) returns (longer: seq<Action>)
    requires Enabled(s, a) && IsRun(Step(s, a).0, run, s')
    ensures longer == [a] + run && IsRun(s, longer, s')
  {
    longer := [a] + run;
    assert longer[1..] == run;
  }

  /** A mutex that `t` acquired once, at priority `p`. */
  function Held(t: ThreadId, p: nat, waiters: seq<ThreadId>): Mutex {
    Mutex(Prio, 0, Thread(t), 1, p, waiters)
  }

  /** Thread 0 owns nothing and has thread 1's priority. */
  ghost predicate Stuck(s: System) {
    Scene(s, Held(1, 5, []), Fresh(Prio), 5, map[1 := Woken(EOk)], Holdings([], 20, false))
  }

  lemma SceneLetGo(s: System) returns (run: seq<Action>, s': System)
    requires s.clock == 4
    requires Scene(s, Held(1, 5, []), Held(0, 5, []), 20, map[1 := Woken(EOk)], Holdings([Entry(1, 5)], 20, false))
    ensures IsRun(s, run, s') && Stuck(s')
  {
    assert Dropped([Entry(1, 5)], 1) == [];
    var s1 := ReleaseStep(s, 0, 1).0;
    assert Scene(s1, Held(1, 5, []), Fresh(Prio), 5, map[1 := Woken(EOk)], Holdings([], 20, false));
    run, s' := [], s1;
    run := OneMore(s, ReleaseIt(0, 1), run, s');
  }

  lemma SceneHandOver(s: System) returns (run: seq<Action>, s': System)
    requires s.clock == 3
    requires Scene(s, Held(0, 20, [1]), Held(0, 5, []), 5, map[1 := Waiting(0, -1, 1)], Holdings([Entry(0, 20), Entry(1, 5)], 20, true))
    ensures IsRun(s, run, s') && Stuck(s')
  {
    assert Dropped([Entry(0, 20), Entry(1, 5)], 0) == [Entry(1, 5)];
    assert [1 as ThreadId][1..] == [];
    var s1 := ReleaseStep(s, 0, 0).0;
    assert Scene(s1, Held(1, 5, []), Held(0, 5, []), 20, map[1 := Woken(EOk)], Holdings([Entry(1, 5)], 20, false));
    run, s' := SceneLetGo(s1);
    run := OneMore(s, ReleaseIt(0, 0), run, s');
  }

  lemma SceneNest(s: System) returns (run: seq<Action>, s': System)
    requires s.clock == 2
    requires Scene(s, Held(0, 20, [1]), Fresh(Prio), 5, map[1 := Waiting(0, -1, 1)], Holdings([Entry(0, 20)], 20, true))
    ensures IsRun(s, run, s') && Stuck(s')
  {
    var s1 := TakeStep(s, 0, 1, -1).0;
    assert Scene(s1, Held(0, 20, [1]), Held(0, 5, []), 5, map[1 := Waiting(0, -1, 1)], Holdings([Entry(0, 20), Entry(1, 5)], 20, true));
    run, s' := SceneHandOver(s1);
    run := OneMore(s, TakeIt(0, 1, -1), run, s');
  }

  lemma BoostingTake(prio: Priorities)
    requires prio(0) == 20 && prio(1) == 5
    ensures var (mx, prio', r) := Take(Held(0, 20, []), prio, 1, -1);
            mx == Held(0, 20, [1]) && prio' == SetPriority(prio, 0, 5) && r == Blocks
  {
    assert Suspended([], 1, Prio, Boosted(Held(0, 20, []), prio, 1)) == [1];
  }

  lemma SceneBoost(s: System) returns (run: seq<Action>, s': System)
    requires s.clock == 1
    requires Scene(s, Held(0, 20, []), Fresh(Prio), 20, map[], Holdings([Entry(0, 20)], 20, true))
    ensures IsRun(s, run, s') && Stuck(s')
  {
    BoostingTake(s.prio);
    var s1 := TakeStep(s, 1, 0, -1).0;
    assert Scene(s1, Held(0, 20, [1]), Fresh(Prio), 5, map[1 := Waiting(0, -1, 1)], Holdings([Entry(0, 20)], 20, true));
    run, s' := SceneNest(s1);
    run := OneMore(s, TakeIt(1, 0, -1), run, s');
  }

  lemma SceneOwnFirst(s: System) returns (run: seq<Action>, s': System)
    requires s.clock == 0
    requires Scene(s, Fresh(Prio), Fresh(Prio), 20, map[], Holdings([], 20, false))
    ensures IsRun(s, run, s') && Stuck(s')
  {
    var s1 := TakeStep(s, 0, 0, -1).0;
    assert Scene(s1, Held(0, 20, []), Fresh(Prio), 20, map[], Holdings([Entry(0, 20)], 20, true));
    run, s' := SceneBoost(s1);
    run := OneMore(s, TakeIt(0, 0, -1), run, s');
  }

  /** Letting go of the first mutex first can leave a thread boosted for good: thread 0 (priority
      20) owns mutex 0, is boosted to 5 by thread 1, acquires mutex 1 at 5, releases 0 and then 1. */
  lemma BoostCanStick(s0: System) returns (run: seq<Action>, s: System)
    requires s0 == System(map[0 := Fresh(Prio), 1 := Fresh(Prio)], (t: ThreadId) => if t == 0 then 20 else 5, map[], 0, map[], map[])
    ensures Initial(s0) && IsRun(s0, run, s)
    ensures s0.prio(0) == 20 && s.prio(0) == 5
    ensures forall m :: m in s.mutexes ==> s.mutexes[m].owner != Thread(0)
  {
    run, s := SceneOwnFirst(s0);
  }

  // ----- the kernel object

  /** The part of the thread table the mutex reads and writes. */
  class ThreadTable {
    var currentPriority: Priorities

    constructor (currentPriority: Priorities)
      ensures this.currentPriority == currentPriority
    {
      this.currentPriority := currentPriority;
    }

    /** `rt_thread_control` with RT_THREAD_CTRL_CHANGE_PRIORITY. */
    method ChangePriorityOf(t: ThreadId, p: nat)
      modifies this
      ensures currentPriority == SetPriority(old(currentPriority), t, p)
    {
      currentPriority := SetPriority(currentPriority, t, p);
    }
  }

  class MutexObject {
    const flag: Flag
    var value: nat
    var owner: Owner
    var hold: nat
    var originalPriority: nat
    var waiters: seq<ThreadId>

    ghost function Abs(): Mutex
      reads this
    {
      Mutex(flag, value, owner, hold, originalPriority, waiters)
    }

    /** `rt_mutex_init`. */
    constructor (flag: Flag)
      ensures Abs() == Fresh(flag) && Sound(Abs())
    {
      this.flag := flag;
      value, owner, hold, originalPriority, waiters := 1, Nobody, 0, 0xFF, [];
    }

    /** `rt_mutex_take` up to the point where it returns or the thread is suspended. */
    method TakeMutex(threads: ThreadTable, t: ThreadId, time: int) returns (r: Result)
      modifies this, threads
      ensures (Abs(), threads.currentPriority, r) == Take(old(Abs()), old(threads.currentPriority), t, time)
    {
      if owner == Thread(t) {
        hold := (hold + 1) % 256;
        return Returns(EOk);
      }
      if value > 0 {
        value := value - 1;
        owner := Thread(t);
        originalPriority := threads.currentPriority(t);
        hold := (hold + 1) % 256;
        return Returns(EOk);
      }
      if time == 0 {
        return Returns(ETimeout);
      }
      if owner.Thread? && threads.currentPriority(t) < threads.currentPriority(owner.t) {
        threads.ChangePriorityOf(owner.t, threads.currentPriority(t));
      }
      waiters := ListSuspend(waiters, t, flag, threads.currentPriority);
      r := Blocks;
    }

    /** `rt_mutex_release`; `resumed` is the thread that becomes the owner, if any. */
    method ReleaseMutex(threads: ThreadTable, t: ThreadId) returns (r: Result, resumed: Owner)
      modifies this, threads
      ensures (Abs(), threads.currentPriority, r) == Release(old(Abs()), old(threads.currentPriority), t)
      ensures resumed.Thread? <==> old(owner) == Thread(t) && (old(hold) + 255) % 256 == 0 && old(waiters) != []
      ensures resumed.Thread? ==> owner == resumed && resumed.t == old(waiters)[0]
    {
      resumed := Nobody;
      if owner != Thread(t) {
        return Returns(EError), Nobody;
      }
      hold := (hold + 255) % 256;
      if hold == 0 {
        if originalPriority != threads.currentPriority(t) {
          threads.ChangePriorityOf(t, originalPriority);
        }
        if waiters != [] {
          var h := waiters[0];
          owner := Thread(h);
          originalPriority := threads.currentPriority(h);
          hold := hold + 1;
          waiters := waiters[1..];
          resumed := owner;
        } else {
          value := value + 1;
          owner := Nobody;
          originalPriority := 0xFF;
        }
      }
      r := Returns(EOk);
    }

    /** The timer of the waiting thread `t` fires. */
    method TimerFires(t: ThreadId)
      modifies this`waiters
      ensures Abs() == old(Abs()).(waiters := Without(old(waiters), t))
    {
      waiters := Without(waiters, t);
    }
  }
}
