/** Event flags: `rt_event_send`, `rt_event_recv` and the reset command. */
module Event {
  import opened Collections
  import opened WaitList

  /** A 32-bit event mask is the set of the numbers of its one bits: `&` is intersection,
      `|` union and `& ~` difference. */
  type Bit = b: nat | b < 32
  type Bits = set<Bit>

  /** RT_EVENT_FLAG_AND, RT_EVENT_FLAG_OR and RT_EVENT_FLAG_CLEAR. */
  datatype Options = Options(all: bool, any: bool, clear: bool)

  datatype Call =
    | Waiting(want: Bits, options: Options, timeout: int)
    | Woken(received: Bits, error: Error)

  datatype State = State(flag: Flag, bits: Bits, waiters: seq<ThreadId>, calls: map<ThreadId, Call>)

  datatype Result = Blocks | Returns(error: Error) | Delivers(received: Bits) | Silent

  datatype Action =
    | Send(added: Bits)
    | Recv(t: ThreadId, want: Bits, options: Options, timeout: int, prio: Priorities)
    | Wake(t: ThreadId)
    | Timeout(t: ThreadId)
    | Reset

  predicate Satisfied(want: Bits, options: Options, bits: Bits) {
    if options.all then want * bits == want
    else options.any && want * bits != {}
  }

  // ----- the steps

  function Resumed(calls: map<ThreadId, Call>, t: ThreadId, received: Bits, e: Error): map<ThreadId, Call> {
    if t in calls then calls[t := Woken(received, e)] else calls
  }

  function ResumedAll(calls: map<ThreadId, Call>, list: seq<ThreadId>): map<ThreadId, Call> {
    if list == [] then calls
    else ResumedAll(Resumed(calls, list[0], {}, EError), list[1..])
  }

  /** Does the scan of `rt_event_send` resume this thread? */
  predicate Hit(calls: map<ThreadId, Call>, t: ThreadId, bits: Bits) {
    t in calls && calls[t].Waiting? && Satisfied(calls[t].want, calls[t].options, bits)
  }

  /** What a resumed thread receives: all it asked for, or the part that is set. */
  function ReceivedBits(c: Call, bits: Bits): Bits
    requires c.Waiting?
  {
    if c.options.all then c.want else c.want * bits
  }

  /** The walk over the suspended threads `todo`; those passed over end up in `waiters`. */
  function Scan(s: State, todo: seq<ThreadId>): State
    decreases todo
  {
    if todo == [] then s
    else if Hit(s.calls, todo[0], s.bits) then
      var c := s.calls[todo[0]];
      var received := ReceivedBits(c, s.bits);
      Scan(s.(bits := if c.options.clear then s.bits - received else s.bits,
              calls := Resumed(s.calls, todo[0], received, EOk)), todo[1..])
    else Scan(s.(waiters := s.waiters + [todo[0]]), todo[1..])
  }

  function Sent(s: State, added: Bits): (State, Result) {
    if added == {} then (s, Returns(EError))
    else (Scan(s.(bits := s.bits + added, waiters := []), s.waiters), Returns(EOk))
  }

  function TryRecv(s: State, t: ThreadId, want: Bits, options: Options, timeout: int, prio: Priorities): (State, Result) {
    if want == {} then (s, Returns(EError))
    else if Satisfied(want, options, s.bits) then
      (s.(bits := if options.clear then s.bits - want else s.bits), Delivers(s.bits * want))
    else if timeout == 0 then (s, Returns(ETimeout))
    else
      (s.(waiters := Suspended(s.waiters, t, s.flag, prio),
          calls := s.calls[t := Waiting(want, options, timeout)]), Blocks)
  }

  function Cleared(s: State): State {
    s.(bits := {}, waiters := [], calls := ResumedAll(s.calls, s.waiters))
  }

  ghost predicate Enabled(s: State, a: Action) {
    match a
    case Send(_) => true
    case Recv(t, _, options, _, _) => t !in s.calls && (options.all || options.any)
    case Wake(t) => t in s.calls && s.calls[t].Woken?
    case Timeout(t) => t in s.calls && s.calls[t].Waiting? && 0 < s.calls[t].timeout
    case Reset => true
  }

  function WakeUp(s: State, t: ThreadId): (State, Result)
    requires t in s.calls && s.calls[t].Woken?
  {
    (s.(calls := s.calls - {t}),
     if s.calls[t].error == EOk then Delivers(s.calls[t].received) else Returns(s.calls[t].error))
  }

  function TimedOut(s: State, t: ThreadId): State {
    s.(waiters := Without(s.waiters, t), calls := Resumed(s.calls, t, {}, ETimeout))
  }

  ghost function Step(s: State, a: Action): (State, Result)
    requires Enabled(s, a)
  {
    match a
    case Send(added) => Sent(s, added)
    case Recv(t, want, options, timeout, prio) => TryRecv(s, t, want, options, timeout, prio)
    case Wake(t) => WakeUp(s, t)
    case Timeout(t) => (TimedOut(s, t), Silent)
    case Reset => (Cleared(s), Silent)
  }

  ghost predicate IsRun(s: State, run: seq<Action>, s': State)
    decreases run
  {
    if run == [] then s == s'
    else Enabled(s, run[0]) && IsRun(Step(s, run[0]).0, run[1..], s')
  }

  // ----- sending is receiving on behalf of every waiter

  /** The waiters `todo` each make a non-blocking receive call, in list order; a call that
      succeeds takes its thread off the list and leaves it the bits the call delivered. */
  ghost function ReceiveForEach(s: State, todo: seq<ThreadId>, prio: Priorities): State
    decreases todo
  {
    if todo == [] then s
    else
      var t := todo[0];
      if t in s.calls && s.calls[t].Waiting? then
        var (s', r) := TryRecv(s, t, s.calls[t].want, s.calls[t].options, 0, prio);
        if r.Delivers? then ReceiveForEach(s'.(calls := Resumed(s'.calls, t, r.received, EOk)), todo[1..], prio)
        else ReceiveForEach(s'.(waiters := s'.waiters + [t]), todo[1..], prio)
      else ReceiveForEach(s.(waiters := s.waiters + [t]), todo[1..], prio)
  }

  lemma BitFacts(want: Bits, bits: Bits)
    ensures want * bits == bits * want
    ensures bits - (want * bits) == bits - want
  {
  }

  ghost predicate WantsSomething(calls: map<ThreadId, Call>) {
    forall t :: t in calls && calls[t].Waiting? ==> calls[t].want != {}
  }

  lemma {:induction false} ScanReceives(s: State, todo: seq<ThreadId>, prio: Priorities)
    requires WantsSomething(s.calls)
    ensures Scan(s, todo) == ReceiveForEach(s, todo, prio)
    decreases todo
  {
    if todo != [] {
      var t := todo[0];
      if Hit(s.calls, t, s.bits) {
        var c := s.calls[t];
        BitFacts(c.want, s.bits);
        var (s', r) := TryRecv(s, t, c.want, c.options, 0, prio);
        assert r == Delivers(ReceivedBits(c, s.bits));
        ScanReceives(s'.(calls := Resumed(s'.calls, t, r.received, EOk)), todo[1..], prio);
      } else {
        ScanReceives(s.(waiters := s.waiters + [t]), todo[1..], prio);
      }
    }
  }

  // ----- nobody sleeps on a satisfied condition

  /** Clearing bits satisfies nobody. */
  lemma FewerBits(want: Bits, options: Options, bits: Bits, bits': Bits)
    requires bits' <= bits && !Satisfied(want, options, bits)
    ensures !Satisfied(want, options, bits')
  {
    if options.all {
      assert want * bits' == want ==> want * bits == want;
    } else {
      assert want * bits' <= want * bits;
    }
  }

  ghost predicate Unsatisfied(calls: map<ThreadId, Call>, list: seq<ThreadId>, bits: Bits) {
    forall t :: t in list ==> !Hit(calls, t, bits)
  }

  ghost predicate Inv(s: State) {
    && NoDuplicates(s.waiters)
    && (forall t :: t in s.waiters <==> t in s.calls && s.calls[t].Waiting?)
    && WantsSomething(s.calls)
    && Unsatisfied(s.calls, s.waiters, s.bits)
  }

  lemma FewerBitsUnsatisfied(calls: map<ThreadId, Call>, list: seq<ThreadId>, bits: Bits, bits': Bits)
    requires bits' <= bits && Unsatisfied(calls, list, bits)
    ensures Unsatisfied(calls, list, bits')
  {
    forall t | t in list ensures !Hit(calls, t, bits') {
      if t in calls && calls[t].Waiting? {
        FewerBits(calls[t].want, calls[t].options, bits, bits');
      }
    }
  }

  lemma {:induction false} ScanSatisfiesNobody(s: State, todo: seq<ThreadId>)
    requires Unsatisfied(s.calls, s.waiters, s.bits)
    ensures var s' := Scan(s, todo); Unsatisfied(s'.calls, s'.waiters, s'.bits)
    decreases todo
  {
    if todo != [] {
      var t := todo[0];
      if Hit(s.calls, t, s.bits) {
        var c := s.calls[t];
        var received := ReceivedBits(c, s.bits);
        var bits' := if c.options.clear then s.bits - received else s.bits;
        FewerBitsUnsatisfied(s.calls, s.waiters, s.bits, bits');
        ScanSatisfiesNobody(s.(bits := bits', calls := Resumed(s.calls, t, received, EOk)), todo[1..]);
      } else {
        ScanSatisfiesNobody(s.(waiters := s.waiters + [t]), todo[1..]);
      }
    }
  }

  /** The scan keeps the list in step with the waiting calls. */
  lemma {:induction false} ScanKeepsList(s: State, todo: seq<ThreadId>)
    requires NoDuplicates(s.waiters + todo) && WantsSomething(s.calls)
    requires forall t :: t in s.waiters + todo <==> t in s.calls && s.calls[t].Waiting?
    ensures var s' := Scan(s, todo);
            && NoDuplicates(s'.waiters) && WantsSomething(s'.calls)
            && forall t :: t in s'.waiters <==> t in s'.calls && s'.calls[t].Waiting?
    decreases todo
  {
    if todo == [] {
      assert s.waiters + todo == s.waiters;
    } else {
      var t := todo[0];
      var list := s.waiters + todo;
      assert list[|s.waiters|] == t;
      if Hit(s.calls, t, s.bits) {
        var c := s.calls[t];
        var received := ReceivedBits(c, s.bits);
        var s1 := s.(bits := if c.options.clear then s.bits - received else s.bits,
                     calls := Resumed(s.calls, t, received, EOk));
        var list1 := s1.waiters + todo[1..];
        forall i, j | 0 <= i < j < |list1| ensures list1[i] != list1[j] {
          assert list1[i] == list[if i < |s.waiters| then i else i + 1];
          assert list1[j] == list[if j < |s.waiters| then j else j + 1];
        }
        forall u ensures u in list1 <==> u in list && u != t {
          assert list == s.waiters + ([t] + todo[1..]);
          if u in list1 {
            var i :| 0 <= i < |list1| && list1[i] == u;
            assert list[if i < |s.waiters| then i else i + 1] == u;
          }
        }
        ScanKeepsList(s1, todo[1..]);
      } else {
        assert s.waiters + todo == (s.waiters + [t]) + todo[1..];
        ScanKeepsList(s.(waiters := s.waiters + [t]), todo[1..]);
      }
    }
  }

  lemma SendKeepsInv(s: State, added: Bits)
    requires Inv(s)
    ensures Inv(Sent(s, added).0)
  {
    var s1 := s.(bits := s.bits + added, waiters := []);
    assert [] + s.waiters == s.waiters;
    ScanKeepsList(s1, s.waiters);
    ScanSatisfiesNobody(s1, s.waiters);
  }

  lemma RecvKeepsInv(s: State, t: ThreadId, want: Bits, options: Options, timeout: int, prio: Priorities)
    requires Inv(s) && t !in s.calls
    ensures Inv(TryRecv(s, t, want, options, timeout, prio).0)
  {
    FewerBitsUnsatisfied(s.calls, s.waiters, s.bits, s.bits - want);
    SuspendedMembers(s.waiters, t, s.flag, prio);
    SuspendedNoDuplicates(s.waiters, t, s.flag, prio);
  }

  lemma {:induction false} ResumedAllCalls(calls: map<ThreadId, Call>, list: seq<ThreadId>)
    ensures var calls' := ResumedAll(calls, list);
            && calls'.Keys == calls.Keys
            && forall t :: t in calls ==> calls'[t] == if t in list then Woken({}, EError) else calls[t]
  {
    if list != [] {
      assert list == [list[0]] + list[1..];
      ResumedAllCalls(Resumed(calls, list[0], {}, EError), list[1..]);
    }
  }

  lemma StepKeepsInv(s: State, a: Action)
    requires Inv(s) && Enabled(s, a)
    ensures Inv(Step(s, a).0)
  {
    match a {
      case Send(added) => SendKeepsInv(s, added);
      case Recv(t, want, options, timeout, prio) => RecvKeepsInv(s, t, want, options, timeout, prio);
      case Wake(t) =>
      case Timeout(t) => WithoutMembers(s.waiters, t);
      case Reset => ResumedAllCalls(s.calls, s.waiters);
    }
  }

  lemma {:induction false} RunKeepsInv(s: State, run: seq<Action>, s': State)
    requires Inv(s) && IsRun(s, run, s')
    ensures Inv(s')
    decreases run
  {
    if run != [] {
      StepKeepsInv(s, run[0]);
      RunKeepsInv(Step(s, run[0]).0, run[1..], s');
    }
  }

  /** In every reachable state no waiting thread's condition is met by the current bits. */
  lemma NobodySleepsOnMetCondition(flag: Flag, run: seq<Action>, s: State, t: ThreadId)
    requires IsRun(State(flag, {}, [], map[]), run, s)
    requires t in s.calls && s.calls[t].Waiting?
    ensures t in s.waiters && !Satisfied(s.calls[t].want, s.calls[t].options, s.bits)
  {
    RunKeepsInv(State(flag, {}, [], map[]), run, s);
    assert !Hit(s.calls, t, s.bits);
  }

  /** In every reachable state, `rt_event_send` is: set the bits, then let every waiter in
      list order make a non-blocking `rt_event_recv`. */
  lemma SendReceivesForEveryWaiter(flag: Flag, run: seq<Action>, s: State, added: Bits, prio: Priorities)
    requires IsRun(State(flag, {}, [], map[]), run, s) && added != {}
    ensures Sent(s, added).0 == ReceiveForEach(s.(bits := s.bits + added, waiters := []), s.waiters, prio)
  {
    RunKeepsInv(State(flag, {}, [], map[]), run, s);
    ScanReceives(s.(bits := s.bits + added, waiters := []), s.waiters, prio);
  }

  // ----- the kernel object

  class EventObject {
    const flag: Flag
    var bits: Bits
    var waiters: seq<ThreadId>
    var calls: map<ThreadId, Call>

    ghost function Abs(): State
      reads this
    {
      State(flag, bits, waiters, calls)
    }

    /** `rt_event_init`. */
    constructor (flag: Flag)
      ensures Abs() == State(flag, {}, [], map[]) && Inv(Abs())
    {
      this.flag := flag;
      bits, waiters, calls := {}, [], map[];
    }

    /** `rt_event_send`: walk the suspended threads, resuming those whose condition holds. */
    method SendEvent(added: Bits) returns (r: Result)
      modifies this
      ensures (Abs(), r) == Sent(old(Abs()), added)
    {
      if added == {} {
        return Returns(EError);
      }
      ghost var before := Abs();
      bits := bits + added;
      var todo := waiters;
      waiters := [];
      while todo != []
        invariant Scan(Abs(), todo) == Sent(before, added).0
        decreases |todo|
      {
        var t := todo[0];
        todo := todo[1..];
        if t in calls && calls[t].Waiting? && Satisfied(calls[t].want, calls[t].options, bits) {
          var c := calls[t];
          var received := if c.options.all then c.want else c.want * bits;
          if c.options.clear {
            bits := bits - received;
          }
          calls := Resumed(calls, t, received, EOk);
        } else {
          waiters := waiters + [t];
        }
      }
      r := Returns(EOk);
    }

    /** `rt_event_recv` up to the point where it returns or the thread is suspended. */
    method RecvEvent(t: ThreadId, want: Bits, options: Options, timeout: int, prio: Priorities) returns (r: Result)
      requires options.all || options.any
      modifies this
      ensures (Abs(), r) == TryRecv(old(Abs()), t, want, options, timeout, prio)
    {
      if want == {} {
        return Returns(EError);
      }
      var ok := false;
      if options.all {
        ok := want * bits == want;
      } else if options.any {
        ok := want * bits != {};
      }
      if ok {
        r := Delivers(bits * want);
        if options.clear {
          bits := bits - want;
        }
      } else if timeout == 0 {
        r := Returns(ETimeout);
      } else {
        calls := calls[t := Waiting(want, options, timeout)];
        waiters := ListSuspend(waiters, t, flag, prio);
        r := Blocks;
      }
    }

    method ResetEvent()
      modifies this
      ensures Abs() == Cleared(old(Abs()))
    {
      while waiters != []
        invariant ResumedAll(calls, waiters) == ResumedAll(old(calls), old(waiters))
        decreases |waiters|
      {
        calls := Resumed(calls, waiters[0], {}, EError);
        waiters := waiters[1..];
      }
      bits := {};
    }

    /** Any step the kernel allows, run on the object. */
    method Perform(a: Action) returns (r: Result)
      requires Inv(Abs()) && Enabled(Abs(), a)
      modifies this
      ensures Inv(Abs())
      ensures (Abs(), r) == Step(old(Abs()), a)
    {
      StepKeepsInv(Abs(), a);
      r := Silent;
      match a {
        case Send(added) => r := SendEvent(added);
        case Recv(t, want, options, timeout, prio) => r := RecvEvent(t, want, options, timeout, prio);
        case Wake(t) =>
          r := if calls[t].error == EOk then Delivers(calls[t].received) else Returns(calls[t].error);
          calls := calls - {t};
        case Timeout(t) =>
          waiters := Without(waiters, t);
          calls := Resumed(calls, t, {}, ETimeout);
        case Reset => ResetEvent();
      }
    }
  }
}
