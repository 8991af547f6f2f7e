/** What every run of the heap keeps, and what single calls guarantee. */
module HeapTheorems {
  import opened Collections
  import opened Heap

  // ----- the payload of a block that is not the target does not change

  lemma IndexIs(chain: seq<nat>, i: nat)
    requires Increasing(chain) && i < |chain|
    ensures IndexOf(chain, chain[i]) == i
  {
    SameIndex(chain, i, IndexOf(chain, chain[i]));
  }

  /** The block at `b` has the same extent and the same words in both states. */
  ghost predicate Keeps(h: State, h': State, b: nat) {
    b in h.chain && b in h'.chain && NextOf(h', b) == NextOf(h, b) && Payload(h', b) == Payload(h, b)
  }

  /** It is enough that the block keeps its successor and its words. */
  lemma KeepsIf(h: State, h': State, b: nat, j: nat, j': nat)
    requires Increasing(h.chain) && Increasing(h'.chain) && |h'.mem| == |h.mem|
    requires j + 1 < |h.chain| && j' + 1 < |h'.chain| && h.chain[j] == b == h'.chain[j'] && h'.chain[j' + 1] == h.chain[j + 1]
    requires forall a :: b + HEADER <= a < h.chain[j + 1] && a < |h.mem| ==> h'.mem[a] == h.mem[a]
    ensures Keeps(h, h', b)
  {
    IndexIs(h.chain, j);
    IndexIs(h'.chain, j');
  }

  /** The words `Split` does not touch. */
  ghost predicate SplitAgrees(h: State, mem': seq<Word>, i: nat, x: nat)
    requires i + 1 < |h.chain|
  {
    && |mem'| == |h.mem|
    && forall a :: 0 <= a < |h.mem| && a != h.chain[i] + 1 && !(x <= a <= x + 2) && a != h.chain[i + 1] + 2 ==> mem'[a] == h.mem[a]
  }

  lemma SplitKeepsOther(h: State, h': State, i: nat, x: nat, b: nat)
    requires Blocks(h) && i + 1 < |h.chain| && h.chain[i] + HEADER < x && x + HEADER < h.chain[i + 1]
    requires h'.chain == Insert(h.chain, i + 1, x) && Increasing(h'.chain) && SplitAgrees(h, h'.mem, i, x)
    requires b in h.used && b != h.chain[i]
    ensures Keeps(h, h', b)
  {
    LiveBlock(h, b);
    var j := IndexOf(h.chain, b);
    if j < i {
      if j + 1 < i { Apart(h.chain, j + 1, i); }
      KeepsIf(h, h', b, j, j);
    } else {
      if i + 1 < j { Apart(h.chain, i + 1, j); }
      KeepsIf(h, h', b, j, j + 1);
    }
  }

  lemma SplitKeeps(h: State, i: nat, x: nat, b: nat)
    requires Structure(h) && i + 1 < |h.chain| && h.chain[i] + HEADER < x && x + HEADER < h.chain[i + 1]
    requires b in h.used && b != h.chain[i]
    ensures Keeps(h, Split(h, i, x), b)
  {
    SplitBlocks(h, i, x);
    SplitKeepsOther(h, Split(h, i, x), i, x, b);
  }

  lemma SplitKeepsFront(h: State, h': State, i: nat, x: nat)
    requires Blocks(h) && |h.mem| == End(h) + HEADER
    requires i + 1 < |h.chain| && h.chain[i] + HEADER < x && x + HEADER < h.chain[i + 1]
    requires h'.chain == Insert(h.chain, i + 1, x) && Increasing(h'.chain) && SplitAgrees(h, h'.mem, i, x)
    ensures h'.chain[i] == h.chain[i] && NextOf(h', h.chain[i]) == x
    ensures x - h.chain[i] - HEADER <= |Payload(h, h.chain[i])|
    ensures Payload(h', h.chain[i]) == Payload(h, h.chain[i])[..x - h.chain[i] - HEADER]
  {
    var p := h.chain[i];
    InRange(h.chain, End(h), i + 1);
    IndexIs(h.chain, i);
    assert h'.chain[i] == p;
    IndexIs(h'.chain, i);
    assert Payload(h, p) == h.mem[p + HEADER..h.chain[i + 1]];
    assert Payload(h', p) == h'.mem[p + HEADER..x];
    assert h.mem[p + HEADER..h.chain[i + 1]][..x - p - HEADER] == h.mem[p + HEADER..x];
    assert h'.mem[p + HEADER..x] == h.mem[p + HEADER..x];
  }

  /** Cutting a block keeps the words in front of the cut. */
  lemma SplitKeepsPrefix(h: State, i: nat, x: nat)
    requires Structure(h) && i + 1 < |h.chain| && h.chain[i] + HEADER < x && x + HEADER < h.chain[i + 1]
    ensures h.chain[i] in Split(h, i, x).chain && NextOf(Split(h, i, x), h.chain[i]) == x
    ensures x - h.chain[i] - HEADER <= |Payload(h, h.chain[i])|
    ensures Payload(Split(h, i, x), h.chain[i]) == Payload(h, h.chain[i])[..x - h.chain[i] - HEADER]
  {
    SplitBlocks(h, i, x);
    SplitKeepsFront(h, Split(h, i, x), i, x);
    assert Split(h, i, x).chain[i] == h.chain[i];
  }

  lemma MergeKeeps(h: State, i: nat, b: nat)
    requires Structure(h) && i + 2 < |h.chain| && h.chain[i] !in h.used && h.chain[i + 1] !in h.used && b in h.used
    ensures Keeps(h, Merge(h, i), b)
  {
    MergeBlocks(h, i);
    LiveBlock(h, b);
    var j := IndexOf(h.chain, b);
    if j < i {
      if j + 1 < i { Apart(h.chain, j + 1, i); }
      Apart(h.chain, i, i + 2);
      KeepsIf(h, Merge(h, i), b, j, j);
    } else {
      if i + 2 < j { Apart(h.chain, i + 2, j); }
      Apart(h.chain, i, i + 2);
      KeepsIf(h, Merge(h, i), b, j, j - 1);
    }
  }

  lemma MarkKeeps(h: State, i: nat, b: nat, h': State, tag: Word)
    requires Blocks(h) && i + 1 < |h.chain| && b in h.used && h'.chain == h.chain && h'.mem == Put(h.mem, h.chain[i], tag)
    ensures Keeps(h, h', b)
  {
    LiveBlock(h, b);
    var j := IndexOf(h.chain, b);
    if j < i {
      if j + 1 < i { Apart(h.chain, j + 1, i); }
    } else if i < j {
      Apart(h.chain, i, j);
    }
    KeepsIf(h, h', b, j, j);
  }

  lemma PlugHolesKeeps(h: State, i: nat, b: nat)
    requires Structure(h) && i + 1 < |h.chain| && h.chain[i] !in h.used && b in h.used && AlternatesExcept(h, i - 1, i)
    ensures Keeps(h, PlugHoles(h, i), b)
  {
    PlugForwardSound(h, i);
    var h1 := PlugForward(h, i);
    if i + 2 < |h.chain| && h.chain[i + 1] !in h.used {
      MergeKeeps(h, i, b);
    }
    assert Keeps(h, h1, b);
    if i > 0 && h1.chain[i - 1] !in h1.used {
      MergeKeeps(h1, i - 1, b);
    }
  }

  lemma FreeKeeps(h: State, p: nat, b: nat)
    requires Inv(h) && p in h.used && b in h.used && b != p
    ensures Keeps(h, Free(h, p), b)
  {
    LiveBlock(h, p);
    var i := IndexOf(h.chain, p);
    MarkFreeKeepsStructure(h, i);
    MarkFreeAlternates(h, i);
    MarkKeeps(h, i, b, MarkFree(h, i), FREE_TAG);
    PlugHolesKeeps(MarkFree(h, i), i, b);
  }

  lemma SplitOff(h: State, i: nat, x: nat)
    requires Inv(h) && i + 1 < |h.chain| && h.chain[i] + HEADER < x && x + HEADER < h.chain[i + 1]
    ensures Structure(Split(h, i, x)) && AlternatesExcept(Split(h, i, x), i, i + 1)
    ensures Split(h, i, x).chain[i + 1] == x && x !in h.used
  {
    SplitKeepsStructure(h, i, x);
    SplitBlocks(h, i, x);
    SplitAlternates(h, i, x);
  }

  lemma ShrinkIs(h: State, p: nat, n: nat, i: nat, x: nat)
    requires p in h.chain && i == IndexOf(h.chain, p) && i + 1 < |h.chain| && x == p + HEADER + n
    ensures Shrink(h, p, n) == CutOff(h, i, x)
  {
  }

  /** The second half of a shrink: joining the freed rest moves no live block. */
  lemma ShrinkPlugs(h: State, p: nat, n: nat, i: nat, x: nat, b: nat)
    requires Inv(h) && p in h.used && 0 < n && n + HEADER + MIN_PAYLOAD < Room(h, p) && b in h.used
    requires i == IndexOf(h.chain, p) && x == p + HEADER + n
    ensures i + 1 < |h.chain| && h.chain[i] + HEADER < x && x + HEADER < h.chain[i + 1]
    ensures Keeps(Split(h, i, x), Shrink(h, p, n), b)
  {
    LiveBlock(h, p);
    SplitOff(h, i, x);
    var h1 := Split(h, i, x);
    ShrinkIs(h, p, n, i, x);
    PlugHolesKeeps(h1, i + 1, b);
  }

  lemma ShrinkKeeps(h: State, p: nat, n: nat, b: nat)
    requires Inv(h) && p in h.used && 0 < n && n + HEADER + MIN_PAYLOAD < Room(h, p) && b in h.used && b != p
    ensures Keeps(h, Shrink(h, p, n), b)
  {
    var i, x := IndexOf(h.chain, p), p + HEADER + n;
    ShrinkPlugs(h, p, n, i, x, b);
    SplitKeeps(h, i, x, b);
  }

  lemma ShrinkKeepsPrefix(h: State, p: nat, n: nat)
    requires Inv(h) && p in h.used && 0 < n && n + HEADER + MIN_PAYLOAD < Room(h, p)
    ensures p in Shrink(h, p, n).chain && Room(Shrink(h, p, n), p) == n <= |Payload(h, p)|
    ensures Payload(Shrink(h, p, n), p) == Payload(h, p)[..n]
  {
    var i, x := IndexOf(h.chain, p), p + HEADER + n;
    ShrinkPlugs(h, p, n, i, x, p);
    SplitKeepsPrefix(h, i, x);
    PrefixKept(h, Split(h, i, x), Shrink(h, p, n), p, n);
  }

  lemma PrefixKept(h: State, h1: State, h2: State, p: nat, n: nat)
    requires p in h.chain && Keeps(h1, h2, p) && NextOf(h1, p) == p + HEADER + n
    requires n <= |Payload(h, p)| && Payload(h1, p) == Payload(h, p)[..n]
    ensures p in h2.chain && Room(h2, p) == n && Payload(h2, p) == Payload(h, p)[..n]
  {
  }

  lemma TrimKeeps(h: State, i: nat, n: nat, b: nat)
    requires Inv(h) && i + 1 < |h.chain| && h.chain[i] !in h.used && 0 < n && b in h.used
    ensures Keeps(h, Trim(h, i, n), b)
  {
    if h.chain[i + 1] - (h.chain[i] + HEADER) >= n + HEADER + MIN_PAYLOAD {
      SplitKeeps(h, i, h.chain[i] + HEADER + n, b);
    }
  }

  lemma MallocKeeps(h: State, bytes: nat, b: nat)
    requires Inv(h) && b in h.used
    ensures Keeps(h, Malloc(h, bytes).0, b)
  {
    if Malloc(h, bytes).1.Some? {
      var n := Request(bytes);
      var i := FirstFit(h, n, IndexOf(h.chain, h.lfree)).value;
      TrimSound(h, i, n);
      TrimKeeps(h, i, n, b);
      MarkKeeps(Trim(h, i, n), i, b, Malloc(h, bytes).0, USED_TAG);
    }
  }

  lemma TrimRoom(h: State, i: nat, n: nat)
    requires Inv(h) && i + 1 < |h.chain| && h.chain[i] !in h.used && 0 < n && h.chain[i + 1] - (h.chain[i] + HEADER) >= n
    ensures var h1 := Trim(h, i, n); var room := h1.chain[i + 1] - h1.chain[i] - HEADER;
            n <= room < n + HEADER + MIN_PAYLOAD && (room == n || h1 == h)
  {
  }

  /** What a successful `rt_malloc` returns: a block that was free, with room for the request,
      cut off behind the request when the rest is worth keeping. */
  lemma MallocResult(h: State, bytes: nat)
    requires Inv(h) && Malloc(h, bytes).1.Some?
    ensures var (h', r) := Malloc(h, bytes);
            && r.value in h.chain && r.value !in h.used && r.value in h'.used && r.value in h'.chain
            && Request(bytes) <= Room(h', r.value) < Request(bytes) + HEADER + MIN_PAYLOAD
            && (Room(h', r.value) == Request(bytes) || Room(h', r.value) == Room(h, r.value))
            && 4 * Room(h', r.value) >= bytes
  {
    var n := Request(bytes);
    var i := FirstFit(h, n, IndexOf(h.chain, h.lfree)).value;
    TrimSound(h, i, n);
    TrimRoom(h, i, n);
    IndexIs(h.chain, i);
    IndexIs(Trim(h, i, n).chain, i);
  }

  /** Live blocks, headers included, do not overlap and lie inside the heap. */
  lemma LiveBlocksDisjoint(h: State, b: nat, c: nat)
    requires Blocks(h) && b in h.used && c in h.used && b != c
    ensures NextOf(h, b) <= c || NextOf(h, c) <= b
    ensures b + HEADER < NextOf(h, b) <= End(h)
  {
    LiveBlock(h, b);
    LiveBlock(h, c);
    var i, j := IndexOf(h.chain, b), IndexOf(h.chain, c);
    if i < j {
      if i + 1 < j { Apart(h.chain, i + 1, j); }
    } else {
      if j + 1 < i { Apart(h.chain, j + 1, i); }
    }
  }

  // ----- runs

  /** A store by the owner of the live block at `b`. */
  ghost predicate Inside(h: State, b: nat, a: nat) {
    b in h.used && b in h.chain && b + HEADER <= a < NextOf(h, b)
  }

  ghost function Write(h: State, a: nat, v: Word): State {
    h.(mem := Put(h.mem, a, v))
  }

  /** The atomic steps; a call of `rt_realloc` that moves a block is a `MallocIt`, stores
      into the new block and a `FreeIt`, with other threads' steps in between. */
  datatype Action =
    | MallocIt(bytes: nat)
    | FreeIt(p: nat)
    | ShrinkIt(p: nat, n: nat)
    | WriteIt(p: nat, a: nat, v: Word)

  ghost predicate Enabled(h: State, a: Action) {
    match a
    case MallocIt(_) => h.lfree in h.chain
    case FreeIt(p) => p in h.used && p in h.chain
    case ShrinkIt(p, n) => p in h.used && p in h.chain && 0 < n && n + HEADER + MIN_PAYLOAD < Room(h, p)
    case WriteIt(p, x, _) => Inside(h, p, x)
  }

  ghost function Step(h: State, a: Action): State
    requires Enabled(h, a)
  {
    match a
    case MallocIt(bytes) => Malloc(h, bytes).0
    case FreeIt(p) => Free(h, p)
    case ShrinkIt(p, n) => Shrink(h, p, n)
    case WriteIt(_, x, v) => Write(h, x, v)
  }

  ghost predicate IsRun(h: State, run: seq<Action>, h': State)
    decreases run
  {
    if run == [] then h == h'
    else Enabled(h, run[0]) && IsRun(Step(h, run[0]), run[1..], h')
  }

  /** The heap after `rt_system_heap_init`: one free block. */
  ghost predicate Initial(h: State) {
    && h.size >= MIN_PAYLOAD && h.chain == [0, End(h)] && h.used == {} && h.lfree == 0 && h.usedMem == 0 == h.maxMem
    && Headers(h.mem, h.chain, h.used, End(h))
  }

  lemma InitialInv(h: State)
    requires Initial(h)
    ensures Inv(h) && LowestFree(h)
  {
    assert h.chain[1..] == [End(h)];
    assert Total(h.chain, h.used) == 0;
    assert 0 in h.chain;
    IndexIs(h.chain, 0);
  }

  lemma WriteKeepsInv(h: State, p: nat, a: nat, v: Word)
    requires Inv(h) && Inside(h, p, a)
    ensures Inv(Write(h, a, v))
  {
    LiveBlock(h, p);
    var i := IndexOf(h.chain, p);
    var h' := Write(h, a, v);
    forall k: nat | k + 1 < |h.chain| ensures HeaderOk(h'.mem, h'.chain, h'.used, k) {
      assert HeaderOk(h.mem, h.chain, h.used, k);
      if k < i { Apart(h.chain, k, i); }
      if i + 1 < k { Apart(h.chain, i + 1, k); }
    }
  }

  lemma WriteKeeps(h: State, p: nat, a: nat, v: Word, b: nat)
    requires Blocks(h) && Inside(h, p, a) && b in h.used && b != p
    ensures Keeps(h, Write(h, a, v), b)
  {
    LiveBlock(h, b);
    LiveBlock(h, p);
    LiveBlocksDisjoint(h, b, p);
    var j := IndexOf(h.chain, b);
    KeepsIf(h, Write(h, a, v), b, j, j);
  }

  lemma StepKeepsInv(h: State, a: Action)
    requires Inv(h) && Enabled(h, a)
    ensures Inv(Step(h, a))
  {
    match a {
      case MallocIt(bytes) => MallocKeepsInv(h, bytes);
      case FreeIt(p) => FreeKeepsInv(h, p);
      case ShrinkIt(p, n) => ShrinkKeepsInv(h, p, n);
      case WriteIt(p, x, v) => WriteKeepsInv(h, p, x, v);
    }
  }

  ghost predicate Targets(a: Action, b: nat) {
    match a
    case MallocIt(_) => false
    case FreeIt(p) => p == b
    case ShrinkIt(p, _) => p == b
    case WriteIt(p, _, _) => p == b
  }

  lemma StepKeepsPayload(h: State, a: Action, b: nat)
    requires Inv(h) && Enabled(h, a) && b in h.used && !Targets(a, b)
    ensures b in Step(h, a).used && Keeps(h, Step(h, a), b)
  {
    match a {
      case MallocIt(bytes) => MallocKeepsInv(h, bytes); MallocKeeps(h, bytes, b);
      case FreeIt(p) => FreeKeepsInv(h, p); FreeKeeps(h, p, b);
      case ShrinkIt(p, n) => ShrinkKeepsInv(h, p, n); ShrinkKeeps(h, p, n, b);
      case WriteIt(p, x, v) => WriteKeeps(h, p, x, v, b);
    }
  }

  lemma {:induction false} RunKeepsInv(h: State, run: seq<Action>, h': State)
    requires Inv(h) && IsRun(h, run, h')
    ensures Inv(h')
    decreases run
  {
    if run != [] {
      StepKeepsInv(h, run[0]);
      RunKeepsInv(Step(h, run[0]), run[1..], h');
    }
  }

  /** As long as nobody frees, shrinks or writes a live block, it stays live, in place and
      unchanged, whatever other threads do to the heap. */
  lemma {:induction false} RunKeepsPayload(h: State, run: seq<Action>, h': State, b: nat)
    requires Inv(h) && IsRun(h, run, h') && b in h.used
    requires forall i :: 0 <= i < |run| ==> !Targets(run[i], b)
    ensures Inv(h') && b in h'.used && Keeps(h, h', b)
    decreases run
  {
    if run != [] {
      StepKeepsInv(h, run[0]);
      StepKeepsPayload(h, run[0], b);
      RunKeepsPayload(Step(h, run[0]), run[1..], h', b);
    }
  }

  /** The largest `usedMem` among the states of a run. */
  ghost function Peak(h: State, run: seq<Action>): int
    decreases run
  {
    if run == [] || !Enabled(h, run[0]) then h.usedMem
    else
      var p := Peak(Step(h, run[0]), run[1..]);
      if p < h.usedMem then h.usedMem else p
  }

  lemma StepKeepsMaximum(h: State, a: Action)
    requires Inv(h) && Enabled(h, a)
    ensures Step(h, a).maxMem == if h.maxMem < Step(h, a).usedMem then Step(h, a).usedMem else h.maxMem
    ensures Step(h, a).size == h.size
  {
    StepKeepsInv(h, a);
    match a {
      case MallocIt(bytes) => MallocMaximum(h, bytes);
      case FreeIt(p) => FreeMaximum(h, p);
      case ShrinkIt(p, n) => ShrinkMaximum(h, p, n);
      case WriteIt(_, _, _) =>
    }
  }

  lemma MallocMaximum(h: State, bytes: nat)
    requires Inv(h)
    ensures var h' := Malloc(h, bytes).0;
            h'.size == h.size && h'.maxMem == if h.maxMem < h'.usedMem then h'.usedMem else h.maxMem
  {
  }

  lemma PlugHolesMaximum(h: State, i: nat)
    requires i + 1 < |h.chain|
    ensures PlugHoles(h, i).maxMem == h.maxMem && PlugHoles(h, i).size == h.size
  {
  }

  lemma FreeMaximum(h: State, p: nat)
    requires p in h.chain
    ensures Free(h, p).maxMem == h.maxMem && Free(h, p).size == h.size
  {
    var i := IndexOf(h.chain, p);
    if i + 1 < |h.chain| {
      PlugHolesMaximum(MarkFree(h, i), i);
    }
  }

  lemma ShrinkMaximum(h: State, p: nat, n: nat)
    requires p in h.chain
    ensures Shrink(h, p, n).maxMem == h.maxMem && Shrink(h, p, n).size == h.size
  {
    var i := IndexOf(h.chain, p);
    if i + 1 < |h.chain| {
      PlugHolesMaximum(Split(h, i, p + HEADER + n), i + 1);
    }
  }

  lemma {:induction false} RunKeepsMaximum(h: State, run: seq<Action>, h': State)
    requires Inv(h) && IsRun(h, run, h')
    ensures h'.maxMem == (if h.maxMem < Peak(h, run) then Peak(h, run) else h.maxMem) && h'.size == h.size
    decreases run
  {
    if run != [] {
      StepKeepsInv(h, run[0]);
      StepKeepsMaximum(h, run[0]);
      RunKeepsMaximum(Step(h, run[0]), run[1..], h');
    }
  }

  /** Every reachable heap is a chain of blocks that tile it, with headers that agree, no two
      neighbouring free blocks, `lfree` a free block or the end, `usedMem` the total size of
      the used blocks and `maxMem` the most it ever was. */
  lemma EveryRun(h0: State, run: seq<Action>, h: State)
    requires Initial(h0) && IsRun(h0, run, h)
    ensures Tiles(h.chain, End(h)) && Headers(h.mem, h.chain, h.used, End(h)) && NoAdjacentFree(h)
    ensures h.lfree in h.chain && h.lfree !in h.used
    ensures forall p :: p in h.used ==> p in h.chain && p != End(h)
    ensures h.usedMem == Total(h.chain, h.used) && h.maxMem == Peak(h0, run)
  {
    InitialInv(h0);
    RunKeepsInv(h0, run, h);
    RunKeepsMaximum(h0, run, h);
    PeakAtLeast(h0, run);
  }

  lemma PeakAtLeast(h: State, run: seq<Action>)
    ensures Peak(h, run) >= h.usedMem
  {
  }

  // ----- freeing everything


  ghost function FreeAll(h: State, order: seq<nat>): State
    decreases order
  {
    if order == [] || order[0] !in h.chain then h else FreeAll(Free(h, order[0]), order[1..])
  }

  lemma NothingUsed(h: State)
    requires Inv(h) && h.used == {}
    ensures h.chain == [0, End(h)] && h.lfree == 0 && h.usedMem == 0
  {
    assert |h.chain| > 2 ==> NotBothFree(h.chain, h.used, 0);
    assert h.chain == [0, End(h)];
    assert h.chain[1..] == [End(h)];
    assert Total([End(h)], h.used) == 0;
    var i := IndexOf(h.chain, h.lfree);
  }

  /** Freeing all live blocks, in any order, gives back the heap as one free block. */
  lemma {:induction false} FreeAllInAnyOrder(h: State, order: seq<nat>)
    requires Inv(h) && NoDuplicates(order) && h.used == set p | p in order
    ensures var h' := FreeAll(h, order);
            h'.chain == [0, End(h')] && h'.used == {} && h'.lfree == 0 && h'.usedMem == 0
    decreases order
  {
    if order == [] {
      NothingUsed(h);
    } else {
      var p := order[0];
      assert p in h.used;
      FreeKeepsInv(h, p);
      assert order == [p] + order[1..];
      assert p !in order[1..];
      assert Free(h, p).used == set q | q in order[1..];
      FreeAllInAnyOrder(Free(h, p), order[1..]);
    }
  }

  // ----- when rt_malloc fails

  lemma {:induction false} FirstFitFindsNone(h: State, n: nat, i: nat)
    requires Blocks(h) && i < |h.chain| && FirstFit(h, n, i).None?
    ensures forall j: nat :: i <= j && j + 1 < |h.chain| ==> !Fits(h, n, j)
    decreases |h.chain| - i
  {
    if h.chain[i] >= h.size - n || i + 1 == |h.chain| {
      forall j: nat | i <= j && j + 1 < |h.chain| ensures !Fits(h, n, j) {
        if i < j { Apart(h.chain, i, j); }
      }
    } else {
      FirstFitFindsNone(h, n, i + 1);
      forall j: nat | i <= j && j + 1 < |h.chain| ensures !Fits(h, n, j) {
      }
    }
  }

  lemma {:induction false} FirstFitFindsSome(h: State, n: nat, i: nat, j: nat)
    requires Blocks(h) && i <= j && j + 1 < |h.chain| && Fits(h, n, j)
    ensures FirstFit(h, n, i).Some?
    decreases j - i
  {
    if i < j {
      Apart(h.chain, i, j);
      FirstFitFindsSome(h, n, i + 1, j);
    }
  }

  /** `rt_malloc` of a nonzero size fails exactly when the request exceeds the heap or no free
      block from `lfree` on starts below the search bound and has room. */
  lemma MallocFails(h: State, bytes: nat)
    requires Inv(h) && 0 < bytes
    ensures Malloc(h, bytes).1.None? <==>
              || Words(bytes) > h.size
              || (forall j: nat :: IndexOf(h.chain, h.lfree) <= j && j + 1 < |h.chain| ==> !Fits(h, Request(bytes), j))
  {
    if Words(bytes) <= h.size {
      var n, i := Request(bytes), IndexOf(h.chain, h.lfree);
      if FirstFit(h, n, i).None? {
        FirstFitFindsNone(h, n, i);
      } else {
        assert Fits(h, n, FirstFit(h, n, i).value);
      }
    }
  }

  /** No free block lies below `lfree`. */
  ghost predicate LowestFree(h: State) {
    forall p :: p in h.chain && p < h.lfree ==> p in h.used
  }

  /** A free block with room for `n` words. */
  ghost predicate HasRoom(h: State, n: nat, p: nat) {
    p in h.chain && p != End(h) && p !in h.used && Room(h, p) >= n
  }

  /** A free block with room that the search passes over, because its start is not below the
      bound, is an exact fit at the very end of the heap. */
  lemma PassedOver(h: State, n: nat, j: nat)
    requires Blocks(h) && j + 1 < |h.chain| && h.chain[j] !in h.used && h.chain[j + 1] - h.chain[j] - HEADER >= n
    requires !Fits(h, n, j)
    ensures h.chain[j + 1] == End(h) && h.chain[j + 1] - h.chain[j] - HEADER == n
  {
    InRange(h.chain, End(h), j + 1);
  }

  /** When `lfree` is the lowest free block, `rt_malloc` fails only if the request exceeds the
      heap or every free block with room is an exact fit at the very end. */
  lemma MallocFailsLowest(h: State, bytes: nat)
    requires Inv(h) && LowestFree(h) && 0 < bytes
    ensures Malloc(h, bytes).1.None? <==>
              || Words(bytes) > h.size
              || (forall p :: HasRoom(h, Request(bytes), p) ==> NextOf(h, p) == End(h) && Room(h, p) == Request(bytes))
  {
    MallocFails(h, bytes);
    var n, i := Request(bytes), IndexOf(h.chain, h.lfree);
    if Malloc(h, bytes).1.None? && Words(bytes) <= h.size {
      forall p | HasRoom(h, n, p) ensures NextOf(h, p) == End(h) && Room(h, p) == n {
        var j := IndexOf(h.chain, p);
        InRange(h.chain, End(h), j);
        if j < i { Apart(h.chain, j, i); }
        PassedOver(h, n, j);
      }
    }
    if Malloc(h, bytes).1.Some? {
      var j := FirstFit(h, n, i).value;
      IndexIs(h.chain, j);
      InRange(h.chain, End(h), j);
      assert HasRoom(h, n, h.chain[j]);
    }
  }

  lemma SplitLowest(h: State, i: nat, x: nat)
    requires LowestFree(h) && i + 1 < |h.chain| && h.lfree <= h.chain[i] < x
    ensures LowestFree(Split(h, i, x))
  {
    InsertMembers(h.chain, i + 1, x);
  }

  lemma MarkUsedLowest(h: State, i: nat)
    requires Blocks(h) && LowestFree(h) && i + 1 < |h.chain|
    ensures LowestFree(MarkUsed(h, i))
  {
    var h' := MarkUsed(h, i);
    if h.chain[i] == h.lfree {
      var r := NextFree(h.chain, h'.used, i);
      forall p | p in h.chain && p < h'.lfree ensures p in h'.used {
        var j := IndexOf(h.chain, p);
        if r < j { Apart(h.chain, r, j); }
        if j < i { Apart(h.chain, j, i); }
      }
    }
  }

  lemma MallocLowest(h: State, bytes: nat)
    requires Inv(h) && LowestFree(h)
    ensures LowestFree(Malloc(h, bytes).0)
  {
    if Malloc(h, bytes).1.Some? {
      var n, k := Request(bytes), IndexOf(h.chain, h.lfree);
      var i := FirstFit(h, n, k).value;
      if k < i { Apart(h.chain, k, i); }
      TrimSound(h, i, n);
      SplitLowest(h, i, h.chain[i] + HEADER + n);
      MarkUsedLowest(Trim(h, i, n), i);
    }
  }

  lemma MergeLowest(h: State, i: nat)
    requires Blocks(h) && LowestFree(h) && i + 2 < |h.chain| && h.chain[i] !in h.used
    ensures LowestFree(Merge(h, i))
  {
    DeleteMembers(h.chain, i + 1);
    Apart(h.chain, i, i + 1);
    assert h.chain[i] in h.chain;
  }

  lemma PlugHolesLowest(h: State, i: nat)
    requires Structure(h) && LowestFree(h) && i + 1 < |h.chain| && h.chain[i] !in h.used && AlternatesExcept(h, i - 1, i)
    ensures LowestFree(PlugHoles(h, i))
  {
    PlugForwardSound(h, i);
    PlugForwardLowest(h, i);
    var h1 := PlugForward(h, i);
    if i > 0 && h1.chain[i - 1] !in h1.used {
      MergeLowest(h1, i - 1);
    }
  }

  lemma PlugForwardLowest(h: State, i: nat)
    requires Blocks(h) && LowestFree(h) && i + 1 < |h.chain| && h.chain[i] !in h.used
    ensures LowestFree(PlugForward(h, i))
  {
    if i + 2 < |h.chain| && h.chain[i + 1] !in h.used {
      MergeLowest(h, i);
    }
  }

  lemma FreeLowest(h: State, p: nat)
    requires Inv(h) && LowestFree(h) && p in h.used
    ensures LowestFree(Free(h, p))
  {
    LiveBlock(h, p);
    var i := IndexOf(h.chain, p);
    MarkFreeKeepsStructure(h, i);
    MarkFreeAlternates(h, i);
    assert LowestFree(MarkFree(h, i));
    PlugHolesLowest(MarkFree(h, i), i);
  }

  /** An in-place shrink of the block at `p` leaves no free block below `lfree`: `lfree` lies below
      the block, or is the free block behind it, which the freed rest takes over. */
  ghost predicate ShrinksBehindLfree(h: State, p: nat) {
    p in h.chain && (h.lfree < p || (h.lfree == NextOf(h, p) && h.lfree != End(h)))
  }

  /** The block list and `lfree` after block `i` is cut at `x` and the rest joined with a free successor. */
  lemma CutOffMap(h: State, i: nat, x: nat)
    requires Inv(h) && i + 1 < |h.chain| && h.chain[i] in h.used && h.chain[i] + HEADER < x && x + HEADER < h.chain[i + 1]
    ensures var h', e := CutOff(h, i, x), h.chain[i + 1];
            && h'.used == h.used
            && h'.lfree == (if h.lfree == e && e != End(h) then x else h.lfree)
            && (forall y :: y in h'.chain <==> y == x || (y in h.chain && (y != e || e == End(h) || e in h.used)))
  {
    SplitOff(h, i, x);
    CutMembers(h, i, x);
    var h1, e := Split(h, i, x), h.chain[i + 1];
    InRange(h.chain, End(h), i + 1);
    assert h1.chain[i] == h.chain[i] && h1.chain[i + 1] == x && h1.chain[i + 2] == e;
    if e != End(h) && e !in h.used {
      DeleteMembers(h1.chain, i + 2);
    }
  }

  lemma CutMembers(h: State, i: nat, x: nat)
    requires i + 1 < |h.chain|
    ensures forall y :: y in Split(h, i, x).chain <==> y in h.chain || y == x
  {
    InsertMembers(h.chain, i + 1, x);
  }

  /** Where a shrink leaves `lfree` the lowest free block, and where it does not. */
  lemma ShrinkLowest(h: State, p: nat, n: nat)
    requires Inv(h) && LowestFree(h) && p in h.used && 0 < n && n + HEADER + MIN_PAYLOAD < Room(h, p)
    ensures LowestFree(Shrink(h, p, n)) <==> ShrinksBehindLfree(h, p)
  {
    LiveBlock(h, p);
    var i, x := IndexOf(h.chain, p), p + HEADER + n;
    CutOffLowest(h, i, x);
    ShrinkIs(h, p, n, i, x);
  }

  lemma CutOffLowest(h: State, i: nat, x: nat)
    requires Inv(h) && LowestFree(h) && i + 1 < |h.chain| && h.chain[i] in h.used
    requires h.chain[i] + HEADER < x && x + HEADER < h.chain[i + 1]
    ensures LowestFree(CutOff(h, i, x)) <==> h.lfree < h.chain[i] || (h.lfree == h.chain[i + 1] && h.lfree != End(h))
  {
    CutOffMap(h, i, x);
    LowestAfterCut(h, CutOff(h, i, x), i, x);
  }

  lemma LowestAfterCut(h: State, h': State, i: nat, x: nat)
    requires Blocks(h) && LowestFree(h) && i + 1 < |h.chain| && h.chain[i] in h.used && h.chain[i] < x < h.chain[i + 1]
    requires h'.used == h.used && h'.lfree == (if h.lfree == h.chain[i + 1] && h.lfree != End(h) then x else h.lfree)
    requires forall y :: y in h'.chain <==>
                           y == x || (y in h.chain && (y != h.chain[i + 1] || h.chain[i + 1] == End(h) || h.chain[i + 1] in h.used))
    ensures LowestFree(h') <==> h.lfree < h.chain[i] || (h.lfree == h.chain[i + 1] && h.lfree != End(h))
  {
    var j := IndexOf(h.chain, h.lfree);
    if i + 1 < j { Apart(h.chain, i + 1, j); }
    if j < i { Apart(h.chain, j, i); }
    NotInside(h.chain, i, x);
    assert x !in h'.used;
  }

  /** Every in-place shrink of the run meets the condition when it happens. */
  ghost predicate ShrinksAreBehindLfree(h: State, run: seq<Action>)
    decreases run
  {
    run == [] || (Enabled(h, run[0])
                  && (run[0].ShrinkIt? ==> ShrinksBehindLfree(h, run[0].p))
                  && ShrinksAreBehindLfree(Step(h, run[0]), run[1..]))
  }

  lemma {:induction false} RunKeepsLowest(h: State, run: seq<Action>, h': State)
    requires Inv(h) && LowestFree(h) && IsRun(h, run, h') && ShrinksAreBehindLfree(h, run)
    ensures Inv(h') && LowestFree(h')
    decreases run
  {
    if run != [] {
      StepKeepsInv(h, run[0]);
      match run[0] {
        case MallocIt(bytes) => MallocLowest(h, bytes);
        case FreeIt(p) => FreeLowest(h, p);
        case ShrinkIt(p, n) => ShrinkLowest(h, p, n);
        case WriteIt(_, _, _) =>
      }
      RunKeepsLowest(Step(h, run[0]), run[1..], h');
    }
  }

  /** After any run whose in-place shrinks all happen behind `lfree`, `rt_malloc` fails exactly when the
      request exceeds the heap or every free block with room is an exact fit at the very end. */
  lemma MallocFailsInEveryRun(h0: State, run: seq<Action>, h: State, bytes: nat)
    requires Initial(h0) && IsRun(h0, run, h) && 0 < bytes && ShrinksAreBehindLfree(h0, run)
    ensures h.lfree in h.chain
    ensures Malloc(h, bytes).1.None? <==>
              || Words(bytes) > h.size
              || (forall p :: HasRoom(h, Request(bytes), p) ==> NextOf(h, p) == End(h) && Room(h, p) == Request(bytes))
  {
    InitialInv(h0);
    RunKeepsLowest(h0, run, h);
    MallocFailsLowest(h, bytes);
  }

  /** A heap of twelve words: `rt_malloc(28)` takes all of it, the shrink to one word frees eight
      behind it, and `rt_malloc(12)` does not find them because `lfree` is still the end. */
  lemma ShrinkHidesBlock(h0: State) returns (h: State)
    requires Initial(h0) && h0.size == 12
    ensures IsRun(h0, [MallocIt(28), ShrinkIt(0, 1)], h)
    ensures h.chain == [0, 4, 15] && h.lfree == End(h) == 15 && HasRoom(h, 8, 4) && !LowestFree(h)
    ensures Malloc(h, 12) == (h, None)
  {
    var h1 := WholeHeapTaken(h0);
    h := Shrink(h1, 0, 1);
    assert IndexOf(h1.chain, 0) == 0 by { IndexIs(h1.chain, 0); }
    ShrinkKeepsInv(h1, 0, 1);
    CutOffMap(h1, 0, 4);
    ShrinkIs(h1, 0, 1, 0, 4);
    assert h.chain == [0, 4, 15];
    IndexIs(h.chain, 1);
    IndexIs(h.chain, 2);
    var run := [MallocIt(28), ShrinkIt(0, 1)];
    assert run[1..] == [ShrinkIt(0, 1)] && run[1..][1..] == [];
  }

  lemma WholeHeapTaken(h0: State) returns (h1: State)
    requires Initial(h0) && h0.size == 12
    ensures h1 == Malloc(h0, 28).0 && Inv(h1) && h1.size == 12 && h1.chain == [0, 15] && h1.used == {0} && h1.lfree == 15
    ensures Room(h1, 0) == 12
  {
    InitialInv(h0);
    MallocKeepsInv(h0, 28);
    IndexIs(h0.chain, 0);
    h1 := Malloc(h0, 28).0;
    assert FirstFit(h0, 7, 0) == Some(0);
    assert NextFree(h0.chain, {0}, 0) == 1;
    IndexIs(h1.chain, 0);
  }

  // ----- freeing what malloc returned

  ghost predicate SameMap(h: State, h': State) {
    h'.chain == h.chain && h'.used == h.used && h'.lfree == h.lfree && h'.usedMem == h.usedMem && h'.size == h.size
  }

  /** Marking used and then free again. */
  lemma MarkRoundTrip(h: State, i: nat)
    requires Blocks(h) && i + 1 < |h.chain| && h.chain[i] !in h.used && h.lfree <= h.chain[i]
    ensures SameMap(h, MarkFree(MarkUsed(h, i), i))
  {
    var h1 := MarkUsed(h, i);
    assert h1.used - {h.chain[i]} == h.used;
    if h.chain[i] == h.lfree {
      var r := NextFree(h.chain, h1.used, i);
      InRange(h.chain, End(h), i);
      assert i < r;
      Apart(h.chain, i, r);
    }
  }

  /** Cutting a free block and joining it again. */
  lemma SplitRoundTrip(h: State, h2: State, i: nat, x: nat)
    requires Blocks(h) && i + 1 < |h.chain| && h.chain[i] !in h.used && x !in h.chain && x !in h.used
    requires SameMap(Split(h, i, x), h2)
    ensures i + 2 < |h2.chain| && SameMap(h, Merge(h2, i))
  {
    assert Delete(Insert(h.chain, i + 1, x), i + 1) == h.chain;
  }

  lemma CutTakeAndFree(h: State, i: nat, x: nat)
    requires Inv(h) && i + 1 < |h.chain| && h.chain[i] !in h.used && h.lfree <= h.chain[i]
    requires h.chain[i] + HEADER < x && x + HEADER < h.chain[i + 1]
    ensures SameMap(h, PlugHoles(MarkFree(MarkUsed(Split(h, i, x), i), i), i))
  {
    SplitBlocks(h, i, x);
    MarkRoundTrip(Split(h, i, x), i);
    var h3 := MarkFree(MarkUsed(Split(h, i, x), i), i);
    SplitRoundTrip(h, h3, i, x);
    PlugUndoesSplit(h, h3, i, x);
  }

  lemma WholeTakeAndFree(h: State, i: nat)
    requires Inv(h) && i + 1 < |h.chain| && h.chain[i] !in h.used && h.lfree <= h.chain[i]
    ensures SameMap(h, PlugHoles(MarkFree(MarkUsed(h, i), i), i))
  {
    MarkRoundTrip(h, i);
    PlugUndoesNothing(h, MarkFree(MarkUsed(h, i), i), i);
  }

  lemma TakeAndFree(h: State, i: nat, n: nat)
    requires Inv(h) && i + 1 < |h.chain| && h.chain[i] !in h.used && h.lfree <= h.chain[i] && 0 < n
    ensures SameMap(h, PlugHoles(MarkFree(MarkUsed(Trim(h, i, n), i), i), i))
  {
    var x := h.chain[i] + HEADER + n;
    TrimIs(h, i, n, x);
    if h.chain[i + 1] - (h.chain[i] + HEADER) >= n + HEADER + MIN_PAYLOAD {
      CutTakeAndFree(h, i, x);
    } else {
      WholeTakeAndFree(h, i);
    }
  }

  /** `rt_free` of what `rt_malloc` returned restores the block list, `lfree` and `usedMem`. */
  lemma MallocFreeRoundTrip(h: State, bytes: nat)
    requires Inv(h) && Malloc(h, bytes).1.Some?
    ensures var (h', r) := Malloc(h, bytes); r.value in h'.chain && SameMap(h, Free(h', r.value))
  {
    var n, k := Request(bytes), IndexOf(h.chain, h.lfree);
    var i := FirstFit(h, n, k).value;
    if k < i { Apart(h.chain, k, i); }
    TakeAndFree(h, i, n);
    TrimSound(h, i, n);
    IndexIs(Trim(h, i, n).chain, i);
    FreeIs(Malloc(h, bytes).0, h.chain[i], i);
  }

  lemma FreeIs(h: State, p: nat, i: nat)
    requires p in h.chain && i == IndexOf(h.chain, p) && i + 1 < |h.chain|
    ensures Free(h, p) == PlugHoles(MarkFree(h, i), i)
  {
  }

  lemma PlugUndoesSplit(h: State, h3: State, i: nat, x: nat)
    requires NoAdjacentFree(h) && i + 1 < |h.chain| && h.chain[i] !in h.used && x !in h.used
    requires SameMap(Split(h, i, x), h3) && i + 2 < |h3.chain| && SameMap(h, Merge(h3, i))
    ensures SameMap(h, PlugHoles(h3, i))
  {
    assert h3.chain[i + 1] == x;
    assert PlugForward(h3, i) == Merge(h3, i);
    if i > 0 { assert NotBothFree(h.chain, h.used, i - 1); }
  }

  lemma PlugUndoesNothing(h: State, h3: State, i: nat)
    requires NoAdjacentFree(h) && i + 1 < |h.chain| && h.chain[i] !in h.used && SameMap(h, h3)
    ensures SameMap(h, PlugHoles(h3, i))
  {
    if i + 2 < |h.chain| { assert NotBothFree(h.chain, h.used, i); }
    if i > 0 { assert NotBothFree(h.chain, h.used, i - 1); }
  }

  // ----- rt_realloc that moves a block, with other threads running in between

  /** `rt_memcpy` of `k` words from the block at `b` to the block at `q`. */
  ghost function Copy(h: State, q: nat, b: nat, k: nat): (r: State)
    ensures r.chain == h.chain && r.used == h.used && r.size == h.size && r.lfree == h.lfree && |r.mem| == |h.mem|
  {
    if k == 0 then h
    else
      var h1 := Copy(h, q, b, k - 1);
      var j := k - 1;
      if b + HEADER + j < |h1.mem| then Write(h1, q + HEADER + j, h1.mem[b + HEADER + j]) else h1
  }

  /** Payload word `j` of the block at `p`. */
  ghost function WordOf(h: State, p: nat, j: nat): Word {
    if p + HEADER + j < |h.mem| then h.mem[p + HEADER + j] else 0
  }

  /** The first `k` payload words of block `q` in `h'` are those of block `p` in `h`. */
  ghost predicate Carries(h: State, p: nat, h': State, q: nat, k: nat) {
    && p in h.chain && q in h'.chain && k <= Room(h, p) && k <= Room(h', q)
    && forall j: nat :: j < k ==> WordOf(h', q, j) == WordOf(h, p, j)
  }

  /** A block that keeps its payload carries all of it. */
  lemma KeepsCarries(h: State, h': State, b: nat)
    requires Blocks(h) && b in h.used && Keeps(h, h', b) && |h.mem| == End(h) + HEADER && |h'.mem| == |h.mem|
    ensures b in h.chain && Carries(h, b, h', b, Room(h, b))
  {
    LiveBlock(h, b);
    var k, e := Room(h, b), NextOf(h, b);
    assert Payload(h, b) == h.mem[b + HEADER..e] && Payload(h', b) == h'.mem[b + HEADER..e];
    forall j: nat | j < k ensures WordOf(h', b, j) == WordOf(h, b, j) {
      assert Payload(h, b)[j] == WordOf(h, b, j) && Payload(h', b)[j] == WordOf(h', b, j);
    }
  }

  lemma CarriesOn(h: State, p: nat, h1: State, q: nat, k: nat, h2: State)
    requires Carries(h, p, h1, q, k) && Carries(h1, q, h2, q, Room(h1, q))
    ensures Carries(h, p, h2, q, k)
  {
    forall j: nat | j < k ensures WordOf(h2, q, j) == WordOf(h, p, j) {
      assert WordOf(h1, q, j) == WordOf(h, p, j);
    }
  }

  lemma CarriesFrom(h: State, p: nat, h1: State, k: nat, h2: State, q: nat)
    requires p in h.chain && Carries(h, p, h1, p, Room(h, p)) && Carries(h1, p, h2, q, k) && k <= Room(h, p)
    ensures Carries(h, p, h2, q, k)
  {
    forall j: nat | j < k ensures WordOf(h2, q, j) == WordOf(h, p, j) {
      assert WordOf(h1, p, j) == WordOf(h, p, j);
    }
  }

  /** One more word of the copy. */
  lemma CopyOneMore(h: State, h1: State, q: nat, b: nat, k: nat)
    requires Blocks(h1) && h1.chain == h.chain && |h1.mem| == End(h1) + HEADER
    requires q in h1.used && b in h1.used && q != b && k < Room(h1, q) && k < Room(h1, b)
    requires Carries(h, b, h1, b, Room(h1, b)) && Carries(h, b, h1, q, k)
    ensures b + HEADER + k < |h1.mem| && Inside(h1, q, q + HEADER + k)
    ensures Carries(h, b, Write(h1, q + HEADER + k, h1.mem[b + HEADER + k]), q, k + 1)
  {
    LiveBlock(h1, q);
    LiveBlock(h1, b);
    var h' := Write(h1, q + HEADER + k, h1.mem[b + HEADER + k]);
    forall j: nat | j < k + 1 ensures WordOf(h', q, j) == WordOf(h, b, j) {
      assert j < k ==> WordOf(h1, q, j) == WordOf(h, b, j);
      assert WordOf(h1, b, j) == WordOf(h, b, j);
    }
  }

  lemma CopyWorks(h: State, q: nat, b: nat, k: nat)
    requires Inv(h) && q in h.used && b in h.used && q != b && k <= Room(h, q) && k <= Room(h, b)
    ensures Inv(Copy(h, q, b, k)) && Keeps(h, Copy(h, q, b, k), b) && Carries(h, b, Copy(h, q, b, k), q, k)
  {
    CopyFolded(h, q, b, k);
    assert Look(0);
  }

  /** The first `k` words are copied (`Look` keeps it folded). */
  ghost predicate CopiedTo(h: State, h1: State, q: nat, b: nat, k: nat) {
    forall z: nat :: Look(z) ==> Inv(h1) && Keeps(h, h1, b) && Carries(h, b, h1, q, k)
  }

  lemma {:induction false} CopyFolded(h: State, q: nat, b: nat, k: nat)
    requires Inv(h) && q in h.used && b in h.used && q != b && k <= Room(h, q) && k <= Room(h, b)
    ensures CopiedTo(h, Copy(h, q, b, k), q, b, k)
  {
    if k > 0 {
      CopyFolded(h, q, b, k - 1);
      CopySameMap(h, q, b, k - 1);
      CopyUnfold(h, q, b, k - 1);
      CopyFoldedStep(h, Copy(h, q, b, k - 1), Copy(h, q, b, k), q, b, k - 1);
    }
  }

  lemma CopyFoldedStep(h: State, h1: State, h2: State, q: nat, b: nat, k: nat)
    requires Inv(h) && q in h.used && b in h.used && q != b && k < Room(h, q) && k < Room(h, b) && CopiedTo(h, h1, q, b, k)
    requires h1.chain == h.chain && h1.used == h.used && |h1.mem| == |h.mem| && End(h1) == End(h)
    requires b + HEADER + k < |h1.mem| ==> h2 == Write(h1, q + HEADER + k, h1.mem[b + HEADER + k])
    ensures CopiedTo(h, h2, q, b, k + 1)
  {
    assert Look(0);
    CopyStep(h, h1, h2, q, b, k);
  }

  lemma CopyUnfold(h: State, q: nat, b: nat, k: nat)
    ensures var h1 := Copy(h, q, b, k);
            b + HEADER + k < |h1.mem| ==> Copy(h, q, b, k + 1) == Write(h1, q + HEADER + k, h1.mem[b + HEADER + k])
  {
  }

  lemma CopySameMap(h: State, q: nat, b: nat, k: nat)
    ensures var h1 := Copy(h, q, b, k);
            h1.chain == h.chain && h1.used == h.used && |h1.mem| == |h.mem| && End(h1) == End(h)
  {
  }

  lemma CopyStep(h: State, h1: State, h2: State, q: nat, b: nat, k: nat)
    requires Inv(h) && q in h.used && b in h.used && q != b && k < Room(h, q) && k < Room(h, b)
    requires Inv(h1) && h1.chain == h.chain && h1.used == h.used && |h1.mem| == |h.mem| && End(h1) == End(h)
    requires Keeps(h, h1, b) && Carries(h, b, h1, q, k)
    requires b + HEADER + k < |h1.mem| ==> h2 == Write(h1, q + HEADER + k, h1.mem[b + HEADER + k])
    ensures Inv(h2) && Keeps(h, h2, b) && Carries(h, b, h2, q, k + 1)
  {
    KeepsCarries(h, h1, b);
    CopyOneMore(h, h1, q, b, k);
    var v := h1.mem[b + HEADER + k];
    WriteKeepsInv(h1, q, q + HEADER + k, v);
    WriteKeeps(h1, q, q + HEADER + k, v, b);
  }

  /** `rt_realloc` drops the lock between its malloc, its copy and its free.  Whatever other
      threads do in between to blocks of their own, the new block ends up with the first
      words of the old one. */
  lemma ReallocMoves(h: State, b: nat, bytes: nat, h1: State, q: nat, run1: seq<Action>, h2: State, k: nat,
                     run2: seq<Action>, h4: State)
    requires Inv(h) && b in h.used && Malloc(h, bytes) == (h1, Some(q))
    requires IsRun(h1, run1, h2) && forall i :: 0 <= i < |run1| ==> !Targets(run1[i], b) && !Targets(run1[i], q)
    requires k <= Request(bytes) && k <= Room(h, b)
    requires IsRun(Copy(h2, q, b, k), run2, h4) && forall i :: 0 <= i < |run2| ==> !Targets(run2[i], b) && !Targets(run2[i], q)
    ensures b in h4.used && b in h4.chain && q in Free(h4, b).used && Carries(h, b, Free(h4, b), q, k)
  {
    MallocBeforeCopy(h, b, bytes, h1, q, run1, h2);
    CopyWorks(h2, q, b, k);
    CarriesFrom(h, b, h2, k, Copy(h2, q, b, k), q);
    FreeAfterCopy(Copy(h2, q, b, k), b, q, run2, h4);
    CarriesOn(h, b, Copy(h2, q, b, k), q, k, Free(h4, b));
  }

  lemma MallocBeforeCopy(h: State, b: nat, bytes: nat, h1: State, q: nat, run: seq<Action>, h2: State)
    requires Inv(h) && b in h.used && Malloc(h, bytes) == (h1, Some(q))
    requires IsRun(h1, run, h2) && forall i :: 0 <= i < |run| ==> !Targets(run[i], b) && !Targets(run[i], q)
    ensures Inv(h2) && b in h2.used && q in h2.used && q != b && Request(bytes) <= Room(h2, q) && Room(h2, b) == Room(h, b)
    ensures Carries(h, b, h2, b, Room(h, b))
  {
    MallocKeepsInv(h, bytes);
    MallocKeeps(h, bytes, b);
    MallocResult(h, bytes);
    RunKeepsPayload(h1, run, h2, b);
    RunKeepsPayload(h1, run, h2, q);
    RunKeepsMaximum(h1, run, h2);
    StepKeepsMaximum(h, MallocIt(bytes));
    KeepsCarries(h, h2, b);
  }

  lemma FreeAfterCopy(h3: State, b: nat, q: nat, run: seq<Action>, h4: State)
    requires Inv(h3) && b in h3.used && q in h3.used && q != b
    requires IsRun(h3, run, h4) && forall i :: 0 <= i < |run| ==> !Targets(run[i], b) && !Targets(run[i], q)
    ensures b in h4.used && b in h4.chain && q in Free(h4, b).used && Carries(h3, q, Free(h4, b), q, Room(h3, q))
  {
    RunKeepsPayload(h3, run, h4, b);
    RunKeepsPayload(h3, run, h4, q);
    RunKeepsMaximum(h3, run, h4);
    FreeKeepsInv(h4, b);
    FreeKeeps(h4, b, q);
    StepKeepsMaximum(h4, FreeIt(b));
    KeepsCarries(h3, Free(h4, b), q);
  }

  /** Freeing depends on the block list, not on the payload words. */
  lemma FreeIgnoresPayload(h: State, h': State, p: nat)
    requires SameMap(h, h') && p in h.chain
    ensures SameMap(Free(h, p), Free(h', p))
  {
    var i := IndexOf(h.chain, p);
    if i + 1 < |h.chain| {
      var a, b := MarkFree(h, i), MarkFree(h', i);
      assert SameMap(PlugForward(a, i), PlugForward(b, i));
    }
  }

  /** `rt_malloc_align` stores a back pointer into the block; `rt_free_align` still restores
      the block list. */
  lemma WriteRoundTrip(h: State, bytes: nat, a: nat, v: Word)
    requires Inv(h) && Malloc(h, bytes).1.Some?
    ensures var (h', r) := Malloc(h, bytes); r.value in h'.chain && SameMap(h, Free(Write(h', a, v), r.value))
  {
    MallocFreeRoundTrip(h, bytes);
    var (h', r) := Malloc(h, bytes);
    FreeIgnoresPayload(h', Write(h', a, v), r.value);
  }
}
