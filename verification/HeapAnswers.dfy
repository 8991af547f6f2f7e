/** What the callers of the heap are told: when a request succeeds, and which block it gets. */
module HeapAnswers {
  import opened Collections
  import opened Heap
  import opened HeapTheorems
  import opened HeapObject

  /** The free block at `q` lies at or behind `lfree`, in front of the search bound, and has room. */
  ghost predicate Candidate(h: State, n: nat, q: nat) {
    q in h.chain && q != End(h) && h.lfree <= q && q !in h.used && q + n < h.size && n <= Room(h, q)
  }

  lemma InOrder(chain: seq<nat>, i: nat, j: nat)
    requires Increasing(chain) && i < |chain| && j < |chain|
    ensures i <= j <==> chain[i] <= chain[j]
  {
    if i < j { Apart(chain, i, j); }
    if j < i { Apart(chain, j, i); }
  }

  /** Block `j` by position and by address. */
  lemma BlockAt(h: State, j: nat)
    requires Blocks(h) && j + 1 < |h.chain|
    ensures h.chain[j] != End(h) && Room(h, h.chain[j]) == h.chain[j + 1] - h.chain[j] - HEADER
    ensures IndexOf(h.chain, h.lfree) <= j <==> h.lfree <= h.chain[j]
  {
    IndexIs(h.chain, j);
    assert Gap(h.chain, j);
    InOrder(h.chain, |h.chain| - 1, j);
    InOrder(h.chain, IndexOf(h.chain, h.lfree), j);
  }

  lemma CandidateAt(h: State, n: nat, j: nat)
    requires Blocks(h) && j + 1 < |h.chain|
    ensures Candidate(h, n, h.chain[j]) <==> IndexOf(h.chain, h.lfree) <= j && Fits(h, n, j)
  {
    BlockAt(h, j);
  }

  lemma {:induction false} FirstFitIsFirst(h: State, n: nat, i: nat, j: nat)
    requires i <= j && j + 1 < |h.chain| && FirstFit(h, n, i).Some? && j < FirstFit(h, n, i).value
    ensures !Fits(h, n, j)
    decreases |h.chain| - i
  {
    if i < j {
      FirstFitIsFirst(h, n, i + 1, j);
    }
  }

  /** A candidate is a block of the list in front of the closing header. */
  lemma CandidatePosition(h: State, n: nat, q: nat) returns (j: nat)
    requires Blocks(h) && Candidate(h, n, q)
    ensures j + 1 < |h.chain| && h.chain[j] == q && IndexOf(h.chain, h.lfree) <= j && Fits(h, n, j)
  {
    j := IndexOf(h.chain, q);
    CandidateAt(h, n, j);
  }

  lemma SearchFinds(h: State, n: nat)
    requires Blocks(h)
    ensures var r := FirstFit(h, n, IndexOf(h.chain, h.lfree));
            && (r.Some? ==> Candidate(h, n, h.chain[r.value]))
            && forall q :: Candidate(h, n, q) ==> r.Some? && h.chain[r.value] <= q
  {
    var i := IndexOf(h.chain, h.lfree);
    var r := FirstFit(h, n, i);
    if r.Some? {
      CandidateAt(h, n, r.value);
    }
    forall q | Candidate(h, n, q) ensures r.Some? && h.chain[r.value] <= q {
      var j := CandidatePosition(h, n, q);
      if r.None? {
        FirstFitFindsNone(h, n, i);
      } else {
        if j < r.value {
          FirstFitIsFirst(h, n, i, j);
        }
        InOrder(h.chain, r.value, j);
      }
    }
  }

  /** What a request of that many bytes looks for: whole words, and at least three of them. */
  ghost predicate Padded(bytes: nat, n: nat) {
    (bytes <= 12 && n == 3) || (bytes > 12 && bytes <= 4 * n < bytes + 4)
  }

  lemma PaddedIs(bytes: nat, n: nat)
    requires Padded(bytes, n)
    ensures Request(bytes) == n
  {
  }

  /** `rt_malloc` of a nonzero size fails, changing nothing, exactly when the request is larger than the
      heap or no block is a candidate; otherwise it takes the lowest candidate, and cuts it to the
      request exactly when a header and three words are left over. */
  lemma MallocAnswer(h: State, bytes: nat, n: nat)
    requires Inv(h) && 0 < bytes && Padded(bytes, n)
    ensures var (h', r) := Malloc(h, bytes);
            && (r.None? <==> bytes > 4 * h.size || forall q :: !Candidate(h, n, q))
            && (r.None? ==> h' == h)
            && (r.Some? ==>
                  && Candidate(h, n, r.value) && (forall q :: Candidate(h, n, q) ==> r.value <= q)
                  && h'.used == h.used + {r.value} && r.value in h'.chain
                  && Room(h', r.value) == if n + HEADER + MIN_PAYLOAD <= Room(h, r.value) then n else Room(h, r.value))
  {
    PaddedIs(bytes, n);
    SearchFinds(h, n);
    if Malloc(h, bytes).1.Some? {
      MallocKeepsInv(h, bytes);
      MallocResult(h, bytes);
      MallocRoom(h, bytes, n);
    }
  }

  lemma MallocRoom(h: State, bytes: nat, n: nat)
    requires Inv(h) && Request(bytes) == n && Malloc(h, bytes).1.Some?
    ensures var (h', r) := Malloc(h, bytes);
            && r.value in h.chain && r.value in h'.chain
            && Room(h', r.value) == if n + HEADER + MIN_PAYLOAD <= Room(h, r.value) then n else Room(h, r.value)
  {
    var i := FirstFit(h, n, IndexOf(h.chain, h.lfree)).value;
    TrimSound(h, i, n);
    IndexIs(h.chain, i);
    IndexIs(Trim(h, i, n).chain, i);
  }

  // ----- realloc

  /** The block has exactly the room asked for, or so much more that the rest is cut off. */
  ghost predicate StaysInPlace(h: State, p: nat, n: nat)
    requires p in h.chain
  {
    Room(h, p) == n || n + HEADER + MIN_PAYLOAD < Room(h, p)
  }

  lemma RoomInside(h: State, p: nat)
    requires Blocks(h) && p in h.used
    ensures 0 < Room(h, p) <= h.size
  {
    LiveBlock(h, p);
  }

  lemma PaddedWords(n: nat)
    requires 0 < n
    ensures Padded(4 * n, if n < 3 then 3 else n)
  {
  }

  lemma OldBlockStays(h: State, h1: State, q: nat, p: nat, n: nat)
    requires Inv(h) && p in h.used && 0 < n && Malloc(h, 4 * n) == (h1, Some(q))
    ensures p in h1.chain
  {
    MoveSteps(h, h1, q, p, n);
  }

  lemma MoveFromTarget(h: State, h1: State, r: Option<nat>, p: nat, n: nat)
    requires Inv(h) && p in h.used && 0 < n && Malloc(h, 4 * n) == (h1, r)
    ensures MoveFrom(h, h1, r, p, n).1 == Shifted(r)
  {
    if r.Some? {
      OldBlockStays(h, h1, r.value, p, n);
      MoveIs(h, h1, r.value, p, n);
    }
  }

  lemma ResizeTarget(h: State, p: nat, n: nat)
    requires Inv(h) && p in h.used && 0 < n
    ensures Resize(h, p, n).1 == if StaysInPlace(h, p, n) then Some(p + HEADER) else Shifted(Malloc(h, 4 * n).1)
  {
    MoveFromTarget(h, Malloc(h, 4 * n).0, Malloc(h, 4 * n).1, p, n);
  }

  /** Null exactly when the block cannot stay in place and the request is larger than the heap or no
      block is a candidate; the old address exactly when the block can stay; otherwise the lowest
      candidate. */
  ghost predicate ReallocReturns(h: State, p: nat, n: nat, r: Option<nat>)
    requires p in h.chain
  {
    var m := if n < 3 then 3 else n;
    && (r.None? <==> !StaysInPlace(h, p, n) && (n > h.size || forall q :: !Candidate(h, m, q)))
    && (r == Some(p + HEADER) <==> StaysInPlace(h, p, n))
    && (r.Some? && r != Some(p + HEADER) ==>
          && r.value >= HEADER && Candidate(h, m, r.value - HEADER)
          && forall q :: Candidate(h, m, q) ==> r.value - HEADER <= q)
  }

  lemma NewBlock(h: State, p: nat, n: nat, r: Option<nat>)
    requires Inv(h) && p in h.used && 0 < n && r == Malloc(h, 4 * n).1 && !StaysInPlace(h, p, n)
    ensures ReallocReturns(h, p, n, Shifted(r))
  {
    PaddedWords(n);
    MallocAnswer(h, 4 * n, if n < 3 then 3 else n);
  }

  /** When `rt_realloc` of the live block at `p` to `n` words fails, and what it returns otherwise. */
  lemma ReallocAnswer(h: State, p: nat, n: nat)
    requires Inv(h) && p in h.used && 0 < n
    ensures ReallocReturns(h, p, n, Resize(h, p, n).1)
  {
    ResizeTarget(h, p, n);
    if !StaysInPlace(h, p, n) {
      NewBlock(h, p, n, Malloc(h, 4 * n).1);
    }
  }

  /** On null nothing changes; a block that stays has exactly the room asked for; a block that moves
      leaves its old place and takes at least that room at the new one. */
  ghost predicate ReallocLeaves(h: State, p: nat, n: nat, h': State, r: Option<nat>) {
    if r.None? then h' == h
    else if r == Some(p + HEADER) then h'.used == h.used && p in h'.chain && Room(h', p) == n
    else && r.value >= HEADER && h'.used == h.used + {r.value - HEADER} - {p}
         && r.value - HEADER in h'.chain && Room(h', r.value - HEADER) >= n
  }

  lemma MoveFromLeaves(h: State, h1: State, r: Option<nat>, p: nat, n: nat)
    requires Inv(h) && p in h.used && 0 < n && Malloc(h, 4 * n) == (h1, r)
    ensures ReallocLeaves(h, p, n, MoveFrom(h, h1, r, p, n).0, MoveFrom(h, h1, r, p, n).1)
  {
    if r.Some? {
      MoveSteps(h, h1, r.value, p, n);
      MoveIs(h, h1, r.value, p, n);
      MoveRoom(h, h1, r.value, p, n);
    } else {
      MallocKeepsInv(h, 4 * n);
    }
  }

  lemma ShrinkLeaves(h: State, p: nat, n: nat)
    requires Inv(h) && p in h.used && 0 < n && n + HEADER + MIN_PAYLOAD < Room(h, p)
    ensures ReallocLeaves(h, p, n, Shrink(h, p, n), Some(p + HEADER))
  {
    ShrinkKeepsInv(h, p, n);
    ShrinkKeepsPrefix(h, p, n);
  }

  lemma ReallocRoom(h: State, p: nat, n: nat)
    requires Inv(h) && p in h.used && 0 < n
    ensures ReallocLeaves(h, p, n, Resize(h, p, n).0, Resize(h, p, n).1)
  {
    if Room(h, p) != n {
      if n + HEADER + MIN_PAYLOAD < Room(h, p) {
        ShrinkLeaves(h, p, n);
      } else {
        MoveFromLeaves(h, Malloc(h, 4 * n).0, Malloc(h, 4 * n).1, p, n);
      }
    }
  }
}
