/** The first-fit heap of `rt_malloc`, `rt_realloc` and `rt_free`.

    Addresses and sizes count words of RT_ALIGN_SIZE (4) bytes from the start of the heap.  A
    block is a three-word header (flag and magic, next, prev) and its payload; a last header
    that is always marked used closes the heap.  This file is the specification: the memory
    words together with the list of block addresses they encode. */
module Heap {
  import opened Collections

  type Word = int

  const HEADER := 3
  const MIN_PAYLOAD := 3
  const FREE_TAG: Word := 0x1EA0      // used = 0, magic = HEAP_MAGIC
  const USED_TAG: Word := 0x1_1EA0    // used = 1, magic = HEAP_MAGIC

  /** RT_ALIGN of a size in bytes, in words. */
  function Words(bytes: nat): (n: nat)
    ensures 4 * n - 4 < bytes <= 4 * n
  {
    (bytes + 3) / 4
  }

  /** `chain` lists the block addresses in order and ends with the closing header. */
  datatype State = State(
    size: nat,            // mem_size_aligned
    mem: seq<Word>,
    chain: seq<nat>,
    used: set<nat>,
    lfree: nat,
    usedMem: int,
    maxMem: int)

  /** The address of the closing header. */
  function End(h: State): nat {
    h.size + HEADER
  }

  // ----- the block list

  function Insert(s: seq<nat>, k: nat, x: nat): (r: seq<nat>)
    requires k <= |s|
    ensures |r| == |s| + 1
    ensures forall i :: 0 <= i < k ==> r[i] == s[i]
    ensures r[k] == x
    ensures forall i :: k < i < |r| ==> r[i] == s[i - 1]
  {
    seq(|s| + 1, i requires 0 <= i <= |s| => if i < k then s[i] else if i == k then x else s[i - 1])
  }

  function Delete(s: seq<nat>, k: nat): (r: seq<nat>)
    requires k < |s|
    ensures |r| == |s| - 1
    ensures forall i :: 0 <= i < k ==> r[i] == s[i]
    ensures forall i :: k <= i < |r| ==> r[i] == s[i + 1]
  {
    seq(|s| - 1, i requires 0 <= i < |s| - 1 => if i < k then s[i] else s[i + 1])
  }

  /** Blocks do not overlap and each has at least one word of payload. */
  ghost predicate Gap(chain: seq<nat>, i: nat)
    requires i + 1 < |chain|
  {
    chain[i] + HEADER < chain[i + 1]
  }

  ghost predicate Increasing(chain: seq<nat>) {
    forall i: nat :: i + 1 < |chain| ==> Gap(chain, i)
  }

  lemma {:induction false} Apart(chain: seq<nat>, i: nat, j: nat)
    requires Increasing(chain) && i < j < |chain|
    ensures chain[i] + HEADER < chain[j]
    decreases j
  {
    assert Gap(chain, j - 1);
    if i < j - 1 {
      Apart(chain, i, j - 1);
    }
  }

  lemma SameIndex(chain: seq<nat>, i: nat, j: nat)
    requires Increasing(chain) && i < |chain| && j < |chain| && chain[i] == chain[j]
    ensures i == j
  {
    if i < j { Apart(chain, i, j); }
    if j < i { Apart(chain, j, i); }
  }

  ghost predicate Tiles(chain: seq<nat>, end: nat) {
    |chain| >= 2 && chain[0] == 0 && chain[|chain| - 1] == end && Increasing(chain)
  }

  /** The header words of block `i`. */
  ghost predicate HeaderOk(mem: seq<Word>, chain: seq<nat>, used: set<nat>, i: nat)
    requires i + 1 < |chain|
  {
    && chain[i] + 2 < |mem|
    && mem[chain[i]] == (if chain[i] in used then USED_TAG else FREE_TAG)
    && mem[chain[i] + 1] == chain[i + 1]
    && mem[chain[i] + 2] == (if i == 0 then 0 else chain[i - 1])
  }

  /** Every header agrees with the list; the back link of the closing header is not kept up. */
  ghost predicate Headers(mem: seq<Word>, chain: seq<nat>, used: set<nat>, end: nat) {
    && |mem| == end + HEADER
    && (forall i: nat :: i + 1 < |chain| ==> HeaderOk(mem, chain, used, i))
    && mem[end] == USED_TAG && mem[end + 1] == end
  }

  /** Total size of the used blocks, headers included. */
  ghost function Total(chain: seq<nat>, used: set<nat>): int {
    if |chain| < 2 then 0
    else (if chain[0] in used then chain[1] - chain[0] else 0) + Total(chain[1..], used)
  }

  ghost predicate Blocks(h: State) {
    && h.size >= MIN_PAYLOAD
    && Tiles(h.chain, End(h))
    && (forall p :: p in h.used ==> p in h.chain && p != End(h))
    && h.lfree in h.chain && h.lfree !in h.used
    && (h.lfree == End(h) ==> h.used != {})
  }

  /** Everything but the absence of adjacent free blocks. */
  ghost predicate Structure(h: State) {
    && Blocks(h)
    && Headers(h.mem, h.chain, h.used, End(h))
    && h.usedMem == Total(h.chain, h.used) <= h.maxMem
  }

  ghost predicate NotBothFree(chain: seq<nat>, used: set<nat>, i: nat)
    requires i + 1 < |chain|
  {
    chain[i] in used || chain[i + 1] in used
  }

  ghost predicate NoAdjacentFree(h: State) {
    forall i: nat :: i + 2 < |h.chain| ==> NotBothFree(h.chain, h.used, i)
  }

  ghost predicate Inv(h: State) {
    Structure(h) && NoAdjacentFree(h)
  }

  ghost function IndexOf(chain: seq<nat>, p: nat): (i: nat)
    requires p in chain
    ensures i < |chain| && chain[i] == p
  {
    var i :| 0 <= i < |chain| && chain[i] == p;
    i
  }

  // ----- the four ways a header changes

  /** A word store. */
  ghost function Put(mem: seq<Word>, a: nat, v: Word): (r: seq<Word>)
    ensures |r| == |mem|
    ensures a < |mem| ==> r[a] == v
    ensures forall k :: 0 <= k < |mem| && k != a ==> r[k] == mem[k]
  {
    if a < |mem| then mem[a := v] else mem
  }

  /** Write the header of a new free block at `x` inside block `i`. */
  ghost function Split(h: State, i: nat, x: nat): State
    requires i + 1 < |h.chain|
  {
    var p, e := h.chain[i], h.chain[i + 1];
    var mem1 := Put(Put(Put(Put(h.mem, x, FREE_TAG), x + 1, e), x + 2, p), p + 1, x);
    h.(mem := if e != End(h) then Put(mem1, e + 2, x) else mem1,
       chain := Insert(h.chain, i + 1, x),
       usedMem := if p in h.used then h.usedMem - e + x else h.usedMem)
  }

  /** Join the free blocks `i` and `i + 1`. */
  ghost function Merge(h: State, i: nat): State
    requires i + 2 < |h.chain|
  {
    var p, q, e := h.chain[i], h.chain[i + 1], h.chain[i + 2];
    h.(mem := Put(Put(h.mem, p + 1, e), e + 2, p),
       chain := Delete(h.chain, i + 1),
       lfree := if h.lfree == q then p else h.lfree)
  }

  /** The position of the first free block at or after `i`; the closing header counts as free. */
  ghost function NextFree(chain: seq<nat>, used: set<nat>, i: nat): (r: nat)
    requires i < |chain|
    ensures i <= r < |chain| && (chain[r] !in used || r + 1 == |chain|)
    ensures forall j :: i <= j < r ==> chain[j] in used
    decreases |chain| - i
  {
    if chain[i] !in used || i + 1 == |chain| then i else NextFree(chain, used, i + 1)
  }

  ghost function MarkUsed(h: State, i: nat): State
    requires i + 1 < |h.chain|
  {
    var p := h.chain[i];
    var used := h.used + {p};
    var usedMem := h.usedMem + h.chain[i + 1] - p;
    h.(mem := Put(h.mem, p, USED_TAG),
       used := used,
       lfree := if p == h.lfree then h.chain[NextFree(h.chain, used, i)] else h.lfree,
       usedMem := usedMem,
       maxMem := if h.maxMem < usedMem then usedMem else h.maxMem)
  }

  ghost function MarkFree(h: State, i: nat): State
    requires i + 1 < |h.chain|
  {
    var p := h.chain[i];
    h.(mem := Put(h.mem, p, FREE_TAG),
       used := h.used - {p},
       lfree := if p < h.lfree then p else h.lfree,
       usedMem := h.usedMem - h.chain[i + 1] + p)
  }

  // ----- the operations

  /** `plug_holes` at block `i`: join it with a free successor, then with a free predecessor. */
  ghost function PlugHoles(h: State, i: nat): State
    requires i + 1 < |h.chain|
  {
    var h1 := PlugForward(h, i);
    if i > 0 && h1.chain[i - 1] !in h1.used then Merge(h1, i - 1) else h1
  }

  ghost function PlugForward(h: State, i: nat): (r: State)
    requires i + 1 < |h.chain|
    ensures i + 1 < |r.chain|
  {
    if i + 2 < |h.chain| && h.chain[i + 1] !in h.used then Merge(h, i) else h
  }

  /** `rt_free` of the block at `p`. */
  ghost function Free(h: State, p: nat): State
    requires p in h.chain
  {
    var i := IndexOf(h.chain, p);
    if i + 1 < |h.chain| then PlugHoles(MarkFree(h, i), i) else h
  }

  /** Block `i` is free, starts below the search bound and has room for `n` words. */
  ghost predicate Fits(h: State, n: nat, i: nat)
    requires i + 1 < |h.chain|
  {
    h.chain[i] < h.size - n && h.chain[i] !in h.used && h.chain[i + 1] - (h.chain[i] + HEADER) >= n
  }

  /** The position of the block the search loop stops at, starting from position `i`. */
  ghost function FirstFit(h: State, n: nat, i: nat): (r: Option<nat>)
    requires i < |h.chain|
    ensures r.Some? ==> i <= r.value && r.value + 1 < |h.chain| && Fits(h, n, r.value)
    decreases |h.chain| - i
  {
    if h.chain[i] >= h.size - n || i + 1 == |h.chain| then None
    else if Fits(h, n, i) then Some(i)
    else FirstFit(h, n, i + 1)
  }

  /** Cut block `i` to `n` words when the rest can stand as a block of its own. */
  ghost function Trim(h: State, i: nat, n: nat): (r: State)
    requires i + 1 < |h.chain|
    ensures i + 1 < |r.chain|
  {
    if h.chain[i + 1] - (h.chain[i] + HEADER) >= n + HEADER + MIN_PAYLOAD then Split(h, i, h.chain[i] + HEADER + n) else h
  }

  /** The words `rt_malloc` looks for: the padded request, at least the minimum. */
  function Request(bytes: nat): nat {
    if Words(bytes) < MIN_PAYLOAD then MIN_PAYLOAD else Words(bytes)
  }

  /** `rt_malloc`: the new heap and the address of the block, if there is one. */
  ghost function Malloc(h: State, bytes: nat): (State, Option<nat>)
    requires h.lfree in h.chain
  {
    if bytes == 0 || Words(bytes) > h.size then (h, None)
    else
      var r := FirstFit(h, Request(bytes), IndexOf(h.chain, h.lfree));
      if r.None? then (h, None)
      else (MarkUsed(Trim(h, r.value, Request(bytes)), r.value), Some(h.chain[r.value]))
  }

  /** The in-place branch of `rt_realloc`: keep `n` words of the block at `p`, free the rest. */
  ghost function Shrink(h: State, p: nat, n: nat): State
    requires p in h.chain
  {
    var i := IndexOf(h.chain, p);
    if i + 1 < |h.chain| then CutOff(h, i, p + HEADER + n) else h
  }

  /** Cut block `i` at `x` and join the rest with what is free behind it. */
  ghost function CutOff(h: State, i: nat, x: nat): State
    requires i + 1 < |h.chain|
  {
    PlugHoles(Split(h, i, x), i + 1)
  }

  /** The address behind the block at `p`. */
  ghost function NextOf(h: State, p: nat): nat
    requires p in h.chain
  {
    var i := IndexOf(h.chain, p);
    if i + 1 < |h.chain| then h.chain[i + 1] else p
  }

  /** Payload words of the block at `p`. */
  ghost function Room(h: State, p: nat): nat
    requires p in h.chain
  {
    var e := NextOf(h, p);
    if p + HEADER <= e then e - p - HEADER else 0
  }

  ghost function Payload(h: State, p: nat): seq<Word>
    requires p in h.chain
  {
    var e := NextOf(h, p);
    if p + HEADER <= e <= |h.mem| then h.mem[p + HEADER..e] else []
  }

  // ----- each keeps the structure

  lemma {:induction false} TotalSplit(chain: seq<nat>, used: set<nat>, k: nat)
    requires k < |chain|
    ensures Total(chain, used) == Total(chain[..k + 1], used) + Total(chain[k..], used)
  {
    if k == 0 {
      assert chain[..1] == [chain[0]] && chain[0..] == chain;
    } else {
      TotalSplit(chain[1..], used, k - 1);
      assert chain[1..][..k] == chain[..k + 1][1..];
      assert chain[1..][k - 1..] == chain[k..];
    }
  }

  lemma {:induction false} TotalDependsOnStarts(chain: seq<nat>, used: set<nat>, used': set<nat>)
    requires forall j :: 0 <= j < |chain| - 1 ==> (chain[j] in used <==> chain[j] in used')
    ensures Total(chain, used) == Total(chain, used')
  {
    if |chain| >= 2 {
      TotalDependsOnStarts(chain[1..], used, used');
    }
  }

  /** Marking block `i` used adds its size. */
  lemma TotalMark(chain: seq<nat>, used: set<nat>, i: nat)
    requires Increasing(chain) && i + 1 < |chain| && chain[i] !in used
    ensures Total(chain, used + {chain[i]}) == Total(chain, used) + chain[i + 1] - chain[i]
  {
    var used' := used + {chain[i]};
    TotalSplit(chain, used, i);
    TotalSplit(chain, used', i);
    forall j | 0 <= j < |chain| && j != i ensures chain[j] in used <==> chain[j] in used' {
      if chain[j] == chain[i] { SameIndex(chain, i, j); }
    }
    TotalDependsOnStarts(chain[..i + 1], used, used');
    assert chain[i..][1..] == chain[i + 1..];
    TotalDependsOnStarts(chain[i + 1..], used, used');
  }

  /** A new boundary inside block `i` takes the part behind it out of the count. */
  lemma TotalInsert(chain: seq<nat>, used: set<nat>, i: nat, x: nat)
    requires i + 1 < |chain| && x !in used
    ensures Total(Insert(chain, i + 1, x), used) == Total(chain, used) - (if chain[i] in used then chain[i + 1] - x else 0)
  {
    var chain' := Insert(chain, i + 1, x);
    TotalSplit(chain, used, i);
    TotalSplit(chain', used, i);
    assert chain'[..i + 1] == chain[..i + 1];
    assert chain'[i..] == [chain[i], x] + chain[i + 1..];
    assert chain[i..] == [chain[i]] + chain[i + 1..];
    assert chain'[i..][1..] == [x] + chain[i + 1..];
    assert ([x] + chain[i + 1..])[1..] == chain[i + 1..];
    assert chain[i..][1..] == chain[i + 1..];
  }

  lemma TotalDelete(chain: seq<nat>, used: set<nat>, i: nat)
    requires i + 2 < |chain| && chain[i] !in used && chain[i + 1] !in used
    ensures Total(Delete(chain, i + 1), used) == Total(chain, used)
  {
    var x, rest := chain[i + 1], Delete(chain, i + 1);
    assert Insert(rest, i + 1, x) == chain;
    TotalInsert(rest, used, i, x);
  }

  lemma InsertMembers(s: seq<nat>, k: nat, x: nat)
    requires k <= |s|
    ensures forall y :: y in Insert(s, k, x) <==> y in s || y == x
  {
    var r := Insert(s, k, x);
    forall y | y in s ensures y in r {
      var i :| 0 <= i < |s| && s[i] == y;
      assert r[if i < k then i else i + 1] == y;
    }
    assert r[k] == x;
  }

  lemma DeleteMembers(s: seq<nat>, k: nat)
    requires k < |s| && Increasing(s)
    ensures forall y :: y in Delete(s, k) <==> y in s && y != s[k]
  {
    var r := Delete(s, k);
    forall y | y in s && y != s[k] ensures y in r {
      var i :| 0 <= i < |s| && s[i] == y;
      assert r[if i < k then i else i - 1] == y;
    }
    forall y | y in r ensures y in s && y != s[k] {
      var i :| 0 <= i < |r| && r[i] == y;
      var j := if i < k then i else i + 1;
      assert s[j] == y;
      if s[j] == s[k] { SameIndex(s, j, k); }
    }
  }

  lemma InsertTiles(chain: seq<nat>, end: nat, i: nat, x: nat)
    requires Tiles(chain, end) && i + 1 < |chain| && chain[i] + HEADER < x && x + HEADER < chain[i + 1]
    ensures Tiles(Insert(chain, i + 1, x), end)
  {
    var r := Insert(chain, i + 1, x);
    forall a: nat | a + 1 < |r| ensures Gap(r, a) {
      if a < i { assert Gap(chain, a); }
      if i + 1 < a { assert Gap(chain, a - 1); }
    }
  }

  lemma DeleteTiles(chain: seq<nat>, end: nat, k: nat)
    requires Tiles(chain, end) && 0 < k < |chain| - 1
    ensures Tiles(Delete(chain, k), end)
  {
    var r := Delete(chain, k);
    forall a: nat | a + 1 < |r| ensures Gap(r, a) {
      if a < k { assert Gap(chain, a); }
      if k <= a + 1 { assert Gap(chain, a + 1); }
    }
  }

  /** The addresses of the list are at most the end of the heap. */
  lemma InRange(chain: seq<nat>, end: nat, i: nat)
    requires Tiles(chain, end) && i < |chain|
    ensures chain[i] <= end && (chain[i] == end <==> i + 1 == |chain|) && (chain[i] == 0 <==> i == 0)
    ensures i + 1 < |chain| ==> chain[i] + HEADER < end
  {
    if i + 1 < |chain| { Apart(chain, i, |chain| - 1); }
    if 0 < i { Apart(chain, 0, i); }
  }

  lemma NotInside(chain: seq<nat>, i: nat, x: nat)
    requires Increasing(chain) && i + 1 < |chain| && chain[i] < x < chain[i + 1]
    ensures x !in chain
  {
    forall j: nat | j < |chain| ensures chain[j] != x {
      if j < i { Apart(chain, j, i); }
      if i + 1 < j { Apart(chain, i + 1, j); }
    }
  }

  lemma SplitBlocks(h: State, i: nat, x: nat)
    requires Blocks(h) && |h.mem| == End(h) + HEADER
    requires i + 1 < |h.chain| && h.chain[i] + HEADER < x && x + HEADER < h.chain[i + 1]
    ensures h.chain[i + 1] <= End(h) && Blocks(Split(h, i, x))
    ensures x !in h.chain && x !in h.used
  {
    InRange(h.chain, End(h), i + 1);
    InsertTiles(h.chain, End(h), i, x);
    InsertMembers(h.chain, i + 1, x);
    NotInside(h.chain, i, x);
  }

  lemma HeadersAfterSplit(mem: seq<Word>, mem': seq<Word>, chain: seq<nat>, used: set<nat>, end: nat, i: nat, x: nat)
    requires Tiles(chain, end) && Headers(mem, chain, used, end) && x !in used
    requires i + 1 < |chain| && chain[i] + HEADER < x && x + HEADER < chain[i + 1]
    requires chain[i + 1] <= end
    requires |mem'| == |mem| && mem'[x] == FREE_TAG && mem'[x + 1] == chain[i + 1] && mem'[x + 2] == chain[i]
    requires mem'[chain[i] + 1] == x
    requires chain[i + 1] != end ==> mem'[chain[i + 1] + 2] == x
    requires forall a :: 0 <= a < |mem| && a != chain[i] + 1 && !(x <= a <= x + 2) && a != chain[i + 1] + 2 ==> mem'[a] == mem[a]
    ensures Headers(mem', Insert(chain, i + 1, x), used, end)
  {
    var chain' := Insert(chain, i + 1, x);
    InRange(chain, end, i + 1);
    InRange(chain, end, i);
    forall k: nat | k + 1 < |chain'| ensures HeaderOk(mem', chain', used, k) {
      if k < i {
        assert HeaderOk(mem, chain, used, k);
        Apart(chain, k, i);
      } else if k == i {
        assert HeaderOk(mem, chain, used, i);
      } else if i + 1 < k {
        assert HeaderOk(mem, chain, used, k - 1);
        if i + 1 < k - 1 { Apart(chain, i + 1, k - 1); }
        InRange(chain, end, k - 1);
      }
    }
  }

  lemma SplitKeepsStructure(h: State, i: nat, x: nat)
    requires Structure(h)
    requires i + 1 < |h.chain| && h.chain[i] + HEADER < x && x + HEADER < h.chain[i + 1]
    ensures Structure(Split(h, i, x))
  {
    SplitBlocks(h, i, x);
    HeadersAfterSplit(h.mem, Split(h, i, x).mem, h.chain, h.used, End(h), i, x);
    TotalInsert(h.chain, h.used, i, x);
  }

  lemma HeadersAfterMerge(mem: seq<Word>, mem': seq<Word>, chain: seq<nat>, used: set<nat>, end: nat, i: nat)
    requires Tiles(chain, end) && Headers(mem, chain, used, end)
    requires i + 2 < |chain| && chain[i] <= end && chain[i + 2] <= end
    requires |mem'| == |mem| && mem'[chain[i] + 1] == chain[i + 2] && mem'[chain[i + 2] + 2] == chain[i]
    requires forall a :: 0 <= a < |mem| && a != chain[i] + 1 && a != chain[i + 2] + 2 ==> mem'[a] == mem[a]
    ensures Headers(mem', Delete(chain, i + 1), used, end)
  {
    var chain' := Delete(chain, i + 1);
    Apart(chain, i, i + 2);
    InRange(chain, end, i);
    InRange(chain, end, i + 2);
    forall k: nat | k + 1 < |chain'| ensures HeaderOk(mem', chain', used, k) {
      if k < i {
        assert HeaderOk(mem, chain, used, k);
        Apart(chain, k, i);
      } else if k == i {
        assert HeaderOk(mem, chain, used, i);
      } else {
        assert HeaderOk(mem, chain, used, k + 1);
        Apart(chain, i, k + 1);
        if i + 2 < k + 1 { Apart(chain, i + 2, k + 1); }
      }
    }
  }

  lemma MergeBlocks(h: State, i: nat)
    requires Blocks(h) && |h.mem| == End(h) + HEADER
    requires i + 2 < |h.chain| && h.chain[i] !in h.used && h.chain[i + 1] !in h.used
    ensures h.chain[i + 2] <= End(h) && h.chain[i] <= End(h) && Blocks(Merge(h, i))
  {
    InRange(h.chain, End(h), i);
    InRange(h.chain, End(h), i + 2);
    DeleteTiles(h.chain, End(h), i + 1);
    DeleteMembers(h.chain, i + 1);
    var h' := Merge(h, i);
    Apart(h.chain, i, i + 1);
    assert h'.chain[i] == h.chain[i] && h.chain[i] in h'.chain;
  }

  lemma MergeKeepsStructure(h: State, i: nat)
    requires Structure(h)
    requires i + 2 < |h.chain| && h.chain[i] !in h.used && h.chain[i + 1] !in h.used
    ensures Structure(Merge(h, i))
  {
    MergeBlocks(h, i);
    Apart(h.chain, i, i + 2);
    HeadersAfterMerge(h.mem, Merge(h, i).mem, h.chain, h.used, End(h), i);
    TotalDelete(h.chain, h.used, i);
  }

  lemma HeadersAfterMark(mem: seq<Word>, chain: seq<nat>, used: set<nat>, used': set<nat>, end: nat, i: nat)
    requires Tiles(chain, end) && Headers(mem, chain, used, end) && i + 1 < |chain| && chain[i] < |mem|
    requires forall p :: p != chain[i] ==> (p in used <==> p in used')
    ensures Headers(Put(mem, chain[i], if chain[i] in used' then USED_TAG else FREE_TAG), chain, used', end)
  {
    var mem' := Put(mem, chain[i], if chain[i] in used' then USED_TAG else FREE_TAG);
    InRange(chain, end, i);
    forall k: nat | k + 1 < |chain| ensures HeaderOk(mem', chain, used', k) {
      assert HeaderOk(mem, chain, used, k);
      if k < i { Apart(chain, k, i); }
      if i < k { Apart(chain, i, k); }
    }
  }

  lemma MarkUsedKeepsStructure(h: State, i: nat)
    requires Structure(h) && i + 1 < |h.chain| && h.chain[i] !in h.used
    ensures Structure(MarkUsed(h, i))
  {
    InRange(h.chain, End(h), i);
    HeadersAfterMark(h.mem, h.chain, h.used, h.used + {h.chain[i]}, End(h), i);
    TotalMark(h.chain, h.used, i);
    var h' := MarkUsed(h, i);
    assert h.chain[i] in h.chain;
    if h.chain[i] == h.lfree {
      var r := NextFree(h.chain, h'.used, i);
      assert h'.lfree == h.chain[r] && h.chain[r] in h.chain;
      InRange(h.chain, End(h), r);
    }
    assert Blocks(h');
  }

  lemma MarkFreeKeepsStructure(h: State, i: nat)
    requires Structure(h) && i + 1 < |h.chain| && h.chain[i] in h.used
    ensures Structure(MarkFree(h, i))
  {
    InRange(h.chain, End(h), i);
    HeadersAfterMark(h.mem, h.chain, h.used, h.used - {h.chain[i]}, End(h), i);
    TotalMark(h.chain, h.used - {h.chain[i]}, i);
    assert h.used - {h.chain[i]} + {h.chain[i]} == h.used;
    assert Gap(h.chain, i);
    var h' := MarkFree(h, i);
    assert h.chain[i] in h.chain;
    var j := IndexOf(h.chain, h.lfree);
    InRange(h.chain, End(h), j);
    assert Blocks(h');
  }

  // ----- the operations keep the invariant

  ghost predicate AlternatesExcept(h: State, a: int, b: int) {
    forall k: nat :: k + 2 < |h.chain| && k != a && k != b ==> NotBothFree(h.chain, h.used, k)
  }

  lemma PlugForwardSound(h: State, i: nat)
    requires Structure(h) && i + 1 < |h.chain| && h.chain[i] !in h.used && AlternatesExcept(h, i - 1, i)
    ensures var r := PlugForward(h, i);
            Structure(r) && r.used == h.used && r.chain[i] == h.chain[i] && AlternatesExcept(r, i - 1, i - 1)
  {
    var r := PlugForward(h, i);
    if i + 2 < |h.chain| && h.chain[i + 1] !in h.used {
      MergeKeepsStructure(h, i);
      forall k: nat | k + 2 < |r.chain| && k != i - 1 ensures NotBothFree(r.chain, r.used, k) {
        if k < i {
          assert NotBothFree(h.chain, h.used, k);
        } else {
          assert NotBothFree(h.chain, h.used, k + 1);
        }
      }
    } else {
      forall k: nat | k + 2 < |r.chain| && k != i - 1 ensures NotBothFree(r.chain, r.used, k) {
        assert k != i ==> NotBothFree(h.chain, h.used, k);
      }
    }
  }

  lemma MergeAlternates(h: State, i: nat)
    requires AlternatesExcept(h, i, i) && i + 2 < |h.chain| && h.chain[i] !in h.used && h.chain[i + 1] !in h.used
    ensures NoAdjacentFree(Merge(h, i))
  {
    var r := Merge(h, i);
    forall k: nat | k + 2 < |r.chain| ensures NotBothFree(r.chain, r.used, k) {
      if k < i {
        assert NotBothFree(h.chain, h.used, k);
      } else {
        assert NotBothFree(h.chain, h.used, k + 1);
      }
    }
  }

  lemma PlugHolesSound(h: State, i: nat)
    requires Structure(h) && i + 1 < |h.chain| && h.chain[i] !in h.used && AlternatesExcept(h, i - 1, i)
    ensures Inv(PlugHoles(h, i)) && PlugHoles(h, i).used == h.used
  {
    PlugForwardSound(h, i);
    var h1 := PlugForward(h, i);
    if i > 0 && h1.chain[i - 1] !in h1.used {
      MergeKeepsStructure(h1, i - 1);
      MergeAlternates(h1, i - 1);
    } else {
      forall k: nat | k + 2 < |h1.chain| ensures NotBothFree(h1.chain, h1.used, k) {
        if k == i - 1 { assert h1.chain[k] in h1.used; }
      }
    }
  }

  lemma MarkFreeAlternates(h: State, i: nat)
    requires Increasing(h.chain) && NoAdjacentFree(h) && i + 1 < |h.chain|
    ensures AlternatesExcept(MarkFree(h, i), i - 1, i)
  {
    var h1 := MarkFree(h, i);
    forall k: nat | k + 2 < |h1.chain| && k + 1 != i && k != i ensures NotBothFree(h1.chain, h1.used, k) {
      assert NotBothFree(h.chain, h.used, k);
      if h.chain[k] == h.chain[i] { SameIndex(h.chain, k, i); }
      if h.chain[k + 1] == h.chain[i] { SameIndex(h.chain, k + 1, i); }
    }
  }

  lemma FreeKeepsInv(h: State, p: nat)
    requires Inv(h) && p in h.used
    ensures Inv(Free(h, p)) && Free(h, p).used == h.used - {p}
  {
    var i := IndexOf(h.chain, p);
    InRange(h.chain, End(h), i);
    MarkFreeKeepsStructure(h, i);
    MarkFreeAlternates(h, i);
    PlugHolesSound(MarkFree(h, i), i);
  }

  lemma SplitAlternates(h: State, i: nat, x: nat)
    requires NoAdjacentFree(h) && i + 1 < |h.chain|
    ensures AlternatesExcept(Split(h, i, x), i, i + 1)
  {
    var h1 := Split(h, i, x);
    forall k: nat | k + 2 < |h1.chain| && k != i && k != i + 1 ensures NotBothFree(h1.chain, h1.used, k) {
      if k < i {
        assert NotBothFree(h.chain, h.used, k);
      } else {
        assert NotBothFree(h.chain, h.used, k - 1);
      }
    }
  }

  lemma SplitFreeAlternates(h: State, i: nat, x: nat)
    requires NoAdjacentFree(h) && i + 1 < |h.chain| && h.chain[i] !in h.used
    ensures AlternatesExcept(Split(h, i, x), i, i)
  {
    SplitAlternates(h, i, x);
    var h1 := Split(h, i, x);
    if i + 2 < |h.chain| {
      assert NotBothFree(h.chain, h.used, i);
      assert h1.chain[i + 2] == h.chain[i + 1];
      assert NotBothFree(h1.chain, h1.used, i + 1);
    }
  }

  lemma TrimIs(h: State, i: nat, n: nat, x: nat)
    requires i + 1 < |h.chain| && x == h.chain[i] + HEADER + n
    ensures Trim(h, i, n) == if h.chain[i + 1] - (h.chain[i] + HEADER) >= n + HEADER + MIN_PAYLOAD then Split(h, i, x) else h
  {
  }

  lemma TrimSound(h: State, i: nat, n: nat)
    requires Inv(h) && i + 1 < |h.chain| && h.chain[i] !in h.used && 0 < n
    ensures Structure(Trim(h, i, n)) && AlternatesExcept(Trim(h, i, n), i, i)
    ensures Trim(h, i, n).chain[i] == h.chain[i] && Trim(h, i, n).used == h.used
  {
    var x := h.chain[i] + HEADER + n;
    if h.chain[i + 1] - (h.chain[i] + HEADER) >= n + HEADER + MIN_PAYLOAD {
      SplitKeepsStructure(h, i, x);
      SplitFreeAlternates(h, i, x);
      SplitFront(h, i, x);
    }
    TrimIs(h, i, n, x);
  }

  lemma SplitFront(h: State, i: nat, x: nat)
    requires i + 1 < |h.chain|
    ensures Split(h, i, x).chain[i] == h.chain[i] && Split(h, i, x).used == h.used
  {
  }

  lemma MarkUsedAlternates(h: State, i: nat)
    requires AlternatesExcept(h, i, i) && i + 1 < |h.chain|
    ensures NoAdjacentFree(MarkUsed(h, i))
  {
    var h' := MarkUsed(h, i);
    forall k: nat | k + 2 < |h'.chain| ensures NotBothFree(h'.chain, h'.used, k) {
      if k != i { assert NotBothFree(h.chain, h.used, k); }
    }
  }

  lemma MallocKeepsInv(h: State, bytes: nat)
    requires Inv(h)
    ensures var (h', r) := Malloc(h, bytes);
            Inv(h') && (r.Some? ==> r.value !in h.used && h'.used == h.used + {r.value}) && (r.None? ==> h' == h)
  {
    if bytes != 0 && Words(bytes) <= h.size {
      var n := Request(bytes);
      var r := FirstFit(h, n, IndexOf(h.chain, h.lfree));
      if r.Some? {
        TrimSound(h, r.value, n);
        MarkUsedKeepsStructure(Trim(h, r.value, n), r.value);
        MarkUsedAlternates(Trim(h, r.value, n), r.value);
      }
    }
  }

  /** A live block lies inside the heap and has at least one word of payload. */
  lemma LiveBlock(h: State, p: nat)
    requires Blocks(h) && p in h.used
    ensures IndexOf(h.chain, p) + 1 < |h.chain| && p + HEADER < NextOf(h, p) <= End(h)
  {
    var i := IndexOf(h.chain, p);
    InRange(h.chain, End(h), i);
    InRange(h.chain, End(h), i + 1);
    assert Gap(h.chain, i);
  }

  lemma ShrinkKeepsInv(h: State, p: nat, n: nat)
    requires Inv(h) && p in h.used && 0 < n && n + HEADER + MIN_PAYLOAD < Room(h, p)
    ensures Inv(Shrink(h, p, n)) && Shrink(h, p, n).used == h.used
  {
    var i := IndexOf(h.chain, p);
    LiveBlock(h, p);
    var x := p + HEADER + n;
    SplitKeepsStructure(h, i, x);
    SplitBlocks(h, i, x);
    SplitAlternates(h, i, x);
    PlugHolesSound(Split(h, i, x), i + 1);
  }
}
