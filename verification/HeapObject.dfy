/** The heap as the code runs it: one array of words with the headers in band, the globals
    `lfree`, `used_mem` and `max_mem`, and the loops over the chain. */
module HeapObject {
  import opened Collections
  import opened Heap
  import opened HeapTheorems
  import Alignment
  import Pow2

  /** `rt_system_heap_init`: the payload words between two byte addresses, if there is room for
      the two headers. */
  function HeapSize(beginAddr: nat, endAddr: nat): (r: Option<nat>)
    ensures r.Some? ==> (beginAddr + 3) / 4 * 4 + 4 * (r.value + 2 * HEADER) == endAddr / 4 * 4
    ensures r.None? <==> endAddr / 4 * 4 <= 8 * HEADER || endAddr / 4 * 4 - 8 * HEADER < (beginAddr + 3) / 4 * 4
  {
    var beginAlign, endAlign := (beginAddr + 3) / 4, endAddr / 4;
    if endAlign > 2 * HEADER && endAlign - 2 * HEADER >= beginAlign then Some(endAlign - beginAlign - 2 * HEADER) else None
  }

  lemma MallocIs(h: State, bytes: nat, i: nat)
    requires h.lfree in h.chain && 0 < bytes && Words(bytes) <= h.size
    requires FirstFit(h, Request(bytes), IndexOf(h.chain, h.lfree)) == Some(i)
    ensures i + 1 < |h.chain| && h.chain[i] !in h.used
    ensures Malloc(h, bytes) == (MarkUsed(Trim(h, i, Request(bytes)), i), Some(h.chain[i]))
  {
  }

  class HeapObject {
    const size: nat
    const base: nat            // word address of heap_ptr
    const mem: array<Word>
    var lfree: nat
    var usedMem: int
    var maxMem: int
    ghost var chain: seq<nat>
    ghost var used: set<nat>

    ghost function Abs(): State
      reads this, mem
    {
      State(size, mem[..], chain, used, lfree, usedMem, maxMem)
    }

    constructor (base: nat, size: nat)
      requires size >= MIN_PAYLOAD
      ensures this.size == size && this.base == base && fresh(mem) && Initial(Abs())
    {
      this.size := size;
      this.base := base;
      mem := new Word[size + 2 * HEADER];
      lfree, usedMem, maxMem := 0, 0, 0;
      chain := [0, size + HEADER];
      used := {};
      new;
      var end := size + HEADER;
      mem[0], mem[1], mem[2] := FREE_TAG, end, 0;
      mem[end], mem[end + 1], mem[end + 2] := USED_TAG, end, end;
    }

    /** Write a free header at `x` and link it in behind the block at `p`. */
    method SplitBlock(ghost i: nat, p: nat, x: nat)
      requires Structure(Abs()) && i + 1 < |chain| && chain[i] == p && p + HEADER < x && x + HEADER < chain[i + 1]
      modifies mem, `chain
      ensures Abs() == Split(old(Abs()), i, x).(usedMem := usedMem)
    {
      assert HeaderOk(mem[..], chain, used, i);
      InRange(chain, size + HEADER, i + 1);
      var e := mem[p + 1];
      mem[x] := FREE_TAG;
      mem[x + 1] := e;
      mem[x + 2] := p;
      mem[p + 1] := x;
      if e != size + HEADER {
        mem[e + 2] := x;
      }
      chain := Insert(chain, i + 1, x);
      assert mem[..] == Split(old(Abs()), i, x).mem;
    }

    /** Take the free block behind the free block at `p` into it. */
    method JoinNext(ghost i: nat, p: nat, q: nat)
      requires Structure(Abs()) && i + 2 < |chain| && chain[i] == p && chain[i + 1] == q
      modifies mem, `chain, `lfree
      ensures Abs() == Merge(old(Abs()), i)
    {
      assert HeaderOk(mem[..], chain, used, i) && HeaderOk(mem[..], chain, used, i + 1);
      InRange(chain, size + HEADER, i + 2);
      Apart(chain, i, i + 1);
      if lfree == q {
        lfree := p;
      }
      mem[p + 1] := mem[q + 1];
      mem[mem[q + 1] + 2] := p;
      chain := Delete(chain, i + 1);
      assert mem[..] == Merge(old(Abs()), i).mem;
    }

    method PlugNext(ghost i: nat, p: nat)
      requires Structure(Abs()) && i + 1 < |chain| && chain[i] == p
      modifies mem, `chain, `lfree
      ensures Abs() == PlugForward(old(Abs()), i)
    {
      assert HeaderOk(mem[..], chain, used, i);
      InRange(chain, size + HEADER, i + 1);
      Apart(chain, i, i + 1);
      var next := mem[p + 1];
      assert i + 2 < |chain| ==> HeaderOk(mem[..], chain, used, i + 1);
      if p != next && mem[next] == FREE_TAG && next != size + HEADER {
        JoinNext(i, p, next);
      }
    }

    method PlugPrevious(ghost i: nat, p: nat)
      requires Structure(Abs()) && i + 1 < |chain| && chain[i] == p
      modifies mem, `chain, `lfree
      ensures Abs() == if i > 0 && old(chain)[i - 1] !in used then Merge(old(Abs()), i - 1) else old(Abs())
    {
      assert HeaderOk(mem[..], chain, used, i);
      var prev := mem[p + 2];
      InRange(chain, size + HEADER, i);
      if i > 0 {
        assert HeaderOk(mem[..], chain, used, i - 1);
        Apart(chain, i - 1, i);
      }
      if prev != p && mem[prev] == FREE_TAG {
        JoinNext(i - 1, prev, p);
      }
    }

    /** `plug_holes`. */
    method PlugHolesAt(ghost i: nat, p: nat)
      requires Structure(Abs()) && i + 1 < |chain| && chain[i] == p && p !in used && AlternatesExcept(Abs(), i - 1, i)
      modifies mem, `chain, `lfree
      ensures Abs() == PlugHoles(old(Abs()), i)
    {
      PlugForwardSound(Abs(), i);
      PlugNext(i, p);
      PlugPrevious(i, p);
    }

    /** Move `lfree` to the first free block at or after it. */
    method AdvanceLfree(ghost i: nat)
      requires Tiles(chain, size + HEADER) && Headers(mem[..], chain, used, size + HEADER) && i < |chain| && lfree == chain[i]
      requires size + HEADER !in used
      modifies `lfree
      ensures lfree == chain[NextFree(chain, used, i)]
    {
      ghost var k := i;
      InRange(chain, size + HEADER, k);
      while mem[lfree] != FREE_TAG && lfree != size + HEADER
        invariant k < |chain| && lfree == chain[k] <= size + HEADER
        invariant NextFree(chain, used, k) == NextFree(chain, used, i)
        decreases |chain| - k
      {
        InRange(chain, size + HEADER, k);
        assert HeaderOk(mem[..], chain, used, k);
        lfree := mem[lfree + 1];
        k := k + 1;
        InRange(chain, size + HEADER, k);
      }
      InRange(chain, size + HEADER, k);
      assert k + 1 < |chain| ==> HeaderOk(mem[..], chain, used, k);
    }

    /** Cut the free block at `p` behind `n` words if the rest can be a block. */
    method TrimBlock(ghost i: nat, p: nat, n: nat)
      requires Structure(Abs()) && i + 1 < |chain| && chain[i] == p && p !in used && 0 < n
      modifies mem, `chain
      ensures Abs() == Trim(old(Abs()), i, n)
    {
      assert HeaderOk(mem[..], chain, used, i);
      TrimIs(Abs(), i, n, p + HEADER + n);
      if mem[p + 1] - (p + HEADER) >= n + HEADER + MIN_PAYLOAD {
        SplitBlock(i, p, p + HEADER + n);
      }
    }

    /** Mark the block at `p` used, count it and move `lfree` on if it was there. */
    method UseBlock(ghost i: nat, p: nat)
      requires Structure(Abs()) && i + 1 < |chain| && chain[i] == p && p !in used
      modifies this, mem
      ensures Abs() == MarkUsed(old(Abs()), i)
    {
      MarkUsedKeepsStructure(Abs(), i);
      assert HeaderOk(mem[..], chain, used, i);
      mem[p] := USED_TAG;
      used := used + {p};
      assert mem[..] == MarkUsed(old(Abs()), i).mem;
      usedMem := usedMem + mem[p + 1] - p;
      if maxMem < usedMem {
        maxMem := usedMem;
      }
      if p == lfree {
        AdvanceLfree(i);
      }
    }

    /** Take the free block at `p` for `n` words. */
    method TakeBlock(ghost i: nat, p: nat, n: nat)
      requires Inv(Abs()) && i + 1 < |chain| && chain[i] == p && p !in used && 0 < n
      modifies this, mem
      ensures Abs() == MarkUsed(Trim(old(Abs()), i, n), i)
    {
      TrimSound(Abs(), i, n);
      TrimBlock(i, p, n);
      UseBlock(i, p);
    }

    /** The search loop of `rt_malloc`. */
    method FindFit(n: nat) returns (found: bool, p: nat, ghost i: nat)
      requires Structure(Abs()) && n <= size
      ensures found <==> FirstFit(Abs(), n, IndexOf(chain, lfree)).Some?
      ensures found ==> FirstFit(Abs(), n, IndexOf(chain, lfree)) == Some(i) && i + 1 < |chain| && chain[i] == p
    {
      i := IndexOf(chain, lfree);
      p := lfree;
      while p < size - n
        invariant i < |chain| && p == chain[i]
        invariant FirstFit(Abs(), n, i) == FirstFit(Abs(), n, IndexOf(chain, lfree))
        decreases |chain| - i
      {
        InRange(chain, size + HEADER, i);
        assert HeaderOk(mem[..], chain, used, i);
        if mem[p] == FREE_TAG && mem[p + 1] - (p + HEADER) >= n {
          return true, p, i;
        }
        p := mem[p + 1];
        i := i + 1;
      }
      found := false;
    }

    /** `rt_malloc`; the result is the address of the payload. */
    method MallocBytes(bytes: nat) returns (r: Option<nat>)
      requires Inv(Abs())
      modifies this, mem
      ensures Inv(Abs())
      ensures Abs() == Malloc(old(Abs()), bytes).0
      ensures r == Shifted(Malloc(old(Abs()), bytes).1)
    {
      MallocKeepsInv(Abs(), bytes);
      var n := (bytes + 3) / 4;
      if bytes == 0 || n > size {
        return None;
      }
      if n < MIN_PAYLOAD {
        n := MIN_PAYLOAD;
      }
      r := MallocWords(n, bytes);
    }

    /** The search and what follows it, for the padded request of `n` words. */
    method MallocWords(n: nat, ghost bytes: nat) returns (r: Option<nat>)
      requires Inv(Abs()) && 0 < bytes && Words(bytes) <= size && n == Request(bytes)
      modifies this, mem
      ensures Abs() == Malloc(old(Abs()), bytes).0
      ensures r == Shifted(Malloc(old(Abs()), bytes).1)
    {
      var found, p;
      ghost var i;
      found, p, i := FindFit(n);
      if !found {
        return None;
      }
      MallocIs(Abs(), bytes, i);
      TakeBlock(i, p, n);
      r := Some(p + HEADER);
    }

    /** `rt_free` of a payload address that is null, outside the heap, or a live block's. */
    method FreePayload(rmem: Option<nat>)
      requires Inv(Abs())
      requires rmem.Some? && rmem.value < size + HEADER ==> rmem.value >= HEADER && rmem.value - HEADER in used
      modifies this, mem
      ensures Inv(Abs())
      ensures rmem.Some? && rmem.value < size + HEADER ==>
                rmem.value - HEADER in old(chain) && Abs() == Free(old(Abs()), rmem.value - HEADER)
      ensures rmem.None? || rmem.value >= size + HEADER ==> Abs() == old(Abs())
    {
      if rmem.None? || rmem.value >= size + HEADER {
        return;
      }
      FreeLive(rmem.value - HEADER);
    }

    /** `rt_free` of the live block at `p`. */
    method FreeLive(p: nat)
      requires Inv(Abs()) && p in used
      modifies this, mem
      ensures Inv(Abs()) && p in old(chain) && Abs() == Free(old(Abs()), p)
    {
      FreeKeepsInv(Abs(), p);
      LiveBlock(Abs(), p);
      ghost var i := IndexOf(chain, p);
      FreeIs(Abs(), p, i);
      MarkFreeKeepsStructure(Abs(), i);
      MarkFreeAlternates(Abs(), i);
      FreeBlock(i, p);
      PlugHolesAt(i, p);
    }

    /** Mark the block at `p` free, lower `lfree` and take it out of the count. */
    method FreeBlock(ghost i: nat, p: nat)
      requires Structure(Abs()) && i + 1 < |chain| && chain[i] == p && p in used
      modifies this, mem
      ensures Abs() == MarkFree(old(Abs()), i)
    {
      assert HeaderOk(mem[..], chain, used, i);
      mem[p] := FREE_TAG;
      used := used - {p};
      assert mem[..] == MarkFree(old(Abs()), i).mem;
      if p < lfree {
        lfree := p;
      }
      usedMem := usedMem - (mem[p + 1] - p);
    }

    /** Cut the used block at `p` at `x` and take the rest out of the count. */
    method CutBlock(ghost i: nat, p: nat, x: nat)
      requires Structure(Abs()) && i + 1 < |chain| && chain[i] == p && p in used && p + HEADER < x && x + HEADER < chain[i + 1]
      modifies mem, `chain, `usedMem
      ensures Abs() == Split(old(Abs()), i, x)
    {
      assert HeaderOk(mem[..], chain, used, i);
      var e := mem[p + 1];
      SplitBlock(i, p, x);
      usedMem := usedMem - (e - x);
    }

    /** The in-place branch of `rt_realloc`. */
    method ShrinkBlock(p: nat, n: nat)
      requires Inv(Abs()) && p in used && 0 < n && n + HEADER + MIN_PAYLOAD < Room(Abs(), p)
      modifies this, mem
      ensures Inv(Abs()) && Abs() == Shrink(old(Abs()), p, n)
    {
      ShrinkKeepsInv(Abs(), p, n);
      LiveBlock(Abs(), p);
      ghost var i := IndexOf(chain, p);
      var x := p + HEADER + n;
      SplitOff(Abs(), i, x);
      ShrinkIs(Abs(), p, n, i, x);
      CutBlock(i, p, x);
      PlugHolesAt(i + 1, x);
    }

    /** `rt_memcpy` of `k` words between two live blocks. */
    method CopyWords(q: nat, b: nat, k: nat)
      requires Inv(Abs()) && q in used && b in used && q != b && k <= Room(Abs(), q) && k <= Room(Abs(), b)
      modifies mem
      ensures Abs() == Copy(old(Abs()), q, b, k)
    {
      LiveBlock(Abs(), q);
      LiveBlock(Abs(), b);
      var j := 0;
      while j < k
        invariant 0 <= j <= k
        invariant Abs() == Copy(old(Abs()), q, b, j)
      {
        mem[q + HEADER + j] := mem[b + HEADER + j];
        j := j + 1;
      }
    }

    method CopyBlock(q: nat, b: nat, k: nat)
      requires Inv(Abs()) && q in used && b in used && q != b && k <= Room(Abs(), q) && k <= Room(Abs(), b)
      modifies mem
      ensures Inv(Abs()) && Abs() == Copy(old(Abs()), q, b, k)
    {
      CopyWorks(Abs(), q, b, k);
      CopyWords(q, b, k);
    }

    /** The branch of `rt_realloc` that moves the block at `p` into a new one. */
    method MoveBlock(p: nat, n: nat) returns (r: Option<nat>)
      requires Inv(Abs()) && p in used && 0 < n <= size
      modifies this, mem
      ensures Inv(Abs()) && p in old(chain)
      ensures MovesTo(old(Abs()), p, n, Abs(), r)
    {
      ghost var h := Abs();
      MoveByMalloc(h, p, n);
      r := MallocBytes(4 * n);
      if r.Some? {
        Unshifted(Malloc(h, 4 * n).1, r);
        FinishMove(h, r.value - HEADER, p, n);
      }
    }

    /** The rest of a move, once the block at `q` is allocated. */
    method FinishMove(ghost h: State, q: nat, p: nat, n: nat)
      requires Inv(h) && p in h.used && 0 < n && Abs() == Malloc(h, 4 * n).0 && Malloc(h, 4 * n).1 == Some(q)
      modifies this, mem
      ensures Inv(Abs()) && MovesTo(h, p, n, Abs(), Some(q + HEADER))
    {
      ghost var h1 := Abs();
      MoveSteps(h, h1, q, p, n);
      var k := CopyAndFree(q, p, n);
      MoveDone(h, h1, q, p, n, k);
    }

    /** Copy what fits of the block at `p` to the block at `q`, and free the block at `p`. */
    method CopyAndFree(q: nat, p: nat, n: nat) returns (k: nat)
      requires Inv(Abs()) && p in used && q in used && q != p && n <= Room(Abs(), q)
      modifies this, mem
      ensures p in old(chain) && k == Smaller(n, Room(old(Abs()), p))
      ensures Inv(Abs()) && Abs() == Free(Copy(old(Abs()), q, p, k), p)
    {
      LiveBlock(Abs(), p);
      var room := RoomOf(p);
      k := if room < n then room else n;
      CopyBlock(q, p, k);
      FreeLive(p);
    }

    method RoomOf(p: nat) returns (room: nat)
      requires Structure(Abs()) && p in used
      ensures p in chain && room == Room(Abs(), p)
    {
      LiveBlock(Abs(), p);
      ghost var i := IndexOf(chain, p);
      assert HeaderOk(mem[..], chain, used, i);
      room := mem[p + 1] - p - HEADER;
    }

    /** `rt_malloc_align`: an aligned region inside a larger block, with the address of the block's
        payload stored in the word in front of it. */
    method MallocAligned(bytes: nat, align: nat) returns (r: Option<nat>)
      requires Inv(Abs()) && Pow2.IsPow2(align)
      modifies this, mem
      ensures Inv(Abs())
      ensures AlignedOk(old(Abs()), Words(bytes), Words(align), base, Abs(), r)
    {
      Alignment.PowersInWords(align, Words(align));
      var a := RoundUp(align);
      var k := RoundUp(bytes);
      r := AlignedWords(k, a);
    }

    method RoundUp(n: nat) returns (w: nat)
      ensures w == Words(n)
    {
      w := Alignment.RoundUpToWord(n);
    }

    /** `k` words at a multiple of `a` words. */
    method AlignedWords(k: nat, a: nat) returns (r: Option<nat>)
      requires Inv(Abs()) && 0 < a && Pow2.IsPow2(4 * a)
      modifies this, mem
      ensures Inv(Abs())
      ensures AlignedOk(old(Abs()), k, a, base, Abs(), r)
    {
      ghost var h := Abs();
      var p := MallocBytes(4 * (k + a));
      if p.None? {
        MallocKeepsInv(h, 4 * (k + a));
        return None;
      }
      var q := p.value - HEADER;
      assert Malloc(h, 4 * (k + a)).1 == Some(q);
      AlignedRoom(h, k, a, q);
      r := PlaceAligned(q, k, a);
    }

    /** Choose the aligned address inside the new block and store the back pointer. */
    method PlaceAligned(q: nat, k: nat, a: nat) returns (r: Option<nat>)
      requires Inv(Abs()) && 0 < a && Pow2.IsPow2(4 * a) && q in used && k + a <= Room(Abs(), q)
      modifies mem
      ensures Inv(Abs()) && r.Some? && AlignedIn(old(Abs()), q, k, a, base, Abs(), r.value)
    {
      LiveBlock(Abs(), q);
      var aligned := Alignment.NextMultiple(4 * (base + q + HEADER), 4 * a);
      Alignment.WordMultiple(aligned, a);
      var x := aligned / 4 - base;
      StoreWord(q, x - 1, base + q + HEADER);
      r := Some(x);
    }

    /** A store into the live block at `q`. */
    method StoreWord(ghost q: nat, a: nat, v: Word)
      requires Inv(Abs()) && Inside(Abs(), q, a) && a < mem.Length
      modifies mem
      ensures Inv(Abs()) && Abs() == Write(old(Abs()), a, v)
    {
      WriteKeepsInv(Abs(), q, a, v);
      mem[a] := v;
      assert mem[..] == Put(old(mem[..]), a, v);
    }

    /** `rt_free_align`: free the block whose payload address is stored in front of `ptr`. */
    method FreeAligned(ptr: nat)
      requires Inv(Abs()) && 0 < ptr <= mem.Length
      requires base + HEADER <= mem[ptr - 1] < base + size + HEADER && mem[ptr - 1] - base - HEADER in used
      modifies this, mem
      ensures Inv(Abs())
      ensures var q := old(mem[ptr - 1]) - base - HEADER; q in old(chain) && Abs() == Free(old(Abs()), q)
    {
      FreePayload(Some(mem[ptr - 1] - base));
    }

    predicate Live(rmem: Option<nat>) {
      rmem.Some? && rmem.value < size + HEADER
    }

    /** `rt_realloc` of a payload address that is null, behind the heap, or a live block's. */
    method ReallocPayload(rmem: Option<nat>, bytes: nat) returns (r: Option<nat>)
      requires Inv(Abs())
      requires rmem.Some? && rmem.value < size + HEADER ==> rmem.value >= HEADER && rmem.value - HEADER in used
      modifies this, mem
      ensures Inv(Abs())
      ensures Words(bytes) > size ==> Abs() == old(Abs()) && r == None
      ensures Words(bytes) == 0 ==> r == None && (if Live(rmem) then Released(old(Abs()), rmem.value, Abs()) else Abs() == old(Abs()))
      ensures 0 < Words(bytes) <= size && rmem.None? ==>
                Abs() == Malloc(old(Abs()), 4 * Words(bytes)).0 && r == Shifted(Malloc(old(Abs()), 4 * Words(bytes)).1)
      ensures 0 < Words(bytes) <= size && rmem.Some? && !Live(rmem) ==> Abs() == old(Abs()) && r == rmem
      ensures 0 < Words(bytes) <= size && Live(rmem) ==> Resized(old(Abs()), rmem.value, Words(bytes), Abs(), r)
    {
      var n := (bytes + 3) / 4;
      if n > size {
        return None;
      }
      if n == 0 {
        FreePayload(rmem);
        return None;
      }
      if rmem.None? {
        r := MallocBytes(4 * n);
        return;
      }
      if rmem.value >= size + HEADER {
        return rmem;
      }
      r := ResizeBlock(rmem.value - HEADER, n);
    }

    /** `rt_realloc` of the live block at `p` to `n` words. */
    method ResizeBlock(p: nat, n: nat) returns (r: Option<nat>)
      requires Inv(Abs()) && p in used && 0 < n <= size
      modifies this, mem
      ensures Inv(Abs()) && p in old(chain)
      ensures Abs() == Resize(old(Abs()), p, n).0 && r == Resize(old(Abs()), p, n).1
    {
      var room := RoomOf(p);
      if room == n {
        return Some(p + HEADER);
      }
      if n + HEADER + MIN_PAYLOAD < room {
        ShrinkBlock(p, n);
        return Some(p + HEADER);
      }
      r := MoveBlock(p, n);
      assert Look(0);
    }
  }

  /** `x` is a multiple of `a` in absolute words; the `k` words from `x` on and the word in front of
      them lie inside the block `q`, and that word is the payload address of `q`. */
  ghost predicate AlignedIn(h1: State, q: nat, k: nat, a: nat, base: nat, h': State, x: nat) {
    && q in h1.chain && a > 0
    && (base + x) % a == 0
    && q + HEADER < x && x + k <= NextOf(h1, q)
    && h' == Write(h1, x - 1, base + q + HEADER)
  }

  ghost predicate AlignedOk(h: State, k: nat, a: nat, base: nat, h': State, r: Option<nat>) {
    && h.lfree in h.chain
    && var (h1, q) := Malloc(h, 4 * (k + a));
    if q.None? then r.None? && h' == h else r.Some? && AlignedIn(h1, q.value, k, a, base, h', r.value)
  }

  /** `rt_free_align` of what `rt_malloc_align` returned reads the address of the block behind the
      region, and freeing it restores the block list, `lfree` and `usedMem`. */
  lemma AlignedRoundTrip(h: State, k: nat, a: nat, base: nat, h': State, x: nat) returns (q: nat)
    requires Inv(h) && 0 < a && AlignedOk(h, k, a, base, h', Some(x))
    ensures 0 < x <= |h'.mem| && h'.mem[x - 1] == base + q + HEADER
    ensures q in h'.used && q in h'.chain && q + HEADER < End(h') && SameMap(h, Free(h', q))
  {
    q := Malloc(h, 4 * (k + a)).1.value;
    var h1 := Malloc(h, 4 * (k + a)).0;
    AlignedBlock(h, k, a, base, h', x, h1, q);
    FreeAfterWrite(h, 4 * (k + a), h1, q, x - 1, base + q + HEADER, h');
    assert Look(0);
  }

  /** Freeing the block at `q` of `h'` restores the map of `h` (`Look` keeps it folded). */
  ghost predicate Restores(h: State, h': State, q: nat) {
    q in h'.chain && forall z: nat :: Look(z) ==> SameMap(h, Free(h', q))
  }

  lemma AlignedBlock(h: State, k: nat, a: nat, base: nat, h': State, x: nat, h1: State, q: nat)
    requires Inv(h) && 0 < a && Malloc(h, 4 * (k + a)) == (h1, Some(q)) && AlignedIn(h1, q, k, a, base, h', x)
    ensures 0 < x <= |h'.mem| && h'.mem[x - 1] == base + q + HEADER && q in h'.used && q in h'.chain && q + HEADER < End(h')
  {
    AlignedRoom(h, k, a, q);
    BackPointer(h1, q, k, a, base, h', x);
  }

  lemma FreeAfterWrite(h: State, bytes: nat, h1: State, q: nat, a: nat, v: Word, h': State)
    requires Inv(h) && Malloc(h, bytes) == (h1, Some(q)) && h' == Write(h1, a, v)
    ensures Restores(h, h', q)
  {
    WriteRoundTrip(h, bytes, a, v);
  }

  lemma BackPointer(h1: State, q: nat, k: nat, a: nat, base: nat, h': State, x: nat)
    requires Inv(h1) && q in h1.used && AlignedIn(h1, q, k, a, base, h', x)
    ensures 0 < x <= |h'.mem| && h'.mem[x - 1] == base + q + HEADER
    ensures h'.used == h1.used && h'.chain == h1.chain && q + HEADER < End(h')
  {
    LiveBlock(h1, q);
  }

  lemma AlignedRoom(h: State, k: nat, a: nat, q: nat)
    requires Inv(h) && 0 < a && Malloc(h, 4 * (k + a)).1 == Some(q)
    ensures var h1 := Malloc(h, 4 * (k + a)).0; Inv(h1) && q in h1.used && k + a <= Room(h1, q)
  {
    assert Words(4 * (k + a)) == k + a;
    MallocKeepsInv(h, 4 * (k + a));
    MallocResult(h, 4 * (k + a));
  }

  function Smaller(a: nat, b: nat): (m: nat)
    ensures m <= a && m <= b && (m == a || m == b)
  {
    if b < a then b else a
  }

  function Shifted(r: Option<nat>): Option<nat> {
    match r
    case None => None
    case Some(p) => Some(p + HEADER)
  }

  lemma Unshifted(o: Option<nat>, r: Option<nat>)
    requires r == Shifted(o) && r.Some?
    ensures r.value >= HEADER && o == Some(r.value - HEADER)
  {
  }

  /** Copy and free, once the new block `q` is allocated. */
  ghost function Moved(h: State, h1: State, q: nat, p: nat, n: nat): State
    requires p in h.chain && p in h1.chain
  {
    Free(Copy(h1, q, p, Smaller(n, Room(h, p))), p)
  }

  /** Malloc, copy, free; nothing changes when malloc finds no block. */
  ghost function Move(h: State, p: nat, n: nat): (State, Option<nat>)
    requires h.lfree in h.chain && p in h.chain
  {
    MoveFrom(h, Malloc(h, 4 * n).0, Malloc(h, 4 * n).1, p, n)
  }

  /** A move ends in `h'` with the result `r` (`Look` keeps it folded). */
  ghost predicate MovesTo(h: State, p: nat, n: nat, h': State, r: Option<nat>) {
    h.lfree in h.chain && p in h.chain && forall z: nat :: Look(z) ==> h' == Move(h, p, n).0 && r == Move(h, p, n).1
  }

  ghost function MoveFrom(h: State, h1: State, r: Option<nat>, p: nat, n: nat): (State, Option<nat>)
    requires p in h.chain
  {
    if r.None? || p !in h1.chain then (h1, r) else (Moved(h, h1, r.value, p, n), Some(r.value + HEADER))
  }

  /** The block with payload address `a` is freed. */
  ghost predicate Released(h: State, a: nat, h': State) {
    a >= HEADER && a - HEADER in h.chain && h' == Free(h, a - HEADER)
  }

  /** The block with payload address `a` is resized to `n` words. */
  ghost predicate Resized(h: State, a: nat, n: nat, h': State, r: Option<nat>) {
    a >= HEADER && a - HEADER in h.chain && h.lfree in h.chain && h' == Resize(h, a - HEADER, n).0 && r == Resize(h, a - HEADER, n).1
  }

  /** The live block at `p` keeps its place when it fits or is cut, and moves otherwise. */
  ghost function Resize(h: State, p: nat, n: nat): (State, Option<nat>)
    requires h.lfree in h.chain && p in h.chain
  {
    if Room(h, p) == n then (h, Some(p + HEADER))
    else if n + HEADER + MIN_PAYLOAD < Room(h, p) then (Shrink(h, p, n), Some(p + HEADER))
    else Move(h, p, n)
  }

  /** The middle of a move. */
  lemma MoveSteps(h: State, h1: State, q: nat, p: nat, n: nat)
    requires Inv(h) && p in h.used && 0 < n && Malloc(h, 4 * n) == (h1, Some(q))
    ensures Inv(h1) && p in h1.used && q in h1.used && q != p && q !in h.used && h1.used == h.used + {q}
    ensures Smaller(n, Room(h, p)) <= Room(h1, q) && n <= Room(h1, q)
    ensures NextOf(h1, p) == NextOf(h, p) && IndexOf(h1.chain, p) + 1 < |h1.chain| && p + HEADER < NextOf(h1, p) <= End(h1)
    ensures Inv(Copy(h1, q, p, Smaller(n, Room(h, p))))
  {
    var k := Smaller(n, Room(h, p));
    assert Words(4 * n) == n;
    MallocKeepsInv(h, 4 * n);
    MallocKeeps(h, 4 * n, p);
    MallocResult(h, 4 * n);
    LiveBlock(h1, p);
    CopyWorks(h1, q, p, k);
  }

  lemma MoveIs(h: State, h1: State, q: nat, p: nat, n: nat)
    requires p in h.chain && p in h1.chain
    ensures MoveFrom(h, h1, Some(q), p, n).0 == Moved(h, h1, q, p, n) && MoveFrom(h, h1, Some(q), p, n).1 == Some(q + HEADER)
  {
  }

  lemma MoveByMalloc(h: State, p: nat, n: nat)
    requires Inv(h) && p in h.used
    ensures p in h.chain
    ensures Malloc(h, 4 * n).1.None? ==> MovesTo(h, p, n, Malloc(h, 4 * n).0, None)
  {
  }

  lemma MoveDone(h: State, h1: State, q: nat, p: nat, n: nat, k: nat)
    requires h.lfree in h.chain && p in h.chain && p in h1.chain && Malloc(h, 4 * n) == (h1, Some(q))
    requires NextOf(h1, p) == NextOf(h, p) && k == Smaller(n, Room(h1, p))
    ensures Move(h, p, n).0 == Free(Copy(h1, q, p, k), p) && Move(h, p, n).1 == Some(q + HEADER)
  {
    assert Room(h1, p) == Room(h, p);
    MoveIs(h, h1, q, p, n);
  }

  lemma MoveContents(h: State, h1: State, q: nat, p: nat, n: nat)
    requires Inv(h) && p in h.used && 0 < n && Malloc(h, 4 * n) == (h1, Some(q))
    ensures p in h1.chain && Carries(h, p, Moved(h, h1, q, p, n), q, Smaller(n, Room(h, p)))
  {
    MoveSteps(h, h1, q, p, n);
    assert Words(4 * n) == n;
    var k := Smaller(n, Room(h, p));
    ReallocMoves(h, p, 4 * n, h1, q, [], h1, k, [], Copy(h1, q, p, k));
  }

  lemma MoveRoom(h: State, h1: State, q: nat, p: nat, n: nat)
    requires Inv(h) && p in h.used && 0 < n && Malloc(h, 4 * n) == (h1, Some(q))
    ensures p in h1.chain
    ensures var h' := Moved(h, h1, q, p, n); Inv(h') && h'.used == h.used + {q} - {p} && q in h'.chain && Room(h', q) >= n
  {
    MoveSteps(h, h1, q, p, n);
    var h3 := Copy(h1, q, p, Smaller(n, Room(h, p)));
    FreeKeepsInv(h3, p);
    FreeKeeps(h3, p, q);
  }

  /** What the caller of `rt_realloc` gets: on success a live block with room for the request
      that starts with the words of the old one; on failure an unchanged heap. */
  ghost predicate ReallocOk(h: State, p: nat, n: nat, h': State, r: Option<nat>) {
    match r
    case None => h' == h
    case Some(a) =>
      && p in h.chain && a >= HEADER
      && a - HEADER in h'.used && a - HEADER in h'.chain
      && (a - HEADER == p || (a - HEADER !in h.used && p !in h'.used))
      && n <= Room(h', a - HEADER)
      && Carries(h, p, h', a - HEADER, Smaller(n, Room(h, p)))
  }

  lemma ShrinkOk(h: State, p: nat, n: nat)
    requires Inv(h) && p in h.used && 0 < n && n + HEADER + MIN_PAYLOAD < Room(h, p)
    ensures ReallocOk(h, p, n, Shrink(h, p, n), Some(p + HEADER))
  {
    ShrinkKeepsInv(h, p, n);
    ShrinkKeepsPrefix(h, p, n);
    PrefixCarries(h, Shrink(h, p, n), p, n);
  }

  lemma PrefixCarries(h: State, h': State, p: nat, n: nat)
    requires Blocks(h) && Blocks(h') && p in h.used && p in h'.used && |h.mem| == End(h) + HEADER && |h'.mem| == End(h') + HEADER
    requires Room(h', p) == n <= Room(h, p) && n <= |Payload(h, p)| && Payload(h', p) == Payload(h, p)[..n]
    ensures Carries(h, p, h', p, n)
  {
    LiveBlock(h, p);
    LiveBlock(h', p);
    assert Payload(h, p) == h.mem[p + HEADER..NextOf(h, p)] && Payload(h', p) == h'.mem[p + HEADER..NextOf(h', p)];
    forall j: nat | j < n ensures WordOf(h', p, j) == WordOf(h, p, j) {
      assert Payload(h', p)[j] == WordOf(h', p, j) && Payload(h, p)[j] == WordOf(h, p, j);
    }
  }

  lemma MovedOk(h: State, h1: State, q: nat, p: nat, n: nat)
    requires Inv(h) && p in h.used && 0 < n && Malloc(h, 4 * n) == (h1, Some(q))
    ensures p in h1.chain && ReallocOk(h, p, n, Moved(h, h1, q, p, n), Some(q + HEADER))
  {
    MoveSteps(h, h1, q, p, n);
    MoveContents(h, h1, q, p, n);
    MoveRoom(h, h1, q, p, n);
  }

  lemma MoveFromOk(h: State, h1: State, r: Option<nat>, p: nat, n: nat)
    requires Inv(h) && p in h.used && 0 < n && Malloc(h, 4 * n) == (h1, r)
    ensures ReallocOk(h, p, n, MoveFrom(h, h1, r, p, n).0, MoveFrom(h, h1, r, p, n).1)
  {
    if r.Some? {
      MoveSucceeds(h, h1, r.value, p, n);
    } else {
      MallocKeepsInv(h, 4 * n);
      MoveFails(h, h1, p, n);
    }
  }

  lemma MoveSucceeds(h: State, h1: State, q: nat, p: nat, n: nat)
    requires Inv(h) && p in h.used && 0 < n && Malloc(h, 4 * n) == (h1, Some(q))
    ensures ReallocOk(h, p, n, MoveFrom(h, h1, Some(q), p, n).0, MoveFrom(h, h1, Some(q), p, n).1)
  {
    MovedOk(h, h1, q, p, n);
    MoveIs(h, h1, q, p, n);
  }

  lemma MoveFails(h: State, h1: State, p: nat, n: nat)
    requires p in h.chain && h1 == h
    ensures ReallocOk(h, p, n, MoveFrom(h, h1, None, p, n).0, MoveFrom(h, h1, None, p, n).1)
  {
  }

  lemma MoveOk(h: State, p: nat, n: nat)
    requires Inv(h) && p in h.used && 0 < n
    ensures ReallocOk(h, p, n, Move(h, p, n).0, Move(h, p, n).1)
  {
    MoveFromOk(h, Malloc(h, 4 * n).0, Malloc(h, 4 * n).1, p, n);
  }

  lemma ReallocContract(h: State, p: nat, n: nat)
    requires Inv(h) && p in h.used && 0 < n
    ensures ReallocOk(h, p, n, Resize(h, p, n).0, Resize(h, p, n).1)
  {
    if Room(h, p) != n {
      if n + HEADER + MIN_PAYLOAD < Room(h, p) {
        ShrinkOk(h, p, n);
      } else {
        MoveOk(h, p, n);
      }
    }
  }

  lemma {:induction false} CopyKeeps(h: State, q: nat, b: nat, k: nat, c: nat)
    requires Blocks(h) && |h.mem| == End(h) + HEADER && q in h.used && b in h.used && c in h.used && c != q
    requires k <= Room(h, q) && k <= Room(h, b)
    ensures Keeps(h, Copy(h, q, b, k), c)
  {
    if k > 0 {
      CopyKeeps(h, q, b, k - 1, c);
      var h1 := Copy(h, q, b, k - 1);
      LiveBlock(h, b);
      WriteKeeps(h1, q, q + HEADER + k - 1, h1.mem[b + HEADER + k - 1], c);
    }
  }

  lemma MoveKeepsOthers(h: State, h1: State, q: nat, p: nat, n: nat, b: nat)
    requires Inv(h) && p in h.used && 0 < n && Malloc(h, 4 * n) == (h1, Some(q)) && b in h.used && b != p
    ensures p in h1.chain && Keeps(h, Moved(h, h1, q, p, n), b)
  {
    MoveSteps(h, h1, q, p, n);
    var k := Smaller(n, Room(h, p));
    MallocKeeps(h, 4 * n, b);
    CopyKeeps(h1, q, p, k, b);
    FreeKeeps(Copy(h1, q, p, k), p, b);
  }

  ghost predicate Untouched(h: State, h': State, b: nat) {
    b in h'.used && Keeps(h, h', b)
  }

  lemma ShrinkUntouched(h: State, p: nat, n: nat, b: nat)
    requires Inv(h) && p in h.used && 0 < n && n + HEADER + MIN_PAYLOAD < Room(h, p) && b in h.used && b != p
    ensures Untouched(h, Shrink(h, p, n), b)
  {
    ShrinkKeepsInv(h, p, n);
    ShrinkKeeps(h, p, n, b);
  }

  lemma FreeUntouched(h: State, p: nat, b: nat)
    requires Inv(h) && p in h.used && b in h.used && b != p
    ensures Untouched(h, Free(h, p), b)
  {
    FreeKeepsInv(h, p);
    FreeKeeps(h, p, b);
  }

  lemma MoveUntouched(h: State, p: nat, n: nat, b: nat)
    requires Inv(h) && p in h.used && 0 < n && b in h.used && b != p
    ensures Untouched(h, Move(h, p, n).0, b)
  {
    var (h1, r) := Malloc(h, 4 * n);
    if r.Some? {
      MoveSteps(h, h1, r.value, p, n);
      MoveIs(h, h1, r.value, p, n);
      MoveRoom(h, h1, r.value, p, n);
      MoveKeepsOthers(h, h1, r.value, p, n, b);
    } else {
      MallocKeepsInv(h, 4 * n);
    }
  }

  /** `rt_realloc` of one block leaves the others alone, whether it frees, resizes or moves it. */
  lemma ReallocKeepsOthers(h: State, p: nat, n: nat, b: nat)
    requires Inv(h) && p in h.used && b in h.used && b != p
    ensures Untouched(h, if n == 0 then Free(h, p) else Resize(h, p, n).0, b)
  {
    if n == 0 {
      FreeUntouched(h, p, b);
    } else if Room(h, p) != n {
      if n + HEADER + MIN_PAYLOAD < Room(h, p) {
        ShrinkUntouched(h, p, n, b);
      } else {
        MoveUntouched(h, p, n, b);
      }
    }
  }
}
