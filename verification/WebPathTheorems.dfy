/** What path normalisation computes, said without its loop: the segments between slashes, a stack
    on which `..` pops, and the stack written out again. */
module WebPathTheorems {
  import opened Bytes
  import opened WebPath

  /** All segments from `i` on, empty ones too. */
  function Split(s: Text, i: nat): seq<Text>
    requires i <= |s|
    decreases |s| - i
  {
    var e := SegmentEnd(s, i);
    if e == |s| then [s[i..]] else [s[i..e]] + Split(s, e + 1)
  }

  lemma {:induction false} SplitNoSlashes(s: Text, i: nat)
    requires i <= |s|
    ensures NoSlashes(Split(s, i))
    decreases |s| - i
  {
    var e := SegmentEnd(s, i);
    assert NoSlash(s[i..e]);
    if e < |s| {
      SplitNoSlashes(s, e + 1);
    }
  }

  datatype Resolved = Climbs | Stack(segments: seq<Text>)

  /** Empty segments and `.` stay where they are, `..` goes up, all others go down. */
  function Resolve(segs: seq<Text>, stack: seq<Text>): Resolved {
    if segs == [] then Stack(stack)
    else if segs[0] == [DOT, DOT] then
      if stack == [] then Climbs else Resolve(segs[1..], stack[..|stack| - 1])
    else Resolve(segs[1..], if segs[0] == [] || segs[0] == [DOT] then stack else stack + [segs[0]])
  }

  function Slashed(stack: seq<Text>): Text {
    if stack == [] then [] else [SLASH] + stack[0] + Slashed(stack[1..])
  }

  /** The absolute path of a stack. */
  function Canonical(stack: seq<Text>): Text {
    if stack == [] then [SLASH] else Slashed(stack)
  }

  predicate CleanSegment(seg: Text) {
    NoSlash(seg) && seg != [] && seg != [DOT] && seg != [DOT, DOT]
  }

  predicate Clean(stack: seq<Text>) {
    forall i :: 0 <= i < |stack| ==> CleanSegment(stack[i])
  }

  lemma {:induction false} ResolveClean(segs: seq<Text>, stack: seq<Text>)
    requires NoSlashes(segs) && Clean(stack)
    ensures Resolve(segs, stack).Stack? ==> Clean(Resolve(segs, stack).segments)
    decreases |segs|
  {
    if segs != [] {
      if segs[0] == [DOT, DOT] {
        if stack != [] {
          ResolveClean(segs[1..], stack[..|stack| - 1]);
        }
      } else {
        ResolveClean(segs[1..], if segs[0] == [] || segs[0] == [DOT] then stack else stack + [segs[0]]);
      }
    }
  }

  lemma {:induction false} SlashedPush(stack: seq<Text>, seg: Text)
    ensures Slashed(stack + [seg]) == Slashed(stack) + [SLASH] + seg
    decreases |stack|
  {
    var all := stack + [seg];
    if stack != [] {
      SlashedPush(stack[1..], seg);
      assert all[0] == stack[0] && all[1..] == stack[1..] + [seg];
      assert [SLASH] + stack[0] + (Slashed(stack[1..]) + [SLASH] + seg) == [SLASH] + stack[0] + Slashed(stack[1..]) + [SLASH] + seg;
    } else {
      assert all[1..] == [] && [SLASH] + seg + [] == [] + [SLASH] + seg;
    }
  }

  /** The root is an empty first segment. */
  function Rooted(stack: seq<Text>): seq<Text> {
    [[]] + stack
  }

  lemma {:induction false} FlatSlashed(stack: seq<Text>)
    ensures Flat(Rooted(stack)) == Slashed(stack) + [SLASH]
    decreases |stack|
  {
    var r := Rooted(stack);
    if stack == [] {
      assert r[..0] == [] && r[0] == [];
    } else {
      var init, seg := stack[..|stack| - 1], stack[|stack| - 1];
      assert stack == init + [seg] && r[..|r| - 1] == Rooted(init) && r[|r| - 1] == seg;
      FlatSlashed(init);
      SlashedPush(init, seg);
    }
  }

  // ----- the loop against the stack

  /** Slashes in a row do not matter. */
  lemma {:induction false} ResolveSlashes(s: Text, i: nat, stack: seq<Text>)
    requires i <= |s|
    ensures Resolve(Split(s, i), stack) == Resolve(Split(s, NextSegment(s, i)), stack)
    decreases |s| - i
  {
    if i < |s| && s[i] == SLASH {
      ResolveSlashes(s, i + 1, stack);
      assert s[i..i] == [] && Split(s, i) == [[]] + Split(s, i + 1);
      assert Split(s, i)[1..] == Split(s, i + 1);
    }
  }

  lemma SegmentText(s: Text, i: nat)
    requires i <= |s|
    ensures var seg := s[i..SegmentEnd(s, i)];
            && (IsDot(s, i) <==> seg == [DOT]) && (IsDotDot(s, i) <==> seg == [DOT, DOT]) && NoSlash(seg)
            && (i < |s| && s[i] != SLASH ==> seg != [])
  {
  }

  /** The stack below the segment at `i`. */
  function Down(s: Text, i: nat, stack: seq<Text>): seq<Text>
    requires i <= |s| && !(IsDotDot(s, i) && stack == [])
  {
    if IsDotDot(s, i) then stack[..|stack| - 1]
    else if IsDot(s, i) || SegmentEnd(s, i) == i then stack
    else stack + [s[i..SegmentEnd(s, i)]]
  }

  /** One segment of the reference. */
  lemma ResolveStep(s: Text, i: nat, stack: seq<Text>)
    requires i <= |s|
    ensures IsDotDot(s, i) && stack == [] ==> Resolve(Split(s, i), stack) == Climbs
    ensures !(IsDotDot(s, i) && stack == []) ==>
              var e := SegmentEnd(s, i);
              Resolve(Split(s, i), stack) ==
                if e == |s| then Stack(Down(s, i, stack)) else Resolve(Split(s, NextSegment(s, e)), Down(s, i, stack))
  {
    var e := SegmentEnd(s, i);
    var segs := Split(s, i);
    SegmentText(s, i);
    assert segs[0] == s[i..e];
    if e == |s| {
      assert segs[1..] == [];
    } else {
      assert segs[1..] == Split(s, e + 1);
      if !(IsDotDot(s, i) && stack == []) {
        ResolveSlashes(s, e + 1, Down(s, i, stack));
      }
    }
  }

  lemma FinishedRooted(s: Text, i: nat, stack: seq<Text>)
    requires i < |s| && s[i] != SLASH
    ensures !(IsDotDot(s, i) && stack == []) ==> Finished(s, i, Rooted(stack)) == Rooted(Down(s, i, stack))
    ensures IsDotDot(s, i) && stack == [] ==> Finished(s, i, Rooted(stack)) == []
  {
    SegmentText(s, i);
  }

  /** The loop's result for the stack `f`: all of it finished, or all but its last segment. */
  predicate EndsAs(r: Scan, f: seq<Text>) {
    r.End? && if r.last == [] then r.finished == Rooted(f) else NoSlash(r.last) && r.finished + [r.last] == Rooted(f)
  }

  predicate NonEmpty(done: seq<Text>) {
    forall i :: 0 <= i < |done| ==> done[i] != []
  }

  /** The loop's result once the root is gone. */
  predicate OffRoot(r: Scan) {
    r.End? ==> NonEmpty(r.finished) && NoSlashes(r.finished) && NoSlash(r.last)
  }

  lemma {:induction false} StaysOffRoot(s: Text, i: nat, done: seq<Text>)
    requires i <= |s| && (i < |s| ==> s[i] != SLASH) && NonEmpty(done) && NoSlashes(done)
    ensures OffRoot(ScanFrom(s, i, done))
    decreases |s| - i
  {
    if !(IsDotDot(s, i) && done == []) {
      SegmentText(s, i);
      var e := SegmentEnd(s, i);
      if e < |s| {
        StaysOffRoot(s, NextSegment(s, e), Finished(s, i, done));
      }
    }
  }

  lemma {:induction false} ScanResolves(s: Text, i: nat, stack: seq<Text>)
    requires i <= |s| && (i < |s| ==> s[i] != SLASH)
    ensures var r := Resolve(Split(s, i), stack);
            if r.Stack? then EndsAs(ScanFrom(s, i, Rooted(stack)), r.segments) else OffRoot(ScanFrom(s, i, Rooted(stack)))
    decreases |s| - i
  {
    var e := SegmentEnd(s, i);
    ResolveStep(s, i, stack);
    if e == |s| {
      LastResolves(s, i, stack);
    } else {
      FinishedRooted(s, i, stack);
      if IsDotDot(s, i) && stack == [] {
        StaysOffRoot(s, NextSegment(s, e), []);
      } else {
        ScanResolves(s, NextSegment(s, e), Down(s, i, stack));
      }
    }
  }

  lemma LastResolves(s: Text, i: nat, stack: seq<Text>)
    requires i <= |s| && SegmentEnd(s, i) == |s|
    ensures IsDotDot(s, i) && stack == [] ==> OffRoot(ScanFrom(s, i, Rooted(stack)))
    ensures !(IsDotDot(s, i) && stack == []) ==> EndsAs(ScanFrom(s, i, Rooted(stack)), Down(s, i, stack))
  {
    SegmentText(s, i);
    if i < |s| {
      FinishedRooted(s, i, stack);
      assert s[i..] == s[i..SegmentEnd(s, i)];
      assert Rooted(stack) + [s[i..]] == Rooted(stack + [s[i..]]);
    }
  }

  // ----- the theorems

  lemma TrimmedEnd(r: Scan, f: seq<Text>)
    requires EndsAs(r, f)
    ensures Trimmed(Flat(r.finished) + r.last) == Normalized(Canonical(f))
  {
    var t := Flat(r.finished) + r.last;
    if r.last == [] {
      FlatSlashed(f);
      assert t == Slashed(f) + [SLASH];
      assert t[..|t| - 1] == Slashed(f);
    } else {
      assert (r.finished + [r.last])[|f|] == r.last && Rooted(f)[|f|] == r.last;
      var init := f[..|f| - 1];
      assert (r.finished + [r.last])[|f|] == r.last && (r.finished + [r.last])[..|f|] == r.finished;
      assert Rooted(f)[..|f|] == Rooted(init) && Rooted(f)[|f|] == f[|f| - 1];
      assert f == init + [r.last];
      FlatSlashed(init);
      SlashedPush(init, r.last);
      assert t[|t| - 1] == r.last[|r.last| - 1];
    }
  }

  /** The stack of an absolute path; `Climbs` if some `..` goes above the root. */
  function StackOf(s: Text): Resolved
    requires s != [] && s[0] == SLASH
  {
    Resolve(Split(s, 1), [])
  }

  lemma FromRoot(s: Text)
    requires s != [] && s[0] == SLASH
    ensures ScanFrom(s, 0, []) == ScanFrom(s, NextSegment(s, 0), Rooted([]))
    ensures StackOf(s) == Resolve(Split(s, NextSegment(s, 0)), [])
  {
    ResolveSlashes(s, 1, []);
    assert Finished(s, 0, []) == [] + [s[0..0]] == Rooted([]);
  }

  /** For every absolute path that never climbs above the root, the result is the canonical path of
      its segment stack, and the stack holds no empty, `.` or `..` segment. */
  lemma NormalizeAbsolute(s: Text)
    requires s != [] && s[0] == SLASH && StackOf(s).Stack?
    ensures Normalize(s) == Normalized(Canonical(StackOf(s).segments)) && Clean(StackOf(s).segments)
  {
    FromRoot(s);
    ScanResolves(s, NextSegment(s, 0), []);
    TrimmedEnd(ScanFrom(s, 0, []), StackOf(s).segments);
    SplitNoSlashes(s, 1);
    ResolveClean(Split(s, 1), []);
  }

  /** An absolute path stays absolute exactly when it never climbs above the root. */
  lemma StaysAbsolute(s: Text)
    requires s != [] && s[0] == SLASH
    ensures StackOf(s).Stack? <==> Normalize(s).Normalized? && At(Normalize(s).path, 0) == SLASH
  {
    if StackOf(s).Stack? {
      NormalizeAbsolute(s);
    } else {
      FromRoot(s);
      ScanResolves(s, NextSegment(s, 0), []);
      var r := ScanFrom(s, 0, []);
      if r.End? {
        FlatStart(r.finished, r.last);
      }
    }
  }

  lemma {:induction false} FlatFirst(done: seq<Text>)
    requires done != [] && NonEmpty(done) && NoSlashes(done)
    ensures Flat(done) != [] && Flat(done)[0] != SLASH
    decreases |done|
  {
    var init := done[..|done| - 1];
    if init != [] {
      FlatFirst(init);
    }
  }

  lemma FlatStart(done: seq<Text>, last: Text)
    requires NonEmpty(done) && NoSlashes(done) && NoSlash(last)
    ensures At(Flat(done) + last, 0) != SLASH
    ensures Trimmed(Flat(done) + last).Normalized? ==> At(Trimmed(Flat(done) + last).path, 0) != SLASH
  {
    if done != [] {
      FlatFirst(done);
    }
  }

  // ----- normalising twice

  lemma {:induction false} SegmentEndAt(s: Text, i: nat, e: nat)
    requires i <= e <= |s| && (e == |s| || s[e] == SLASH) && forall k :: i <= k < e ==> s[k] != SLASH
    ensures SegmentEnd(s, i) == e
    decreases e - i
  {
    if i < e {
      SegmentEndAt(s, i + 1, e);
    }
  }

  lemma SegmentBefore(s: Text, i: nat, seg: Text, rest: Text)
    requires i <= |s| && NoSlash(seg) && s[i..] == seg + rest && (rest == [] || rest[0] == SLASH)
    ensures i + |seg| <= |s| && SegmentEnd(s, i) == i + |seg| && s[i..i + |seg|] == seg && s[i + |seg|..] == rest
  {
    var e := i + |seg|;
    forall k | i <= k < e
      ensures s[k] == seg[k - i]
    {
      assert s[i..][k - i] == s[k];
    }
    assert s[e..] == s[i..][|seg|..] == rest;
    assert e < |s| ==> s[e] == s[e..][0];
    SegmentEndAt(s, i, e);
  }

  lemma {:induction false} SplitSlashed(s: Text, i: nat, seg: Text, more: seq<Text>)
    requires i <= |s| && NoSlash(seg) && NoSlashes(more) && s[i..] == seg + Slashed(more)
    ensures Split(s, i) == [seg] + more
    decreases |more|
  {
    var e := SplitFirst(s, i, seg, more);
    if more == [] {
      assert [seg] + more == [seg];
    } else {
      SplitSlashed(s, e, more[0], more[1..]);
      assert more == [more[0]] + more[1..];
    }
  }

  lemma SplitFirst(s: Text, i: nat, seg: Text, more: seq<Text>) returns (j: nat)
    requires i <= |s| && NoSlash(seg) && s[i..] == seg + Slashed(more)
    ensures more == [] ==> Split(s, i) == [seg]
    ensures more != [] ==> j <= |s| && s[j..] == more[0] + Slashed(more[1..]) && Split(s, i) == [seg] + Split(s, j)
  {
    SegmentBefore(s, i, seg, Slashed(more));
    j := SplitAt(s, i, i + |seg|, seg, more);
  }

  lemma SplitAt(s: Text, i: nat, e: nat, seg: Text, more: seq<Text>) returns (j: nat)
    requires i <= |s| && e == SegmentEnd(s, i) && s[i..e] == seg && s[e..] == Slashed(more)
    ensures more == [] ==> Split(s, i) == [seg]
    ensures more != [] ==> j <= |s| && s[j..] == more[0] + Slashed(more[1..]) && Split(s, i) == [seg] + Split(s, j)
  {
    j := e + 1;
    if more == [] {
      assert |s[e..]| == 0;
      assert s[i..] == s[i..e];
    } else {
      SlashedStart(s, e, more);
    }
  }

  lemma SlashedStart(s: Text, e: nat, stack: seq<Text>)
    requires e <= |s| && stack != [] && s[e..] == Slashed(stack)
    ensures e < |s| && s[e] == SLASH && s[e + 1..] == stack[0] + Slashed(stack[1..])
  {
    var t := stack[0] + Slashed(stack[1..]);
    assert Slashed(stack) == [SLASH] + t;
    assert s[e..][0] == s[e];
    assert s[e + 1..] == s[e..][1..] == t;
  }

  lemma {:induction false} ResolveCleanSegments(segs: seq<Text>, stack: seq<Text>)
    requires Clean(segs)
    ensures Resolve(segs, stack) == Stack(stack + segs)
    decreases |segs|
  {
    if segs == [] {
      assert stack + segs == stack;
    } else {
      ResolveCleanSegments(segs[1..], stack + [segs[0]]);
      assert stack + [segs[0]] + segs[1..] == stack + segs;
    }
  }

  lemma CanonicalStack(stack: seq<Text>)
    requires Clean(stack)
    ensures Canonical(stack) != [] && Canonical(stack)[0] == SLASH && StackOf(Canonical(stack)) == Stack(stack)
  {
    var s := Canonical(stack);
    if stack == [] {
      assert s[1..] == [];
      SegmentEndAt(s, 1, 1);
      ResolveStep(s, 1, []);
    } else {
      assert s[1..] == stack[0] + Slashed(stack[1..]);
      SplitSlashed(s, 1, stack[0], stack[1..]);
      assert stack == [stack[0]] + stack[1..];
      ResolveCleanSegments(stack, []);
      assert [] + stack == stack;
    }
  }

  /** The result's own segments are the stack: none is empty, `.` or `..`, and no slash ends it. */
  lemma NormalizedSegments(s: Text)
    requires s != [] && s[0] == SLASH && StackOf(s).Stack?
    ensures Normalize(s).Normalized? && Normalize(s).path != []
    ensures Normalize(s).path == [SLASH] || (Split(Normalize(s).path, 1) == StackOf(s).segments && Clean(Split(Normalize(s).path, 1)))
  {
    NormalizeAbsolute(s);
    var stack := StackOf(s).segments;
    if stack != [] {
      var path := Canonical(stack);
      assert path[1..] == stack[0] + Slashed(stack[1..]);
      SplitSlashed(path, 1, stack[0], stack[1..]);
      assert stack == [stack[0]] + stack[1..];
    }
  }

  /** Normalising the result again changes nothing. */
  lemma NormalizeIdempotent(s: Text)
    requires s != [] && s[0] == SLASH && StackOf(s).Stack?
    ensures Normalize(s).Normalized? && Normalize(Normalize(s).path) == Normalize(s)
  {
    NormalizeAbsolute(s);
    CanonicalStack(StackOf(s).segments);
    NormalizeAbsolute(Normalize(s).path);
  }

  /** Two absolute paths normalise alike exactly when they have the same stack. */
  lemma SamePlace(s: Text, t: Text)
    requires s != [] && s[0] == SLASH && StackOf(s).Stack? && t != [] && t[0] == SLASH && StackOf(t).Stack?
    ensures Normalize(s) == Normalize(t) <==> StackOf(s) == StackOf(t)
  {
    NormalizeAbsolute(s);
    NormalizeAbsolute(t);
    CanonicalStack(StackOf(s).segments);
    CanonicalStack(StackOf(t).segments);
  }

  // ----- every path, from its own segments

  /** The entries of a path: for the loop the root is an entry like any other, an empty one. */
  function Entries(s: Text): Resolved {
    if s != [] && s[0] == SLASH then Resolve(Split(s, 1), [[]]) else Resolve(Split(s, 0), [])
  }

  /** The entries with slashes between them. */
  function Joint(entries: seq<Text>): Text
    requires entries != []
  {
    entries[0] + Slashed(entries[1..])
  }

  /** The same; the root alone is a slash. */
  function Unsplit(entries: seq<Text>): Text
    requires entries != []
  {
    if entries == [[]] then [SLASH] else Joint(entries)
  }

  /** The loop's result for the entries `f`. */
  predicate EndsWith(r: Scan, f: seq<Text>) {
    r.End? && if r.last == [] then r.finished == f else NoSlash(r.last) && r.finished + [r.last] == f
  }

  lemma {:induction false} ScanEntries(s: Text, i: nat, done: seq<Text>)
    requires i <= |s| && (i < |s| ==> s[i] != SLASH)
    ensures var r := Resolve(Split(s, i), done);
            if r.Stack? then EndsWith(ScanFrom(s, i, done), r.segments) else ScanFrom(s, i, done) == Above
    decreases |s| - i
  {
    ResolveStep(s, i, done);
    SegmentText(s, i);
    if !(IsDotDot(s, i) && done == []) {
      var e := SegmentEnd(s, i);
      if e == |s| {
        LastEntry(s, i, done);
      } else {
        assert Finished(s, i, done) == Down(s, i, done);
        ScanEntries(s, NextSegment(s, e), Down(s, i, done));
      }
    }
  }

  lemma LastEntry(s: Text, i: nat, done: seq<Text>)
    requires i <= |s| && (i < |s| ==> s[i] != SLASH) && SegmentEnd(s, i) == |s| && !(IsDotDot(s, i) && done == [])
    ensures EndsWith(ScanFrom(s, i, done), Down(s, i, done))
  {
    SegmentText(s, i);
    assert s[i..] == s[i..SegmentEnd(s, i)];
  }

  lemma JointPush(f: seq<Text>, last: Text)
    requires f != []
    ensures Joint(f + [last]) == Joint(f) + [SLASH] + last
  {
    var all := f + [last];
    assert all[0] == f[0] && all[1..] == f[1..] + [last];
    SlashedPush(f[1..], last);
    Joined(f[0], Slashed(f[1..]), [SLASH], last);
  }

  lemma {:induction false} FlatJoint(f: seq<Text>)
    requires f != []
    ensures Flat(f) == Joint(f) + [SLASH]
    decreases |f|
  {
    var init, last := f[..|f| - 1], f[|f| - 1];
    assert f == init + [last];
    if init == [] {
      FlatOne(last);
    } else {
      FlatJoint(init);
      FlatPush(init, last);
      JointPush(init, last);
    }
  }

  lemma FlatOne(seg: Text)
    ensures Flat([seg]) == Joint([seg]) + [SLASH]
  {
    var f := [seg];
    assert f[1..] == [] && f[..0] == [];
    assert Flat(f) == [] + seg + [SLASH];
  }

  lemma {:induction false} SlashedLength(f: seq<Text>)
    ensures |f| <= |Slashed(f)| && (f == [] <==> Slashed(f) == [])
    decreases |f|
  {
    if f != [] {
      SlashedLength(f[1..]);
    }
  }

  lemma TrimmedFlat(f: seq<Text>)
    ensures Trimmed(Flat(f)) == if f == [] then Underflow else Normalized(Unsplit(f))
  {
    if f != [] {
      FlatJoint(f);
      JointEmpty(f);
      var t := Flat(f);
      assert t[..|t| - 1] == Joint(f);
    }
  }

  lemma JointEmpty(f: seq<Text>)
    requires f != []
    ensures Joint(f) == [] <==> f == [[]]
  {
    SlashedLength(f[1..]);
    assert f == [f[0]] + f[1..];
  }

  lemma TrimmedLast(finished: seq<Text>, last: Text)
    requires last != [] && NoSlash(last)
    ensures Trimmed(Flat(finished) + last) == Normalized(Unsplit(finished + [last]))
  {
    FlatLast(finished, last);
    var t := Flat(finished) + last;
    assert t[|t| - 1] == last[|last| - 1];
    assert (finished + [last])[|finished|] == last;
  }

  lemma FlatLast(finished: seq<Text>, last: Text)
    ensures Flat(finished) + last == Joint(finished + [last])
  {
    if finished == [] {
      var f := finished + [last];
      assert f == [last] && f[1..] == [];
      assert [] + last == last + [];
    } else {
      FlatJoint(finished);
      JointPush(finished, last);
    }
  }

  /** What becomes of every path, absolute or relative, said from its segments: it is rejected exactly
      when some `..` finds no entry, the code reads in front of its buffer exactly when no entry is
      left, and otherwise the entries are written out. */
  lemma NormalizeOutcome(s: Text)
    ensures Normalize(s).Rejected? <==> Entries(s).Climbs?
    ensures Normalize(s).Underflow? <==> Entries(s) == Stack([])
    ensures Normalize(s).Normalized? ==> Entries(s).Stack? && Entries(s).segments != [] && Normalize(s).path == Unsplit(Entries(s).segments)
  {
    if s != [] && s[0] == SLASH {
      FromRoot(s);
      ResolveSlashes(s, 1, [[]]);
      assert Rooted([]) == [[]];
      ScanEntries(s, NextSegment(s, 0), [[]]);
    } else {
      ScanEntries(s, 0, []);
    }
    var r := ScanFrom(s, 0, []);
    if r.End? {
      if r.last == [] {
        assert Flat(r.finished) + [] == Flat(r.finished);
        TrimmedFlat(r.finished);
      } else {
        TrimmedLast(r.finished, r.last);
      }
    }
  }

  /** A path that climbs above the root: `/..` leaves nothing and the source then looks in front of
      its buffer, and `/../a` comes out relative. */
  lemma ClimbingPaths()
    ensures Normalize([SLASH, DOT, DOT]) == Underflow
    ensures Normalize([SLASH, DOT, DOT, SLASH, 97]) == Normalized([97])
    ensures Normalize([DOT, DOT]) == Rejected
  {
    UpFromRoot([SLASH, DOT, DOT], 3);
    var t := [SLASH, DOT, DOT, SLASH, 97];
    UpFromRoot(t, 4);
    SegmentEndAt(t, 4, 5);
    assert t[4..] == [97];
    SegmentEndAt([DOT, DOT], 0, 2);
  }

  lemma UpFromRoot(s: Text, j: nat)
    requires j <= |s| && |s| >= 3 && s[..3] == [SLASH, DOT, DOT] && (|s| == 3 || s[3] == SLASH) && j == NextSegment(s, 3)
    ensures ScanFrom(s, 0, []) == if |s| == 3 then End([], []) else ScanFrom(s, j, [])
  {
    assert s[0] == SLASH && s[1] == DOT && s[2] == DOT;
    FromRoot(s);
    SegmentEndAt(s, 1, 3);
    assert Rooted([])[..0] == [];
  }
}
