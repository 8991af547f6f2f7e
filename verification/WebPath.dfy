/** The web server's path normalisation: `.` and `..` are resolved and slashes are merged, in place. */
module WebPath {
  import opened Bytes
  import Printf
  import PrintfTheorems

  const SLASH: byte := 47
  const DOT: byte := 46

  // ----- what the loop does, segment by segment

  /** The end of the segment at `i`: the next slash or the end of the text. */
  function SegmentEnd(s: Text, i: nat): (e: nat)
    requires i <= |s|
    ensures i <= e <= |s| && (e < |s| ==> s[e] == SLASH) && forall k :: i <= k < e ==> s[k] != SLASH
    decreases |s| - i
  {
    if i == |s| || s[i] == SLASH then i else SegmentEnd(s, i + 1)
  }

  /** The next byte from `e` on that is no slash. */
  function NextSegment(s: Text, e: nat): (j: nat)
    requires e <= |s|
    ensures e <= j <= |s| && (j < |s| ==> s[j] != SLASH) && (e < |s| && s[e] == SLASH ==> e < j)
    decreases |s| - e
  {
    if e == |s| || s[e] != SLASH then e else NextSegment(s, e + 1)
  }

  predicate IsDot(s: Text, i: nat)
    requires i <= |s|
  {
    At(s, i) == DOT && SegmentEnd(s, i) == i + 1
  }

  predicate IsDotDot(s: Text, i: nat)
    requires i <= |s|
  {
    At(s, i) == DOT && At(s, i + 1) == DOT && SegmentEnd(s, i) == i + 2
  }

  /** The loop ends with finished segments, each written with a slash behind it, and a last one
      without; or it is told to go above the first segment. */
  datatype Scan = Above | End(finished: seq<Text>, last: Text)

  /** From the segment at `i` on, with `done` finished. */
  function ScanFrom(s: Text, i: nat, done: seq<Text>): Scan
    requires i <= |s|
    decreases |s| - i
  {
    if IsDotDot(s, i) && done == [] then Above
    else
      var e := SegmentEnd(s, i);
      if e == |s| then LastSegment(s, i, done) else ScanFrom(s, NextSegment(s, e), Finished(s, i, done))
  }

  /** The finished segments once the segment at `i` is passed. */
  function Finished(s: Text, i: nat, done: seq<Text>): seq<Text>
    requires i <= |s| && !(IsDotDot(s, i) && done == [])
  {
    if IsDot(s, i) then done else if IsDotDot(s, i) then done[..|done| - 1] else done + [s[i..SegmentEnd(s, i)]]
  }

  function LastSegment(s: Text, i: nat, done: seq<Text>): Scan
    requires i <= |s| && !(IsDotDot(s, i) && done == [])
  {
    if IsDot(s, i) || IsDotDot(s, i) then End(Finished(s, i, done), []) else End(done, s[i..])
  }

  /** The finished segments as text. */
  function Flat(done: seq<Text>): Text {
    if done == [] then [] else Flat(done[..|done| - 1]) + done[|done| - 1] + [SLASH]
  }

  /** `Underflow`: nothing is left, and the source looks at the byte in front of its buffer. */
  datatype Outcome = Rejected | Underflow | Normalized(path: Text)

  function Trimmed(t: Text): Outcome {
    if t == [] then Underflow
    else if |t| > 1 && t[|t| - 1] == SLASH then Normalized(t[..|t| - 1])
    else Normalized(t)
  }

  function Normalize(s: Text): Outcome {
    match ScanFrom(s, 0, [])
    case Above => Rejected
    case End(done, last) => Trimmed(Flat(done) + last)
  }

  // ----- in place

  predicate NoSlash(seg: Text) {
    forall k :: 0 <= k < |seg| ==> seg[k] != SLASH
  }

  predicate NoSlashes(done: seq<Text>) {
    forall i :: 0 <= i < |done| ==> NoSlash(done[i])
  }

  /** The buffer still holds a C string of length `n`. */
  ghost predicate Unbroken(a: array<byte>, n: nat)
    reads a
  {
    n < a.Length && a[n] == 0 && forall k :: 0 <= k < n ==> a[k] != 0
  }

  lemma FlatEnds(done: seq<Text>)
    ensures done != [] ==> Flat(done) != [] && Flat(done)[|Flat(done)| - 1] == SLASH
  {
  }

  lemma FlatPush(done: seq<Text>, seg: Text)
    ensures Flat(done + [seg]) == Flat(done) + seg + [SLASH]
  {
    assert (done + [seg])[..|done|] == done;
  }

  /** `up_one`: back over the last finished segment; false at the start of the buffer. */
  method UpOne(a: array<byte>, dst: nat, ghost done: seq<Text>) returns (ok: bool, d: nat)
    requires dst <= a.Length && a[..dst] == Flat(done) && NoSlashes(done)
    ensures ok <==> done != []
    ensures ok ==> d <= dst && a[..d] == Flat(done[..|done| - 1])
  {
    FlatEnds(done);
    if dst == 0 {
      return false, 0;
    }
    ghost var rest, seg := done[..|done| - 1], done[|done| - 1];
    ghost var base := |Flat(rest)|;
    assert a[..dst] == Flat(rest) + seg + [SLASH];
    FlatEnds(rest);
    d := dst - 1;
    assert base > 0 ==> a[base - 1] == a[..dst][base - 1] == SLASH;
    assert forall k :: base <= k < dst - 1 ==> a[k] == a[..dst][k] == seg[k - base];
    while 0 < d && a[d - 1] != SLASH
      invariant base <= d < dst
    {
      d := d - 1;
    }
    assert a[..d] == a[..dst][..d];
    ok := true;
  }

  /** Copies a segment; `src` stops at its end. */
  method CopySegment(a: array<byte>, ghost s: Text, src: nat, dst: nat) returns (i: nat, d: nat)
    requires Holds(a, s, src) && NulFree(s) && dst <= src && Unbroken(a, |s|)
    modifies a
    ensures i == SegmentEnd(s, src) && d - dst == i - src && Holds(a, s, i) && Unbroken(a, |s|)
    ensures a[..d] == old(a[..dst]) + s[src..i]
    ensures forall k :: |s| <= k < a.Length ==> a[k] == old(a[k])
  {
    i, d := src, dst;
    HeldByte(a, s, i);
    while a[i] != 0 && a[i] != SLASH
      invariant src <= i <= |s| && d - dst == i - src && Holds(a, s, i) && Unbroken(a, |s|)
      invariant SegmentEnd(s, i) == SegmentEnd(s, src)
      invariant a[..d] == old(a[..dst]) + s[src..i]
      invariant forall k :: |s| <= k < a.Length ==> a[k] == old(a[k])
      decreases |s| - i
    {
      HeldByte(a, s, i);
      CopyByte(a, s, d, i);
      JoinSlices(old(a[..dst]), s, src, i, i + 1);
      i, d := i + 1, d + 1;
      HeldByte(a, s, i);
    }
    HeldByte(a, s, i);
  }

  /** Stores a slash behind the text; the bytes still to be read are not reached. */
  method PutSlash(a: array<byte>, ghost s: Text, dst: nat, src: nat)
    requires Holds(a, s, src) && dst <= src < |s| && Unbroken(a, |s|)
    modifies a
    ensures Holds(a, s, src + 1) && a[..dst + 1] == old(a[..dst]) + [SLASH] && Unbroken(a, |s|)
    ensures forall k :: |s| <= k < a.Length ==> a[k] == old(a[k])
  {
    a[dst] := SLASH;
  }

  method SkipSlashes(a: array<byte>, ghost s: Text, src: nat) returns (i: nat)
    requires Holds(a, s, src) && NulFree(s)
    ensures i == NextSegment(s, src) && Holds(a, s, i)
  {
    i := src;
    HeldByte(a, s, i);
    while a[i] == SLASH
      invariant src <= i <= |s| && Holds(a, s, i) && NextSegment(s, i) == NextSegment(s, src)
      decreases |s| - i
    {
      HeldByte(a, s, i);
      i := i + 1;
      HeldByte(a, s, i);
    }
    HeldByte(a, s, i);
  }

  /** The tests on the first bytes of the segment at `src`. */
  lemma DotBytes(s: Text, i: nat)
    requires i <= |s| && NulFree(s)
    ensures IsDot(s, i) <==> At(s, i) == DOT && (At(s, i + 1) == 0 || At(s, i + 1) == SLASH)
    ensures IsDotDot(s, i) <==> At(s, i) == DOT && At(s, i + 1) == DOT && (At(s, i + 2) == 0 || At(s, i + 2) == SLASH)
  {
    if At(s, i) == DOT {
      assert SegmentEnd(s, i) == SegmentEnd(s, i + 1);
    }
  }

  method IsDotAt(a: array<byte>, ghost s: Text, src: nat) returns (b: bool)
    requires Holds(a, s, src) && NulFree(s)
    ensures b <==> IsDot(s, src) || IsDotDot(s, src)
  {
    DotBytes(s, src);
    HeldByte(a, s, src);
    b := false;
    if a[src] == DOT {
      HeldByte(a, s, src + 1);
      if a[src + 1] == 0 || a[src + 1] == SLASH {
        b := true;
      } else if a[src + 1] == DOT {
        b := a[src + 2] == 0 || a[src + 2] == SLASH;
      }
    }
  }

  datatype Round = Go | Stop | Fail

  /** A `.` or `..` segment. */
  method DotRound(a: array<byte>, ghost s: Text, src0: nat, dst0: nat, ghost done: seq<Text>)
    returns (r: Round, src: nat, dst: nat)
    requires Holds(a, s, src0) && NulFree(s) && dst0 <= src0 && a[..dst0] == Flat(done) && NoSlashes(done)
    requires IsDot(s, src0) || IsDotDot(s, src0)
    ensures r.Fail? <==> IsDotDot(s, src0) && done == []
    ensures r.Stop? ==> IsDot(s, src0) && SegmentEnd(s, src0) == |s|
    ensures !r.Fail? ==> dst <= src0 && a[..dst] == Flat(Finished(s, src0, done))
    ensures r.Go? ==> src == NextSegment(s, SegmentEnd(s, src0)) && Holds(a, s, src)
    ensures r.Go? ==> IsDotDot(s, src0) || SegmentEnd(s, src0) < |s|
  {
    src, dst := src0, dst0;
    DotBytes(s, src);
    HeldByte(a, s, src);
    HeldByte(a, s, src + 1);
    if a[src + 1] == 0 {
      r := Stop;
    } else if a[src + 1] == SLASH {
      src := SkipSlashes(a, s, src + 2);
      r := Go;
    } else {
      if a[src + 2] == 0 {
        src := src + 2;
      } else {
        HeldByte(a, s, src + 2);
        src := SkipSlashes(a, s, src + 3);
      }
      var ok;
      ok, dst := UpOne(a, dst, done);
      r := if ok then Go else Fail;
    }
  }

  /** Any other segment: it is copied, with the slash behind it. */
  method PlainRound(a: array<byte>, ghost s: Text, src0: nat, dst0: nat, ghost done: seq<Text>)
    returns (r: Round, src: nat, dst: nat)
    requires Holds(a, s, src0) && NulFree(s) && dst0 <= src0 && a[..dst0] == Flat(done)
    requires !IsDot(s, src0) && !IsDotDot(s, src0) && Unbroken(a, |s|)
    modifies a
    ensures Unbroken(a, |s|)
    ensures forall k :: |s| <= k < a.Length ==> a[k] == old(a[k])
    ensures !r.Fail? && dst <= src <= |s| && (r.Stop? <==> SegmentEnd(s, src0) == |s|)
    ensures r.Stop? ==> a[..dst] == Flat(done) + s[src0..]
    ensures r.Go? ==> src == NextSegment(s, SegmentEnd(s, src0)) && Holds(a, s, src) && a[..dst] == Flat(Finished(s, src0, done))
  {
    src, dst := CopySegment(a, s, src0, dst0);
    HeldByte(a, s, src);
    ghost var seg := s[src0..src];
    if a[src] == SLASH {
      PutSlash(a, s, dst, src);
      dst := dst + 1;
      FlatPush(done, seg);
      src := SkipSlashes(a, s, src + 1);
      r := Go;
    } else {
      r := Stop;
    }
  }

  lemma FinishedNoSlashes(s: Text, i: nat, done: seq<Text>)
    requires i <= |s| && !(IsDotDot(s, i) && done == []) && NoSlashes(done)
    ensures NoSlashes(Finished(s, i, done))
  {
  }

  /** One round of the loop; `last` is the segment without a slash behind it. */
  method NormalizeRound(a: array<byte>, ghost s: Text, src0: nat, dst0: nat, ghost done0: seq<Text>)
    returns (r: Round, src: nat, dst: nat, ghost done: seq<Text>, ghost last: Text)
    requires Holds(a, s, src0) && NulFree(s) && dst0 <= src0 && a[..dst0] == Flat(done0) && NoSlashes(done0) && Unbroken(a, |s|)
    modifies a
    ensures Unbroken(a, |s|)
    ensures forall k :: |s| <= k < a.Length ==> a[k] == old(a[k])
    ensures r.Fail? ==> ScanFrom(s, src0, done0) == Above
    ensures r.Stop? ==> dst <= |s| && a[..dst] == Flat(done) + last && ScanFrom(s, src0, done0) == End(done, last)
    ensures r.Go? ==> dst <= src && Holds(a, s, src) && a[..dst] == Flat(done) && NoSlashes(done)
    ensures r.Go? ==> src0 < src && ScanFrom(s, src0, done0) == ScanFrom(s, src, done)
  {
    src, dst, done, last := src0, dst0, done0, [];
    var dots := IsDotAt(a, s, src);
    if dots {
      r, src, dst := DotRound(a, s, src, dst, done);
      if !r.Fail? {
        FinishedNoSlashes(s, src0, done);
        done := Finished(s, src0, done);
        assert Flat(done) + [] == Flat(done);
      }
    } else {
      r, src, dst := PlainRound(a, s, src, dst, done);
      FinishedNoSlashes(s, src0, done);
      if r.Go? {
        done := Finished(s, src0, done);
      } else {
        last := s[src0..];
      }
    }
  }

  /** What the function returns: no path, its buffer, or its buffer after a look in front of it. */
  datatype Returned = Nothing | Buffer | Outside

  lemma WholeString(a: array<byte>, s: Text)
    requires Holds(a, s, 0) && NulFree(s)
    ensures Unbroken(a, |s|)
  {
  }

  /** `_str_normalize_path`.  When it rejects the path, the buffer keeps a string of the old length. */
  method NormalizeInPlace(a: array<byte>, ghost s: Text) returns (r: Returned)
    requires Holds(a, s, 0) && NulFree(s)
    modifies a
    ensures r.Nothing? <==> Normalize(s).Rejected?
    ensures r.Outside? <==> Normalize(s).Underflow?
    ensures r.Nothing? ==> Unbroken(a, |s|)
    ensures r.Outside? ==> a[0] == 0
    ensures r.Buffer? ==> var t := Normalize(s).path; |t| <= |s| && a[..|t|] == t && a[|t|] == 0
    ensures forall k :: |s| < k < a.Length ==> a[k] == old(a[k])
  {
    var src: nat, dst: nat := 0, 0;
    WholeString(a, s);
    ghost var done: seq<Text>, last: Text := [], [];
    var round := Go;
    while round.Go?
      invariant forall k :: |s| <= k < a.Length ==> a[k] == old(a[k])
      invariant !round.Fail? && dst <= |s| && Unbroken(a, |s|)
      invariant round.Go? ==> dst <= src && Holds(a, s, src) && a[..dst] == Flat(done) && NoSlashes(done)
      invariant round.Go? ==> ScanFrom(s, 0, []) == ScanFrom(s, src, done)
      invariant round.Stop? ==> a[..dst] == Flat(done) + last && ScanFrom(s, 0, []) == End(done, last)
      decreases round.Go?, |s| - src
    {
      round, src, dst, done, last := NormalizeRound(a, s, src, dst, done);
      if round.Fail? {
        return Nothing;
      }
    }
    r := Trim(a, dst);
  }

  /** Ends the text at `dst`, and drops a slash at its end. */
  method Trim(a: array<byte>, dst: nat) returns (r: Returned)
    requires dst < a.Length
    modifies a
    ensures !r.Nothing? && (r.Outside? <==> Trimmed(old(a[..dst])).Underflow?)
    ensures r.Outside? ==> a[0] == 0
    ensures r.Buffer? ==> var t := Trimmed(old(a[..dst])).path; |t| <= dst && a[..|t|] == t && a[|t|] == 0
    ensures forall k :: dst < k < a.Length ==> a[k] == old(a[k])
  {
    a[dst] := 0;
    if dst == 0 {
      return Outside;
    }
    if dst - 1 != 0 && a[dst - 1] == SLASH {
      a[dst - 1] := 0;
    }
    r := Buffer;
  }

  /** `relative_path_2_absolute`: prefix, slash and path in the buffer, then normalised there. */
  method RelativeToAbsolute(from: Text, to: array<byte>, prefix: Text) returns (r: int)
    requires NulFree(from) && NulFree(prefix)
    modifies to
    ensures r == if |from| + |prefix| + 2 > to.Length then -1 else 0
    ensures r == -1 ==> to[..] == old(to[..])
    ensures r == 0 && Normalize(prefix + [SLASH] + from).Rejected? ==> Unbroken(to, |prefix| + 1 + |from|)
    ensures r == 0 && Normalize(prefix + [SLASH] + from).Underflow? ==> to[0] == 0
    ensures r == 0 && Normalize(prefix + [SLASH] + from).Normalized? ==>
              var t := Normalize(prefix + [SLASH] + from).path; |t| < to.Length && to[..|t|] == t && to[|t|] == 0
  {
    if |from| + |prefix| + 1 + 1 > to.Length {
      return -1;
    }
    Write(to, 0, seq(to.Length, _ => 0));
    JoinPath(from, to, prefix);
    var path := NormalizeInPlace(to, prefix + [SLASH] + from);
    r := 0;
  }

  /** `rt_snprintf(path_to, to_length, "%s/%s", absolute_prefix, path_from)`, when it fits. */
  method JoinPath(from: Text, to: array<byte>, prefix: Text)
    requires |from| + |prefix| + 2 <= to.Length
    modifies to
    ensures Holds(to, prefix + [SLASH] + from, 0)
  {
    ghost var s := prefix + [SLASH] + from;
    PrintfTheorems.FormatPath(1, prefix, 1, from);
    var len := Printf.Vsnprintf(to, to.Length, PrintfTheorems.PATH_FORMAT, [Printf.Pointer(1, prefix), Printf.Pointer(1, from)]);
    StringHolds(to, s);
  }

  lemma StringHolds(a: array<byte>, s: Text)
    requires |s| < a.Length && a[..|s|] == s[..|s|] && a[|s|] == 0
    ensures Holds(a, s, 0)
  {
    forall k | 0 <= k < |s|
      ensures a[k] == s[k]
    {
      assert a[..|s|][k] == s[..|s|][k];
    }
  }
}
