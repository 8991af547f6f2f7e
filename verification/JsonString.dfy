/** `parse_string` with its two passes: the first counts, the second decodes into a buffer of that
    size.  The count suffices wherever four bytes follow every `\u` before the literal ends. */
module JsonString {
  import opened Bytes
  import opened Json
  import opened JsonRoundTrip
  import opened JsonParse

  /** The first pass from `i` on: how many characters it counts and where it stops, at the closing quote
      or the end.  A backslash takes the next byte with it; one at the very end is outside the model. */
  function CountChars(s: Text, i: nat): (r: Parsed<nat>)
    requires i <= |s|
    ensures r.Done? ==> i <= r.end <= |s|
    decreases |s| - i
  {
    if At(s, i) == QUOTE || At(s, i) == 0 then Done(0, i)
    else if s[i] == BACKSLASH && i + 1 == |s| then Fail
    else OneMore(CountChars(s, if s[i] == BACKSLASH then i + 2 else i + 1))
  }

  function OneMore(r: Parsed<nat>): Parsed<nat> {
    match r
    case Fail => Fail
    case Done(n, e) => Done(n + 1, e)
  }

  /** Neither quote, backslash nor NUL. */
  predicate Plain(b: byte) {
    b != QUOTE && b != BACKSLASH && b != 0
  }

  predicate FourPlain(s: Text, i: nat) {
    i + 4 <= |s| && Plain(s[i]) && Plain(s[i + 1]) && Plain(s[i + 2]) && Plain(s[i + 3])
  }

  /** The escape whose character after the backslash is at `i` is complete. */
  predicate EscapeOk(s: Text, i: nat) {
    && i < |s| && s[i] != 0
    && (s[i] == 117 ==> FourPlain(s, i + 1))
    && (s[i] == 117 && At(s, i + 5) == BACKSLASH && At(s, i + 6) == 117 ==> FourPlain(s, i + 7))
  }

  /** All escapes from `i` up to the closing quote are complete. */
  predicate WellFormed(s: Text, i: nat)
    requires i <= |s|
    decreases |s| - i
  {
    if At(s, i) == QUOTE || At(s, i) == 0 then true
    else if s[i] != BACKSLASH then WellFormed(s, i + 1)
    else EscapeOk(s, i + 1) && ParseEscape(s, i + 1).Done? && WellFormed(s, ParseEscape(s, i + 1).end)
  }

  function Plus(n: nat, r: Parsed<nat>): Parsed<nat> {
    match r
    case Fail => Fail
    case Done(m, e) => Done(n + m, e)
  }

  lemma CountPlain(s: Text, i: nat)
    requires i < |s| && Plain(s[i])
    ensures CountChars(s, i) == Plus(1, CountChars(s, i + 1))
  {
  }

  /** The first pass counts an escape of `k` bytes for at least as many characters as it decodes to. */
  function EscapeCount(k: nat): nat {
    if k == 2 then 1 else if k == 6 then 5 else 10
  }

  lemma CountEscape(s: Text, i: nat)
    requires i < |s| && s[i] == BACKSLASH && EscapeOk(s, i + 1)
    ensures var e := ParseEscape(s, i + 1);
            e.Done? && |e.value| <= EscapeCount(e.end - i) && CountChars(s, i) == Plus(EscapeCount(e.end - i), CountChars(s, e.end))
  {
    EscapeSize(s, i + 1);
    var e := ParseEscape(s, i + 1);
    if e.end == i + 6 {
      CountUnicode(s, i);
    } else if e.end == i + 12 {
      CountUnicode(s, i);
      CountUnicode(s, i + 6);
    }
  }

  /** An escape is two, six or twelve bytes long. */
  lemma EscapeSize(s: Text, i: nat)
    requires EscapeOk(s, i)
    ensures var e := ParseEscape(s, i);
            && e.Done? && (e.end == i + 1 || e.end == i + 5 || e.end == i + 11) && |e.value| <= EscapeCount(e.end - i + 1)
            && (e.end == i + 1 <==> s[i] != 117) && (e.end == i + 11 ==> s[i + 5] == BACKSLASH && s[i + 6] == 117)
  {
  }

  lemma CountUnicode(s: Text, i: nat)
    requires i + 6 <= |s| && s[i] == BACKSLASH && s[i + 1] == 117 && FourPlain(s, i + 2)
    ensures CountChars(s, i) == Plus(5, CountChars(s, i + 6))
  {
    CountPlain(s, i + 2);
    CountPlain(s, i + 3);
    CountPlain(s, i + 4);
    CountPlain(s, i + 5);
  }

  /** On a literal whose escapes are complete, both passes stop at the same place and the decoded text
      fits into what was counted. */
  lemma {:induction false} CountSuffices(s: Text, i: nat)
    requires i <= |s| && WellFormed(s, i)
    ensures var c, p := CountChars(s, i), ParseChars(s, i);
            && c.Done? && p.Done? && |p.value| <= c.value
            && p.end == if At(s, c.end) == QUOTE then c.end + 1 else c.end
    decreases |s| - i
  {
    if At(s, i) != QUOTE && At(s, i) != 0 {
      if s[i] != BACKSLASH {
        CountSuffices(s, i + 1);
      } else {
        CountEscape(s, i);
        CountSuffices(s, ParseEscape(s, i + 1).end);
      }
    }
  }

  /** Printed strings have complete escapes. */
  lemma {:induction false} PrintedWellFormed(t: Text, s: Text, i: nat)
    requires NulFree(t) && HasAt(s, i, Escape(t) + [QUOTE])
    ensures i <= |s| && WellFormed(s, i)
    decreases |t|
  {
    if t == [] {
      HasByte(s, i, [QUOTE], 0);
    } else {
      var j := EscapeParts(t, s, i);
      PrintedWellFormed(t[1..], s, j);
      PrintedEscape(t[0], s, i);
    }
  }

  lemma PrintedEscape(b: byte, s: Text, i: nat)
    requires b != 0 && HasAt(s, i, EscapeByte(b)) && i + |EscapeByte(b)| <= |s| && WellFormed(s, i + |EscapeByte(b)|)
    requires i + |EscapeByte(b)| < |s|
    ensures WellFormed(s, i)
  {
    var e := EscapeByte(b);
    HasByte(s, i, e, 0);
    if e[0] == BACKSLASH {
      ParsesEscape(b, s, i);
      HasByte(s, i, e, 1);
      if |e| == 6 {
        HasByte(s, i, e, 2);
        HasByte(s, i, e, 3);
        HasByte(s, i, e, 4);
        HasByte(s, i, e, 5);
        HexDigitValue(b / 16);
        HexDigitValue(b % 16);
      }
    }
  }

  // ----- the two passes

  method CountPass(s: Text, start: nat) returns (len: nat)
    requires start <= |s| && CountChars(s, start).Done?
    ensures len == CountChars(s, start).value
  {
    len := 0;
    var ptr := start;
    while At(s, ptr) != QUOTE && At(s, ptr) != 0
      invariant start <= ptr <= |s| && Plus(len, CountChars(s, ptr)) == CountChars(s, start)
      decreases |s| - ptr
    {
      len := len + 1;
      ptr := if s[ptr] == BACKSLASH then ptr + 2 else ptr + 1;
    }
  }

  function FirstByteMark(len: nat): (mark: nat)
    ensures mark <= 0xF0
  {
    if len <= 1 then 0 else if len == 2 then 0xC0 else if len == 3 then 0xE0 else 0xF0
  }

  function LastBits(u: nat): byte {
    0x80 + u % 64
  }

  lemma Utf8Bytes(u: nat)
    requires 0 < u < 0x110000
    ensures u < 0x80 ==> Utf8(u) == [u]
    ensures 0x80 <= u < 0x800 ==> Utf8(u) == [0xC0 + u / 64] + [LastBits(u)]
    ensures 0x800 <= u < 0x10000 ==> Utf8(u) == [0xE0 + u / 64 / 64] + ([LastBits(u / 64)] + [LastBits(u)])
    ensures 0x10000 <= u ==> Utf8(u) == [0xF0 + u / 64 / 64 / 64] + ([LastBits(u / 64 / 64)] + ([LastBits(u / 64)] + [LastBits(u)]))
  {
  }

  /** The bytes of a code point, found from the last one back. */
  method EncodeUtf8(u: nat) returns (t: Text)
    requires 0 < u < 0x110000
    ensures t == Utf8(u)
  {
    Utf8Bytes(u);
    var len := if u < 0x80 then 1 else if u < 0x800 then 2 else if u < 0x10000 then 3 else 4;
    var uc := u;
    t := [];
    if len >= 4 {
      t, uc := [LastBits(uc)], uc / 64;
    }
    if len >= 3 {
      t, uc := [LastBits(uc)] + t, uc / 64;
    }
    if len >= 2 {
      t, uc := [LastBits(uc)] + t, uc / 64;
    }
    t := [uc + FirstByteMark(len)] + t;
  }

  method WriteUtf8(out: array<byte>, n: nat, u: nat) returns (m: nat)
    requires 0 < u < 0x110000 && n + |Utf8(u)| <= out.Length
    modifies out
    ensures m == n + |Utf8(u)| && out[..m] == old(out[..n]) + Utf8(u)
  {
    var t := EncodeUtf8(u);
    Write(out, n, t);
    m := n + |t|;
  }

  /** The `switch` on the character behind a backslash. */
  method DecodeEscape(s: Text, i: nat, out: array<byte>, n: nat) returns (j: nat, m: nat)
    requires EscapeOk(s, i) && ParseEscape(s, i).Done? && n + |ParseEscape(s, i).value| <= out.Length
    modifies out
    ensures j == ParseEscape(s, i).end && m == n + |ParseEscape(s, i).value|
    ensures out[..m] == old(out[..n]) + ParseEscape(s, i).value
  {
    if s[i] == 117 {
      j, m := DecodeUnicode(s, i, out, n);
    } else {
      var b := if s[i] == 98 then 8
               else if s[i] == 102 then 12
               else if s[i] == 110 then 10
               else if s[i] == 114 then 13
               else if s[i] == 116 then 9
               else s[i];
      Write(out, n, [b]);
      j, m := i + 1, n + 1;
    }
  }

  method DecodeUnicode(s: Text, i: nat, out: array<byte>, n: nat) returns (j: nat, m: nat)
    requires EscapeOk(s, i) && s[i] == 117 && ParseEscape(s, i).Done? && n + |ParseEscape(s, i).value| <= out.Length
    modifies out
    ensures j == ParseEscape(s, i).end && m == n + |ParseEscape(s, i).value|
    ensures out[..m] == old(out[..n]) + ParseEscape(s, i).value
  {
    var uc := Hex4(s, i + 1);
    j, m := i + 5, n;
    assert out[..n] + [] == out[..n];
    if 0xDC00 <= uc <= 0xDFFF || uc == 0 {
      return;
    }
    if 0xD800 <= uc <= 0xDBFF {
      if At(s, j) != BACKSLASH || At(s, j + 1) != 117 {
        return;
      }
      var uc2 := Hex4(s, j + 2);
      j := j + 6;
      if uc2 < 0xDC00 || uc2 > 0xDFFF {
        return;
      }
      uc := 0x10000 + (uc - 0xD800) * 1024 + (uc2 - 0xDC00);
    }
    m := WriteUtf8(out, n, uc);
  }

  /** `parse_string` on a literal whose escapes are complete: every write lies inside the buffer that
      the first pass sized, and the buffer holds what `ParseString` says. */
  method DecodeString(s: Text, start: nat) returns (out: array<byte>, n: nat, end: nat)
    requires start < |s| && s[start] == QUOTE && WellFormed(s, start + 1)
    ensures fresh(out) && CountChars(s, start + 1).Done? && out.Length == CountChars(s, start + 1).value + 1
    ensures n < out.Length && out[n] == 0 && ParseString(s, start) == Done(out[..n], end)
  {
    CountSuffices(s, start + 1);
    var len := CountPass(s, start + 1);
    out := new byte[len + 1];
    var ptr;
    ptr, n := DecodeChars(s, start + 1, out);
    Write(out, n, [0]);
    assert out[n] == out[..n + 1][n] == 0 && out[..n] == out[..n + 1][..n];
    end := if At(s, ptr) == QUOTE then ptr + 1 else ptr;
  }

  /** The second pass. */
  method DecodeChars(s: Text, start: nat, out: array<byte>) returns (ptr: nat, n: nat)
    requires start <= |s| && WellFormed(s, start) && ParseChars(s, start).Done? && |ParseChars(s, start).value| < out.Length
    modifies out
    ensures ptr <= |s| && n < out.Length
    ensures ParseChars(s, start) == Done(out[..n], if At(s, ptr) == QUOTE then ptr + 1 else ptr)
  {
    ptr, n := start, 0;
    ghost var all := ParseChars(s, start);
    assert out[..0] + all.value == all.value;
    while At(s, ptr) != QUOTE && At(s, ptr) != 0
      invariant start <= ptr <= |s| && WellFormed(s, ptr) && n <= out.Length
      invariant Prepend(out[..n], ParseChars(s, ptr)) == all
      decreases |s| - ptr
    {
      ptr, n := DecodeOne(s, ptr, out, n);
    }
    assert out[..n] + [] == out[..n];
  }

  /** One character or escape. */
  method DecodeOne(s: Text, i: nat, out: array<byte>, n: nat) returns (j: nat, m: nat)
    requires i < |s| && WellFormed(s, i) && At(s, i) != QUOTE && At(s, i) != 0
    requires ParseChars(s, i).Done? && n + |ParseChars(s, i).value| < out.Length
    modifies out
    ensures i < j <= |s| && WellFormed(s, j) && n <= m <= out.Length
    ensures Prepend(out[..m], ParseChars(s, j)) == Prepend(old(out[..n]), ParseChars(s, i))
  {
    if s[i] != BACKSLASH {
      Write(out, n, [s[i]]);
      j, m := i + 1, n + 1;
      PrependMore(old(out[..n]), [s[i]], ParseChars(s, j));
    } else {
      ghost var e := ParseEscape(s, i + 1);
      j, m := DecodeEscape(s, i + 1, out, n);
      PrependMore(old(out[..n]), e.value, ParseChars(s, j));
    }
  }
}
