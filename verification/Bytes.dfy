/** Bytes, words and strings as the C code sees them. */
module Bytes {
  type byte = x: int | 0 <= x < 256

  /** The bytes of a C string, without the terminator. */
  type Text = seq<byte>

  /** Conversion of an integer to `rt_int32_t`. */
  function Int32(x: int): (r: int)
    ensures -0x8000_0000 <= r < 0x8000_0000
    ensures (r - x) % 0x1_0000_0000 == 0
  {
    (x + 0x8000_0000) % 0x1_0000_0000 - 0x8000_0000
  }

  function Min(a: int, b: int): (m: int)
    ensures m <= a && m <= b && (m == a || m == b)
  {
    if a < b then a else b
  }

  /** The byte at `i` of a C string. */
  function At(s: Text, i: nat): byte {
    if i < |s| then s[i] else 0
  }

  predicate NulFree(t: Text) {
    forall i :: 0 <= i < |t| ==> t[i] != 0
  }

  predicate IsDigit(b: byte) {
    48 <= b <= 57
  }

  /** Reads decimal digits on into `n`. */
  function ReadDigits(s: Text, i: nat, n: nat): (r: (nat, nat))
    requires i <= |s|
    ensures i <= r.1 <= |s|
    decreases |s| - i
  {
    if IsDigit(At(s, i)) then ReadDigits(s, i + 1, 10 * n + (s[i] - 48)) else (n, i)
  }

  method ScanDigits(s: Text, start: nat, n0: nat) returns (n: nat, i: nat)
    requires start <= |s|
    ensures (n, i) == ReadDigits(s, start, n0)
  {
    n, i := n0, start;
    while IsDigit(At(s, i))
      invariant start <= i <= |s| && ReadDigits(s, i, n) == ReadDigits(s, start, n0)
      decreases |s| - i
    {
      n, i := 10 * n + (s[i] - 48), i + 1;
    }
  }

  lemma Associate(a: Text, b: Text, c: Text)
    ensures a + b + c == a + (b + c)
  {
  }

  lemma Joined(a: Text, b: Text, c: Text, d: Text)
    ensures a + b + c + d == a + (b + c + d)
  {
  }

  /** From `from` on, `a` holds the C string `s` with its terminator. */
  ghost predicate Holds(a: array<byte>, s: Text, from: nat)
    reads a
  {
    |s| < a.Length && from <= |s| && a[|s|] == 0 && forall k :: from <= k < |s| ==> a[k] == s[k]
  }

  lemma HeldByte(a: array<byte>, s: Text, i: nat)
    requires Holds(a, s, i) && NulFree(s)
    ensures a[i] == At(s, i) && (i == |s| <==> a[i] == 0) && (i < |s| ==> Holds(a, s, i + 1) && a[i + 1] == At(s, i + 1))
  {
  }

  /** `*dst++ = *src++` on the same buffer. */
  method CopyByte(a: array<byte>, ghost s: Text, dst: nat, src: nat)
    requires Holds(a, s, src) && NulFree(s) && dst <= src < |s|
    modifies a
    ensures Holds(a, s, src + 1) && a[..dst + 1] == old(a[..dst]) + s[src..src + 1] && a[dst] == s[src]
    ensures forall k :: 0 <= k < a.Length && k != dst ==> a[k] == old(a[k])
  {
    HeldByte(a, s, src);
    a[dst] := a[src];
  }

  lemma JoinSlices(p: Text, s: Text, i: nat, k: nat, j: nat)
    requires i <= k <= j <= |s|
    ensures p + s[i..k] + s[k..j] == p + s[i..j]
  {
  }

  /** `out` holds the C string `t`. */
  ghost predicate IsString(out: array<byte>, t: Text)
    reads out
  {
    |t| < out.Length && out[..|t| + 1] == t + [0]
  }

  /** Stores the bytes of `t` from `at` on. */
  method Write(out: array<byte>, at: nat, t: Text)
    requires at + |t| <= out.Length
    modifies out
    ensures out[..at + |t|] == old(out[..at]) + t
  {
    var k := 0;
    while k < |t|
      invariant k <= |t|
      invariant out[..at + k] == old(out[..at]) + t[..k]
    {
      out[at + k] := t[k];
      k := k + 1;
    }
  }
}
