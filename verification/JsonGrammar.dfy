/** JSON texts by the grammar of RFC 8259, and what they mean.  The grammar knows nothing about the
    parser; the parser reads every text of the grammar as its meaning. */
module JsonGrammar {
  import opened Bytes
  import opened Collections
  import opened Json
  import opened JsonRoundTrip
  import opened Numerals

  // ----- white space

  ghost predicate IsBlank(b: byte) {
    b == SPACE || b == TAB || b == LF || b == 13
  }

  /** Only white space from `i` up to `j`. */
  ghost predicate Blank(s: Text, i: nat, j: nat) {
    i <= j <= |s| && forall k :: i <= k < j ==> IsBlank(s[k])
  }

  /** `skip` passes the bytes from 1 to 32 and stops in front of the first other byte. */
  lemma {:induction false} SkipStops(s: Text, i: nat)
    requires i <= |s|
    ensures forall k :: i <= k < Skip(s, i) ==> 0 < s[k] <= 32
    ensures Skip(s, i) == |s| || s[Skip(s, i)] == 0 || s[Skip(s, i)] > 32
    decreases |s| - i
  {
    if i < |s| && s[i] != 0 && s[i] <= 32 {
      SkipStops(s, i + 1);
    }
  }

  lemma SkipsBlank(s: Text, i: nat, j: nat)
    requires Blank(s, i, j) && (At(s, j) == 0 || At(s, j) > 32)
    ensures Skips(s, i, j)
  {
    SkipStops(s, i);
  }

  // ----- numbers

  /** A number without a leading zero, or zero itself. */
  ghost predicate IsInt(s: Text, i: nat, j: nat) {
    AllDigits(s, i, j) && i < j && (s[i] == ZERO ==> j == i + 1)
  }

  /** Nothing, or a point and at least one digit. */
  ghost predicate IsFraction(s: Text, i: nat, j: nat) {
    i == j <= |s| || (i + 1 < j && i < |s| && s[i] == DOT && AllDigits(s, i + 1, j))
  }

  /** The value of the digits behind the point. */
  ghost function FractionValue(s: Text, i: nat, j: nat): real
    requires IsFraction(s, i, j)
  {
    if i == j then 0.0 else Positional(s, i + 1, j) as real / Power(j - i - 1) as real
  }

  /** Nothing, or an `e` with an optional sign and at least one digit; `d` is where the digits start. */
  ghost predicate IsExponent(s: Text, i: nat, d: nat, j: nat) {
    || i == d == j <= |s|
    || (&& i < |s| && (s[i] == 101 || s[i] == 69) && d < j && AllDigits(s, d, j)
        && (d == i + 1 || (d == i + 2 && (s[i + 1] == 43 || s[i + 1] == MINUS))))
  }

  ghost function ExponentValue(s: Text, i: nat, d: nat, j: nat): int
    requires IsExponent(s, i, d, j)
  {
    if i == j then 0 else if s[i + 1] == MINUS then 0 - Positional(s, d, j) else Positional(s, d, j)
  }

  ghost function NumberMeaning(negative: bool, whole: nat, fraction: real, exponent: int): real {
    (if negative then -1.0 else 1.0) * (whole as real + fraction) * Pow10(exponent)
  }

  /** The text from `i` up to `e` is a number of value `x`: an integer part up to `p`, a fraction up to
      `q`, an exponent. */
  ghost predicate NumberParts(s: Text, i: nat, p: nat, q: nat, d: nat, e: nat, x: real) {
    var start := if At(s, i) == MINUS then i + 1 else i;
    && IsInt(s, start, p) && IsFraction(s, p, q) && IsExponent(s, q, d, e)
    && x == NumberMeaning(At(s, i) == MINUS, Positional(s, start, p), FractionValue(s, p, q), ExponentValue(s, q, d, e))
  }

  ghost predicate IsNumber(s: Text, i: nat, e: nat, x: real) {
    exists p, q, d :: NumberParts(s, i, p, q, d, e, x)
  }

  lemma Pow10Step(e: int)
    ensures Pow10(e) == 10.0 * Pow10(e - 1)
  {
  }

  lemma {:induction false} Pow10Shift(e: int, k: nat)
    ensures Pow10(e) == Pow10(e - k) * Power(k) as real
  {
    if k > 0 {
      Pow10Shift(e, k - 1);
      Pow10Step(e - k + 1);
      assert Power(k) as real == 10.0 * Power(k - 1) as real;
    }
  }

  lemma WholeReads(s: Text, i: nat, p: nat)
    requires IsInt(s, i, p) && !IsDigit(At(s, p))
    ensures Whole(s, i) == (Positional(s, i, p), p)
  {
    assert IsDigit(s[i]);
    ReadsPositional(s, i, p, 0);
    if s[i] == ZERO {
      assert Positional(s, i, p) == 0;
    }
  }

  lemma FractionReads(s: Text, p: nat, q: nat, n: nat)
    requires IsFraction(s, p, q) && !IsDigit(At(s, q)) && (p == q ==> At(s, p) != DOT)
    ensures Fraction(s, p, n) == (if p == q then (n, p) else (n * Power(q - p - 1) + Positional(s, p + 1, q), q))
  {
    if p < q {
      assert IsDigit(s[p + 1]);
      ReadsPositional(s, p + 1, q, n);
    }
  }

  lemma ExponentReads(s: Text, q: nat, d: nat, e: nat)
    requires IsExponent(s, q, d, e) && !IsDigit(At(s, e)) && (q == e ==> At(s, q) != 101 && At(s, q) != 69)
    ensures Exponent(s, q) == (ExponentValue(s, q, d, e), e)
  {
    if q < e {
      assert IsDigit(s[d]);
      ReadsPositional(s, d, e, 0);
    }
  }

  /** Scaling the digits read in one go gives the value of the two parts. */
  lemma ScaledValue(negative: bool, n: nat, f: nat, k: nat, e: int)
    ensures Signed(negative, n * Power(k) + f, e - k) == NumberMeaning(negative, n, f as real / Power(k) as real, e)
  {
    var m, p := n * Power(k) + f, Power(k);
    var w, power := Pow10(e - k), Pow10(e);
    SignedIs(negative, m, e - k, w);
    MeaningIs(negative, n, f as real / p as real, e, power);
    ScaledSame(negative, n, f, k, e, m, p, w, power);
  }

  lemma ScaledSame(negative: bool, n: nat, f: nat, k: nat, e: int, m: nat, p: nat, w: real, power: real)
    requires m == n * p + f && p == Power(k) && w == Pow10(e - k) && power == Pow10(e)
    ensures p > 0 && WithSign(negative, m as real, w) == WithSign(negative, n as real + f as real / p as real, power)
  {
    Pow10Shift(e, k);
    SumAsReal(n, p, f);
    ScaledAlike(negative, n as real, f as real, m as real, p as real, w, power);
  }

  lemma SignedIs(negative: bool, m: nat, e: int, w: real)
    requires w == Pow10(e)
    ensures Signed(negative, m, e) == WithSign(negative, m as real, w)
  {
    assert Signed(negative, m, e) == (if negative then -1.0 else 1.0) * m as real * w;
    Negated(m as real, w);
  }

  lemma MeaningIs(negative: bool, n: nat, fraction: real, e: int, w: real)
    requires w == Pow10(e)
    ensures NumberMeaning(negative, n, fraction, e) == WithSign(negative, n as real + fraction, w)
  {
    assert NumberMeaning(negative, n, fraction, e) == (if negative then -1.0 else 1.0) * (n as real + fraction) * w;
    Negated(n as real + fraction, w);
  }

  ghost function WithSign(negative: bool, a: real, w: real): real {
    if negative then -(a * w) else a * w
  }

  lemma Negated(a: real, b: real)
    ensures -1.0 * a * b == -(a * b) && 1.0 * a * b == a * b
  {
  }

  lemma ScaledAlike(negative: bool, n: real, f: real, m: real, p: real, w: real, power: real)
    requires p != 0.0 && m == n * p + f && power == w * p
    ensures WithSign(negative, m, w) == WithSign(negative, n + f / p, power)
  {
    ScaledReal(n, f, m, p);
    Rearrange(n + f / p, p, w, m, power);
  }

  lemma ScaledReal(n: real, f: real, m: real, p: real)
    requires p != 0.0 && m == n * p + f
    ensures m == (n + f / p) * p
  {
    DivideBack(f, p);
    Factor(n, f / p, p);
  }

  lemma Factor(n: real, v: real, p: real)
    ensures n * p + v * p == (n + v) * p
  {
  }

  lemma DivideBack(f: real, p: real)
    requires p != 0.0
    ensures f / p * p == f
  {
  }

  lemma SumAsReal(n: nat, p: nat, f: nat)
    ensures (n * p + f) as real == n as real * p as real + f as real
  {
  }

  lemma Rearrange(b: real, p: real, w: real, m: real, power: real)
    requires m == b * p && power == w * p
    ensures m * w == b * power
  {
  }

  lemma WholeValue(negative: bool, n: nat, e: int)
    ensures Signed(negative, n, e) == NumberMeaning(negative, n, 0.0, e)
  {
  }

  lemma NumberReads(s: Text, i: nat, p: nat, q: nat, d: nat, e: nat, x: real)
    requires NumberParts(s, i, p, q, d, e, x) && EndsNumber(s, e)
    ensures var start := if At(s, i) == MINUS then i + 1 else i;
            var n := Positional(s, start, p);
            && start < |s| && IsDigit(s[start]) && Whole(s, start) == (n, p)
            && Fraction(s, p, n) == (if p == q then (n, p) else (n * Power(q - p - 1) + Positional(s, p + 1, q), q))
            && Exponent(s, q) == (ExponentValue(s, q, d, e), e)
  {
    var start := if At(s, i) == MINUS then i + 1 else i;
    assert IsDigit(s[start]);
    ExponentReads(s, q, d, e);
    FractionReads(s, p, q, Positional(s, start, p));
    WholeReads(s, start, p);
  }

  lemma NumberValue(s: Text, i: nat, p: nat, q: nat, d: nat, e: nat, x: real)
    requires NumberParts(s, i, p, q, d, e, x)
    ensures var start := if At(s, i) == MINUS then i + 1 else i;
            var n, ev := Positional(s, start, p), ExponentValue(s, q, d, e);
            x == if p == q then Signed(At(s, i) == MINUS, n, ev)
                 else Signed(At(s, i) == MINUS, n * Power(q - p - 1) + Positional(s, p + 1, q), ev - (q - p - 1))
  {
    var start := if At(s, i) == MINUS then i + 1 else i;
    var n, ev := Positional(s, start, p), ExponentValue(s, q, d, e);
    if p == q {
      WholeValue(At(s, i) == MINUS, n, ev);
    } else {
      ScaledValue(At(s, i) == MINUS, n, Positional(s, p + 1, q), q - p - 1, ev);
    }
  }

  /** `ParseNumber` put together from its parts. */
  lemma PartsMakeNumber(s: Text, i: nat, start: nat, p: nat, q: nat, e: nat, n: nat, n3: nat, ev: int)
    requires i < |s| && (s[i] == MINUS || IsDigit(s[i])) && start == if s[i] == MINUS then i + 1 else i
    requires p <= q <= |s| && Whole(s, start) == (n, p) && Fraction(s, p, n) == (n3, q) && Exponent(s, q) == (ev, e)
    ensures ParseNumber(s, i) == Done(Number(Signed(s[i] == MINUS, n3, (if q > p then p + 1 - q else 0) + ev)), e)
  {
  }

  /** Every number of the grammar is read with its value. */
  lemma ReadsNumber(s: Text, i: nat, e: nat, x: real)
    requires IsNumber(s, i, e, x) && EndsNumber(s, e)
    ensures i < |s| && (s[i] == MINUS || IsDigit(s[i])) && ParseNumber(s, i) == Done(Number(x), e)
  {
    var p, q, d :| NumberParts(s, i, p, q, d, e, x);
    var start := if At(s, i) == MINUS then i + 1 else i;
    NumberReads(s, i, p, q, d, e, x);
    NumberValue(s, i, p, q, d, e, x);
    var n, ev := Positional(s, start, p), ExponentValue(s, q, d, e);
    PartsMakeNumber(s, i, start, p, q, e, n, Fraction(s, p, n).0, ev);
  }

  // ----- strings

  const LOWER_HEX: Text := [48, 49, 50, 51, 52, 53, 54, 55, 56, 57, 97, 98, 99, 100, 101, 102]
  const UPPER_HEX: Text := [48, 49, 50, 51, 52, 53, 54, 55, 56, 57, 65, 66, 67, 68, 69, 70]

  /** The byte is the hexadecimal digit of that value, in either case. */
  ghost predicate IsHex(b: byte, d: nat) {
    d < 16 && (b == LOWER_HEX[d] || b == UPPER_HEX[d])
  }

  lemma HexReads(b: byte, d: nat)
    ensures HexValue(b) == d <==> IsHex(b, d)
  {
  }

  ghost predicate IsHex4(s: Text, i: nat, a: nat, b: nat, c: nat, d: nat) {
    i + 4 <= |s| && IsHex(s[i], a) && IsHex(s[i + 1], b) && IsHex(s[i + 2], c) && IsHex(s[i + 3], d)
  }

  /** Four hexadecimal digits of value `u` stand at `i`. */
  ghost predicate Spells(s: Text, i: nat, u: nat) {
    exists a: nat, b: nat, c: nat, d: nat :: IsHex4(s, i, a, b, c, d) && u == 4096 * a + 256 * b + 16 * c + d
  }

  lemma Hex4Reads(s: Text, i: nat, u: nat)
    requires Spells(s, i, u)
    ensures i + 4 <= |s| && Hex4(s, i) == u
  {
    var a: nat, b: nat, c: nat, d: nat :| IsHex4(s, i, a, b, c, d) && u == 4096 * a + 256 * b + 16 * c + d;
    HexReads(s[i], a);
    HexReads(s[i + 1], b);
    HexReads(s[i + 2], c);
    HexReads(s[i + 3], d);
  }

  /** A byte that continues a code point. */
  ghost predicate Continues(b: byte) {
    0x80 <= b < 0xC0
  }

  /** What a byte carries besides its mark. */
  ghost function Bits(b: byte, mark: int): int {
    b as int - mark
  }

  /** UTF-8 as RFC 3629 reads it: the bytes `t` are the shortest form of the code point `u`. */
  ghost predicate Decodes(t: Text, u: nat) {
    if |t| == 1 then t[0] < 0x80 && u == t[0]
    else if |t| == 2 then
      0xC0 <= t[0] < 0xE0 && Continues(t[1]) && 0x80 <= u && u == 64 * Bits(t[0], 0xC0) + Bits(t[1], 0x80)
    else if |t| == 3 then
      && 0xE0 <= t[0] < 0xF0 && Continues(t[1]) && Continues(t[2]) && 0x800 <= u
      && u == 4096 * Bits(t[0], 0xE0) + 64 * Bits(t[1], 0x80) + Bits(t[2], 0x80)
    else
      && |t| == 4 && 0xF0 <= t[0] < 0xF8 && Continues(t[1]) && Continues(t[2]) && Continues(t[3]) && 0x1_0000 <= u
      && u == 262144 * Bits(t[0], 0xF0) + 4096 * Bits(t[1], 0x80) + 64 * Bits(t[2], 0x80) + Bits(t[3], 0x80)
  }

  /** Six bits at a time: the digits of a number in base 64 are unique. */
  lemma SixBits(u: nat, q: int, r: int)
    requires 0 <= r < 64
    ensures u == 64 * q + r <==> q == u / 64 && r == u % 64
  {
  }

  lemma TwoBytes(u: nat, t: Text)
    requires 0x80 <= u < 0x800
    ensures Decodes(t, u) <==> t == Utf8(u)
  {
    if |t| == 2 && Continues(t[1]) {
      SixBits(u, Bits(t[0], 0xC0), Bits(t[1], 0x80));
    }
  }

  lemma ThreeBytes(u: nat, t: Text)
    requires 0x800 <= u < 0x1_0000
    ensures Decodes(t, u) <==> t == Utf8(u)
  {
    assert u / 4096 == u / 64 / 64;
    if |t| == 3 && Continues(t[1]) && Continues(t[2]) {
      var a, b, c := Bits(t[0], 0xE0), Bits(t[1], 0x80), Bits(t[2], 0x80);
      SixBits(u, 64 * a + b, c);
      SixBits(u / 64, a, b);
    }
  }

  lemma FourBytes(u: nat, t: Text)
    requires 0x1_0000 <= u < 0x11_0000
    ensures Decodes(t, u) <==> t == Utf8(u)
  {
    assert u / 4096 == u / 64 / 64 && u / 262144 == u / 4096 / 64;
    if |t| == 4 && Continues(t[1]) && Continues(t[2]) && Continues(t[3]) {
      var a, b, c, d := Bits(t[0], 0xF0), Bits(t[1], 0x80), Bits(t[2], 0x80), Bits(t[3], 0x80);
      SixBits(u, 4096 * a + 64 * b + c, d);
      SixBits(u / 64, 64 * a + b, c);
      SixBits(u / 4096, a, b);
    }
  }

  /** The bytes written for a code point decode to it, and no others do. */
  lemma Utf8Decodes(u: nat, t: Text)
    requires 0 < u < 0x11_0000
    ensures Decodes(t, u) <==> t == Utf8(u)
  {
    if u < 0x80 {
      assert Decodes([u], u);
    } else if u < 0x800 {
      TwoBytes(u, t);
    } else if u < 0x1_0000 {
      ThreeBytes(u, t);
    } else {
      FourBytes(u, t);
    }
  }

  /** The two-character escapes: the character behind the backslash and the byte it stands for. */
  ghost predicate ShortEscape(c: byte, b: byte) {
    || (b == c && (c == QUOTE || c == BACKSLASH || c == 47))
    || (c, b) in {(98, 8), (102, 12), (110, 10), (114, 13), (116, 9)}
  }

  /** `\u` and four digits stand at `i`. */
  ghost predicate UnicodeEscape(s: Text, i: nat, u: nat) {
    i + 6 <= |s| && s[i] == BACKSLASH && s[i + 1] == 117 && Spells(s, i + 2, u)
  }

  /** The escape from `i` up to `k` stands for the bytes `t`: a single byte, a code point, or a code point
      beyond sixteen bits written as a pair of surrogates. */
  ghost predicate IsEscape(s: Text, i: nat, k: nat, t: Text) {
    || (k == i + 2 <= |s| && s[i] == BACKSLASH && |t| == 1 && ShortEscape(s[i + 1], t[0]))
    || (k == i + 6 && exists u :: UnicodeEscape(s, i, u) && IsCodePoint(u) && Decodes(t, u))
    || (k == i + 12 && exists u :: 0x1_0000 <= u < 0x11_0000 && IsPair(s, i, u) && Decodes(t, u))
  }

  /** Sixteen bits that are neither NUL nor a surrogate. */
  ghost predicate IsCodePoint(u: nat) {
    0 < u < 0xD800 || 0xE000 <= u < 0x1_0000
  }

  /** The surrogates of RFC 8259, section 7: ten bits each of the code point less 65536. */
  ghost predicate IsPair(s: Text, i: nat, u: nat)
    requires 0x1_0000 <= u
  {
    && UnicodeEscape(s, i, 0xD800 + (u - 0x1_0000) / 1024)
    && UnicodeEscape(s, i + 6, 0xDC00 + (u - 0x1_0000) % 1024)
  }

  lemma ReadsUnicode(s: Text, i: nat, u: nat, t: Text)
    requires UnicodeEscape(s, i, u) && IsCodePoint(u) && Decodes(t, u)
    ensures ParseEscape(s, i + 1) == Done(t, i + 6)
  {
    Hex4Reads(s, i + 2, u);
    Utf8Decodes(u, t);
  }

  lemma SurrogatesParse(s: Text, i: nat, hi: nat, lo: nat, u: nat)
    requires i + 11 <= |s| && s[i] == 117 && s[i + 5] == BACKSLASH && s[i + 6] == 117
    requires Hex4(s, i + 1) == hi && Hex4(s, i + 7) == lo && 0xD800 <= hi < 0xDC00 && 0xDC00 <= lo < 0xE000
    requires u == 0x1_0000 + (hi - 0xD800) * 1024 + (lo - 0xDC00)
    ensures ParseEscape(s, i) == Done(Utf8(u), i + 11)
  {
  }

  lemma ReadsSurrogates(s: Text, i: nat, hi: nat, lo: nat, u: nat, t: Text)
    requires UnicodeEscape(s, i, hi) && UnicodeEscape(s, i + 6, lo) && 0xD800 <= hi < 0xDC00 && 0xDC00 <= lo < 0xE000
    requires u == 0x1_0000 + (hi - 0xD800) * 1024 + (lo - 0xDC00) && t == Utf8(u)
    ensures ParseEscape(s, i + 1) == Done(t, i + 12)
  {
    Hex4Reads(s, i + 2, hi);
    Hex4Reads(s, i + 8, lo);
    SurrogatesParse(s, i + 1, hi, lo, u);
  }

  lemma TenBits(u: nat)
    requires 0x1_0000 <= u < 0x11_0000
    ensures var hi, lo := 0xD800 + (u - 0x1_0000) / 1024, 0xDC00 + (u - 0x1_0000) % 1024;
            0xD800 <= hi < 0xDC00 && 0xDC00 <= lo < 0xE000 && u == 0x1_0000 + (hi - 0xD800) * 1024 + (lo - 0xDC00)
  {
  }

  lemma ReadsPair(s: Text, i: nat, u: nat, t: Text)
    requires 0x1_0000 <= u < 0x11_0000 && IsPair(s, i, u) && Decodes(t, u)
    ensures ParseEscape(s, i + 1) == Done(t, i + 12)
  {
    TenBits(u);
    Utf8Decodes(u, t);
    ReadsSurrogates(s, i, 0xD800 + (u - 0x1_0000) / 1024, 0xDC00 + (u - 0x1_0000) % 1024, u, t);
  }

  /** Every escape of the grammar is read as what it stands for. */
  lemma ReadsEscape(s: Text, i: nat, k: nat, t: Text)
    requires IsEscape(s, i, k, t)
    ensures i < |s| && s[i] == BACKSLASH && ParseEscape(s, i + 1) == Done(t, k)
  {
    if k == i + 2 {
      assert t == [t[0]];
    } else if k == i + 6 {
      var u :| UnicodeEscape(s, i, u) && IsCodePoint(u) && Decodes(t, u);
      ReadsUnicode(s, i, u, t);
    } else {
      var u :| 0x1_0000 <= u < 0x11_0000 && IsPair(s, i, u) && Decodes(t, u);
      ReadsPair(s, i, u, t);
    }
  }

  /** The characters from `i` up to the closing quotation mark in front of `e` spell `t`. */
  ghost predicate IsChars(s: Text, i: nat, e: nat, t: Text)
    decreases e - i
  {
    i < |s| && i < e &&
    if s[i] == QUOTE then t == [] && e == i + 1
    else if s[i] != BACKSLASH then s[i] != 0 && t != [] && t[0] == s[i] && IsChars(s, i + 1, e, t[1..])
    else exists k, b, rest :: EscapeThen(s, i, k, b, rest, e, t) && IsChars(s, k, e, rest)
  }

  ghost predicate EscapeThen(s: Text, i: nat, k: nat, b: Text, rest: Text, e: nat, t: Text) {
    t == b + rest && i < k <= e && IsEscape(s, i, k, b)
  }

  lemma {:induction false} ReadsChars(s: Text, i: nat, e: nat, t: Text)
    requires IsChars(s, i, e, t)
    ensures ParseChars(s, i) == Done(t, e)
    decreases e - i
  {
    if s[i] == QUOTE {
    } else if s[i] != BACKSLASH {
      ReadsChars(s, i + 1, e, t[1..]);
      assert t == [t[0]] + t[1..];
    } else {
      var k, b, rest :| EscapeThen(s, i, k, b, rest, e, t) && IsChars(s, k, e, rest);
      ReadsEscape(s, i, k, b);
      ReadsChars(s, k, e, rest);
    }
  }

  ghost predicate IsString(s: Text, i: nat, e: nat, t: Text) {
    i < |s| && s[i] == QUOTE && IsChars(s, i + 1, e, t)
  }

  /** Every string literal is read as the bytes it spells. */
  lemma ReadsLiteral(s: Text, i: nat, e: nat, t: Text)
    requires IsString(s, i, e, t)
    ensures ReadsName(s, i, t, e)
  {
    ReadsChars(s, i + 1, e, t);
  }

  // ----- trees

  ghost predicate IsWord(s: Text, i: nat, e: nat, t: Text) {
    e == i + |t| <= |s| && s[i..e] == t
  }

  ghost predicate IsByte(s: Text, i: nat, b: byte) {
    i < |s| && s[i] == b
  }

  /** Only white space between `i` and the closing byte `b` in front of `e`. */
  ghost predicate IsEmpty(s: Text, i: nat, e: nat, b: byte) {
    0 < e && Blank(s, i, e - 1) && IsByte(s, e - 1, b)
  }

  /** The text from `i` up to `e` is a JSON text of the value `v`. */
  ghost predicate IsValue(s: Text, i: nat, e: nat, v: Json)
    decreases v, 1
  {
    match v
    case Null => IsWord(s, i, e, NULL_TEXT)
    case False => IsWord(s, i, e, FALSE_TEXT)
    case True => IsWord(s, i, e, TRUE_TEXT)
    case Number(x) => IsNumber(s, i, e, x)
    case String(t) => IsString(s, i, e, t)
    case Array(items) =>
      IsByte(s, i, LBRACKET) && if items == [] then IsEmpty(s, i + 1, e, RBRACKET) else IsItems(s, i + 1, e, items)
    case Object(members) =>
      IsByte(s, i, LBRACE) && if members == [] then IsEmpty(s, i + 1, e, RBRACE) else IsMembers(s, i + 1, e, members)
  }

  /** Items with white space around them, separated by commas, up to the closing bracket. */
  ghost predicate IsItems(s: Text, i: nat, e: nat, items: seq<Json>)
    requires items != []
    decreases items, 0
  {
    exists a: nat, b: nat, c: nat ::
      && Blank(s, i, a) && IsValue(s, a, b, items[0]) && Blank(s, b, c)
      && if |items| == 1 then IsByte(s, c, RBRACKET) && e == c + 1
         else IsByte(s, c, COMMA) && IsItems(s, c + 1, e, items[1..])
  }

  /** A name, a colon and a value, with white space in front of each. */
  ghost predicate IsMember(s: Text, i: nat, e: nat, m: Member)
    decreases m, 2
  {
    exists a: nat, b: nat, c: nat, d: nat ::
      && Blank(s, i, a) && IsString(s, a, b, m.name) && Blank(s, b, c) && IsByte(s, c, COLON)
      && Blank(s, c + 1, d) && IsValue(s, d, e, m.value)
  }

  ghost predicate IsMembers(s: Text, i: nat, e: nat, members: seq<Member>)
    requires members != []
    decreases members, 0
  {
    exists b: nat, c: nat ::
      && IsMember(s, i, b, members[0]) && Blank(s, b, c)
      && if |members| == 1 then IsByte(s, c, RBRACE) && e == c + 1
         else IsByte(s, c, COMMA) && IsMembers(s, c + 1, e, members[1..])
  }

  /** A value starts with a visible byte that closes nothing. */
  lemma ValueStarts(s: Text, i: nat, e: nat, v: Json)
    requires IsValue(s, i, e, v)
    ensures i < |s| && s[i] > 32 && s[i] != RBRACKET && s[i] != RBRACE
  {
    match v {
      case Null => assert s[i..e][0] == s[i];
      case False => assert s[i..e][0] == s[i];
      case True => assert s[i..e][0] == s[i];
      case Number(x) => NumberStarts(s, i, e, x);
      case _ =>
    }
  }

  lemma NumberStarts(s: Text, i: nat, e: nat, x: real)
    requires IsNumber(s, i, e, x)
    ensures i < |s| && (s[i] == MINUS || IsDigit(s[i]))
  {
    var p, q, d :| NumberParts(s, i, p, q, d, e, x);
    var start := if At(s, i) == MINUS then i + 1 else i;
    assert IsDigit(s[start]);
  }

  lemma EndsAtBlank(s: Text, b: nat, c: nat)
    requires Blank(s, b, c) && c < |s| && s[c] in {COMMA, RBRACKET, RBRACE}
    ensures EndsNumber(s, b) && Skips(s, b, c)
  {
    SkipsBlank(s, b, c);
    if b < c {
      assert IsBlank(s[b]);
    }
  }

  lemma SkipsToValue(s: Text, i: nat, a: nat, e: nat, v: Json)
    requires Blank(s, i, a) && IsValue(s, a, e, v)
    ensures Skips(s, i, a)
  {
    ValueStarts(s, a, e, v);
    SkipsBlank(s, i, a);
  }

  // The parser's steps with white space anywhere.

  lemma ReadsEmptyArray(s: Text, i: nat, e: nat)
    requires IsByte(s, i, LBRACKET) && Skips(s, i + 1, e) && IsByte(s, e, RBRACKET)
    ensures ReadsValue(s, i, Array([]), e + 1)
  {
    assert Look(0);
    NotKeyword(s, i);
  }

  lemma ReadsEmptyObject(s: Text, i: nat, e: nat)
    requires IsByte(s, i, LBRACE) && Skips(s, i + 1, e) && IsByte(s, e, RBRACE)
    ensures ReadsValue(s, i, Object([]), e + 1)
  {
    assert Look(0);
    NotKeyword(s, i);
  }

  lemma ReadsFullArray(s: Text, i: nat, a: nat, items: seq<Json>, e: nat)
    requires IsByte(s, i, LBRACKET) && Skips(s, i + 1, a) && At(s, a) != RBRACKET && ReadsItems(s, i + 1, items, e)
    ensures ReadsValue(s, i, Array(items), e)
  {
    assert Look(0);
    NotKeyword(s, i);
  }

  lemma ReadsItemThen(s: Text, i: nat, a: nat, v: Json, b: nat, c: nat, rest: seq<Json>, e: nat)
    requires Skips(s, i, a) && ReadsValue(s, a, v, b) && Skips(s, b, c) && IsByte(s, c, COMMA) && ReadsItems(s, c + 1, rest, e)
    ensures ReadsItems(s, i, [v] + rest, e)
  {
    assert Look(0);
  }

  lemma ReadsLastItem(s: Text, i: nat, a: nat, v: Json, b: nat, c: nat)
    requires Skips(s, i, a) && ReadsValue(s, a, v, b) && Skips(s, b, c) && IsByte(s, c, RBRACKET)
    ensures ReadsItems(s, i, [v], c + 1)
  {
    assert Look(0);
  }

  lemma ReadsPairOf(s: Text, i: nat, a: nat, name: Text, b: nat, c: nat, d: nat, v: Json, e: nat)
    requires Skips(s, i, a) && ReadsName(s, a, name, b) && Skips(s, b, c) && IsByte(s, c, COLON)
    requires Skips(s, c + 1, d) && ReadsValue(s, d, v, e)
    ensures ReadsMember(s, i, Member(name, v), e)
  {
    assert Look(0);
  }

  lemma ReadsMemberThen(s: Text, i: nat, m: Member, b: nat, c: nat, rest: seq<Member>, e: nat)
    requires ReadsMember(s, i, m, b) && Skips(s, b, c) && IsByte(s, c, COMMA) && ReadsMembers(s, c + 1, rest, e)
    ensures ReadsMembers(s, i, [m] + rest, e)
  {
    assert Look(0);
  }

  // Every text of the grammar is read as its value.

  lemma ReadsWord(s: Text, i: nat, e: nat, v: Json)
    requires (v.Null? || v.False? || v.True?) && IsValue(s, i, e, v)
    ensures ReadsValue(s, i, v, e)
  {
    assert s[i..e][0] == s[i];
    HasSlice(s, i, NULL_TEXT);
    HasSlice(s, i, FALSE_TEXT);
    HasSlice(s, i, TRUE_TEXT);
    if !v.Null? { NotPrefix(s, i, NULL_TEXT, s[i]); }
    if v.True? { NotPrefix(s, i, FALSE_TEXT, s[i]); }
  }

  lemma ReadsScalar(s: Text, i: nat, e: nat, v: Json)
    requires (v.Number? || v.String?) && IsValue(s, i, e, v) && EndsNumber(s, e)
    ensures ReadsValue(s, i, v, e)
  {
    if v.Number? {
      ReadsNumber(s, i, e, v.value);
    } else {
      ReadsChars(s, i + 1, e, v.text);
    }
    NotKeyword(s, i);
  }

  lemma {:induction false} ReadsTree(s: Text, i: nat, e: nat, v: Json)
    requires IsValue(s, i, e, v) && EndsNumber(s, e)
    ensures ReadsValue(s, i, v, e)
    decreases v, 1
  {
    match v {
      case Null => ReadsWord(s, i, e, v);
      case False => ReadsWord(s, i, e, v);
      case True => ReadsWord(s, i, e, v);
      case Number(_) => ReadsScalar(s, i, e, v);
      case String(_) => ReadsScalar(s, i, e, v);
      case Array(items) =>
        if items == [] {
          SkipsBlank(s, i + 1, e - 1);
          ReadsEmptyArray(s, i, e - 1);
        } else {
          var a := ReadsElements(s, i + 1, e, items);
          ReadsFullArray(s, i, a, items, e);
        }
      case Object(members) =>
        if members == [] {
          SkipsBlank(s, i + 1, e - 1);
          ReadsEmptyObject(s, i, e - 1);
        } else {
          var a := ReadsPairs(s, i + 1, e, members);
          ObjectStep(s, i, a, members, e);
        }
    }
  }

  lemma {:induction false} ReadsElements(s: Text, i: nat, e: nat, items: seq<Json>) returns (a: nat)
    requires items != [] && IsItems(s, i, e, items)
    ensures ReadsItems(s, i, items, e) && Skips(s, i, a) && At(s, a) != RBRACKET
    decreases items, 0
  {
    var b: nat, c: nat;
    a, b, c :|
      && Blank(s, i, a) && IsValue(s, a, b, items[0]) && Blank(s, b, c)
      && if |items| == 1 then IsByte(s, c, RBRACKET) && e == c + 1
         else IsByte(s, c, COMMA) && IsItems(s, c + 1, e, items[1..]);
    ValueStarts(s, a, b, items[0]);
    SkipsToValue(s, i, a, b, items[0]);
    EndsAtBlank(s, b, c);
    ReadsTree(s, a, b, items[0]);
    HeadAndTail(items);
    if |items| == 1 {
      ReadsLastItem(s, i, a, items[0], b, c);
    } else {
      var a' := ReadsElements(s, c + 1, e, items[1..]);
      ReadsItemThen(s, i, a, items[0], b, c, items[1..], e);
    }
  }

  lemma {:induction false} ReadsOneMember(s: Text, i: nat, e: nat, m: Member) returns (a: nat)
    requires IsMember(s, i, e, m) && EndsNumber(s, e)
    ensures ReadsMember(s, i, m, e) && Skips(s, i, a) && At(s, a) == QUOTE
    decreases m, 2
  {
    var b: nat, c: nat, d: nat;
    a, b, c, d :|
      && Blank(s, i, a) && IsString(s, a, b, m.name) && Blank(s, b, c) && IsByte(s, c, COLON)
      && Blank(s, c + 1, d) && IsValue(s, d, e, m.value);
    SkipsBlank(s, i, a);
    ReadsLiteral(s, a, b, m.name);
    SkipsBlank(s, b, c);
    SkipsToValue(s, c + 1, d, e, m.value);
    ReadsTree(s, d, e, m.value);
    ReadsPairOf(s, i, a, m.name, b, c, d, m.value, e);
  }

  lemma {:induction false} ReadsPairs(s: Text, i: nat, e: nat, members: seq<Member>) returns (a: nat)
    requires members != [] && IsMembers(s, i, e, members)
    ensures ReadsMembers(s, i, members, e) && Skips(s, i, a) && At(s, a) != RBRACE
    decreases members, 0
  {
    var b: nat, c: nat :|
      && IsMember(s, i, b, members[0]) && Blank(s, b, c)
      && if |members| == 1 then IsByte(s, c, RBRACE) && e == c + 1
         else IsByte(s, c, COMMA) && IsMembers(s, c + 1, e, members[1..]);
    EndsAtBlank(s, b, c);
    a := ReadsOneMember(s, i, b, members[0]);
    HeadAndTail(members);
    if |members| == 1 {
      LastMemberStep(s, i, members[0], b, c);
    } else {
      var a' := ReadsPairs(s, c + 1, e, members[1..]);
      ReadsMemberThen(s, i, members[0], b, c, members[1..], e);
    }
  }

  /** A whole JSON text: a value with white space around it. */
  ghost predicate IsDocument(s: Text, e: nat, v: Json) {
    exists a: nat :: Blank(s, 0, a) && IsValue(s, a, e, v) && Blank(s, e, |s|)
  }

  /** `cJSON_Parse` reads every text of the grammar as its value and stops behind it. */
  lemma ParsesEveryDocument(s: Text, e: nat, v: Json)
    requires IsDocument(s, e, v)
    ensures Parse(s) == Done(v, e)
  {
    var a: nat :| Blank(s, 0, a) && IsValue(s, a, e, v) && Blank(s, e, |s|);
    assert EndsNumber(s, e) by {
      assert e < |s| ==> IsBlank(s[e]);
    }
    SkipsToValue(s, 0, a, e, v);
    ReadsTree(s, a, e, v);
    assert Look(0);
  }

  /** The grammar is unambiguous: a text has one value. */
  lemma OneMeaning(s: Text, e: nat, v: Json, e': nat, w: Json)
    requires IsDocument(s, e, v) && IsDocument(s, e', w)
    ensures v == w && e == e'
  {
    ParsesEveryDocument(s, e, v);
    ParsesEveryDocument(s, e', w);
  }
}
