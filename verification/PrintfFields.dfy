/** What a conversion of the formatter prints: the value of its digits, and where the padding goes. */
module PrintfFields {
  import opened Bytes
  import opened Collections
  import opened Numerals
  import opened Printf

  // ----- digits

  /** A digit of the base: above nine a small or a capital letter. */
  ghost predicate IsDigitOf(b: byte, base: nat, large: bool) {
    IsDigit(b) || (base == 16 && if large then 65 <= b <= 70 else 97 <= b <= 102)
  }

  ghost function DigitValue(b: byte): nat {
    if 48 <= b <= 57 then b - 48 else if 65 <= b <= 70 then b - 65 + 10 else if 97 <= b <= 102 then b - 97 + 10 else 0
  }

  /** The number that a string of digits spells, most significant first. */
  ghost function Value(t: Text, base: nat): nat
    decreases |t|
  {
    if t == [] then 0 else base * Value(t[..|t| - 1], base) + DigitValue(t[|t| - 1])
  }

  ghost predicate AllOf(t: Text, base: nat, large: bool) {
    forall k :: 0 <= k < |t| ==> IsDigitOf(t[k], base, large)
  }

  lemma LetterValue(d: nat, base: nat, large: bool)
    requires d < base && (base == 10 || base == 16)
    ensures DigitValue(Letter(d, large)) == d && IsDigitOf(Letter(d, large), base, large)
  {
  }

  lemma QuotientAndRest(n: nat, base: nat)
    requires base == 10 || base == 16
    ensures base * (n / base) + n % base == n && (n < base ==> n / base == 0)
  {
    if base == 10 {
      assert 10 * (n / 10) + n % 10 == n;
    }
  }

  lemma ValueAppend(t: Text, b: byte, base: nat)
    ensures Value(t + [b], base) == base * Value(t, base) + DigitValue(b)
  {
    assert (t + [b])[..|t + [b]| - 1] == t;
  }

  lemma {:induction false} DigitsValue(n: nat, base: nat, large: bool)
    requires base == 10 || base == 16
    ensures Value(Digits(n, base, large), base) == n
  {
    if n > 0 {
      DigitsValue(n / base, base, large);
      LetterValue(n % base, base, large);
      QuotientAndRest(n, base);
      ValueAppend(Digits(n / base, base, large), Letter(n % base, large), base);
    }
  }

  lemma {:induction false} DigitsLetters(n: nat, base: nat, large: bool)
    requires base == 10 || base == 16
    ensures AllOf(Digits(n, base, large), base, large)
    ensures n > 0 ==> Digits(n, base, large) != [] && Digits(n, base, large)[0] != ZERO
  {
    if n > 0 {
      DigitsLetters(n / base, base, large);
      LetterValue(n % base, base, large);
      QuotientAndRest(n, base);
    }
  }

  /** The digits of a number spell it, in the base and the letters asked for, without leading zeros. */
  lemma NumeralValue(n: nat, base: nat, large: bool)
    requires base == 10 || base == 16
    ensures var t := Numeral(n, base, large);
            Value(t, base) == n && AllOf(t, base, large) && (t[0] == ZERO <==> n == 0) && (n == 0 ==> |t| == 1)
  {
    DigitsValue(n, base, large);
    DigitsLetters(n, base, large);
    if n == 0 {
      assert [ZERO][..0] == [];
    }
  }

  lemma {:induction false} PadBytes(n: int, b: byte)
    ensures forall k :: 0 <= k < |Pad(n, b)| ==> Pad(n, b)[k] == b
    decreases if n > 0 then n else 0
  {
    if n > 0 {
      PadBytes(n - 1, b);
    }
  }

  lemma {:induction false} ZerosValue(n: int, base: nat)
    requires base == 10 || base == 16
    ensures Value(Pad(n, ZERO), base) == 0
    decreases if n > 0 then n else 0
  {
    if n > 0 {
      ZerosValue(n - 1, base);
      assert Pad(n, ZERO)[..|Pad(n, ZERO)| - 1] == Pad(n - 1, ZERO);
    }
  }

  /** Leading zeros do not count. */
  lemma {:induction false} ZerosInFront(z: Text, t: Text, base: nat)
    requires Value(z, base) == 0
    ensures Value(z + t, base) == Value(t, base)
    decreases |t|
  {
    if t == [] {
      assert z + t == z;
    } else {
      ZerosInFront(z, t[..|t| - 1], base);
      assert (z + t)[..|z + t| - 1] == z + t[..|t| - 1];
    }
  }

  // ----- numbers

  ghost predicate AllBlank(t: Text) {
    forall k :: 0 <= k < |t| ==> t[k] == BLANK
  }

  /** The sign a signed conversion shows for the word `num`. */
  ghost predicate IsSign(t: Text, num: Word, f: Flags, signed: bool) {
    if signed && num >= 0x8000_0000 then t == [MINUS]
    else if signed && f.plus then t == [PLUS]
    else if signed && f.space then t == [BLANK]
    else t == []
  }

  /** The field is blanks, a sign, digits and blanks.  It is as wide as the width asks, unless the number
      needs more; blanks stand behind the number exactly with `-`, in front of it only without `-` and
      `0`.  More digits than the precision asks and the number needs are the zeros of the flag `0`. */
  ghost predicate NumberLayout(field: Text, c: Conversion, front: Text, sign: Text, digits: Text, back: Text, needed: nat) {
    && field == front + sign + digits + back
    && AllBlank(front) && AllBlank(back)
    && |field| >= c.width && (|field| > c.width ==> front == [] && back == [])
    && (front != [] ==> !c.flags.left && !c.flags.zero)
    && (back != [] ==> c.flags.left)
    && |digits| >= needed && |digits| >= c.precision
    && (|digits| > needed && |digits| > c.precision ==> !c.flags.left && c.flags.zero && |field| == c.width)
  }

  /** The digits spell the number; `needed` of them do without leading zeros. */
  ghost predicate NumberDigits(digits: Text, num: Word, style: Style, needed: nat) {
    var base := if style.base == 10 then 10 else 16;
    var value := if style.signed && num >= 0x8000_0000 then 0x1_0000_0000 - num else num;
    && AllOf(digits, base, style.large) && Value(digits, base) == value
    && 1 <= needed <= |digits|
    && (digits[|digits| - needed] == ZERO <==> value == 0) && (value == 0 ==> needed == 1)
  }

  lemma JoinedDigits(z: Text, t: Text, base: nat, large: bool)
    requires (forall k :: 0 <= k < |z| ==> z[k] == ZERO) && AllOf(t, base, large) && Value(z, base) == 0
    ensures AllOf(z + t, base, large) && Value(z + t, base) == Value(t, base)
  {
    ZerosInFront(z, t, base);
  }

  lemma SixParts(a: Text, b: Text, c: Text, d: Text, e: Text, f: Text)
    ensures (a + b + c) + (d + e + f) == a + b + (c + d + e) + f
  {
  }

  /** The four ways to pad, with the text of the number out of sight. */
  lemma PaddedNumber(sign: Text, t: Text, c: Conversion) returns (front: Text, digits: Text, back: Text, n: int, m: int)
    requires c.precision != 0
    ensures var room := c.width - Max(c.precision, |t|) - |sign|;
            NumberLayout(Lead(sign, room, c.flags) + Trail(t, room, c), c, front, sign, digits, back, |t|)
    ensures digits == Pad(n, ZERO) + Pad(m, ZERO) + t
  {
    var room := c.width - Max(c.precision, |t|) - |sign|;
    var l, r := if c.flags.left || c.flags.zero then 0 else room, if c.flags.left then room else 0;
    n, m := if !c.flags.left && c.flags.zero then room else 0, c.precision - |t|;
    front, back := Pad(l, BLANK), Pad(r, BLANK);
    PadBytes(l, BLANK);
    PadBytes(r, BLANK);
    digits := Pad(n, ZERO) + Pad(m, ZERO) + t;
    SixParts(front, sign, Pad(n, ZERO), Pad(m, ZERO), t, back);
  }

  /** `print_number`, unless the precision is zero. */
  lemma NumberFieldLayout(num: Word, c: Conversion, style: Style)
    returns (front: Text, sign: Text, digits: Text, back: Text, needed: nat)
    requires c.precision != 0
    ensures NumberLayout(NumberField(num, c, style), c, front, sign, digits, back, needed)
    ensures IsSign(sign, num, c.flags, style.signed) && NumberDigits(digits, num, style, needed)
  {
    sign := Sign(num, c.flags, style);
    var t := Numeral(Magnitude(num, style), Base(style.base), style.large);
    needed := |t|;
    var n: int, m: int;
    front, digits, back, n, m := PaddedNumber(sign, t, c);
    DigitsSpell(num, style, t, digits, n, m);
  }

  lemma DigitsSpell(num: Word, style: Style, t: Text, digits: Text, n: int, m: int)
    requires t == Numeral(Magnitude(num, style), Base(style.base), style.large) && digits == Pad(n, ZERO) + Pad(m, ZERO) + t
    ensures NumberDigits(digits, num, style, |t|)
  {
    NumeralValue(Magnitude(num, style), Base(style.base), style.large);
    TwoPads(n, m, t, Base(style.base), style.large);
    assert digits[|digits| - |t|] == t[0];
  }

  lemma TwoPads(n: int, m: int, t: Text, base: nat, large: bool)
    requires AllOf(t, base, large) && (base == 10 || base == 16)
    ensures var z := Pad(n, ZERO) + Pad(m, ZERO);
            AllOf(z + t, base, large) && Value(z + t, base) == Value(t, base) && (n <= 0 && m <= 0 ==> z + t == t)
  {
    PadBytes(n, ZERO);
    PadBytes(m, ZERO);
    ZerosValue(n, base);
    ZerosValue(m, base);
    ZerosInFront(Pad(n, ZERO), Pad(m, ZERO), base);
    JoinedDigits(Pad(n, ZERO) + Pad(m, ZERO), t, base, large);
  }

  // ----- strings and characters

  /** The text, with blanks up to the width behind it exactly with `-`, and otherwise in front of it. */
  ghost predicate TextLayout(field: Text, t: Text, c: Conversion) {
    && |field| == (if |t| < c.width then c.width else |t|)
    && (if c.flags.left then t <= field && AllBlank(field[|t|..])
        else field[|field| - |t|..] == t && AllBlank(field[..|field| - |t|]))
  }

  lemma StringFieldLayout(s: Text, c: Conversion) returns (t: Text)
    ensures t <= s && (0 < c.precision < |s| ==> |t| == c.precision) && (!(0 < c.precision < |s|) ==> t == s)
    ensures TextLayout(StringField(s, c), t, c)
  {
    t := if 0 < c.precision < |s| then s[..c.precision] else s;
    PadBytes(c.width - |t|, BLANK);
  }

  lemma CharFieldLayout(b: byte, c: Conversion)
    ensures TextLayout(CharField(b, c), [b], c)
  {
    PadBytes(c.width - 1, BLANK);
  }

  // ----- the directive

  ghost predicate IsFlag(b: byte) {
    b == MINUS || b == PLUS || b == BLANK || b == 35 || b == ZERO
  }

  /** The byte occurs from `i` up to `j`. */
  ghost predicate Occurs(s: Text, i: nat, j: nat, b: byte) {
    exists k :: i <= k < j && k < |s| && s[k] == b
  }

  ghost predicate FlagBytes(s: Text, i: nat, j: nat) {
    i <= j <= |s| && forall k :: i <= k < j ==> IsFlag(s[k])
  }

  lemma OccursFrom(s: Text, i: nat, j: nat, b: byte)
    requires i < j <= |s|
    ensures Occurs(s, i, j, b) <==> s[i] == b || Occurs(s, i + 1, j, b)
  {
    if Occurs(s, i, j, b) && s[i] != b {
      var k :| i <= k < j && k < |s| && s[k] == b;
    }
  }

  /** Every flag in front of the width counts, whatever the order. */
  lemma {:induction false} FlagsRead(fmt: Text, i: nat, j: nat, f: Flags)
    requires FlagBytes(fmt, i, j) && !IsFlag(At(fmt, j))
    ensures ReadFlags(fmt, i, f) == (Flags(f.left || Occurs(fmt, i, j, MINUS), f.plus || Occurs(fmt, i, j, PLUS),
                                           f.space || Occurs(fmt, i, j, BLANK), f.zero || Occurs(fmt, i, j, ZERO)), j)
    decreases j - i
  {
    if i < j {
      assert IsFlag(fmt[i]);
      OccursFrom(fmt, i, j, MINUS);
      OccursFrom(fmt, i, j, PLUS);
      OccursFrom(fmt, i, j, BLANK);
      OccursFrom(fmt, i, j, ZERO);
      FlagsRead(fmt, i + 1, j, ReadFlag(f, fmt[i]));
    }
  }

  ghost function ReadFlag(f: Flags, b: byte): Flags {
    Flags(f.left || b == MINUS, f.plus || b == PLUS, f.space || b == BLANK, f.zero || b == ZERO)
  }

  /** Flags up to `j`, a width up to `w`, a point and a precision up to `p`, a qualifier up to `q`; each
      of the last three may be missing. */
  ghost predicate Directive(fmt: Text, i: nat, j: nat, w: nat, p: nat, q: nat) {
    && FlagBytes(fmt, i, j) && !IsFlag(At(fmt, j))
    && AllDigits(fmt, j, w) && (w == p || (At(fmt, w) == POINT && AllDigits(fmt, w + 1, p)))
    && !IsDigit(At(fmt, p)) && At(fmt, p) != STAR && (w == p ==> At(fmt, p) != POINT)
    && (if At(fmt, p) == 104 || At(fmt, p) == 108 then q == p + 1 else q == p)
  }

  /** A directive written with digits is read as its flags, the values of its numbers and its letter. */
  lemma DirectiveRead(fmt: Text, i: nat, j: nat, w: nat, p: nat, q: nat, args: seq<Arg>)
    requires Directive(fmt, i, j, w, p, q)
    ensures q <= |fmt|
    ensures ReadConversion(fmt, i, args) == Some(Conversion(
              Flags(Occurs(fmt, i, j, MINUS), Occurs(fmt, i, j, PLUS), Occurs(fmt, i, j, BLANK), Occurs(fmt, i, j, ZERO)),
              if j < w then Positional(fmt, j, w) else -1,
              if w < p then Positional(fmt, w + 1, p) else -1,
              if p < q then fmt[p] else 0, q, args))
  {
    FlagsRead(fmt, i, j, Flags(false, false, false, false));
    var f := Flags(Occurs(fmt, i, j, MINUS), Occurs(fmt, i, j, PLUS), Occurs(fmt, i, j, BLANK), Occurs(fmt, i, j, ZERO));
    WidthRead(fmt, j, w, Conversion(f, -1, -1, 0, j, args));
    PrecisionRead(fmt, w, p, Conversion(f, if j < w then Positional(fmt, j, w) else -1, -1, 0, w, args));
  }

  lemma WidthRead(fmt: Text, j: nat, w: nat, c: Conversion)
    requires AllDigits(fmt, j, w) && !IsDigit(At(fmt, w)) && (j == w ==> At(fmt, w) != STAR) && c.at == j && c.width == -1
    ensures ReadWidth(fmt, c) == Some(c.(width := if j < w then Positional(fmt, j, w) else -1, at := w))
  {
    ReadsPositional(fmt, j, w, 0);
  }

  lemma PrecisionRead(fmt: Text, w: nat, p: nat, c: Conversion)
    requires w <= |fmt| && !IsDigit(At(fmt, p)) && At(fmt, p) != STAR && c.at == w && c.precision == -1
    requires if w == p then At(fmt, w) != POINT else At(fmt, w) == POINT && AllDigits(fmt, w + 1, p)
    ensures ReadPrecision(fmt, c) == Some(c.(precision := if w < p then Positional(fmt, w + 1, p) else -1, at := p))
  {
    if w < p {
      ReadsPositional(fmt, w + 1, p, 0);
      assert w + 1 < p ==> IsDigit(fmt[w + 1]);
    }
  }
}
