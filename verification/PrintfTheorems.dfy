/** What the formatter prints for the formats other code in the repository relies on. */
module PrintfTheorems {
  import opened Bytes
  import opened Collections
  import opened Printf
  import Json

  const PLAIN: Flags := Flags(false, false, false, false)

  /** A conversion letter right behind the percent sign. */
  lemma PlainConversion(fmt: Text, i: nat, args: seq<Arg>)
    requires i < |fmt| && (fmt[i] == 100 || fmt[i] == 115)
    ensures ReadConversion(fmt, i, args) == Some(Conversion(PLAIN, -1, -1, 0, i, args))
  {
    assert ReadFlags(fmt, i, PLAIN) == (PLAIN, i);
  }

  lemma NoPad(n: int, b: byte)
    requires n <= 0
    ensures Pad(n, b) == []
  {
  }

  // ----- "%d"

  lemma {:induction false} SameDigits(n: nat)
    requires n > 0
    ensures Digits(n, 10, false) == Json.Digits(n)
  {
    if n < 10 {
      assert Digits(n / 10, 10, false) == [];
    } else {
      SameDigits(n / 10);
    }
  }

  lemma PlainNumber(num: Word, c: Conversion, style: Style)
    requires c.flags == PLAIN && c.width == -1 && c.precision == -1
    ensures NumberField(num, c, style) == Sign(num, PLAIN, style) + Numeral(Magnitude(num, style), Base(style.base), style.large)
  {
    var sign, digits := Sign(num, PLAIN, style), Numeral(Magnitude(num, style), Base(style.base), style.large);
    var room := c.width - Max(c.precision, |digits|) - |sign|;
    NoPad(room, BLANK);
    NoPad(0, ZERO);
    NoPad(0, BLANK);
    NoPad(c.precision - |digits|, ZERO);
    assert Lead(sign, room, c.flags) == sign;
    assert Trail(digits, room, c) == digits;
  }

  /** The argument word of a signed number. */
  function WordOf(n: int): Word
    requires -0x8000_0000 <= n < 0x8000_0000
  {
    if n < 0 then n + 0x1_0000_0000 else n
  }

  /** `%d` prints every 32-bit integer in decimal. */
  lemma FormatDecimal(n: int)
    requires -0x8000_0000 <= n < 0x8000_0000
    ensures Format([PERCENT, 100], 0, [Word(WordOf(n))]) == Some(Json.Decimal(n))
  {
    var fmt, args := [PERCENT, 100], [Word(WordOf(n))];
    var c, style := Conversion(PLAIN, -1, -1, 0, 1, args), Style(true, 10, false);
    PlainConversion(fmt, 1, args);
    PlainNumber(WordOf(n), c, style);
    if n != 0 {
      SameDigits(if n < 0 then -n else n);
    }
    assert NumberField(WordOf(n), c, style) == Json.Decimal(n);
    assert Convert(100, c) == Some(Piece(Json.Decimal(n), args[1..]));
    assert Format(fmt, 2, args[1..]) == Some([]);
    assert Json.Decimal(n) + [] == Json.Decimal(n);
  }

  // ----- "%s/%s"

  const PATH_FORMAT: Text := [PERCENT, 115, 47, PERCENT, 115]

  lemma PlainString(s: Text, c: Conversion)
    requires c.flags == PLAIN && c.width == -1 && c.precision == -1
    ensures StringField(s, c) == s
  {
    NoPad(-1 - |s|, BLANK);
  }

  lemma FormatString(fmt: Text, i: nat, w: Word, s: Text, args: seq<Arg>)
    requires i + 2 <= |fmt| && fmt[i] == PERCENT && fmt[i + 1] == 115 && w != 0
    ensures Format(fmt, i, [Pointer(w, s)] + args) == After(s, Format(fmt, i + 2, args))
  {
    var all := [Pointer(w, s)] + args;
    assert all[1..] == args;
    PlainConversion(fmt, i + 1, all);
    PlainString(s, Conversion(PLAIN, -1, -1, 0, i + 1, all));
  }

  /** `%s/%s` prints the two strings with a slash between them. */
  lemma FormatPath(p: Word, prefix: Text, q: Word, path: Text)
    requires p != 0 && q != 0
    ensures Format(PATH_FORMAT, 0, [Pointer(p, prefix), Pointer(q, path)]) == Some(prefix + [47] + path)
  {
    var second := [Pointer(q, path)];
    assert [Pointer(p, prefix), Pointer(q, path)] == [Pointer(p, prefix)] + second;
    FormatString(PATH_FORMAT, 0, p, prefix, second);
    assert Format(PATH_FORMAT, 2, second) == After([47], Format(PATH_FORMAT, 3, second));
    assert second == second + [];
    FormatString(PATH_FORMAT, 3, q, path, []);
    assert path + [] == path;
    assert prefix + ([47] + path) == prefix + [47] + path;
  }
}
