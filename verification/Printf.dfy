/** `rt_vsnprintf`: formatted output into a buffer of limited size.

    `Format` is the unbounded output.  What a conversion prints is what the source prints, which is
    not always what the C standard asks for: `%o` prints hexadecimal digits, and a precision of zero
    leaves the digits out. */
module Printf {
  import opened Bytes
  import opened Collections

  type Word = x: int | 0 <= x < 0x1_0000_0000

  /** An argument is a word; a pointer to a string comes with the string. */
  datatype Arg = Word(word: Word) | Pointer(word: Word, text: Text)

  datatype Flags = Flags(left: bool, plus: bool, space: bool, zero: bool)

  const BLANK: byte := 32
  const PLUS: byte := 43
  const MINUS: byte := 45
  const PERCENT: byte := 37
  const STAR: byte := 42
  const POINT: byte := 46
  const ZERO: byte := 48
  const NULL_NAME: Text := [40, 78, 85, 76, 76, 41]

  // ----- reading a conversion

  function ReadFlags(fmt: Text, i: nat, f: Flags): (r: (Flags, nat))
    requires i <= |fmt|
    ensures i <= r.1 <= |fmt|
    decreases |fmt| - i
  {
    var c := At(fmt, i);
    if c == MINUS then ReadFlags(fmt, i + 1, f.(left := true))
    else if c == PLUS then ReadFlags(fmt, i + 1, f.(plus := true))
    else if c == BLANK then ReadFlags(fmt, i + 1, f.(space := true))
    else if c == 35 then ReadFlags(fmt, i + 1, f)
    else if c == ZERO then ReadFlags(fmt, i + 1, f.(zero := true))
    else (f, i)
  }

  /** The part of a conversion in front of its letter, which stands at `at`. */
  datatype Conversion = Conversion(flags: Flags, width: int, precision: int, qualifier: byte, at: nat, args: seq<Arg>)

  function ReadWidth(fmt: Text, c: Conversion): (r: Option<Conversion>)
    requires c.at <= |fmt|
    ensures r.Some? ==> c.at <= r.value.at <= |fmt|
  {
    if IsDigit(At(fmt, c.at)) then
      var (w, j) := ReadDigits(fmt, c.at, 0);
      Some(c.(width := w, at := j))
    else if At(fmt, c.at) != STAR then Some(c)
    else if c.args == [] then None
    else
      var w := Int32(c.args[0].word);
      var d := c.(at := c.at + 1, args := c.args[1..]);
      Some(if w < 0 then d.(width := -w, flags := c.flags.(left := true)) else d.(width := w))
  }

  function ReadPrecision(fmt: Text, c: Conversion): (r: Option<Conversion>)
    requires c.at <= |fmt|
    ensures r.Some? ==> c.at <= r.value.at <= |fmt|
  {
    var i := c.at + 1;
    if At(fmt, c.at) != POINT then Some(c)
    else if IsDigit(At(fmt, i)) then
      var (p, j) := ReadDigits(fmt, i, 0);
      Some(c.(precision := p, at := j))
    else if At(fmt, i) != STAR then Some(c.(precision := 0, at := i))
    else if c.args == [] then None
    else
      var p := Int32(c.args[0].word);
      Some(c.(precision := if p < 0 then 0 else p, at := i + 1, args := c.args[1..]))
  }

  function ReadQualifier(fmt: Text, c: Conversion): (r: Conversion)
    requires c.at <= |fmt|
    ensures c.at <= r.at <= |fmt|
  {
    var q := At(fmt, c.at);
    if q == 104 || q == 108 then c.(qualifier := q, at := c.at + 1) else c
  }

  function ReadConversion(fmt: Text, i: nat, args: seq<Arg>): (r: Option<Conversion>)
    requires i <= |fmt|
    ensures r.Some? ==> i <= r.value.at <= |fmt|
  {
    var (f, j) := ReadFlags(fmt, i, Flags(false, false, false, false));
    match ReadWidth(fmt, Conversion(f, -1, -1, 0, j, args))
    case None => None
    case Some(c) =>
      match ReadPrecision(fmt, c)
      case None => None
      case Some(d) => Some(ReadQualifier(fmt, d))
  }

  // ----- what a conversion prints

  function Pad(n: int, b: byte): (t: Text)
    ensures |t| == if n > 0 then n else 0
    decreases if n > 0 then n else 0
  {
    if n > 0 then Pad(n - 1, b) + [b] else []
  }

  function CharField(b: byte, c: Conversion): Text {
    if c.flags.left then [b] + Pad(c.width - 1, BLANK) else Pad(c.width - 1, BLANK) + [b]
  }

  function StringField(s: Text, c: Conversion): Text {
    var t := if 0 < c.precision < |s| then s[..c.precision] else s;
    if c.flags.left then t + Pad(c.width - |t|, BLANK) else Pad(c.width - |t|, BLANK) + t
  }

  function Letter(d: nat, large: bool): byte
    requires d < 16
  {
    if d < 10 then 48 + d else if large then 55 + d else 87 + d
  }

  /** `divide` knows two bases. */
  function Base(base: nat): (b: nat)
    ensures b == 10 || b == 16
  {
    if base == 10 then 10 else 16
  }

  /** The digits of a number, none for zero. */
  function Digits(n: nat, base: nat, large: bool): Text
    requires base == 10 || base == 16
  {
    if n == 0 then [] else Digits(n / base, base, large) + [Letter(n % base, large)]
  }

  function Numeral(n: nat, base: nat, large: bool): (t: Text)
    requires base == 10 || base == 16
    ensures t != []
  {
    if n == 0 then [ZERO] else Digits(n, base, large)
  }

  /** How `print_number` is told to print. */
  datatype Style = Style(signed: bool, base: nat, large: bool)

  function Sign(num: Word, f: Flags, style: Style): Text {
    if !style.signed then []
    else if num >= 0x8000_0000 then [MINUS]
    else if f.plus then [PLUS]
    else if f.space then [BLANK]
    else []
  }

  function Magnitude(num: Word, style: Style): Word {
    if style.signed && num >= 0x8000_0000 then 0x1_0000_0000 - num else num
  }

  /** Sign, zeros up to the precision and digits, padded to the width on the left with blanks or,
      behind the sign, with zeros, or on the right with blanks. */
  function NumberField(num: Word, c: Conversion, style: Style): Text {
    var sign := Sign(num, c.flags, style);
    var digits := Numeral(Magnitude(num, style), Base(style.base), style.large);
    var room := c.width - Max(c.precision, |digits|) - |sign|;
    Lead(sign, room, c.flags) + Trail(digits, room, c)
  }

  function Max(a: int, b: int): int {
    if a < b then b else a
  }

  function Lead(sign: Text, room: int, f: Flags): Text {
    Pad(if f.left || f.zero then 0 else room, BLANK) + sign + Pad(if !f.left && f.zero then room else 0, ZERO)
  }

  function Trail(digits: Text, room: int, c: Conversion): Text {
    Pad(c.precision - |digits|, ZERO) + (if c.precision == 0 then [] else digits) + Pad(if c.flags.left then room else 0, BLANK)
  }

  /** The argument as the number the qualifier makes of it. */
  function Narrow(w: Word, qualifier: byte, signed: bool): Word {
    if qualifier != 104 then w
    else
      var h := w % 0x1_0000;
      if signed && h >= 0x8000 then h + 0xFFFF_0000 else h
  }

  function StyleOf(letter: byte): Option<Style> {
    if letter == 111 then Some(Style(false, 8, false))
    else if letter == 88 then Some(Style(false, 16, true))
    else if letter == 120 then Some(Style(false, 16, false))
    else if letter == 100 || letter == 105 then Some(Style(true, 10, false))
    else if letter == 117 then Some(Style(false, 10, false))
    else None
  }

  /** The text of a conversion, and the arguments it leaves. */
  datatype Piece = Piece(text: Text, args: seq<Arg>)

  function Convert(letter: byte, c: Conversion): Option<Piece> {
    if letter == 99 || letter == 115 || letter == 112 || StyleOf(letter).Some? then
      if c.args == [] then None
      else
        match ConvertArg(letter, c, c.args[0])
        case None => None
        case Some(t) => Some(Piece(t, c.args[1..]))
    else if letter == PERCENT || letter == 0 then Some(Piece([PERCENT], c.args))
    else Some(Piece([PERCENT, letter], c.args))
  }

  function ConvertArg(letter: byte, c: Conversion, arg: Arg): Option<Text>
    requires letter == 99 || letter == 115 || letter == 112 || StyleOf(letter).Some?
  {
    if letter == 99 then Some(CharField(arg.word % 256, c))
    else if letter == 115 then
      if arg.word == 0 then Some(StringField(NULL_NAME, c))
      else if arg.Pointer? then Some(StringField(arg.text, c))
      else None
    else if letter == 112 then
      var d := if c.width == -1 then c.(width := 8, flags := c.flags.(zero := true)) else c;
      Some(NumberField(arg.word, d, Style(false, 16, false)))
    else
      var style := StyleOf(letter).value;
      Some(NumberField(Narrow(arg.word, c.qualifier, style.signed), c, style))
  }

  /** The unbounded output of the format from `i` on; `None` if the argument list does not hold what the
      format asks for. */
  function Format(fmt: Text, i: nat, args: seq<Arg>): Option<Text>
    requires i <= |fmt|
    decreases |fmt| - i
  {
    if i == |fmt| then Some([])
    else if fmt[i] != PERCENT then After([fmt[i]], Format(fmt, i + 1, args))
    else
      match ReadConversion(fmt, i + 1, args)
      case None => None
      case Some(c) =>
        match Convert(At(fmt, c.at), c)
        case None => None
        case Some(p) => After(p.text, Format(fmt, Min(c.at + 1, |fmt|), p.args))
  }

  function After(t: Text, r: Option<Text>): Option<Text> {
    match r
    case None => None
    case Some(u) => Some(t + u)
  }

  // ----- bounded writing

  /** The first `n` bytes of `a` show the output so far. */
  ghost predicate Shows(a: array<byte>, n: nat, out: Text)
    reads a
  {
    n <= a.Length && forall k :: 0 <= k < |out| && k < n ==> a[k] == out[k]
  }

  /** `if (str < end) *str = b; ++str`. */
  method Put(a: array<byte>, n: nat, str: nat, b: byte, ghost out: Text) returns (next: nat)
    requires Shows(a, n, out) && str == |out|
    modifies a
    ensures Shows(a, n, out + [b]) && next == |out + [b]|
    ensures forall k :: n <= k < a.Length ==> a[k] == old(a[k])
  {
    if str < n {
      a[str] := b;
    }
    next := str + 1;
  }

  method PutPad(a: array<byte>, n: nat, str: nat, count: int, b: byte, ghost out: Text) returns (next: nat)
    requires Shows(a, n, out) && str == |out|
    modifies a
    ensures Shows(a, n, out + Pad(count, b)) && next == |out + Pad(count, b)|
    ensures forall k :: n <= k < a.Length ==> a[k] == old(a[k])
  {
    next := str;
    var k := 0;
    assert out + Pad(0, b) == out;
    while k < count
      invariant 0 <= k && (k <= count || k == 0)
      invariant Shows(a, n, out + Pad(k, b)) && next == |out + Pad(k, b)|
      invariant forall k :: n <= k < a.Length ==> a[k] == old(a[k])
    {
      next := Put(a, n, next, b, out + Pad(k, b));
      assert out + Pad(k, b) + [b] == out + Pad(k + 1, b);
      k := k + 1;
    }
    assert Pad(count, b) == Pad(k, b);
  }

  method PutText(a: array<byte>, n: nat, str: nat, t: Text, ghost out: Text) returns (next: nat)
    requires Shows(a, n, out) && str == |out|
    modifies a
    ensures Shows(a, n, out + t) && next == |out + t|
    ensures forall k :: n <= k < a.Length ==> a[k] == old(a[k])
  {
    next := str;
    var k := 0;
    assert out + t[..0] == out;
    while k < |t|
      invariant k <= |t|
      invariant Shows(a, n, out + t[..k]) && next == |out + t[..k]|
      invariant forall k :: n <= k < a.Length ==> a[k] == old(a[k])
    {
      next := Put(a, n, next, t[k], out + t[..k]);
      assert out + t[..k] + [t[k]] == out + t[..k + 1];
      k := k + 1;
    }
    assert t[..k] == t;
  }

  // ----- numbers

  function Reversed(t: Text): (r: Text)
    ensures |r| == |t|
  {
    if t == [] then [] else [t[|t| - 1]] + Reversed(t[..|t| - 1])
  }

  function Power(base: nat, k: nat): nat {
    if k == 0 then 1 else base * Power(base, k - 1)
  }

  lemma {:induction false} DigitsLength(n: nat, base: nat, large: bool, k: nat)
    requires (base == 10 || base == 16) && n < Power(base, k)
    ensures |Digits(n, base, large)| <= k
    decreases k
  {
    if n > 0 {
      if base == 10 {
        assert n / 10 < Power(10, k - 1);
      } else {
        assert n / 16 < Power(16, k - 1);
      }
      DigitsLength(n / base, base, large, k - 1);
    }
  }

  lemma WordDigits(n: Word, base: nat, large: bool)
    requires base == 10 || base == 16
    ensures |Digits(n, base, large)| <= 10
  {
    assert Power(10, 10) == 10000000000;
    assert Power(16, 10) == 0x100_0000_0000;
    DigitsLength(n, base, large, 10);
  }

  /** Fills `tmp` with the digits, last one first. */
  method FillDigits(tmp: array<byte>, num0: Word, base: nat, large: bool) returns (i: nat)
    requires tmp.Length == 16 && (base == 10 || base == 16)
    modifies tmp
    ensures 0 < i <= 16 && Reversed(tmp[..i]) == Numeral(num0, base, large)
  {
    i := 0;
    if num0 == 0 {
      tmp[0] := ZERO;
      assert tmp[..1] == [ZERO] && tmp[..1][..0] == [];
      return 1;
    }
    WordDigits(num0, base, large);
    var num: nat := num0;
    while num != 0
      invariant i <= 16 && i + |Digits(num, base, large)| == |Digits(num0, base, large)|
      invariant Digits(num, base, large) + Reversed(tmp[..i]) == Digits(num0, base, large)
    {
      var digit := Letter(num % base, large);
      ghost var before := tmp[..i];
      tmp[i] := digit;
      assert tmp[..i + 1] == before + [digit] && tmp[..i + 1][..i] == before;
      Associate(Digits(num / base, base, large), [digit], Reversed(before));
      num, i := num / base, i + 1;
    }
    assert [] + Reversed(tmp[..i]) == Reversed(tmp[..i]);
  }

  method PutReversed(a: array<byte>, n: nat, str: nat, tmp: array<byte>, i: nat, ghost out: Text) returns (next: nat)
    requires a != tmp && i <= tmp.Length && Shows(a, n, out) && str == |out|
    modifies a
    ensures Shows(a, n, out + Reversed(tmp[..i])) && next == |out + Reversed(tmp[..i])|
    ensures forall k :: n <= k < a.Length ==> a[k] == old(a[k])
  {
    next := str;
    var k: nat := i;
    ghost var shown: Text := [];
    while k > 0
      invariant k <= i && shown + Reversed(tmp[..k]) == Reversed(tmp[..i])
      invariant Shows(a, n, out + shown) && next == |out + shown|
      invariant forall k :: n <= k < a.Length ==> a[k] == old(a[k])
    {
      k := k - 1;
      next := Put(a, n, next, tmp[k], out + shown);
      assert tmp[..k + 1][..k] == tmp[..k];
      Associate(shown, [tmp[k]], Reversed(tmp[..k]));
      Associate(out, shown, [tmp[k]]);
      shown := shown + [tmp[k]];
    }
    assert shown + [] == shown;
  }

  /** Padding in front of the sign, the sign, padding behind it; `size` is the room that is left. */
  method PutLead(a: array<byte>, n: nat, str: nat, sign: Text, size0: int, f: Flags, ghost out: Text)
    returns (next: nat, size: int)
    requires Shows(a, n, out) && str == |out| && |sign| <= 1
    modifies a
    ensures Shows(a, n, out + Lead(sign, size0 - |sign|, f)) && next == |out + Lead(sign, size0 - |sign|, f)|
    ensures if f.left then size == size0 - |sign| else size <= 0
    ensures forall k :: n <= k < a.Length ==> a[k] == old(a[k])
  {
    next, size := str, size0;
    ghost var front := Pad(if f.left || f.zero then 0 else size0 - |sign|, BLANK);
    if !f.zero && !f.left {
      if sign != [] && size > 0 {
        size := size - 1;
      }
      next := PutPad(a, n, next, size, BLANK, out);
      assert front == Pad(size, BLANK);
      size := if size > 0 then -1 else size - 1;
    }
    assert f.zero || f.left ==> out + front == out;
    next := PutText(a, n, next, sign, out + front);
    size := size - |sign|;
    ghost var behind: Text := [];
    if !f.left {
      var fill := if f.zero then ZERO else BLANK;
      next := PutPad(a, n, next, size, fill, out + front + sign);
      behind := Pad(size, fill);
      size := if size > 0 then -1 else size - 1;
    }
    assert out + front + sign + [] == out + front + sign;
    Joined(out, front, sign, behind);
  }

  /** Zeros, digits, padding. */
  method PutTrail(a: array<byte>, n: nat, str: nat, tmp: array<byte>, i: nat, size: int, c: Conversion,
                  ghost room: int, ghost out: Text) returns (next: nat)
    requires a != tmp && i <= tmp.Length && Shows(a, n, out) && str == |out|
    requires if c.flags.left then size == room else size <= 0
    modifies a
    ensures Shows(a, n, out + Trail(Reversed(tmp[..i]), room, c)) && next == |out + Trail(Reversed(tmp[..i]), room, c)|
    ensures forall k :: n <= k < a.Length ==> a[k] == old(a[k])
  {
    ghost var zeros := Pad(c.precision - i, ZERO);
    next := PutPad(a, n, str, c.precision - i, ZERO, out);
    ghost var shown: Text := [];
    assert out + zeros + [] == out + zeros;
    if c.precision != 0 {
      next := PutReversed(a, n, next, tmp, i, out + zeros);
      shown := Reversed(tmp[..i]);
    }
    next := PutPad(a, n, next, size, BLANK, out + zeros + shown);
    Joined(out, zeros, shown, Pad(size, BLANK));
  }

  lemma NumberParts(num: Word, c: Conversion, style: Style, sign: Text, digits: Text, room: int)
    returns (lead: Text, trail: Text)
    requires sign == Sign(num, c.flags, style) && digits == Numeral(Magnitude(num, style), Base(style.base), style.large)
    requires room == c.width - Max(c.precision, |digits|) - |sign|
    ensures lead == Lead(sign, room, c.flags) && trail == Trail(digits, room, c) && NumberField(num, c, style) == lead + trail
  {
    lead, trail := Lead(sign, room, c.flags), Trail(digits, room, c);
  }

  /** `print_number`. */
  method PrintNumber(a: array<byte>, n: nat, str: nat, num: Word, c: Conversion, style: Style, ghost out: Text)
    returns (next: nat)
    requires Shows(a, n, out) && str == |out|
    modifies a
    ensures Shows(a, n, out + NumberField(num, c, style)) && next == |out + NumberField(num, c, style)|
    ensures forall k :: n <= k < a.Length ==> a[k] == old(a[k])
  {
    var sign := Sign(num, c.flags, style);
    var tmp := new byte[16];
    var i := FillDigits(tmp, Magnitude(num, style), Base(style.base), style.large);
    var size := c.width - if i > c.precision then i else c.precision;
    ghost var room, digits := size - |sign|, tmp[..i];
    ghost var lead, trail := NumberParts(num, c, style, sign, Reversed(digits), room);
    next, size := PutLead(a, n, str, sign, size, c.flags, out);
    assert tmp[..i] == digits;
    next := PutTrail(a, n, next, tmp, i, size, c, room, out + lead);
    Associate(out, lead, trail);
  }

  // ----- characters and strings

  method PrintChar(a: array<byte>, n: nat, str: nat, b: byte, c: Conversion, ghost out: Text) returns (next: nat)
    requires Shows(a, n, out) && str == |out|
    modifies a
    ensures Shows(a, n, out + CharField(b, c)) && next == |out + CharField(b, c)|
    ensures forall k :: n <= k < a.Length ==> a[k] == old(a[k])
  {
    var pad := Pad(c.width - 1, BLANK);
    if !c.flags.left {
      next := PutPad(a, n, str, c.width - 1, BLANK, out);
      next := Put(a, n, next, b, out + pad);
      Associate(out, pad, [b]);
    } else {
      next := Put(a, n, str, b, out);
      next := PutPad(a, n, next, c.width - 1, BLANK, out + [b]);
      Associate(out, [b], pad);
    }
  }

  method PrintString(a: array<byte>, n: nat, str: nat, s: Text, c: Conversion, ghost out: Text) returns (next: nat)
    requires Shows(a, n, out) && str == |out|
    modifies a
    ensures Shows(a, n, out + StringField(s, c)) && next == |out + StringField(s, c)|
    ensures forall k :: n <= k < a.Length ==> a[k] == old(a[k])
  {
    var len := |s|;
    if c.precision > 0 && len > c.precision {
      len := c.precision;
    }
    var t := s[..len];
    assert s[..|s|] == s;
    var width := c.width;
    next := str;
    if !c.flags.left {
      next := PutPad(a, n, next, width - len, BLANK, out);
      next := PutText(a, n, next, t, out + Pad(width - len, BLANK));
      Associate(out, Pad(width - len, BLANK), t);
    } else {
      next := PutText(a, n, next, t, out);
      next := PutPad(a, n, next, width - len, BLANK, out + t);
      Associate(out, t, Pad(width - len, BLANK));
    }
  }

  // ----- the format

  method ScanFlags(fmt: Text, i: nat) returns (f: Flags, j: nat)
    requires i <= |fmt|
    ensures (f, j) == ReadFlags(fmt, i, Flags(false, false, false, false))
  {
    f, j := Flags(false, false, false, false), i;
    var more := true;
    while more
      invariant i <= j <= |fmt|
      invariant more ==> ReadFlags(fmt, j, f) == ReadFlags(fmt, i, Flags(false, false, false, false))
      invariant !more ==> (f, j) == ReadFlags(fmt, i, Flags(false, false, false, false))
      decreases more, |fmt| - j
    {
      var c := At(fmt, j);
      if c == MINUS {
        f := f.(left := true);
      } else if c == PLUS {
        f := f.(plus := true);
      } else if c == BLANK {
        f := f.(space := true);
      } else if c == ZERO {
        f := f.(zero := true);
      } else if c != 35 {
        more := false;
      }
      if more {
        j := j + 1;
      }
    }
  }

  method ScanWidth(fmt: Text, c: Conversion) returns (d: Conversion)
    requires c.at <= |fmt| && ReadWidth(fmt, c).Some?
    ensures d == ReadWidth(fmt, c).value
  {
    d := c;
    if IsDigit(At(fmt, c.at)) {
      var w, j := ScanDigits(fmt, c.at, 0);
      d := c.(width := w, at := j);
    } else if At(fmt, c.at) == STAR {
      var w := Int32(c.args[0].word);
      d := c.(width := w, at := c.at + 1, args := c.args[1..]);
      if w < 0 {
        d := d.(width := -w, flags := c.flags.(left := true));
      }
    }
  }

  method ScanPrecision(fmt: Text, c: Conversion) returns (d: Conversion)
    requires c.at <= |fmt| && ReadPrecision(fmt, c).Some?
    ensures d == ReadPrecision(fmt, c).value
  {
    d := c;
    if At(fmt, c.at) == POINT {
      d := c.(precision := -1, at := c.at + 1);
      if IsDigit(At(fmt, d.at)) {
        var p, j := ScanDigits(fmt, d.at, 0);
        d := d.(precision := p, at := j);
      } else if At(fmt, d.at) == STAR {
        d := d.(precision := Int32(c.args[0].word), at := d.at + 1, args := c.args[1..]);
      }
      if d.precision < 0 {
        d := d.(precision := 0);
      }
    }
  }

  method ScanConversion(fmt: Text, i: nat, args: seq<Arg>) returns (c: Conversion)
    requires i <= |fmt| && ReadConversion(fmt, i, args).Some?
    ensures c == ReadConversion(fmt, i, args).value
  {
    var f, j := ScanFlags(fmt, i);
    c := Conversion(f, -1, -1, 0, j, args);
    c := ScanWidth(fmt, c);
    c := ScanPrecision(fmt, c);
    c := ReadQualifier(fmt, c);
  }

  /** The `switch` on the conversion letter. */
  method PrintConversion(a: array<byte>, n: nat, str: nat, letter: byte, c: Conversion, ghost out: Text)
    returns (next: nat, args: seq<Arg>)
    requires Shows(a, n, out) && str == |out| && Convert(letter, c).Some?
    modifies a
    ensures args == Convert(letter, c).value.args
    ensures Shows(a, n, out + Convert(letter, c).value.text) && next == |out + Convert(letter, c).value.text|
    ensures forall k :: n <= k < a.Length ==> a[k] == old(a[k])
  {
    args := c.args;
    if letter == 99 || letter == 115 || letter == 112 || StyleOf(letter).Some? {
      next := PrintArg(a, n, str, letter, c, args[0], out);
      args := args[1..];
    } else {
      var t := if letter == PERCENT || letter == 0 then [PERCENT] else [PERCENT, letter];
      next := PutText(a, n, str, t, out);
    }
  }

  method PrintArg(a: array<byte>, n: nat, str: nat, letter: byte, c: Conversion, arg: Arg, ghost out: Text)
    returns (next: nat)
    requires letter == 99 || letter == 115 || letter == 112 || StyleOf(letter).Some?
    requires Shows(a, n, out) && str == |out| && ConvertArg(letter, c, arg).Some?
    modifies a
    ensures Shows(a, n, out + ConvertArg(letter, c, arg).value) && next == |out + ConvertArg(letter, c, arg).value|
    ensures forall k :: n <= k < a.Length ==> a[k] == old(a[k])
  {
    if letter == 99 {
      next := PrintChar(a, n, str, arg.word % 256, c, out);
    } else if letter == 115 {
      next := PrintString(a, n, str, if arg.word == 0 then NULL_NAME else arg.text, c, out);
    } else if letter == 112 {
      var d := if c.width == -1 then c.(width := 8, flags := c.flags.(zero := true)) else c;
      next := PrintNumber(a, n, str, arg.word, d, Style(false, 16, false), out);
    } else {
      var style := StyleOf(letter).value;
      next := PrintNumber(a, n, str, Narrow(arg.word, c.qualifier, style.signed), c, style, out);
    }
  }

  /** `rt_vsnprintf`: whatever the size `n`, it returns the length of the unbounded output; it leaves
      the first bytes of that output, ended by NUL, in the buffer and touches nothing behind `n`. */
  method Vsnprintf(a: array<byte>, n: nat, fmt: Text, args: seq<Arg>) returns (len: nat)
    requires n <= a.Length && NulFree(fmt) && Format(fmt, 0, args).Some?
    modifies a
    ensures len == |Format(fmt, 0, args).value|
    ensures n > 0 ==> var k := Min(len, n - 1); a[..k] == Format(fmt, 0, args).value[..k] && a[k] == 0
    ensures forall k :: n <= k < a.Length ==> a[k] == old(a[k])
  {
    ghost var all, out: Text := Format(fmt, 0, args).value, [];
    var str, i, rest := 0, 0, args;
    while i < |fmt|
      invariant i <= |fmt| && Format(fmt, i, rest).Some? && out + Format(fmt, i, rest).value == all
      invariant Shows(a, n, out) && str == |out|
      invariant forall k :: n <= k < a.Length ==> a[k] == old(a[k])
      decreases |fmt| - i
    {
      ghost var piece;
      if fmt[i] != PERCENT {
        str := Put(a, n, str, fmt[i], out);
        piece := [fmt[i]];
        i := i + 1;
      } else {
        var c := ScanConversion(fmt, i + 1, rest);
        var letter := At(fmt, c.at);
        piece := Convert(letter, c).value.text;
        str, rest := PrintConversion(a, n, str, letter, c, out);
        i := if letter == 0 then c.at else c.at + 1;
      }
      Associate(out, piece, Format(fmt, i, rest).value);
      out := out + piece;
    }
    assert out + [] == out;
    len := str;
    Terminate(a, n, str, out);
  }

  /** The NUL goes behind the text, or over its last byte that fits. */
  method Terminate(a: array<byte>, n: nat, str: nat, ghost out: Text)
    requires Shows(a, n, out) && str == |out|
    modifies a
    ensures n > 0 ==> var k := Min(|out|, n - 1); a[..k] == out[..k] && a[k] == 0
    ensures forall k :: n <= k < a.Length ==> a[k] == old(a[k])
  {
    if n > 0 {
      if str < n {
        a[str] := 0;
      } else {
        a[n - 1] := 0;
      }
    }
  }
}
