/** JSON trees, the text cJSON prints for them and the parser that reads it back.

    This file is the specification: `Render` says what text a tree prints as, `ParseValue`
    follows the recursive parser over a C string (reading past the end gives NUL). */
module Json {
  import opened Bytes

  datatype Json =
    | Null
    | False
    | True
    | Number(value: real)
    | String(text: Text)
    | Array(items: seq<Json>)
    | Object(members: seq<Member>)

  datatype Member = Member(name: Text, value: Json)

  const TAB: byte := 9
  const LF: byte := 10
  const SPACE: byte := 32
  const QUOTE: byte := 34
  const COMMA: byte := 44
  const MINUS: byte := 45
  const DOT: byte := 46
  const ZERO: byte := 48
  const COLON: byte := 58
  const LBRACKET: byte := 91
  const BACKSLASH: byte := 92
  const RBRACKET: byte := 93
  const LBRACE: byte := 123
  const RBRACE: byte := 125
  const NULL_TEXT: Text := [110, 117, 108, 108]
  const FALSE_TEXT: Text := [102, 97, 108, 115, 101]
  const TRUE_TEXT: Text := [116, 114, 117, 101]

  // ----- printing

  /** Decimal digits, most significant first. */
  function Digits(n: nat): (r: Text)
    ensures r != []
  {
    if n < 10 then [ZERO + n] else Digits(n / 10) + [ZERO + n % 10]
  }

  function Decimal(n: int): Text {
    if n < 0 then [MINUS] + Digits(-n) else Digits(n)
  }

  function HexDigit(d: nat): byte
    requires d < 16
  {
    if d < 10 then 48 + d else 87 + d
  }

  /** How a byte appears inside a quoted string. */
  function EscapeByte(b: byte): (r: Text)
    ensures 1 <= |r| <= 6
  {
    if b == QUOTE || b == BACKSLASH then [BACKSLASH, b]
    else if b == 8 then [BACKSLASH, 98]
    else if b == 12 then [BACKSLASH, 102]
    else if b == 10 then [BACKSLASH, 110]
    else if b == 13 then [BACKSLASH, 114]
    else if b == 9 then [BACKSLASH, 116]
    else if b < 32 then [BACKSLASH, 117, 48, 48, HexDigit(b / 16), HexDigit(b % 16)]
    else [b]
  }

  function Escape(s: Text): Text {
    if s == [] then [] else EscapeByte(s[0]) + Escape(s[1..])
  }

  function Quote(s: Text): Text {
    [QUOTE] + Escape(s) + [QUOTE]
  }

  function Tabs(n: nat): (r: Text)
    ensures |r| == n
  {
    if n == 0 then [] else [TAB] + Tabs(n - 1)
  }

  function If(c: bool, t: Text): Text {
    if c then t else []
  }

  function Render(v: Json, depth: nat, fmt: bool): Text
    decreases v, 1
  {
    match v
    case Null => NULL_TEXT
    case False => FALSE_TEXT
    case True => TRUE_TEXT
    case Number(x) => Decimal(x.Floor)
    case String(t) => Quote(t)
    case Array(items) =>
      if items == [] then [LBRACKET, RBRACKET]
      else [LBRACKET] + RenderItems(items, depth + 1, fmt) + [RBRACKET]
    case Object(members) =>
      if members == [] then [LBRACE] + If(fmt, [LF] + Tabs(if depth == 0 then 0 else depth - 1)) + [RBRACE]
      else [LBRACE] + If(fmt, [LF]) + RenderMembers(members, depth + 1, fmt) + If(fmt, Tabs(depth)) + [RBRACE]
  }

  function RenderItems(items: seq<Json>, depth: nat, fmt: bool): Text
    requires items != []
    decreases items, 0
  {
    if |items| == 1 then Render(items[0], depth, fmt)
    else Render(items[0], depth, fmt) + [COMMA] + If(fmt, [SPACE]) + RenderItems(items[1..], depth, fmt)
  }

  function RenderPair(m: Member, depth: nat, fmt: bool): Text
    decreases m, 0
  {
    Quote(m.name) + [COLON] + If(fmt, [TAB]) + Render(m.value, depth, fmt)
  }

  function RenderMember(m: Member, last: bool, depth: nat, fmt: bool): Text
    decreases m, 1
  {
    If(fmt, Tabs(depth)) + RenderPair(m, depth, fmt) + If(!last, [COMMA]) + If(fmt, [LF])
  }

  function RenderMembers(members: seq<Member>, depth: nat, fmt: bool): Text
    decreases members, 0
  {
    if members == [] then []
    else RenderMember(members[0], |members| == 1, depth, fmt) + RenderMembers(members[1..], depth, fmt)
  }

  // ----- parsing

  datatype Parsed<T> = Fail | Done(value: T, end: nat)

  function Skip(s: Text, i: nat): (j: nat)
    requires i <= |s|
    ensures i <= j <= |s|
    decreases |s| - i
  {
    if i < |s| && s[i] != 0 && s[i] <= 32 then Skip(s, i + 1) else i
  }

  function Pow10(e: int): real
    decreases if e < 0 then -e else e
  {
    if e == 0 then 1.0 else if e > 0 then 10.0 * Pow10(e - 1) else Pow10(e + 1) / 10.0
  }

  function ParseNumber(s: Text, i: nat): (r: Parsed<Json>)
    requires i < |s| && (s[i] == MINUS || IsDigit(s[i]))
    ensures r.Done? && i < r.end <= |s|
  {
    var negative := s[i] == MINUS;
    var i1 := if negative then i + 1 else i;
    var (n2, i2) := Whole(s, i1);
    var (n3, i3) := Fraction(s, i2, n2);
    var scale := if i3 > i2 then i2 + 1 - i3 else 0;
    var (e, i4) := Exponent(s, i3);
    Done(Number(Signed(negative, n3, scale + e)), i4)
  }

  /** The digits in front of the point: an optional zero, then a number that does not start with one. */
  function Whole(s: Text, i: nat): (r: (nat, nat))
    requires i <= |s|
    ensures i <= r.1 <= |s| && (IsDigit(At(s, i)) ==> i < r.1)
  {
    var j := if At(s, i) == ZERO then i + 1 else i;
    if 49 <= At(s, j) <= 57 then ReadDigits(s, j, 0) else (0, j)
  }

  /** The digits behind the point, read on into `n`. */
  function Fraction(s: Text, i: nat, n: nat): (r: (nat, nat))
    requires i <= |s|
    ensures i <= r.1 <= |s|
  {
    if At(s, i) == DOT && IsDigit(At(s, i + 1)) then ReadDigits(s, i + 1, n) else (n, i)
  }

  function Exponent(s: Text, i: nat): (r: (int, nat))
    requires i <= |s|
    ensures i <= r.1 <= |s|
  {
    if At(s, i) == 101 || At(s, i) == 69 then
      var minus := At(s, i + 1) == MINUS;
      var j := if At(s, i + 1) == 43 || minus then i + 2 else i + 1;
      var (e, k) := ReadDigits(s, j, 0);
      (if minus then 0 - e else e, k)
    else (0, i)
  }

  function Signed(negative: bool, n: nat, exponent: int): real {
    (if negative then -1.0 else 1.0) * (n as real) * Pow10(exponent)
  }

  function HexValue(b: byte): (d: int)
    ensures -1 <= d < 16
  {
    if 48 <= b <= 57 then b - 48
    else if 65 <= b <= 70 then b - 55
    else if 97 <= b <= 102 then b - 87
    else -1
  }

  /** `parse_hex4`: four hexadecimal digits, 0 if one of them is not. */
  function Hex4(s: Text, i: nat): (r: nat)
    requires i + 4 <= |s|
    ensures r < 0x10000
  {
    var a, b, c, d := HexValue(s[i]), HexValue(s[i + 1]), HexValue(s[i + 2]), HexValue(s[i + 3]);
    if a < 0 || b < 0 || c < 0 || d < 0 then 0 else ((a * 16 + b) * 16 + c) * 16 + d
  }

  /** The UTF-8 bytes of a code point. */
  function Utf8(u: nat): (r: Text)
    requires 0 < u < 0x110000
    ensures 1 <= |r| <= 4
  {
    if u < 0x80 then [u]
    else if u < 0x800 then [0xC0 + u / 64, 0x80 + u % 64]
    else if u < 0x10000 then [0xE0 + u / 4096, 0x80 + u / 64 % 64, 0x80 + u % 64]
    else [0xF0 + u / 262144, 0x80 + u / 4096 % 64, 0x80 + u / 64 % 64, 0x80 + u % 64]
  }

  /** The escape whose character after the backslash is at `i`: the bytes it stands for and where
      it ends.  An escape that runs past the end of the text is outside the model. */
  function ParseEscape(s: Text, i: nat): (r: Parsed<Text>)
    ensures r.Done? ==> i < r.end <= |s|
  {
    if i >= |s| then Fail
    else if s[i] == 98 then Done([8], i + 1)
    else if s[i] == 102 then Done([12], i + 1)
    else if s[i] == 110 then Done([10], i + 1)
    else if s[i] == 114 then Done([13], i + 1)
    else if s[i] == 116 then Done([9], i + 1)
    else if s[i] != 117 then Done([s[i]], i + 1)
    else if i + 5 > |s| then Fail
    else
      var u := Hex4(s, i + 1);
      if 0xDC00 <= u <= 0xDFFF || u == 0 then Done([], i + 5)
      else if 0xD800 <= u <= 0xDBFF then
        if At(s, i + 5) != BACKSLASH || At(s, i + 6) != 117 then Done([], i + 5)
        else if i + 11 > |s| then Fail
        else
          var u2 := Hex4(s, i + 7);
          if u2 < 0xDC00 || u2 > 0xDFFF then Done([], i + 11)
          else Done(Utf8(0x10000 + (u - 0xD800) * 1024 + (u2 - 0xDC00)), i + 11)
      else Done(Utf8(u), i + 5)
  }

  /** The characters of a string literal from `i` up to the closing quote or the end. */
  function ParseChars(s: Text, i: nat): (r: Parsed<Text>)
    requires i <= |s|
    ensures r.Done? ==> i <= r.end <= |s|
    decreases |s| - i, 0
  {
    if At(s, i) == 0 then Done([], i)
    else if s[i] == QUOTE then Done([], i + 1)
    else if s[i] != BACKSLASH then Prepend([s[i]], ParseChars(s, i + 1))
    else ParseEscaped(s, i + 1)
  }

  /** The same, just behind a backslash. */
  function ParseEscaped(s: Text, i: nat): (r: Parsed<Text>)
    requires i <= |s|
    ensures r.Done? ==> i < r.end <= |s|
    decreases |s| - i, 1
  {
    match ParseEscape(s, i)
    case Fail => Fail
    case Done(e, k) => Prepend(e, ParseChars(s, k))
  }

  function Prepend(t: Text, r: Parsed<Text>): Parsed<Text> {
    match r
    case Fail => Fail
    case Done(u, j) => Done(t + u, j)
  }

  function ParseString(s: Text, i: nat): (r: Parsed<Text>)
    requires i <= |s|
    ensures r.Done? ==> i < r.end <= |s|
  {
    if At(s, i) != QUOTE then Fail else ParseChars(s, i + 1)
  }

  /** `strncmp` at `i`: the text `t` stands there. */
  predicate HasAt(s: Text, i: nat, t: Text) {
    i + |t| <= |s| && Matches(s, i, t, 0)
  }

  predicate Matches(s: Text, i: nat, t: Text, k: nat)
    requires k <= |t| && i + |t| <= |s|
    decreases |t| - k
  {
    k == |t| || (s[i + k] == t[k] && Matches(s, i, t, k + 1))
  }

  lemma {:induction false} MatchesSlice(s: Text, i: nat, t: Text, k: nat)
    requires k <= |t| && i + |t| <= |s|
    ensures Matches(s, i, t, k) <==> s[i + k..i + |t|] == t[k..]
    decreases |t| - k
  {
    if k < |t| {
      MatchesSlice(s, i, t, k + 1);
      assert s[i + k..i + |t|] == [s[i + k]] + s[i + k + 1..i + |t|];
      assert t[k..] == [t[k]] + t[k + 1..];
    }
  }

  lemma HasSlice(s: Text, i: nat, t: Text)
    ensures HasAt(s, i, t) <==> i + |t| <= |s| && s[i..i + |t|] == t
  {
    if i + |t| <= |s| {
      MatchesSlice(s, i, t, 0);
      assert t[0..] == t;
    }
  }

  function ParseValue(s: Text, i: nat): (r: Parsed<Json>)
    requires i <= |s|
    ensures r.Done? ==> i < r.end <= |s|
    decreases |s| - i, 1
  {
    if HasAt(s, i, NULL_TEXT) then Done(Null, i + 4)
    else if HasAt(s, i, FALSE_TEXT) then Done(False, i + 5)
    else if HasAt(s, i, TRUE_TEXT) then Done(True, i + 4)
    else if At(s, i) == QUOTE then
      match ParseString(s, i)
      case Fail => Fail
      case Done(t, j) => Done(String(t), j)
    else if At(s, i) == MINUS || IsDigit(At(s, i)) then ParseNumber(s, i)
    else if At(s, i) == LBRACKET then
      var j := Skip(s, i + 1);
      if At(s, j) == RBRACKET then Done(Array([]), j + 1)
      else
        match ParseItems(s, i + 1)
        case Fail => Fail
        case Done(items, k) => Done(Array(items), k)
    else if At(s, i) == LBRACE then
      var j := Skip(s, i + 1);
      if At(s, j) == RBRACE then Done(Object([]), j + 1)
      else
        match ParseMembers(s, i + 1)
        case Fail => Fail
        case Done(members, k) => Done(Object(members), k)
    else Fail
  }

  /** One item, then either a comma and the rest or the closing bracket. */
  function ParseItems(s: Text, i: nat): (r: Parsed<seq<Json>>)
    requires i <= |s|
    ensures r.Done? ==> i < r.end <= |s|
    decreases |s| - i, 2
  {
    match ParseValue(s, Skip(s, i))
    case Fail => Fail
    case Done(v, k) =>
      var j := Skip(s, k);
      if At(s, j) == COMMA then
        match ParseItems(s, j + 1)
        case Fail => Fail
        case Done(rest, e) => Done([v] + rest, e)
      else if At(s, j) == RBRACKET then Done([v], j + 1)
      else Fail
  }

  /** A name, a colon and a value. */
  function ParseMember(s: Text, i: nat): (r: Parsed<Member>)
    requires i <= |s|
    ensures r.Done? ==> i < r.end <= |s|
    decreases |s| - i, 2
  {
    match ParseString(s, Skip(s, i))
    case Fail => Fail
    case Done(name, k) =>
      var j := Skip(s, k);
      if At(s, j) != COLON then Fail
      else
        match ParseValue(s, Skip(s, j + 1))
        case Fail => Fail
        case Done(v, e) => Done(Member(name, v), e)
  }

  function ParseMembers(s: Text, i: nat): (r: Parsed<seq<Member>>)
    requires i <= |s|
    ensures r.Done? ==> i < r.end <= |s|
    decreases |s| - i, 3
  {
    match ParseMember(s, i)
    case Fail => Fail
    case Done(m, k) =>
      var j := Skip(s, k);
      if At(s, j) == COMMA then
        match ParseMembers(s, j + 1)
        case Fail => Fail
        case Done(rest, e) => Done([m] + rest, e)
      else if At(s, j) == RBRACE then Done([m], j + 1)
      else Fail
  }
}
