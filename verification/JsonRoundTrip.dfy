/** Parsing what cJSON prints gives the tree back. */
module JsonRoundTrip {
  import opened Bytes
  import opened Collections
  import opened Json

  /** Trees whose text is exact: whole numbers of 32 bits and strings without NUL. */
  predicate Printable(v: Json)
    decreases v, 1
  {
    match v
    case Number(x) => x == x.Floor as real && -0x8000_0000 <= x.Floor < 0x8000_0000
    case String(t) => NulFree(t)
    case Array(items) => PrintableItems(items)
    case Object(members) => PrintableMembers(members)
    case _ => true
  }

  predicate PrintableItems(items: seq<Json>)
    decreases items, 0
  {
    items == [] || (Printable(items[0]) && PrintableItems(items[1..]))
  }

  predicate PrintableMembers(members: seq<Member>)
    decreases members, 0
  {
    members == [] || (NulFree(members[0].name) && Printable(members[0].value) && PrintableMembers(members[1..]))
  }

  // ----- texts inside texts

  lemma HasParts(s: Text, i: nat, a: Text, b: Text)
    requires HasAt(s, i, a + b)
    ensures HasAt(s, i, a) && HasAt(s, i + |a|, b) && i + |a| + |b| <= |s|
  {
    HasSlice(s, i, a + b);
    HasSlice(s, i, a);
    HasSlice(s, i + |a|, b);
    assert s[i..i + |a|] == (s[i..i + |a + b|])[..|a|];
    assert s[i + |a|..i + |a| + |b|] == (s[i..i + |a + b|])[|a|..];
  }

  lemma HasByte(s: Text, i: nat, t: Text, k: nat)
    requires HasAt(s, i, t) && k < |t|
    ensures i + |t| <= |s| && At(s, i + k) == s[i + k] == t[k]
  {
    HasSlice(s, i, t);
    assert s[i..i + |t|][k] == s[i + k];
  }

  // ----- white space

  predicate White(t: Text) {
    WhiteFrom(t, 0)
  }

  predicate WhiteFrom(t: Text, k: nat)
    requires k <= |t|
    decreases |t| - k
  {
    k == |t| || (t[k] != 0 && t[k] <= 32 && WhiteFrom(t, k + 1))
  }

  lemma {:induction false} WhiteBytes(t: Text, k: nat)
    requires k <= |t|
    ensures WhiteFrom(t, k) <==> forall j :: k <= j < |t| ==> t[j] != 0 && t[j] <= 32
    decreases |t| - k
  {
    if k < |t| {
      WhiteBytes(t, k + 1);
    }
  }

  lemma WhiteJoined(a: Text, b: Text)
    requires White(a) && White(b)
    ensures White(a + b)
  {
    WhiteBytes(a, 0);
    WhiteBytes(b, 0);
    WhiteBytes(a + b, 0);
  }

  lemma {:induction false} SkipWhiteFrom(s: Text, i: nat, w: Text, k: nat)
    requires k <= |w| && i + |w| <= |s| && Matches(s, i, w, k) && WhiteFrom(w, k)
    requires i + |w| == |s| || s[i + |w|] == 0 || s[i + |w|] > 32
    ensures Skip(s, i + k) == i + |w|
    decreases |w| - k
  {
    if k < |w| {
      SkipWhiteFrom(s, i, w, k + 1);
    }
  }

  lemma SkipWhite(s: Text, i: nat, w: Text)
    requires HasAt(s, i, w) && White(w) && (i + |w| == |s| || s[i + |w|] == 0 || s[i + |w|] > 32)
    ensures Skip(s, i) == i + |w|
  {
    SkipWhiteFrom(s, i, w, 0);
  }

  lemma {:induction false} TabsBytes(n: nat)
    ensures forall j :: 0 <= j < n ==> Tabs(n)[j] == TAB
  {
    if n > 0 {
      TabsBytes(n - 1);
    }
  }

  lemma TabsWhite(n: nat)
    ensures White(Tabs(n))
  {
    TabsBytes(n);
    WhiteBytes(Tabs(n), 0);
  }

  // ----- numbers

  /** No digit, fraction or exponent follows at `i`. */
  predicate EndsNumber(s: Text, i: nat) {
    !IsDigit(At(s, i)) && At(s, i) != DOT && At(s, i) != 101 && At(s, i) != 69
  }

  lemma {:induction false} ReadsDigits(n: nat, s: Text, i: nat)
    requires HasAt(s, i, Digits(n))
    ensures ReadDigits(s, i, 0) == ReadDigits(s, i + |Digits(n)|, n)
    decreases n
  {
    if n < 10 {
      HasByte(s, i, Digits(n), 0);
    } else {
      HasParts(s, i, Digits(n / 10), [ZERO + n % 10]);
      ReadsDigits(n / 10, s, i);
      HasByte(s, i + |Digits(n / 10)|, [ZERO + n % 10], 0);
    }
  }

  /** Only zero is printed with a leading zero. */
  lemma {:induction false} FirstDigit(n: nat)
    ensures if n == 0 then Digits(n) == [ZERO] else 49 <= Digits(n)[0] <= 57
  {
    if n >= 10 {
      FirstDigit(n / 10);
    }
  }

  lemma ParsesNatural(n: nat, s: Text, i: nat, negative: bool)
    requires HasAt(s, i, Digits(n)) && EndsNumber(s, i + |Digits(n)|)
    requires negative ==> 0 < i && s[i - 1] == MINUS
    ensures var start := if negative then i - 1 else i;
            && start < |s| && (s[start] == MINUS || IsDigit(s[start]))
            && ParseNumber(s, start) == Done(Number(Signed(negative, n, 0)), i + |Digits(n)|)
  {
    FirstDigit(n);
    HasByte(s, i, Digits(n), 0);
    ReadsDigits(n, s, i);
  }

  lemma ParsesNumber(x: real, s: Text, i: nat)
    requires Printable(Number(x)) && HasAt(s, i, Decimal(x.Floor)) && EndsNumber(s, i + |Decimal(x.Floor)|)
    ensures i < |s| && (s[i] == MINUS || IsDigit(s[i]))
    ensures ParseNumber(s, i) == Done(Number(x), i + |Decimal(x.Floor)|)
  {
    var n := x.Floor;
    if n < 0 {
      HasParts(s, i, [MINUS], Digits(-n));
      HasByte(s, i, [MINUS], 0);
      ParsesNatural(-n, s, i + 1, true);
      assert Signed(true, -n, 0) == x;
    } else {
      ParsesNatural(n, s, i, false);
      assert Signed(false, n, 0) == x;
    }
  }

  // ----- strings

  lemma HexDigitValue(d: nat)
    requires d < 16
    ensures HexValue(HexDigit(d)) == d
  {
  }

  /** The escape of a byte stands for that byte. */
  lemma ParsesEscape(b: byte, s: Text, i: nat)
    requires b != 0 && HasAt(s, i, EscapeByte(b)) && EscapeByte(b)[0] == BACKSLASH
    ensures ParseEscape(s, i + 1) == Done([b], i + |EscapeByte(b)|)
  {
    var t := EscapeByte(b);
    HasByte(s, i, t, 1);
    if |t| == 6 {
      HasByte(s, i, t, 2);
      HasByte(s, i, t, 3);
      HasByte(s, i, t, 4);
      HasByte(s, i, t, 5);
      HexDigitValue(b / 16);
      HexDigitValue(b % 16);
      assert Hex4(s, i + 2) == b;
      assert Utf8(b) == [b];
    }
  }

  /** The printed form of one byte reads as that byte. */
  lemma ParsesChar(b: byte, s: Text, i: nat)
    requires b != 0 && HasAt(s, i, EscapeByte(b))
    ensures i + |EscapeByte(b)| <= |s| && ParseChars(s, i) == Prepend([b], ParseChars(s, i + |EscapeByte(b)|))
  {
    var e := EscapeByte(b);
    HasByte(s, i, e, 0);
    if e[0] == BACKSLASH {
      ParsesEscape(b, s, i);
    }
  }

  lemma EscapeParts(t: Text, s: Text, i: nat) returns (j: nat)
    requires t != [] && HasAt(s, i, Escape(t) + [QUOTE])
    ensures HasAt(s, i, EscapeByte(t[0])) && j == i + |EscapeByte(t[0])| && HasAt(s, j, Escape(t[1..]) + [QUOTE])
    ensures j + |Escape(t[1..])| == i + |Escape(t)|
  {
    var e := EscapeByte(t[0]);
    assert Escape(t) + [QUOTE] == e + (Escape(t[1..]) + [QUOTE]);
    HasParts(s, i, e, Escape(t[1..]) + [QUOTE]);
    j := i + |e|;
  }

  lemma {:induction false} ParsesChars(t: Text, s: Text, i: nat)
    requires NulFree(t) && HasAt(s, i, Escape(t) + [QUOTE])
    ensures ParseChars(s, i) == Done(t, i + |Escape(t)| + 1)
    decreases |t|
  {
    if t == [] {
      HasByte(s, i, [QUOTE], 0);
    } else {
      var j := EscapeParts(t, s, i);
      ParsesChar(t[0], s, i);
      ParsesChars(t[1..], s, j);
      assert t == [t[0]] + t[1..];
    }
  }

  lemma ParsesString(t: Text, s: Text, i: nat)
    requires NulFree(t) && HasAt(s, i, Quote(t))
    ensures At(s, i) == QUOTE && ParseString(s, i) == Done(t, i + |Quote(t)|)
  {
    assert Quote(t) == [QUOTE] + (Escape(t) + [QUOTE]);
    HasByte(s, i, Quote(t), 0);
    HasParts(s, i, [QUOTE], Escape(t) + [QUOTE]);
    ParsesChars(t, s, i + 1);
  }

  // ----- trees

  // What the parser returns is stated behind a quantifier that only `Look` opens, so that the
  // lemmas that put texts together do not unfold the parser.

  ghost predicate ReadsValue(s: Text, i: nat, v: Json, e: nat) {
    i <= |s| && forall z: nat :: Look(z) ==> ParseValue(s, i) == Done(v, e)
  }

  ghost predicate ReadsItems(s: Text, i: nat, items: seq<Json>, e: nat) {
    i <= |s| && forall z: nat :: Look(z) ==> ParseItems(s, i) == Done(items, e)
  }

  ghost predicate ReadsMember(s: Text, i: nat, m: Member, e: nat) {
    i <= |s| && forall z: nat :: Look(z) ==> ParseMember(s, i) == Done(m, e)
  }

  ghost predicate ReadsMembers(s: Text, i: nat, members: seq<Member>, e: nat) {
    i <= |s| && forall z: nat :: Look(z) ==> ParseMembers(s, i) == Done(members, e)
  }

  ghost predicate ReadsName(s: Text, i: nat, name: Text, e: nat) {
    i <= |s| && forall z: nat :: Look(z) ==> ParseString(s, i) == Done(name, e)
  }

  /** Skipping from `i` stops at `j`. */
  ghost predicate Skips(s: Text, i: nat, j: nat) {
    i <= |s| && forall z: nat :: Look(z) ==> Skip(s, i) == j
  }

  /** A printed value starts with a visible character. */
  lemma {:induction false} FirstByte(v: Json, depth: nat, fmt: bool)
    ensures Render(v, depth, fmt) != [] && Render(v, depth, fmt)[0] > 32
  {
    match v {
      case Number(x) => FirstDigit(if x.Floor < 0 then -x.Floor else x.Floor);
      case _ =>
    }
  }

  lemma SkipToValue(v: Json, depth: nat, fmt: bool, w: Text, s: Text, i: nat)
    requires White(w) && HasAt(s, i, w) && HasAt(s, i + |w|, Render(v, depth, fmt))
    ensures Skips(s, i, i + |w|)
  {
    FirstByte(v, depth, fmt);
    HasByte(s, i + |w|, Render(v, depth, fmt), 0);
    SkipWhite(s, i, w);
  }

  /** Skipping white space stops at the visible byte or the end behind it. */
  lemma SkipOver(s: Text, i: nat, w: Text)
    requires HasAt(s, i, w) && White(w) && (i + |w| == |s| || s[i + |w|] == 0 || s[i + |w|] > 32)
    ensures Skips(s, i, i + |w|)
  {
    SkipWhite(s, i, w);
  }

  lemma ReadsQuoted(t: Text, s: Text, i: nat)
    requires NulFree(t) && HasAt(s, i, Quote(t))
    ensures At(s, i) == QUOTE && ReadsName(s, i, t, i + |Quote(t)|)
  {
    ParsesString(t, s, i);
  }

  /** Skipping stops at once at a visible byte. */
  lemma SkipNothing(s: Text, i: nat)
    requires i < |s| && s[i] > 32
    ensures Skip(s, i) == i && Skips(s, i, i)
  {
  }

  lemma {:induction false} RoundTripValue(v: Json, depth: nat, fmt: bool, s: Text, i: nat)
    requires Printable(v) && HasAt(s, i, Render(v, depth, fmt)) && EndsNumber(s, i + |Render(v, depth, fmt)|)
    ensures ReadsValue(s, i, v, i + |Render(v, depth, fmt)|)
    decreases v, 1
  {
    var t := Render(v, depth, fmt);
    FirstByte(v, depth, fmt);
    HasByte(s, i, t, 0);
    match v {
      case Null =>
      case False => NotPrefix(s, i, NULL_TEXT, t[0]);
      case True => NotPrefix(s, i, NULL_TEXT, t[0]); NotPrefix(s, i, FALSE_TEXT, t[0]);
      case Number(x) =>
        ParsesNumber(x, s, i);
        NotKeyword(s, i);
      case String(text) =>
        ParsesString(text, s, i);
        NotKeyword(s, i);
      case Array(items) => RoundTripArray(items, depth, fmt, s, i);
      case Object(members) => RoundTripObject(members, depth, fmt, s, i);
    }
  }

  lemma NotPrefix(s: Text, i: nat, t: Text, b: byte)
    requires t != [] && At(s, i) == b && b != t[0]
    ensures !HasAt(s, i, t)
  {
  }

  lemma NotKeyword(s: Text, i: nat)
    requires At(s, i) != 110 && At(s, i) != 102 && At(s, i) != 116
    ensures !HasAt(s, i, NULL_TEXT) && !HasAt(s, i, FALSE_TEXT) && !HasAt(s, i, TRUE_TEXT)
  {
    NotPrefix(s, i, NULL_TEXT, At(s, i));
    NotPrefix(s, i, FALSE_TEXT, At(s, i));
    NotPrefix(s, i, TRUE_TEXT, At(s, i));
  }

  // The parser's steps, with the text out of sight.

  lemma ArrayStep(s: Text, i: nat, items: seq<Json>, e: nat)
    requires i < |s| && s[i] == LBRACKET && At(s, i + 1) > 32 && At(s, i + 1) != RBRACKET && ReadsItems(s, i + 1, items, e)
    ensures ReadsValue(s, i, Array(items), e)
  {
    assert Look(0);
    NotKeyword(s, i);
    SkipNothing(s, i + 1);
  }

  lemma ItemStep(s: Text, i: nat, a: nat, v: Json, b: nat, rest: seq<Json>, e: nat)
    requires Skips(s, i, a) && ReadsValue(s, a, v, b) && At(s, b) == COMMA && ReadsItems(s, b + 1, rest, e)
    ensures ReadsItems(s, i, [v] + rest, e)
  {
    assert Look(0);
    SkipNothing(s, b);
  }

  lemma LastItemStep(s: Text, i: nat, a: nat, v: Json, b: nat)
    requires Skips(s, i, a) && ReadsValue(s, a, v, b) && At(s, b) == RBRACKET
    ensures ReadsItems(s, i, [v], b + 1)
  {
    assert Look(0);
    SkipNothing(s, b);
  }

  lemma ObjectStep(s: Text, i: nat, j: nat, members: seq<Member>, e: nat)
    requires i < |s| && s[i] == LBRACE && Skips(s, i + 1, j) && At(s, j) != RBRACE && ReadsMembers(s, i + 1, members, e)
    ensures ReadsValue(s, i, Object(members), e)
  {
    assert Look(0);
    NotKeyword(s, i);
  }

  lemma PairStep(s: Text, i: nat, a: nat, name: Text, b: nat, c: nat, v: Json, e: nat)
    requires Skips(s, i, a) && ReadsName(s, a, name, b) && At(s, b) == COLON
    requires Skips(s, b + 1, c) && ReadsValue(s, c, v, e)
    ensures ReadsMember(s, i, Member(name, v), e)
  {
    assert Look(0);
    SkipNothing(s, b);
  }

  lemma MemberStep(s: Text, i: nat, m: Member, b: nat, rest: seq<Member>, e: nat)
    requires i <= |s| && ReadsMember(s, i, m, b) && At(s, b) == COMMA && ReadsMembers(s, b + 1, rest, e)
    ensures ReadsMembers(s, i, [m] + rest, e)
  {
    assert Look(0);
    SkipNothing(s, b);
  }

  lemma LastMemberStep(s: Text, i: nat, m: Member, b: nat, j: nat)
    requires i <= |s| && ReadsMember(s, i, m, b) && Skips(s, b, j) && At(s, j) == RBRACE
    ensures ReadsMembers(s, i, [m], j + 1)
  {
    assert Look(0);
  }

  // Where the parts of a printed text lie.

  lemma HasThree(s: Text, i: nat, a: Text, b: Text, c: Text)
    requires HasAt(s, i, a + b + c)
    ensures HasAt(s, i, a) && HasAt(s, i + |a|, b) && HasAt(s, i + |a| + |b|, c)
  {
    HasParts(s, i, a + b, c);
    HasParts(s, i, a, b);
  }

  lemma HasJoined(s: Text, i: nat, a: Text, b: Text)
    requires HasAt(s, i, a) && HasAt(s, i + |a|, b)
    ensures HasAt(s, i, a + b)
  {
    HasSlice(s, i, a);
    HasSlice(s, i + |a|, b);
    HasSlice(s, i, a + b);
    assert s[i..i + |a + b|] == s[i..i + |a|] + s[i + |a|..i + |a| + |b|];
  }

  /** The first item, the comma, the space and the other items. */
  lemma ItemsLayout(items: seq<Json>, depth: nat, fmt: bool, s: Text, i: nat) returns (sp: Text, b: nat)
    requires |items| > 1 && HasAt(s, i, RenderItems(items, depth, fmt))
    ensures HasAt(s, i, Render(items[0], depth, fmt)) && b == i + |Render(items[0], depth, fmt)| && At(s, b) == COMMA
    ensures White(sp) && HasAt(s, b + 1, sp) && HasAt(s, b + 1 + |sp|, RenderItems(items[1..], depth, fmt))
    ensures b + 1 + |sp| + |RenderItems(items[1..], depth, fmt)| == i + |RenderItems(items, depth, fmt)|
  {
    var v, rest := Render(items[0], depth, fmt), RenderItems(items[1..], depth, fmt);
    sp := If(fmt, [SPACE]);
    HasThree(s, i, v + [COMMA], sp, rest);
    HasParts(s, i, v, [COMMA]);
    HasByte(s, i + |v|, [COMMA], 0);
    b := i + |v|;
  }

  lemma HeadAndTail<T>(list: seq<T>)
    requires list != []
    ensures list == [list[0]] + list[1..] && (|list| == 1 ==> list == [list[0]])
  {
  }

  lemma {:induction false} RoundTripItems(items: seq<Json>, depth: nat, fmt: bool, w: Text, s: Text, i: nat, e: nat)
    requires items != [] && PrintableItems(items) && White(w) && HasAt(s, i, w)
    requires HasAt(s, i + |w|, RenderItems(items, depth, fmt))
    requires e == i + |w| + |RenderItems(items, depth, fmt)| && At(s, e) == RBRACKET
    ensures ReadsItems(s, i, items, e + 1)
    decreases items, 3
  {
    HeadAndTail(items);
    if |items| == 1 {
      RoundTripItem(items[0], depth, fmt, w, s, i, e);
      LastItemStep(s, i, i + |w|, items[0], e);
    } else {
      var sp, b := ItemsLayout(items, depth, fmt, s, i + |w|);
      FirstAndOthers(items[0], items[1..], depth, fmt, w, sp, s, i, b, e);
    }
  }

  lemma {:induction false} FirstAndOthers(v: Json, rest: seq<Json>, depth: nat, fmt: bool, w: Text, sp: Text,
                                          s: Text, i: nat, b: nat, e: nat)
    requires Printable(v) && White(w) && HasAt(s, i, w) && HasAt(s, i + |w|, Render(v, depth, fmt))
    requires b == i + |w| + |Render(v, depth, fmt)|
    requires rest != [] && PrintableItems(rest) && At(s, b) == COMMA && White(sp) && HasAt(s, b + 1, sp)
    requires HasAt(s, b + 1 + |sp|, RenderItems(rest, depth, fmt))
    requires e == b + 1 + |sp| + |RenderItems(rest, depth, fmt)| && At(s, e) == RBRACKET
    ensures ReadsItems(s, i, [v] + rest, e + 1)
    decreases [v] + rest, 2
  {
    var all := [v] + rest;
    assert all[0] == v && all[1..] == rest;
    RoundTripItem(all[0], depth, fmt, w, s, i, b);
    RoundTripItems(rest, depth, fmt, sp, s, b + 1, e);
    ItemStep(s, i, i + |w|, v, b, rest, e + 1);
  }

  lemma {:induction false} RoundTripItem(v: Json, depth: nat, fmt: bool, w: Text, s: Text, i: nat, b: nat)
    requires Printable(v) && White(w) && HasAt(s, i, w) && HasAt(s, i + |w|, Render(v, depth, fmt))
    requires b == i + |w| + |Render(v, depth, fmt)| && EndsNumber(s, b)
    ensures Skips(s, i, i + |w|) && ReadsValue(s, i + |w|, v, b)
    decreases v, 2
  {
    SkipToValue(v, depth, fmt, w, s, i);
    RoundTripValue(v, depth, fmt, s, i + |w|);
  }

  lemma {:induction false} FirstOfItems(items: seq<Json>, depth: nat, fmt: bool)
    requires items != []
    ensures RenderItems(items, depth, fmt) != []
    ensures RenderItems(items, depth, fmt)[0] > 32 && RenderItems(items, depth, fmt)[0] != RBRACKET
  {
    FirstByte(items[0], depth, fmt);
    FirstItemByte(items[0], depth, fmt);
    var v := Render(items[0], depth, fmt);
    if |items| > 1 {
      assert RenderItems(items, depth, fmt)[0] == v[0];
    }
  }

  lemma {:induction false} RoundTripArray(items: seq<Json>, depth: nat, fmt: bool, s: Text, i: nat)
    requires PrintableItems(items) && HasAt(s, i, Render(Array(items), depth, fmt))
    ensures ReadsValue(s, i, Array(items), i + |Render(Array(items), depth, fmt)|)
    decreases items, 4
  {
    if items == [] {
      RoundTripEmptyArray(depth, fmt, s, i);
    } else {
      var e := ArrayLayout(items, depth, fmt, s, i);
      RoundTripItems(items, depth + 1, fmt, [], s, i + 1, e);
      ArrayStep(s, i, items, e + 1);
    }
  }

  lemma RoundTripEmptyArray(depth: nat, fmt: bool, s: Text, i: nat)
    requires HasAt(s, i, Render(Array([]), depth, fmt))
    ensures ReadsValue(s, i, Array([]), i + |Render(Array([]), depth, fmt)|)
  {
    var t := Render(Array([]), depth, fmt);
    HasByte(s, i, t, 0);
    HasByte(s, i, t, 1);
    NotKeyword(s, i);
    SkipNothing(s, i + 1);
  }

  lemma ArrayLayout(items: seq<Json>, depth: nat, fmt: bool, s: Text, i: nat) returns (e: nat)
    requires items != [] && HasAt(s, i, Render(Array(items), depth, fmt))
    ensures i < |s| && s[i] == LBRACKET && At(s, i + 1) > 32 && At(s, i + 1) != RBRACKET
    ensures HasAt(s, i + 1, []) && HasAt(s, i + 1, RenderItems(items, depth + 1, fmt))
    ensures e == i + 1 + |RenderItems(items, depth + 1, fmt)| && At(s, e) == RBRACKET
    ensures e + 1 == i + |Render(Array(items), depth, fmt)|
  {
    var body := RenderItems(items, depth + 1, fmt);
    HasThree(s, i, [LBRACKET], body, [RBRACKET]);
    FirstOfItems(items, depth + 1, fmt);
    HasByte(s, i, [LBRACKET], 0);
    HasByte(s, i + 1, body, 0);
    HasByte(s, i + 1 + |body|, [RBRACKET], 0);
    e := i + 1 + |body|;
  }

  /** No printed value starts with a closing bracket or brace. */
  lemma FirstItemByte(v: Json, depth: nat, fmt: bool)
    ensures Render(v, depth, fmt) != [] && Render(v, depth, fmt)[0] != RBRACKET && Render(v, depth, fmt)[0] != RBRACE
  {
    match v {
      case Number(x) => FirstDigit(if x.Floor < 0 then -x.Floor else x.Floor);
      case _ =>
    }
  }

  lemma PairLayout(m: Member, depth: nat, fmt: bool, s: Text, i: nat) returns (sp: Text, b: nat)
    requires HasAt(s, i, RenderPair(m, depth, fmt))
    ensures HasAt(s, i, Quote(m.name)) && b == i + |Quote(m.name)| && At(s, b) == COLON
    ensures White(sp) && HasAt(s, b + 1, sp) && HasAt(s, b + 1 + |sp|, Render(m.value, depth, fmt))
    ensures b + 1 + |sp| + |Render(m.value, depth, fmt)| == i + |RenderPair(m, depth, fmt)|
  {
    var q := Quote(m.name);
    sp := If(fmt, [TAB]);
    HasThree(s, i, q + [COLON], sp, Render(m.value, depth, fmt));
    HasParts(s, i, q, [COLON]);
    HasByte(s, i + |q|, [COLON], 0);
    b := i + |q|;
  }

  lemma {:induction false} RoundTripMember(m: Member, depth: nat, fmt: bool, w: Text, s: Text, i: nat, e: nat)
    requires NulFree(m.name) && Printable(m.value) && White(w) && HasAt(s, i, w)
    requires HasAt(s, i + |w|, RenderPair(m, depth, fmt)) && e == i + |w| + |RenderPair(m, depth, fmt)| && EndsNumber(s, e)
    ensures ReadsMember(s, i, m, e)
    decreases m, 1
  {
    var a := i + |w|;
    var sp, b := PairLayout(m, depth, fmt, s, a);
    RoundTripPair(m.name, m.value, depth, fmt, w, sp, s, i, a, b, e);
  }

  lemma {:induction false} RoundTripPair(name: Text, v: Json, depth: nat, fmt: bool, w: Text, sp: Text, s: Text,
                                         i: nat, a: nat, b: nat, e: nat)
    requires NulFree(name) && Printable(v) && White(w) && HasAt(s, i, w) && a == i + |w|
    requires HasAt(s, a, Quote(name)) && b == a + |Quote(name)| && At(s, b) == COLON
    requires White(sp) && HasAt(s, b + 1, sp) && HasAt(s, b + 1 + |sp|, Render(v, depth, fmt))
    requires e == b + 1 + |sp| + |Render(v, depth, fmt)| && EndsNumber(s, e)
    ensures ReadsMember(s, i, Member(name, v), e)
    decreases v, 3
  {
    ReadsQuoted(name, s, a);
    SkipOver(s, i, w);
    RoundTripItem(v, depth, fmt, sp, s, b + 1, e);
    PairStep(s, i, a, name, b, b + 1 + |sp|, v, e);
  }

  /** A member: indentation, the pair, a comma unless it is the last, a line feed. */
  lemma MemberLayout(m: Member, last: bool, depth: nat, fmt: bool, s: Text, i: nat)
    returns (ind: Text, lf: Text, b: nat)
    requires HasAt(s, i, RenderMember(m, last, depth, fmt))
    ensures White(ind) && HasAt(s, i, ind) && HasAt(s, i + |ind|, RenderPair(m, depth, fmt))
    ensures b == i + |ind| + |RenderPair(m, depth, fmt)|
    ensures White(lf)
    ensures last ==> HasAt(s, b, lf) && b + |lf| == i + |RenderMember(m, last, depth, fmt)|
    ensures !last ==> At(s, b) == COMMA && HasAt(s, b + 1, lf) && b + 1 + |lf| == i + |RenderMember(m, last, depth, fmt)|
  {
    ind, lf := If(fmt, Tabs(depth)), If(fmt, [LF]);
    TabsWhite(depth);
    var pair, comma := RenderPair(m, depth, fmt), If(!last, [COMMA]);
    HasThree(s, i, ind + pair, comma, lf);
    HasParts(s, i, ind, pair);
    b := i + |ind| + |pair|;
    if !last {
      HasByte(s, b, [COMMA], 0);
    }
  }

  /** The members from `i` on, with white space `w` in front and `w2` behind, up to the brace. */
  lemma {:induction false} RoundTripMembers(members: seq<Member>, depth: nat, fmt: bool, w: Text, w2: Text,
                                            s: Text, i: nat, e: nat)
    requires members != [] && PrintableMembers(members) && White(w) && White(w2) && HasAt(s, i, w)
    requires HasAt(s, i + |w|, RenderMembers(members, depth, fmt)) && e == i + |w| + |RenderMembers(members, depth, fmt)|
    requires HasAt(s, e, w2) && At(s, e + |w2|) == RBRACE
    ensures ReadsMembers(s, i, members, e + |w2| + 1)
    decreases members, 3
  {
    HeadAndTail(members);
    var n, rest := MembersParts(members, depth, fmt, s, i + |w|);
    var w1, lf, b := IndentedLayout(members[0], |members| == 1, depth, fmt, w, s, i, n);
    if |members| == 1 {
      LastMember(members[0], depth, fmt, w1, lf, w2, s, i, b, e);
    } else {
      MemberAndOthers(members[0], members[1..], depth, fmt, w1, lf, w2, s, i, b, e);
    }
  }

  lemma {:induction false} MemberAndOthers(m: Member, rest: seq<Member>, depth: nat, fmt: bool, w: Text,
                                           lf: Text, w2: Text, s: Text, i: nat, b: nat, e: nat)
    requires NulFree(m.name) && Printable(m.value) && White(w) && HasAt(s, i, w)
    requires HasAt(s, i + |w|, RenderPair(m, depth, fmt)) && b == i + |w| + |RenderPair(m, depth, fmt)| && At(s, b) == COMMA
    requires rest != [] && PrintableMembers(rest) && White(lf) && HasAt(s, b + 1, lf)
    requires HasAt(s, b + 1 + |lf|, RenderMembers(rest, depth, fmt))
    requires e == b + 1 + |lf| + |RenderMembers(rest, depth, fmt)| && White(w2) && HasAt(s, e, w2) && At(s, e + |w2|) == RBRACE
    ensures ReadsMembers(s, i, [m] + rest, e + |w2| + 1)
    decreases [m] + rest, 2
  {
    var all := [m] + rest;
    assert all[0] == m && all[1..] == rest;
    RoundTripMember(all[0], depth, fmt, w, s, i, b);
    RoundTripMembers(rest, depth, fmt, lf, w2, s, b + 1, e);
    MemberStep(s, i, m, b, rest, e + |w2| + 1);
  }

  lemma MembersParts(members: seq<Member>, depth: nat, fmt: bool, s: Text, i: nat) returns (n: nat, rest: nat)
    requires members != [] && HasAt(s, i, RenderMembers(members, depth, fmt))
    ensures HasAt(s, i, RenderMember(members[0], |members| == 1, depth, fmt))
    ensures n == |RenderMember(members[0], |members| == 1, depth, fmt)|
    ensures HasAt(s, i + n, RenderMembers(members[1..], depth, fmt)) && rest == |RenderMembers(members[1..], depth, fmt)|
    ensures n + rest == |RenderMembers(members, depth, fmt)| && (|members| == 1 ==> rest == 0)
  {
    var a, b := RenderMember(members[0], |members| == 1, depth, fmt), RenderMembers(members[1..], depth, fmt);
    HasParts(s, i, a, b);
    n, rest := |a|, |b|;
  }

  /** The white space in front of the pair of a member, and what follows it. */
  lemma IndentedLayout(m: Member, last: bool, depth: nat, fmt: bool, w: Text, s: Text, i: nat, n: nat)
    returns (w1: Text, lf: Text, b: nat)
    requires White(w) && HasAt(s, i, w) && HasAt(s, i + |w|, RenderMember(m, last, depth, fmt))
    requires n == |RenderMember(m, last, depth, fmt)|
    ensures White(w1) && HasAt(s, i, w1) && HasAt(s, i + |w1|, RenderPair(m, depth, fmt))
    ensures b == i + |w1| + |RenderPair(m, depth, fmt)| && White(lf)
    ensures last ==> HasAt(s, b, lf) && b + |lf| == i + |w| + n
    ensures !last ==> At(s, b) == COMMA && HasAt(s, b + 1, lf) && b + 1 + |lf| == i + |w| + n
  {
    var ind;
    ind, lf, b := MemberLayout(m, last, depth, fmt, s, i + |w|);
    HasJoined(s, i, w, ind);
    WhiteJoined(w, ind);
    w1 := w + ind;
  }

  lemma {:induction false} LastMember(m: Member, depth: nat, fmt: bool, w: Text, lf: Text, w2: Text, s: Text,
                                      i: nat, b: nat, e: nat)
    requires NulFree(m.name) && Printable(m.value) && White(w) && White(lf) && White(w2) && HasAt(s, i, w)
    requires HasAt(s, i + |w|, RenderPair(m, depth, fmt)) && b == i + |w| + |RenderPair(m, depth, fmt)|
    requires HasAt(s, b, lf) && e == b + |lf| && HasAt(s, e, w2) && At(s, e + |w2|) == RBRACE
    ensures ReadsMembers(s, i, [m], e + |w2| + 1)
    decreases m, 2
  {
    HasJoined(s, b, lf, w2);
    WhiteJoined(lf, w2);
    EndsBeforeWhite(s, b, lf + w2, RBRACE);
    RoundTripMember(m, depth, fmt, w, s, i, b);
    SkipOver(s, b, lf + w2);
    LastMemberStep(s, i, m, b, e + |w2|);
  }

  lemma EndsBeforeWhite(s: Text, i: nat, w: Text, b: byte)
    requires White(w) && HasAt(s, i, w) && At(s, i + |w|) == b && EndsNumber([b], 0)
    ensures EndsNumber(s, i)
  {
    if w != [] {
      HasByte(s, i, w, 0);
    }
  }

  lemma ObjectLayout(members: seq<Member>, depth: nat, fmt: bool, s: Text, i: nat)
    returns (lf: Text, tabs: Text, e: nat)
    requires members != [] && HasAt(s, i, Render(Object(members), depth, fmt))
    ensures At(s, i) == LBRACE && White(lf) && HasAt(s, i + 1, lf)
    ensures HasAt(s, i + 1 + |lf|, RenderMembers(members, depth + 1, fmt))
    ensures e == i + 1 + |lf| + |RenderMembers(members, depth + 1, fmt)| && White(tabs) && HasAt(s, e, tabs)
    ensures At(s, e + |tabs|) == RBRACE
    ensures e + |tabs| + 1 == i + |Render(Object(members), depth, fmt)|
  {
    lf, tabs := If(fmt, [LF]), If(fmt, Tabs(depth));
    TabsWhite(depth);
    var open, body := [LBRACE] + lf, RenderMembers(members, depth + 1, fmt);
    HasThree(s, i, open + body, tabs, [RBRACE]);
    HasParts(s, i, open, body);
    HasParts(s, i, [LBRACE], lf);
    HasByte(s, i, [LBRACE], 0);
    e := i + |open| + |body|;
    HasByte(s, e + |tabs|, [RBRACE], 0);
  }

  /** The first visible byte of the members is a quotation mark. */
  lemma MembersStart(members: seq<Member>, depth: nat, fmt: bool, w: Text, s: Text, i: nat) returns (j: nat)
    requires members != [] && White(w) && HasAt(s, i, w) && HasAt(s, i + |w|, RenderMembers(members, depth, fmt))
    ensures Skips(s, i, j) && At(s, j) == QUOTE
  {
    var n, rest := MembersParts(members, depth, fmt, s, i + |w|);
    var w1, lf, b := IndentedLayout(members[0], |members| == 1, depth, fmt, w, s, i, n);
    PairStart(members[0], depth, fmt, s, i + |w1|);
    SkipOver(s, i, w1);
    j := i + |w1|;
  }

  lemma PairStart(m: Member, depth: nat, fmt: bool, s: Text, i: nat)
    requires HasAt(s, i, RenderPair(m, depth, fmt))
    ensures i < |s| && s[i] == QUOTE
  {
    var sp, b := PairLayout(m, depth, fmt, s, i);
    HasByte(s, i, Quote(m.name), 0);
  }

  lemma RoundTripEmptyObject(depth: nat, fmt: bool, s: Text, i: nat)
    requires HasAt(s, i, Render(Object([]), depth, fmt))
    ensures ReadsValue(s, i, Object([]), i + |Render(Object([]), depth, fmt)|)
  {
    var n := if depth == 0 then 0 else depth - 1;
    var w := If(fmt, [LF] + Tabs(n));
    TabsWhite(n);
    WhiteJoined([LF], Tabs(n));
    HasThree(s, i, [LBRACE], w, [RBRACE]);
    HasByte(s, i, [LBRACE], 0);
    HasByte(s, i + 1 + |w|, [RBRACE], 0);
    SkipWhite(s, i + 1, w);
    NotKeyword(s, i);
  }

  lemma {:induction false} RoundTripObject(members: seq<Member>, depth: nat, fmt: bool, s: Text, i: nat)
    requires PrintableMembers(members) && HasAt(s, i, Render(Object(members), depth, fmt))
    ensures ReadsValue(s, i, Object(members), i + |Render(Object(members), depth, fmt)|)
    decreases members, 5
  {
    if members == [] {
      RoundTripEmptyObject(depth, fmt, s, i);
    } else {
      var lf, tabs, e := ObjectLayout(members, depth, fmt, s, i);
      RoundTripFullObject(members, depth + 1, fmt, lf, tabs, s, i, e);
    }
  }

  lemma {:induction false} RoundTripFullObject(members: seq<Member>, depth: nat, fmt: bool, lf: Text,
                                               tabs: Text, s: Text, i: nat, e: nat)
    requires members != [] && PrintableMembers(members) && At(s, i) == LBRACE && White(lf) && White(tabs)
    requires HasAt(s, i + 1, lf) && HasAt(s, i + 1 + |lf|, RenderMembers(members, depth, fmt))
    requires e == i + 1 + |lf| + |RenderMembers(members, depth, fmt)| && HasAt(s, e, tabs) && At(s, e + |tabs|) == RBRACE
    ensures ReadsValue(s, i, Object(members), e + |tabs| + 1)
    decreases members, 4
  {
    var j := MembersStart(members, depth, fmt, lf, s, i + 1);
    RoundTripMembers(members, depth, fmt, lf, tabs, s, i + 1, e);
    ObjectStep(s, i, j, members, e + |tabs| + 1);
  }

  /** `cJSON_Parse`: the tree and where it ends. */
  function Parse(s: Text): Parsed<Json> {
    ParseValue(s, Skip(s, 0))
  }

  /** Parsing the printed text of any printable tree, formatted or not, at any depth, gives the same
      tree and stops exactly at its end. */
  lemma ParsePrint(v: Json, depth: nat, fmt: bool)
    requires Printable(v)
    ensures Parse(Render(v, depth, fmt)) == Done(v, |Render(v, depth, fmt)|)
  {
    var s := Render(v, depth, fmt);
    HasSlice(s, 0, s);
    assert s[0..|s|] == s;
    FirstByte(v, depth, fmt);
    SkipNothing(s, 0);
    RoundTripValue(v, depth, fmt, s, 0);
    assert Look(0);
  }

  /** Different trees print differently. */
  lemma PrintInjective(v: Json, w: Json, depth: nat, fmt: bool)
    requires Printable(v) && Printable(w) && Render(v, depth, fmt) == Render(w, depth, fmt)
    ensures v == w
  {
    ParsePrint(v, depth, fmt);
    ParsePrint(w, depth, fmt);
  }
}
