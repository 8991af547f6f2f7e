/** `cJSON_Minify`: drops white space and comments outside string literals, in place. */
module JsonMinify {
  import opened Bytes
  import opened Collections
  import opened Json
  import opened JsonRoundTrip

  /** `Overrun`: a block comment or a string literal does not end, and the source reads on behind
      the terminating NUL. */
  datatype Minified = Overrun | Minified(text: Text)

  const SLASH: byte := 47
  const STAR: byte := 42

  predicate IsSpace(b: byte) {
    b == SPACE || b == TAB || b == 13 || b == LF
  }

  function Then(t: Text, r: Minified): Minified {
    if r.Overrun? then Overrun else Minified(t + r.text)
  }

  /** What is left of the C string `s`: it is taken token by token. */
  function Minify(s: Text): Minified
    decreases |s|
  {
    if s == [] then Minified([])
    else
      var n := TokenLength(s);
      if n > |s| then Overrun
      else Then(if Dropped(s) then [] else s[..n], Minify(s[n..]))
  }

  /** White space, a comment, a string literal or any other single character. */
  function TokenLength(s: Text): (n: nat)
    requires s != []
    ensures 0 < n
  {
    if s[0] == SLASH && At(s, 1) == SLASH then LineLength(s)
    else if s[0] == SLASH && At(s, 1) == STAR then BlockLength(s)
    else if s[0] == QUOTE then 1 + LiteralLength(s[1..])
    else 1
  }

  predicate Dropped(s: Text)
    requires s != []
  {
    IsSpace(s[0]) || (s[0] == SLASH && (At(s, 1) == SLASH || At(s, 1) == STAR))
  }

  /** Up to the line feed or the end. */
  function LineLength(s: Text): (n: nat)
    ensures n <= |s| && (s != [] && s[0] != LF ==> 0 < n)
  {
    if s == [] || s[0] == LF then 0 else 1 + LineLength(s[1..])
  }

  /** Up to and with the comment's end; past the end if there is none. */
  function BlockLength(s: Text): (n: nat)
    ensures 2 <= n
  {
    if s == [] || (s[0] == STAR && At(s, 1) == SLASH) then 2 else 1 + BlockLength(s[1..])
  }

  /** Behind an opening quote: up to and with the closing one; past the end if there is none. */
  function LiteralLength(s: Text): (n: nat)
    ensures 1 <= n
  {
    if s == [] || s[0] == QUOTE then 1
    else if s[0] == BACKSLASH then (if |s| == 1 then 3 else 2 + LiteralLength(s[2..]))
    else 1 + LiteralLength(s[1..])
  }

  // ----- in place

  method SkipLine(a: array<byte>, ghost s: Text, start: nat) returns (json: nat)
    requires Holds(a, s, start) && NulFree(s)
    ensures json == start + LineLength(s[start..]) && Holds(a, s, json)
  {
    json := start;
    HeldByte(a, s, json);
    while a[json] != 0 && a[json] != LF
      invariant start <= json && Holds(a, s, json)
      invariant json + LineLength(s[json..]) == start + LineLength(s[start..])
      decreases a.Length - json
    {
      HeldByte(a, s, json);
      assert s[json..][1..] == s[json + 1..];
      json := json + 1;
      HeldByte(a, s, json);
    }
    HeldByte(a, s, json);
  }

  /** `ok` is false if the comment does not end. */
  method SkipBlock(a: array<byte>, ghost s: Text, start: nat) returns (ok: bool, json: nat)
    requires Holds(a, s, start) && NulFree(s)
    ensures json == start + BlockLength(s[start..]) && (ok <==> json <= |s|)
    ensures ok ==> Holds(a, s, json)
  {
    json := start;
    HeldByte(a, s, json);
    while a[json] != 0 && !(a[json] == STAR && a[json + 1] == SLASH)
      invariant start <= json && Holds(a, s, json) && (a[json] != 0 ==> json + 1 < a.Length)
      invariant json + BlockLength(s[json..]) == start + BlockLength(s[start..])
      decreases a.Length - json
    {
      HeldByte(a, s, json);
      assert s[json..][1..] == s[json + 1..];
      json := json + 1;
      HeldByte(a, s, json);
    }
    HeldByte(a, s, json);
    ok := a[json] != 0;
    if ok {
      HeldByte(a, s, json + 1);
    }
    json := json + 2;
  }

  /** One character of a literal, with the backslash in front of it if there is one. */
  method CopyChar(a: array<byte>, ghost s: Text, into0: nat, json0: nat) returns (ok: bool, into: nat, json: nat)
    requires Holds(a, s, json0) && NulFree(s) && into0 <= json0 < |s| && s[json0] != QUOTE
    modifies a
    ensures forall k :: |s| <= k < a.Length ==> a[k] == old(a[k])
    ensures ok <==> !(s[json0] == BACKSLASH && json0 + 1 == |s|)
    ensures ok ==> json0 < json && into - into0 == json - json0 && Holds(a, s, json) && a[..into] == old(a[..into0]) + s[json0..json]
    ensures ok ==> json + LiteralLength(s[json..]) == json0 + LiteralLength(s[json0..])
  {
    into, json := into0, json0;
    HeldByte(a, s, json);
    if a[json] == BACKSLASH {
      CopyByte(a, s, into, json);
      into, json := into + 1, json + 1;
      HeldByte(a, s, json);
      if a[json] == 0 {
        return false, into, json;
      }
    }
    CopyByte(a, s, into, json);
    into, json := into + 1, json + 1;
    assert s[json0..][json - json0..] == s[json..];
    ok := true;
  }

  lemma LiteralOpen(s: Text)
    requires s == [] || s == [BACKSLASH]
    ensures LiteralLength(s) > |s|
  {
  }

  /** The characters of a literal up to the closing quote; `ok` is false if there is none. */
  method CopyChars(a: array<byte>, ghost s: Text, into0: nat, json0: nat) returns (ok: bool, into: nat, json: nat)
    requires Holds(a, s, json0) && NulFree(s) && into0 <= json0 <= |s|
    modifies a
    ensures forall k :: |s| <= k < a.Length ==> a[k] == old(a[k])
    ensures ok <==> json0 + LiteralLength(s[json0..]) <= |s|
    ensures ok ==> json + 1 == json0 + LiteralLength(s[json0..]) && into - into0 == json - json0 && At(s, json) == QUOTE
    ensures ok ==> Holds(a, s, json) && a[..into] == old(a[..into0]) + s[json0..json]
  {
    into, json := into0, json0;
    HeldByte(a, s, json);
    while a[json] != 0 && a[json] != QUOTE
      invariant json0 <= json && Holds(a, s, json) && into - into0 == json - json0
      invariant a[..into] == old(a[..into0]) + s[json0..json]
      invariant forall k :: |s| <= k < a.Length ==> a[k] == old(a[k])
      invariant json + LiteralLength(s[json..]) == json0 + LiteralLength(s[json0..])
      decreases |s| - json
    {
      HeldByte(a, s, json);
      ghost var k := json;
      ok, into, json := CopyChar(a, s, into, json);
      if !ok {
        LiteralOpen(s[k..]);
        return;
      }
      JoinSlices(old(a[..into0]), s, json0, k, json);
    }
    HeldByte(a, s, json);
    ok := a[json] != 0;
    if !ok {
      LiteralOpen(s[json..]);
    }
  }

  /** One more byte of the stretch that starts at `start`. */
  method CopyNext(a: array<byte>, ghost s: Text, into: nat, json: nat, ghost p: Text, ghost start: nat)
    requires Holds(a, s, json) && NulFree(s) && into <= json < |s| && start <= json && a[..into] == p + s[start..json]
    modifies a
    ensures Holds(a, s, json + 1) && a[..into + 1] == p + s[start..json + 1]
    ensures forall k :: |s| <= k < a.Length ==> a[k] == old(a[k])
  {
    CopyByte(a, s, into, json);
    JoinSlices(p, s, start, json, json + 1);
  }

  /** Copies a string literal; `ok` is false if it does not end. */
  method CopyLiteral(a: array<byte>, ghost s: Text, into0: nat, json0: nat) returns (ok: bool, into: nat, json: nat)
    requires Holds(a, s, json0) && NulFree(s) && into0 <= json0 < |s| && s[json0] == QUOTE
    modifies a
    ensures forall k :: |s| <= k < a.Length ==> a[k] == old(a[k])
    ensures ok <==> json0 + 1 + LiteralLength(s[json0 + 1..]) <= |s|
    ensures ok ==> json == json0 + 1 + LiteralLength(s[json0 + 1..]) && into - into0 == json - json0
    ensures ok ==> Holds(a, s, json) && a[..into] == old(a[..into0]) + s[json0..json]
  {
    ghost var p := a[..into0];
    assert p + s[json0..json0] == p;
    CopyNext(a, s, into0, json0, p, json0);
    ok, into, json := CopyChars(a, s, into0 + 1, json0 + 1);
    if ok {
      JoinSlices(p, s, json0, json0 + 1, json);
      CopyNext(a, s, into, json, p, json0);
      into, json := into + 1, json + 1;
    }
  }

  lemma ThenThen(a: Text, b: Text, r: Minified)
    ensures Then(a, Then(b, r)) == Then(a + b, r)
  {
    if r.Minified? {
      assert a + (b + r.text) == (a + b) + r.text;
    }
  }

  lemma MinifyByTokens(s: Text, i: nat)
    requires i < |s|
    ensures var n := TokenLength(s[i..]);
            Minify(s[i..]) == if i + n > |s| then Overrun
                              else Then(if Dropped(s[i..]) then [] else s[i..i + n], Minify(s[i + n..]))
  {
    var rest := s[i..];
    var n := TokenLength(rest);
    if i + n <= |s| {
      assert rest[..n] == s[i..i + n] && rest[n..] == s[i + n..];
    }
  }

  /** One round of the loop: drops or copies what it passes. */
  method MinifyRound(a: array<byte>, ghost s: Text, into0: nat, json0: nat) returns (ok: bool, into: nat, json: nat)
    requires Holds(a, s, json0) && NulFree(s) && into0 <= json0 < |s|
    modifies a
    ensures forall k :: |s| <= k < a.Length ==> a[k] == old(a[k])
    ensures ok <==> json0 + TokenLength(s[json0..]) <= |s|
    ensures ok ==> json == json0 + TokenLength(s[json0..]) && into <= json && Holds(a, s, json)
    ensures ok ==> a[..into] == old(a[..into0]) + if Dropped(s[json0..]) then [] else s[json0..json]
  {
    ok, into, json := true, into0, json0;
    HeldByte(a, s, json);
    assert At(s[json..], 1) == At(s, json + 1) && s[json..][1..] == s[json + 1..];
    if IsSpace(a[json]) {
      json := json + 1;
    } else if a[json] == SLASH && a[json + 1] == SLASH {
      json := SkipLine(a, s, json);
    } else if a[json] == SLASH && a[json + 1] == STAR {
      ok, json := SkipBlock(a, s, json);
    } else if a[json] == QUOTE {
      ok, into, json := CopyLiteral(a, s, into, json);
    } else {
      CopyByte(a, s, into, json);
      into, json := into + 1, json + 1;
    }
  }

  /** With `done` written, minifying from `i` on gives `result` (`Look` keeps it folded). */
  ghost predicate LeadsTo(done: Text, s: Text, i: nat, result: Minified) {
    i <= |s| && forall z: nat :: Look(z) ==> Then(done, Minify(s[i..])) == result
  }

  /** What one token does to the text written so far. */
  lemma TokenLeads(done: Text, s: Text, i: nat, result: Minified)
    requires i < |s| && LeadsTo(done, s, i, result)
    ensures var n := TokenLength(s[i..]);
            if i + n > |s| then result == Overrun
            else LeadsTo(done + (if Dropped(s[i..]) then [] else s[i..i + n]), s, i + n, result)
  {
    assert Look(0);
    MinifyByTokens(s, i);
    var n := TokenLength(s[i..]);
    if i + n <= |s| {
      ThenThen(done, if Dropped(s[i..]) then [] else s[i..i + n], Minify(s[i + n..]));
    }
  }

  /** One round, against the result of the whole. */
  method MinifyStep(a: array<byte>, ghost s: Text, into0: nat, json0: nat, ghost result: Minified)
    returns (ok: bool, into: nat, json: nat)
    requires Holds(a, s, json0) && NulFree(s) && into0 <= json0 < |s| && LeadsTo(a[..into0], s, json0, result)
    modifies a
    ensures forall k :: |s| <= k < a.Length ==> a[k] == old(a[k])
    ensures !ok ==> result == Overrun
    ensures ok ==> json0 < json && into <= json && Holds(a, s, json) && LeadsTo(a[..into], s, json, result)
  {
    TokenLeads(a[..into0], s, json0, result);
    ok, into, json := MinifyRound(a, s, into0, json0);
  }

  /** `cJSON_Minify`.  `ok` is false when the source would read behind the terminator. */
  method MinifyInPlace(a: array<byte>, ghost s: Text) returns (ok: bool)
    requires Holds(a, s, 0) && NulFree(s)
    modifies a
    ensures ok <==> Minify(s).Minified?
    ensures ok ==> var t := Minify(s).text; |t| <= |s| && a[..|t|] == t && a[|t|] == 0
    ensures a[|s| + 1..] == old(a[|s| + 1..])
  {
    var into: nat, json: nat := 0, 0;
    ghost var result := Minify(s);
    StartThen(s);
    assert LeadsTo(a[..into], s, json, result);
    HeldByte(a, s, json);
    while a[json] != 0
      invariant into <= json && Holds(a, s, json)
      invariant LeadsTo(a[..into], s, json, result)
      invariant forall k :: |s| <= k < a.Length ==> a[k] == old(a[k])
      decreases |s| - json
    {
      HeldByte(a, s, json);
      ok, into, json := MinifyStep(a, s, into, json, result);
      if !ok {
        return;
      }
      HeldByte(a, s, json);
    }
    HeldByte(a, s, json);
    ghost var t := a[..into];
    assert Look(0) && s[json..] == [] && t + [] == t;
    ok := true;
    a[into] := 0;
    assert a[..into] == t;
  }

  lemma StartThen(s: Text)
    ensures Then([], Minify(s[0..])) == Minify(s)
  {
    assert s[0..] == s;
    var r := Minify(s);
    assert r.Minified? ==> [] + r.text == r.text;
  }

  // ----- printed texts

  function MinifyBefore(a: Text, rest: Text): Minified {
    Minify(a + rest)
  }

  /** Whatever follows, minifying turns `a` into `b`. */
  ghost predicate Shrinks(a: Text, b: Text) {
    forall rest: Text :: MinifyBefore(a, rest) == Then(b, Minify(rest))
  }

  lemma ShrinksJoined(a: Text, b: Text, c: Text, d: Text)
    requires Shrinks(a, b) && Shrinks(c, d)
    ensures Shrinks(a + c, b + d)
  {
    forall rest: Text
      ensures MinifyBefore(a + c, rest) == Then(b + d, Minify(rest))
    {
      assert (a + c) + rest == a + (c + rest);
      assert MinifyBefore(a, c + rest) == Then(b, MinifyBefore(c, rest));
      ThenThen(b, d, Minify(rest));
    }
  }

  lemma ShrinksNothing()
    ensures Shrinks([], [])
  {
    forall rest: Text
      ensures MinifyBefore([], rest) == Then([], Minify(rest))
    {
      assert [] + rest == rest;
    }
  }

  /** A byte that is neither a quote nor a slash stays, unless it is white space. */
  lemma ShrinksByte(b: byte)
    requires b != QUOTE && b != SLASH
    ensures Shrinks([b], if IsSpace(b) then [] else [b])
  {
    forall rest: Text
      ensures MinifyBefore([b], rest) == Then(if IsSpace(b) then [] else [b], Minify(rest))
    {
      assert ([b] + rest)[1..] == rest;
    }
  }

  /** The bytes of `t` that are no white space. */
  function Visible(t: Text): Text {
    if t == [] then [] else (if IsSpace(t[0]) then [] else [t[0]]) + Visible(t[1..])
  }

  predicate Simple(t: Text) {
    forall i :: 0 <= i < |t| ==> t[i] != QUOTE && t[i] != SLASH
  }

  lemma {:induction false} ShrinksSimple(t: Text)
    requires Simple(t)
    ensures Shrinks(t, Visible(t))
    decreases |t|
  {
    if t == [] {
      ShrinksNothing();
    } else {
      ShrinksByte(t[0]);
      ShrinksSimple(t[1..]);
      ShrinksJoined([t[0]], if IsSpace(t[0]) then [] else [t[0]], t[1..], Visible(t[1..]));
      assert t == [t[0]] + t[1..];
    }
  }

  lemma {:induction false} VisibleSame(t: Text)
    requires forall i :: 0 <= i < |t| ==> !IsSpace(t[i])
    ensures Visible(t) == t
    decreases |t|
  {
    if t != [] {
      VisibleSame(t[1..]);
      assert t == [t[0]] + t[1..];
    }
  }

  lemma {:induction false} VisibleNone(t: Text)
    requires forall i :: 0 <= i < |t| ==> IsSpace(t[i])
    ensures Visible(t) == []
    decreases |t|
  {
    if t != [] {
      VisibleNone(t[1..]);
    }
  }

  lemma ShrinksPlain(t: Text)
    requires forall i :: 0 <= i < |t| ==> t[i] != QUOTE && t[i] != SLASH && !IsSpace(t[i])
    ensures Shrinks(t, t)
  {
    ShrinksSimple(t);
    VisibleSame(t);
  }

  lemma ShrinksSpace(t: Text)
    requires forall i :: 0 <= i < |t| ==> IsSpace(t[i])
    ensures Shrinks(t, [])
  {
    ShrinksSimple(t);
    VisibleNone(t);
  }

  lemma ShrinksIf(fmt: bool, w: Text)
    requires forall i :: 0 <= i < |w| ==> IsSpace(w[i])
    ensures Shrinks(If(fmt, w), If(false, w))
  {
    ShrinksSpace(w);
    ShrinksNothing();
  }

  lemma ShrinksTabs(fmt: bool, n: nat)
    ensures Shrinks(If(fmt, Tabs(n)), If(false, Tabs(n)))
  {
    TabsBytes(n);
    ShrinksIf(fmt, Tabs(n));
  }

  /** The escaped text is skipped up to the closing quote. */
  lemma {:induction false} EscapedLength(t: Text, rest: Text)
    ensures LiteralLength(Escape(t) + [QUOTE] + rest) == |Escape(t)| + 1
    decreases |t|
  {
    if t != [] {
      var e, more := EscapeByte(t[0]), Escape(t[1..]) + [QUOTE] + rest;
      assert Escape(t) + [QUOTE] + rest == e + more;
      EscapedLength(t[1..], rest);
      EscapedByteLength(t[0], more);
    }
  }

  lemma EscapedByteLength(b: byte, more: Text)
    ensures LiteralLength(EscapeByte(b) + more) == |EscapeByte(b)| + LiteralLength(more)
  {
    var e := EscapeByte(b);
    var s := e + more;
    if |e| == 1 {
      assert s[1..] == more;
    } else if |e| == 2 {
      assert s[2..] == more;
    } else {
      assert e[2..] == [48, 48, HexDigit(b / 16), HexDigit(b % 16)];
      assert s[2..] == [48] + ([48] + ([HexDigit(b / 16)] + ([HexDigit(b % 16)] + more)));
      LiteralPlain(HexDigit(b % 16), more);
      LiteralPlain(HexDigit(b / 16), [HexDigit(b % 16)] + more);
      LiteralPlain(48, [HexDigit(b / 16)] + ([HexDigit(b % 16)] + more));
      LiteralPlain(48, [48] + ([HexDigit(b / 16)] + ([HexDigit(b % 16)] + more)));
    }
  }

  lemma LiteralPlain(b: byte, more: Text)
    requires b != QUOTE && b != BACKSLASH
    ensures LiteralLength([b] + more) == 1 + LiteralLength(more)
  {
    assert ([b] + more)[1..] == more;
  }

  lemma ShrinksQuote(t: Text)
    ensures Shrinks(Quote(t), Quote(t))
  {
    forall rest: Text
      ensures MinifyBefore(Quote(t), rest) == Then(Quote(t), Minify(rest))
    {
      QuoteBefore(t, rest);
    }
  }

  lemma QuoteBefore(t: Text, rest: Text)
    ensures MinifyBefore(Quote(t), rest) == Then(Quote(t), Minify(rest))
  {
    var q := Quote(t);
    var s := q + rest;
    assert s[1..] == Escape(t) + [QUOTE] + rest;
    EscapedLength(t, rest);
    MinifyByTokens(s, 0);
    assert s[0..] == s && s[0..|q|] == q && s[|q|..] == rest;
  }

  lemma {:induction false} DigitsPlain(n: nat)
    ensures forall i :: 0 <= i < |Digits(n)| ==> 48 <= Digits(n)[i] <= 57
  {
    if n >= 10 {
      DigitsPlain(n / 10);
    }
  }

  lemma ShrinksDecimal(n: int)
    ensures Shrinks(Decimal(n), Decimal(n))
  {
    DigitsPlain(if n < 0 then -n else n);
    ShrinksPlain(Decimal(n));
  }

  lemma {:induction false} ShrinksValue(v: Json, depth: nat, fmt: bool)
    ensures Shrinks(Render(v, depth, fmt), Render(v, depth, false))
    decreases v, 1
  {
    match v {
      case Null => ShrinksPlain(NULL_TEXT);
      case False => ShrinksPlain(FALSE_TEXT);
      case True => ShrinksPlain(TRUE_TEXT);
      case Number(x) => ShrinksDecimal(x.Floor);
      case String(t) => ShrinksQuote(t);
      case Array(items) => ShrinksArray(items, depth, fmt);
      case Object(members) => ShrinksObject(members, depth, fmt);
    }
  }

  lemma {:induction false} ShrinksArray(items: seq<Json>, depth: nat, fmt: bool)
    ensures Shrinks(Render(Array(items), depth, fmt), Render(Array(items), depth, false))
    decreases items, 1
  {
    if items == [] {
      ShrinksPlain([LBRACKET, RBRACKET]);
    } else {
      ShrinksPlain([LBRACKET]);
      ShrinksPlain([RBRACKET]);
      ShrinksItems(items, depth + 1, fmt);
      var body, small := RenderItems(items, depth + 1, fmt), RenderItems(items, depth + 1, false);
      ShrinksJoined([LBRACKET], [LBRACKET], body, small);
      ShrinksJoined([LBRACKET] + body, [LBRACKET] + small, [RBRACKET], [RBRACKET]);
    }
  }

  lemma {:induction false} ShrinksItems(items: seq<Json>, depth: nat, fmt: bool)
    requires items != []
    ensures Shrinks(RenderItems(items, depth, fmt), RenderItems(items, depth, false))
    decreases items, 0
  {
    ShrinksValue(items[0], depth, fmt);
    if |items| > 1 {
      ShrinksItems(items[1..], depth, fmt);
      ShrinksPlain([COMMA]);
      ShrinksIf(fmt, [SPACE]);
      var v, u := Render(items[0], depth, fmt), Render(items[0], depth, false);
      ShrinksJoined(v, u, [COMMA], [COMMA]);
      ShrinksJoined(v + [COMMA], u + [COMMA], If(fmt, [SPACE]), If(false, [SPACE]));
      ShrinksJoined(v + [COMMA] + If(fmt, [SPACE]), u + [COMMA] + If(false, [SPACE]),
                    RenderItems(items[1..], depth, fmt), RenderItems(items[1..], depth, false));
    }
  }

  lemma {:induction false} ShrinksPair(m: Member, depth: nat, fmt: bool)
    ensures Shrinks(RenderPair(m, depth, fmt), RenderPair(m, depth, false))
    decreases m, 0
  {
    ShrinksQuote(m.name);
    ShrinksPlain([COLON]);
    ShrinksIf(fmt, [TAB]);
    ShrinksValue(m.value, depth, fmt);
    var q := Quote(m.name);
    ShrinksJoined(q, q, [COLON], [COLON]);
    ShrinksJoined(q + [COLON], q + [COLON], If(fmt, [TAB]), If(false, [TAB]));
    ShrinksJoined(q + [COLON] + If(fmt, [TAB]), q + [COLON] + If(false, [TAB]),
                  Render(m.value, depth, fmt), Render(m.value, depth, false));
  }

  lemma {:induction false} ShrinksMember(m: Member, last: bool, depth: nat, fmt: bool)
    ensures Shrinks(RenderMember(m, last, depth, fmt), RenderMember(m, last, depth, false))
    decreases m, 1
  {
    ShrinksPair(m, depth, fmt);
    ShrinksPlain(If(!last, [COMMA]));
    ShrinksTabs(fmt, depth);
    ShrinksIf(fmt, [LF]);
    var a, b, c, d := If(fmt, Tabs(depth)), RenderPair(m, depth, fmt), If(!last, [COMMA]), If(fmt, [LF]);
    var a', b', d' := If(false, Tabs(depth)), RenderPair(m, depth, false), If(false, [LF]);
    ShrinksJoined(a, a', b, b');
    ShrinksJoined(a + b, a' + b', c, c);
    ShrinksJoined(a + b + c, a' + b' + c, d, d');
  }

  lemma {:induction false} ShrinksMembers(members: seq<Member>, depth: nat, fmt: bool)
    ensures Shrinks(RenderMembers(members, depth, fmt), RenderMembers(members, depth, false))
    decreases members, 0
  {
    if members == [] {
      ShrinksNothing();
    } else {
      var last := |members| == 1;
      ShrinksMember(members[0], last, depth, fmt);
      ShrinksMembers(members[1..], depth, fmt);
      ShrinksJoined(RenderMember(members[0], last, depth, fmt), RenderMember(members[0], last, depth, false),
                    RenderMembers(members[1..], depth, fmt), RenderMembers(members[1..], depth, false));
    }
  }

  lemma {:induction false} ShrinksObject(members: seq<Member>, depth: nat, fmt: bool)
    ensures Shrinks(Render(Object(members), depth, fmt), Render(Object(members), depth, false))
    decreases members, 1
  {
    var open, close := [LBRACE], [RBRACE];
    ShrinksPlain(open);
    ShrinksPlain(close);
    if members == [] {
      var tabs := [LF] + Tabs(if depth == 0 then 0 else depth - 1);
      TabsBytes(if depth == 0 then 0 else depth - 1);
      ShrinksIf(fmt, tabs);
      ShrinksJoined(open, open, If(fmt, tabs), If(false, tabs));
      ShrinksJoined(open + If(fmt, tabs), open + If(false, tabs), close, close);
    } else {
      ShrinksIf(fmt, [LF]);
      ShrinksMembers(members, depth + 1, fmt);
      ShrinksTabs(fmt, depth);
      var a, b, c := If(fmt, [LF]), RenderMembers(members, depth + 1, fmt), If(fmt, Tabs(depth));
      var a', b', c' := If(false, [LF]), RenderMembers(members, depth + 1, false), If(false, Tabs(depth));
      ShrinksJoined(open, open, a, a');
      ShrinksJoined(open + a, open + a', b, b');
      ShrinksJoined(open + a + b, open + a' + b', c, c');
      ShrinksJoined(open + a + b + c, open + a' + b' + c', close, close);
    }
  }

  /** Minifying the formatted text of any tree gives its unformatted text, and minifying the
      unformatted text changes nothing. */
  lemma MinifyPrint(v: Json, depth: nat, fmt: bool)
    ensures Minify(Render(v, depth, fmt)) == Minified(Render(v, depth, false))
  {
    ShrinksValue(v, depth, fmt);
    var t, u := Render(v, depth, fmt), Render(v, depth, false);
    assert MinifyBefore(t, []) == Then(u, Minify([]));
    assert t + [] == t && u + [] == u;
  }
}
