/** cJSON's two printers: one allocates a string per node and joins them, the other writes all of
    the text into one growing buffer.  Both produce `Render`. */
module JsonPrint {
  import opened Bytes
  import opened Json
  import opened JsonRoundTrip

  // ----- texts are C strings

  lemma NulFreeJoined(a: Text, b: Text)
    requires NulFree(a) && NulFree(b)
    ensures NulFree(a + b)
  {
  }

  lemma {:induction false} DigitsNulFree(n: nat)
    ensures NulFree(Digits(n))
  {
    if n >= 10 {
      DigitsNulFree(n / 10);
    }
  }

  lemma {:induction false} EscapeNulFree(t: Text)
    requires NulFree(t)
    ensures NulFree(Escape(t))
    decreases |t|
  {
    if t != [] {
      EscapeNulFree(t[1..]);
      NulFreeJoined(EscapeByte(t[0]), Escape(t[1..]));
    }
  }

  lemma QuoteNulFree(t: Text)
    requires NulFree(t)
    ensures NulFree(Quote(t))
  {
    EscapeNulFree(t);
  }

  lemma TabsNulFree(n: nat)
    ensures NulFree(Tabs(n))
  {
    TabsBytes(n);
  }

  lemma {:induction false} RenderNulFree(v: Json, depth: nat, fmt: bool)
    requires Printable(v)
    ensures NulFree(Render(v, depth, fmt))
    decreases v, 1
  {
    match v {
      case Number(x) => DigitsNulFree(if x.Floor < 0 then -x.Floor else x.Floor);
      case String(t) => QuoteNulFree(t);
      case Array(items) =>
        if items != [] {
          ItemsNulFree(items, depth + 1, fmt);
        }
      case Object(members) =>
        ObjectNulFree(members, depth, fmt);
      case _ =>
    }
  }

  lemma {:induction false} ObjectNulFree(members: seq<Member>, depth: nat, fmt: bool)
    requires PrintableMembers(members)
    ensures NulFree(Render(Object(members), depth, fmt))
    decreases members, 1
  {
    if members == [] {
      TabsNulFree(if depth == 0 then 0 else depth - 1);
    } else {
      MembersNulFree(members, depth + 1, fmt);
      TabsNulFree(depth);
      NulFreeJoined([LBRACE] + If(fmt, [LF]), RenderMembers(members, depth + 1, fmt));
    }
  }

  lemma {:induction false} ItemsNulFree(items: seq<Json>, depth: nat, fmt: bool)
    requires items != [] && PrintableItems(items)
    ensures NulFree(RenderItems(items, depth, fmt))
    decreases items, 0
  {
    RenderNulFree(items[0], depth, fmt);
    if |items| > 1 {
      ItemsNulFree(items[1..], depth, fmt);
    }
  }

  lemma {:induction false} MembersNulFree(members: seq<Member>, depth: nat, fmt: bool)
    requires PrintableMembers(members)
    ensures NulFree(RenderMembers(members, depth, fmt))
    decreases members, 0
  {
    if members != [] {
      MemberNulFree(members[0], |members| == 1, depth, fmt);
      MembersNulFree(members[1..], depth, fmt);
      NulFreeJoined(RenderMember(members[0], |members| == 1, depth, fmt), RenderMembers(members[1..], depth, fmt));
    }
  }

  lemma {:induction false} MemberNulFree(m: Member, last: bool, depth: nat, fmt: bool)
    requires NulFree(m.name) && Printable(m.value)
    ensures NulFree(RenderMember(m, last, depth, fmt))
    decreases m, 0
  {
    QuoteNulFree(m.name);
    RenderNulFree(m.value, depth, fmt);
    TabsNulFree(depth);
    NulFreeJoined(Quote(m.name) + [COLON] + If(fmt, [TAB]), Render(m.value, depth, fmt));
    NulFreeJoined(If(fmt, Tabs(depth)), RenderPair(m, depth, fmt));
  }

  // ----- writing

  /** Ends the text in `out` with `t` and a terminator. */
  method Finish(out: array<byte>, ptr: nat, t: Text)
    requires ptr + |t| < out.Length
    modifies out
    ensures IsString(out, old(out[..ptr]) + t)
  {
    ghost var pre := out[..ptr];
    Write(out, ptr, t + [0]);
    assert pre + (t + [0]) == pre + t + [0];
  }

  /** `strlen`. */
  method StrLen(a: array<byte>, start: nat, ghost end: nat) returns (n: nat)
    requires start <= end < a.Length && a[end] == 0 && forall k :: start <= k < end ==> a[k] != 0
    ensures start + n == end
  {
    n := 0;
    while a[start + n] != 0
      invariant start + n <= end
      decreases end - n
    {
      n := n + 1;
    }
  }

  method StringLength(a: array<byte>, ghost t: Text) returns (n: nat)
    requires IsString(a, t) && NulFree(t)
    ensures n == |t|
  {
    StringBytes(a, t);
    n := StrLen(a, 0, |t|);
  }

  lemma StringBytes(a: array<byte>, t: Text)
    requires IsString(a, t) && NulFree(t)
    ensures a[|t|] == 0 && forall k :: 0 <= k < |t| ==> a[k] == t[k] && a[k] != 0
  {
    var s := a[..|t| + 1];
    assert s[|t|] == a[|t|];
    forall k | 0 <= k < |t|
      ensures a[k] == t[k]
    {
      assert s[k] == a[k];
    }
  }

  /** Copies the C string in `a` to `at`. */
  method CopyString(out: array<byte>, at: nat, a: array<byte>, ghost t: Text) returns (end: nat)
    requires out != a && IsString(a, t) && NulFree(t) && at + |t| <= out.Length
    modifies out
    ensures end == at + |t| && out[..end] == old(out[..at]) + t
  {
    var n := StringLength(a, t);
    StringBytes(a, t);
    assert a[..n] == t;
    Write(out, at, a[..n]);
    end := at + n;
  }

  // ----- strings

  predicate Special(b: byte) {
    b < 32 || b == QUOTE || b == BACKSLASH
  }

  lemma {:induction false} EscapePlain(t: Text)
    requires forall k :: 0 <= k < |t| ==> !Special(t[k])
    ensures Escape(t) == t
    decreases |t|
  {
    if t != [] {
      EscapePlain(t[1..]);
      assert t == [t[0]] + t[1..];
    }
  }

  lemma {:induction false} EscapeSplit(t: Text, k: nat)
    requires k < |t|
    ensures Escape(t[..k + 1]) == Escape(t[..k]) + EscapeByte(t[k])
    decreases |t|
  {
    if k == 0 {
      assert t[..1] == [t[0]] && t[..0] == [];
    } else {
      EscapeSplit(t[1..], k - 1);
      assert t[..k + 1][1..] == t[1..][..k] && t[..k][1..] == t[1..][..k - 1];
    }
  }

  lemma {:induction false} EscapePrefix(t: Text, k: nat)
    requires k <= |t|
    ensures |Escape(t[..k])| <= |Escape(t)|
    decreases |t| - k
  {
    if k == |t| {
      assert t[..k] == t;
    } else {
      EscapeSplit(t, k);
      EscapePrefix(t, k + 1);
    }
  }

  /** The first pass of `print_string_ptr`: is there anything to escape? */
  method NeedsEscape(t: Text) returns (flag: bool)
    ensures flag <==> exists k :: 0 <= k < |t| && Special(t[k])
  {
    flag := false;
    var k := 0;
    while k < |t|
      invariant k <= |t| && (flag <==> exists j :: 0 <= j < k && Special(t[j]))
    {
      flag := flag || Special(t[k]);
      k := k + 1;
    }
  }

  /** The second pass: how long is the escaped text? */
  method EscapedLength(t: Text) returns (len: nat)
    ensures len == |Escape(t)|
  {
    len := 0;
    var k := 0;
    while k < |t|
      invariant k <= |t| && len == |Escape(t[..k])|
    {
      EscapeSplit(t, k);
      len := len + 1;
      if t[k] == QUOTE || t[k] == BACKSLASH || t[k] == 8 || t[k] == 12 || t[k] == 10 || t[k] == 13 || t[k] == 9 {
        len := len + 1;
      } else if t[k] < 32 {
        len := len + 5;
      }
      k := k + 1;
    }
    assert t[..k] == t;
  }

  /** How much `print_string_ptr` asks for. */
  method QuotedSize(t: Text) returns (flag: bool, size: nat)
    ensures size == |Quote(t)| + 1 && (!flag ==> Escape(t) == t)
  {
    flag := NeedsEscape(t);
    if !flag {
      EscapePlain(t);
      size := |t| + 3;
    } else {
      var len := EscapedLength(t);
      size := len + 3;
    }
  }

  /** The last pass: the quoted text, with its terminator, from `at` on. */
  method WriteQuoted(out: array<byte>, at: nat, t: Text, flag: bool)
    requires at + |Quote(t)| + 1 <= out.Length && (!flag ==> Escape(t) == t)
    modifies out
    ensures out[..at + |Quote(t)| + 1] == old(out[..at]) + Quote(t) + [0]
  {
    ghost var pre := out[..at];
    Write(out, at, [QUOTE]);
    var end := at + 1;
    if flag {
      end := WriteEscaped(out, end, t);
    } else {
      WriteCopy(out, end, t);
      end := end + |t|;
    }
    Write(out, end, [QUOTE, 0]);
    Joined(pre, [QUOTE], Escape(t), [QUOTE, 0]);
    Joined(pre, [QUOTE], Escape(t), [QUOTE]);
    assert pre + Quote(t) + [0] == (pre + [QUOTE] + Escape(t) + [QUOTE]) + [0] == pre + [QUOTE] + Escape(t) + [QUOTE, 0];
  }

  /** `strcpy`: also stores the terminator. */
  method WriteCopy(out: array<byte>, at: nat, t: Text)
    requires at + |t| < out.Length
    modifies out
    ensures out[..at + |t|] == old(out[..at]) + t
  {
    Write(out, at, t + [0]);
    assert out[..at + |t|] == out[..at + |t| + 1][..at + |t|];
  }

  method WriteEscaped(out: array<byte>, at: nat, t: Text) returns (end: nat)
    requires at + |Escape(t)| <= out.Length
    modifies out
    ensures end == at + |Escape(t)| && out[..end] == old(out[..at]) + Escape(t)
  {
    end := at;
    var k := 0;
    assert Escape(t[..0]) == [];
    while k < |t|
      invariant k <= |t| && end == at + |Escape(t[..k])| <= out.Length
      invariant out[..end] == old(out[..at]) + Escape(t[..k])
    {
      EscapeSplit(t, k);
      EscapePrefix(t, k + 1);
      Associate(old(out[..at]), Escape(t[..k]), EscapeByte(t[k]));
      end := WriteChar(out, end, t[k]);
      k := k + 1;
    }
    assert t[..k] == t;
  }

  method WriteChar(out: array<byte>, at: nat, b: byte) returns (end: nat)
    requires at + |EscapeByte(b)| <= out.Length
    modifies out
    ensures end == at + |EscapeByte(b)| && out[..end] == old(out[..at]) + EscapeByte(b)
  {
    if b > 31 && b != QUOTE && b != BACKSLASH {
      Write(out, at, [b]);
      end := at + 1;
    } else {
      Write(out, at, [BACKSLASH]);
      var rest :=
        if b == BACKSLASH then [BACKSLASH]
        else if b == QUOTE then [QUOTE]
        else if b == 8 then [98]
        else if b == 12 then [102]
        else if b == 10 then [110]
        else if b == 13 then [114]
        else if b == 9 then [116]
        else [117, 48, 48, HexDigit(b / 16), HexDigit(b % 16)];
      Write(out, at + 1, rest);
      end := at + 1 + |rest|;
    }
  }

  // ----- numbers

  lemma {:induction false} DigitsLength(n: nat, k: nat, bound: nat)
    requires k > 0 && n < bound && bound == Tens(k)
    ensures |Digits(n)| <= k
    decreases k
  {
    if n >= 10 {
      DigitsLength(n / 10, k - 1, Tens(k - 1));
    }
  }

  function Tens(k: nat): nat {
    if k == 0 then 1 else 10 * Tens(k - 1)
  }

  /** A 32-bit integer prints in at most eleven characters. */
  lemma DecimalLength(n: int)
    requires -0x8000_0000 <= n < 0x8000_0000
    ensures 1 <= |Decimal(n)| <= 11
  {
    assert Tens(10) == 10000000000;
    DigitsLength(if n < 0 then -n else n, 10, Tens(10));
  }

  /** The size asked for and the text written for a number. */
  method NumberText(x: real) returns (size: nat, t: Text)
    requires Printable(Number(x))
    ensures t == Decimal(x.Floor) && |t| < size <= 21
  {
    DecimalLength(x.Floor);
    if x == 0.0 {
      size, t := 2, [ZERO];
    } else {
      size, t := 21, Decimal(x.Floor);
    }
  }

  // ----- the list of children, left to right

  lemma {:induction false} PrintableAt(items: seq<Json>, k: nat)
    requires PrintableItems(items) && k < |items|
    ensures Printable(items[k])
    decreases k
  {
    if k > 0 {
      PrintableAt(items[1..], k - 1);
    }
  }

  lemma {:induction false} PrintableMemberAt(members: seq<Member>, k: nat)
    requires PrintableMembers(members) && k < |members|
    ensures NulFree(members[k].name) && Printable(members[k].value)
    decreases k
  {
    if k > 0 {
      PrintableMemberAt(members[1..], k - 1);
    }
  }

  /** The separator behind item `k`. */
  function Separator(last: bool, fmt: bool): Text {
    if last then [] else if fmt then [COMMA, SPACE] else [COMMA]
  }

  /** The text of the items from `k` on. */
  function Items(items: seq<Json>, k: nat, depth: nat, fmt: bool): Text
    requires k <= |items|
  {
    if k == |items| then [] else RenderItems(items[k..], depth, fmt)
  }

  lemma ItemsAt(items: seq<Json>, k: nat, depth: nat, fmt: bool)
    requires k < |items|
    ensures Items(items, k, depth, fmt)
            == Render(items[k], depth, fmt) + Separator(k + 1 == |items|, fmt) + Items(items, k + 1, depth, fmt)
  {
    var rest := items[k..];
    assert rest[0] == items[k] && rest[1..] == items[k + 1..];
    if k + 1 < |items| {
      assert [COMMA] + If(fmt, [SPACE]) == Separator(false, fmt);
    }
  }

  lemma MembersAt(members: seq<Member>, k: nat, depth: nat, fmt: bool)
    requires k < |members|
    ensures RenderMembers(members[k..], depth, fmt)
            == RenderMember(members[k], k + 1 == |members|, depth, fmt) + RenderMembers(members[k + 1..], depth, fmt)
  {
    var rest := members[k..];
    assert rest[0] == members[k] && rest[1..] == members[k + 1..];
  }

  // ----- the allocating printer

  method Duplicate(t: Text) returns (out: array<byte>)
    ensures fresh(out) && IsString(out, t)
  {
    out := new byte[|t| + 1];
    Write(out, 0, t + [0]);
  }

  method AllocateQuoted(t: Text) returns (out: array<byte>)
    ensures fresh(out) && IsString(out, Quote(t))
  {
    var flag, size := QuotedSize(t);
    out := new byte[size];
    WriteQuoted(out, 0, t, flag);
  }

  method AllocateNumber(x: real) returns (out: array<byte>)
    requires Printable(Number(x))
    ensures fresh(out) && IsString(out, Decimal(x.Floor))
  {
    var size, t := NumberText(x);
    out := new byte[size];
    Write(out, 0, t + [0]);
  }

  /** `print_value` without a buffer. */
  method Print(v: Json, depth: nat, fmt: bool) returns (out: array<byte>)
    requires Printable(v)
    ensures fresh(out) && IsString(out, Render(v, depth, fmt))
    decreases v, 3
  {
    match v {
      case Null => out := Duplicate(NULL_TEXT);
      case False => out := Duplicate(FALSE_TEXT);
      case True => out := Duplicate(TRUE_TEXT);
      case Number(x) => out := AllocateNumber(x);
      case String(t) => out := AllocateQuoted(t);
      case Array(items) => out := PrintArray(items, depth, fmt);
      case Object(members) => out := PrintObject(members, depth, fmt);
    }
  }

  /** `print_array` joins the strings of the items from `k` on. */
  function JoinedItems(texts: seq<Text>, k: nat, fmt: bool): Text
    requires k <= |texts|
    decreases |texts| - k
  {
    if k == |texts| then []
    else texts[k] + Separator(k + 1 == |texts|, fmt) + JoinedItems(texts, k + 1, fmt)
  }

  lemma {:induction false} JoinedItemsRender(texts: seq<Text>, items: seq<Json>, k: nat, depth: nat, fmt: bool)
    requires k <= |texts| == |items| && forall i :: 0 <= i < |items| ==> texts[i] == Render(items[i], depth, fmt)
    ensures JoinedItems(texts, k, fmt) == Items(items, k, depth, fmt)
    decreases |items| - k
  {
    if k < |items| {
      ItemsAt(items, k, depth, fmt);
      JoinedItemsRender(texts, items, k + 1, depth, fmt);
    }
  }

  /** What it reserves for them. */
  function ItemsRoom(texts: seq<Text>, k: nat, fmt: bool): (n: nat)
    requires k <= |texts|
    ensures |JoinedItems(texts, k, fmt)| <= n
    decreases |texts| - k
  {
    if k == |texts| then 0 else |texts[k]| + 2 + (if fmt then 1 else 0) + ItemsRoom(texts, k + 1, fmt)
  }

  /** `entries` hold the NUL-free `texts`. */
  ghost predicate AreStrings(entries: seq<array<byte>>, texts: seq<Text>)
    reads entries
  {
    |entries| == |texts| && forall i :: 0 <= i < |texts| ==> IsString(entries[i], texts[i]) && NulFree(texts[i])
  }

  lemma OneMoreString(entries: seq<array<byte>>, texts: seq<Text>, a: array<byte>, t: Text)
    requires AreStrings(entries, texts) && IsString(a, t) && NulFree(t)
    ensures AreStrings(entries + [a], texts + [t])
  {
  }

  /** The items' own strings. */
  method PrintItems(items: seq<Json>, depth: nat, fmt: bool) returns (entries: seq<array<byte>>, ghost texts: seq<Text>)
    requires PrintableItems(items)
    ensures |texts| == |items| && AreStrings(entries, texts)
    ensures forall i :: 0 <= i < |items| ==> texts[i] == Render(items[i], depth, fmt)
    decreases items, 0
  {
    entries, texts := [], [];
    var k := 0;
    while k < |items|
      invariant k == |texts| <= |items| && AreStrings(entries, texts)
      invariant forall i :: 0 <= i < k ==> texts[i] == Render(items[i], depth, fmt)
    {
      PrintableAt(items, k);
      RenderNulFree(items[k], depth, fmt);
      var ret := Print(items[k], depth, fmt);
      OneMoreString(entries, texts, ret, Render(items[k], depth, fmt));
      entries, texts := entries + [ret], texts + [Render(items[k], depth, fmt)];
      k := k + 1;
    }
  }

  /** The size of the joint string. */
  method ItemsSize(entries: seq<array<byte>>, ghost texts: seq<Text>, fmt: bool) returns (len: nat)
    requires AreStrings(entries, texts)
    ensures len == 5 + ItemsRoom(texts, 0, fmt)
  {
    len := 5;
    var k := 0;
    while k < |entries|
      invariant k <= |entries| && len + ItemsRoom(texts, k, fmt) == 5 + ItemsRoom(texts, 0, fmt)
    {
      var n := StringLength(entries[k], texts[k]);
      len := len + n + 2 + if fmt then 1 else 0;
      k := k + 1;
    }
  }

  method PrintArray(items: seq<Json>, depth: nat, fmt: bool) returns (out: array<byte>)
    requires PrintableItems(items)
    ensures fresh(out) && IsString(out, Render(Array(items), depth, fmt))
    decreases items, 1
  {
    if items == [] {
      out := new byte[3];
      Write(out, 0, [LBRACKET, RBRACKET, 0]);
    } else {
      var entries, texts := PrintItems(items, depth + 1, fmt);
      var len := ItemsSize(entries, texts, fmt);
      out := new byte[len];
      var ptr := JoinItems(out, entries, texts, fmt);
      Finish(out, ptr, [RBRACKET]);
      JoinedItemsRender(texts, items, 0, depth + 1, fmt);
      assert items[0..] == items;
    }
  }

  method JoinItems(out: array<byte>, entries: seq<array<byte>>, ghost texts: seq<Text>, fmt: bool) returns (ptr: nat)
    requires AreStrings(entries, texts) && out !in entries
    requires out.Length == 5 + ItemsRoom(texts, 0, fmt)
    modifies out
    ensures ptr + 2 <= out.Length && out[..ptr] == [LBRACKET] + JoinedItems(texts, 0, fmt)
  {
    Write(out, 0, [LBRACKET]);
    ptr := 1;
    var k := 0;
    ghost var all := [LBRACKET] + JoinedItems(texts, 0, fmt);
    while k < |entries|
      invariant k <= |entries| && ptr <= |all|
      invariant out[..ptr] + JoinedItems(texts, k, fmt) == all
      invariant AreStrings(entries, texts)
    {
      ptr := JoinItem(out, ptr, entries[k], texts[k], k + 1 == |entries|, fmt, JoinedItems(texts, k + 1, fmt));
      k := k + 1;
    }
  }

  /** One item and the separator behind it. */
  method JoinItem(out: array<byte>, ptr: nat, entry: array<byte>, ghost t: Text, last: bool, fmt: bool,
                  ghost rest: Text) returns (end: nat)
    requires out != entry && IsString(entry, t) && NulFree(t) && ptr + |t + Separator(last, fmt) + rest| <= out.Length
    modifies out
    ensures end + |rest| == ptr + |t + Separator(last, fmt) + rest|
    ensures out[..end] + rest == old(out[..ptr]) + (t + Separator(last, fmt) + rest)
  {
    ghost var pre := out[..ptr];
    end := CopyString(out, ptr, entry, t);
    if !last {
      var sep := if fmt then [COMMA, SPACE] else [COMMA];
      Write(out, end, sep);
      end := end + |sep|;
    }
    Joined(pre, t, Separator(last, fmt), rest);
  }

  method PrintObject(members: seq<Member>, depth: nat, fmt: bool) returns (out: array<byte>)
    requires PrintableMembers(members)
    ensures fresh(out) && IsString(out, Render(Object(members), depth, fmt))
    decreases members, 2
  {
    if members == [] {
      var text := EmptyObject(depth, fmt);
      out := new byte[if fmt then depth + 4 else 3];
      Finish(out, 0, text);
      assert [] + text == text;
    } else {
      out := PrintFullObject(members, depth, fmt);
    }
  }

  method PrintFullObject(members: seq<Member>, depth: nat, fmt: bool) returns (out: array<byte>)
    requires members != [] && PrintableMembers(members)
    ensures fresh(out) && IsString(out, Render(Object(members), depth, fmt))
    decreases members, 1
  {
    var names, entries, nameTexts, texts := PrintMembers(members, depth + 1, fmt);
    var len := MembersSize(names, entries, nameTexts, texts, depth + 1, fmt);
    out := new byte[len];
    var ptr := OpenAndJoin(out, names, entries, nameTexts, texts, depth + 1, fmt);
    FullObjectText(nameTexts, texts, members, depth, fmt);
    CloseObject(out, ptr, depth, fmt);
  }

  method OpenAndJoin(out: array<byte>, names: seq<array<byte>>, entries: seq<array<byte>>,
                     ghost nameTexts: seq<Text>, ghost texts: seq<Text>, depth: nat, fmt: bool) returns (ptr: nat)
    requires AreStrings(names, nameTexts) && AreStrings(entries, texts) && |nameTexts| == |texts|
    requires out !in names && out !in entries
    requires out.Length == 7 + (if fmt then depth else 0) + MembersRoom(nameTexts, texts, 0, depth, fmt)
    modifies out
    ensures ptr + (if fmt then depth else 0) + 2 <= out.Length
    ensures out[..ptr] == [LBRACE] + If(fmt, [LF]) + JoinedMembers(nameTexts, texts, 0, depth, fmt)
  {
    var open := [LBRACE] + if fmt then [LF] else [];
    Write(out, 0, open);
    ptr := JoinMembers(out, |open|, names, entries, nameTexts, texts, depth, fmt);
  }

  method CloseObject(out: array<byte>, ptr: nat, depth: nat, fmt: bool)
    requires ptr + |Indent(depth, fmt)| + 2 <= out.Length
    modifies out
    ensures IsString(out, old(out[..ptr]) + Indent(depth, fmt) + [RBRACE])
  {
    Write(out, ptr, Indent(depth, fmt));
    Finish(out, ptr + |Indent(depth, fmt)|, [RBRACE]);
  }

  lemma FullObjectText(names: seq<Text>, texts: seq<Text>, members: seq<Member>, depth: nat, fmt: bool)
    requires members != [] && |texts| == |members| && TextsOf(names, texts, members, depth + 1, fmt)
    ensures [LBRACE] + If(fmt, [LF]) + JoinedMembers(names, texts, 0, depth + 1, fmt) + Indent(depth, fmt) + [RBRACE]
            == Render(Object(members), depth, fmt)
  {
    JoinedMembersRender(names, texts, members, 0, depth + 1, fmt);
    assert members[0..] == members;
  }

  function EmptyObject(depth: nat, fmt: bool): (t: Text)
    ensures t == Render(Object([]), depth, fmt) && |t| < if fmt then depth + 4 else 3
  {
    [LBRACE] + If(fmt, [LF] + Tabs(if depth == 0 then 0 else depth - 1)) + [RBRACE]
  }

  function Indent(depth: nat, fmt: bool): Text {
    If(fmt, Tabs(depth))
  }

  function Colon(fmt: bool): Text {
    if fmt then [COLON, TAB] else [COLON]
  }

  function MemberEnd(last: bool, fmt: bool): Text {
    if last then If(fmt, [LF]) else if fmt then [COMMA, LF] else [COMMA]
  }

  function MemberText(name: Text, text: Text, last: bool, depth: nat, fmt: bool): Text {
    Indent(depth, fmt) + name + Colon(fmt) + text + MemberEnd(last, fmt)
  }

  lemma MemberTextRender(m: Member, last: bool, depth: nat, fmt: bool)
    ensures MemberText(Quote(m.name), Render(m.value, depth, fmt), last, depth, fmt) == RenderMember(m, last, depth, fmt)
  {
    var ind, q, v := Indent(depth, fmt), Quote(m.name), Render(m.value, depth, fmt);
    assert [COLON] + If(fmt, [TAB]) == Colon(fmt) && If(!last, [COMMA]) + If(fmt, [LF]) == MemberEnd(last, fmt);
    Regroup(ind, q, [COLON], If(fmt, [TAB]), v, If(!last, [COMMA]), If(fmt, [LF]));
  }

  lemma Regroup(a: Text, b: Text, c: Text, d: Text, e: Text, f: Text, g: Text)
    ensures a + (b + c + d + e) + f + g == a + b + (c + d) + e + (f + g)
  {
    assert a + (b + c + d + e) == a + b + (c + d) + e;
  }

  /** `print_object` joins the strings of the members from `k` on. */
  function JoinedMembers(names: seq<Text>, texts: seq<Text>, k: nat, depth: nat, fmt: bool): Text
    requires k <= |names| == |texts|
    decreases |texts| - k
  {
    if k == |texts| then []
    else MemberText(names[k], texts[k], k + 1 == |texts|, depth, fmt) + JoinedMembers(names, texts, k + 1, depth, fmt)
  }

  /** The strings of the first members. */
  ghost predicate TextsOf(names: seq<Text>, texts: seq<Text>, members: seq<Member>, depth: nat, fmt: bool) {
    && |names| == |texts| <= |members|
    && (forall i :: 0 <= i < |names| ==> names[i] == Quote(members[i].name))
    && (forall i :: 0 <= i < |texts| ==> texts[i] == Render(members[i].value, depth, fmt))
  }

  lemma OneMoreMember(names: seq<Text>, texts: seq<Text>, members: seq<Member>, depth: nat, fmt: bool)
    requires |texts| < |members| && TextsOf(names, texts, members, depth, fmt)
    ensures TextsOf(names + [Quote(members[|texts|].name)], texts + [Render(members[|texts|].value, depth, fmt)], members, depth, fmt)
  {
  }

  lemma {:induction false} JoinedMembersRender(names: seq<Text>, texts: seq<Text>, members: seq<Member>, k: nat,
                                               depth: nat, fmt: bool)
    requires k <= |texts| == |members| && TextsOf(names, texts, members, depth, fmt)
    ensures JoinedMembers(names, texts, k, depth, fmt) == RenderMembers(members[k..], depth, fmt)
    decreases |members| - k
  {
    if k < |members| {
      MembersAt(members, k, depth, fmt);
      MemberTextRender(members[k], k + 1 == |members|, depth, fmt);
      JoinedMembersRender(names, texts, members, k + 1, depth, fmt);
    }
  }

  /** What it reserves for them. */
  function MembersRoom(names: seq<Text>, texts: seq<Text>, k: nat, depth: nat, fmt: bool): (n: nat)
    requires k <= |names| == |texts|
    ensures |JoinedMembers(names, texts, k, depth, fmt)| <= n
    decreases |texts| - k
  {
    if k == |texts| then 0
    else |texts[k]| + |names[k]| + 2 + (if fmt then 2 + depth else 0) + MembersRoom(names, texts, k + 1, depth, fmt)
  }

  method PrintMembers(members: seq<Member>, depth: nat, fmt: bool)
    returns (names: seq<array<byte>>, entries: seq<array<byte>>, ghost nameTexts: seq<Text>, ghost texts: seq<Text>)
    requires PrintableMembers(members)
    ensures |texts| == |members| && AreStrings(names, nameTexts) && AreStrings(entries, texts)
    ensures TextsOf(nameTexts, texts, members, depth, fmt)
    decreases members, 0
  {
    names, entries, nameTexts, texts := [], [], [], [];
    var k := 0;
    while k < |members|
      invariant k == |texts| <= |members| && AreStrings(names, nameTexts) && AreStrings(entries, texts)
      invariant TextsOf(nameTexts, texts, members, depth, fmt)
    {
      PrintableMemberAt(members, k);
      var str, ret, q, t := PrintMember(members[k], depth, fmt);
      OneMoreString(names, nameTexts, str, q);
      OneMoreString(entries, texts, ret, t);
      OneMoreMember(nameTexts, texts, members, depth, fmt);
      names, nameTexts := names + [str], nameTexts + [q];
      entries, texts := entries + [ret], texts + [t];
      k := k + 1;
    }
  }

  method PrintMember(m: Member, depth: nat, fmt: bool)
    returns (name: array<byte>, entry: array<byte>, ghost q: Text, ghost t: Text)
    requires NulFree(m.name) && Printable(m.value)
    ensures q == Quote(m.name) && IsString(name, q) && NulFree(q)
    ensures t == Render(m.value, depth, fmt) && IsString(entry, t) && NulFree(t)
    decreases m, 0
  {
    QuoteNulFree(m.name);
    RenderNulFree(m.value, depth, fmt);
    name := AllocateQuoted(m.name);
    entry := Print(m.value, depth, fmt);
    q, t := Quote(m.name), Render(m.value, depth, fmt);
  }

  method MembersSize(names: seq<array<byte>>, entries: seq<array<byte>>, ghost nameTexts: seq<Text>,
                     ghost texts: seq<Text>, depth: nat, fmt: bool) returns (len: nat)
    requires AreStrings(names, nameTexts) && AreStrings(entries, texts) && |nameTexts| == |texts|
    ensures len == 7 + (if fmt then depth else 0) + MembersRoom(nameTexts, texts, 0, depth, fmt)
  {
    len := 7;
    if fmt {
      len := len + depth;
    }
    var k := 0;
    while k < |entries|
      invariant k <= |entries|
      invariant len + MembersRoom(nameTexts, texts, k, depth, fmt) == 7 + (if fmt then depth else 0) + MembersRoom(nameTexts, texts, 0, depth, fmt)
    {
      var n := StringLength(entries[k], texts[k]);
      var m := StringLength(names[k], nameTexts[k]);
      len := len + n + m + 2 + if fmt then 2 + depth else 0;
      k := k + 1;
    }
  }

  /** One member: indentation, name, colon, value, comma, line feed. */
  method JoinMember(out: array<byte>, ptr: nat, name: array<byte>, entry: array<byte>, ghost q: Text,
                    ghost t: Text, last: bool, depth: nat, fmt: bool) returns (end: nat)
    requires out != name && out != entry && IsString(name, q) && NulFree(q) && IsString(entry, t) && NulFree(t)
    requires ptr + |MemberText(q, t, last, depth, fmt)| < out.Length
    modifies out
    ensures end == ptr + |MemberText(q, t, last, depth, fmt)|
    ensures out[..end] == old(out[..ptr]) + MemberText(q, t, last, depth, fmt)
  {
    ghost var pre := out[..ptr];
    end := JoinName(out, ptr, name, q, depth, fmt);
    end := CopyString(out, end, entry, t);
    Write(out, end, MemberEnd(last, fmt));
    end := end + |MemberEnd(last, fmt)|;
    Joined(pre, Indent(depth, fmt) + q + Colon(fmt), t, MemberEnd(last, fmt));
  }

  method JoinName(out: array<byte>, ptr: nat, name: array<byte>, ghost q: Text, depth: nat, fmt: bool)
    returns (end: nat)
    requires out != name && IsString(name, q) && NulFree(q) && ptr + |Indent(depth, fmt) + q + Colon(fmt)| <= out.Length
    modifies out
    ensures end == ptr + |Indent(depth, fmt) + q + Colon(fmt)|
    ensures out[..end] == old(out[..ptr]) + (Indent(depth, fmt) + q + Colon(fmt))
  {
    ghost var pre := out[..ptr];
    Write(out, ptr, Indent(depth, fmt));
    end := ptr + |Indent(depth, fmt)|;
    end := CopyString(out, end, name, q);
    Write(out, end, Colon(fmt));
    end := end + |Colon(fmt)|;
    Joined(pre, Indent(depth, fmt), q, Colon(fmt));
  }

  /** The same for member `k`, with the text that is still to come in view. */
  method JoinMemberAt(out: array<byte>, ptr: nat, names: seq<array<byte>>, entries: seq<array<byte>>,
                      ghost nameTexts: seq<Text>, ghost texts: seq<Text>, k: nat, depth: nat, fmt: bool)
    returns (end: nat)
    requires AreStrings(names, nameTexts) && AreStrings(entries, texts) && |nameTexts| == |texts|
    requires out !in names && out !in entries && k < |entries|
    requires ptr + |JoinedMembers(nameTexts, texts, k, depth, fmt)| < out.Length
    modifies out
    ensures AreStrings(names, nameTexts) && AreStrings(entries, texts)
    ensures end + |JoinedMembers(nameTexts, texts, k + 1, depth, fmt)| == ptr + |JoinedMembers(nameTexts, texts, k, depth, fmt)|
    ensures out[..end] + JoinedMembers(nameTexts, texts, k + 1, depth, fmt) == old(out[..ptr]) + JoinedMembers(nameTexts, texts, k, depth, fmt)
  {
    ghost var pre, q, t := out[..ptr], nameTexts[k], texts[k];
    end := JoinMember(out, ptr, names[k], entries[k], q, t, k + 1 == |entries|, depth, fmt);
    Associate(pre, MemberText(q, t, k + 1 == |entries|, depth, fmt), JoinedMembers(nameTexts, texts, k + 1, depth, fmt));
  }

  /** All members, from `start` on. */
  method JoinMembers(out: array<byte>, start: nat, names: seq<array<byte>>, entries: seq<array<byte>>,
                     ghost nameTexts: seq<Text>, ghost texts: seq<Text>, depth: nat, fmt: bool) returns (ptr: nat)
    requires AreStrings(names, nameTexts) && AreStrings(entries, texts) && |nameTexts| == |texts|
    requires out !in names && out !in entries
    requires start + |JoinedMembers(nameTexts, texts, 0, depth, fmt)| < out.Length
    modifies out
    ensures ptr == start + |JoinedMembers(nameTexts, texts, 0, depth, fmt)|
    ensures out[..ptr] == old(out[..start]) + JoinedMembers(nameTexts, texts, 0, depth, fmt)
  {
    ptr := start;
    var k := 0;
    ghost var n, all := |JoinedMembers(nameTexts, texts, 0, depth, fmt)|, out[..start] + JoinedMembers(nameTexts, texts, 0, depth, fmt);
    while k < |entries|
      invariant k <= |entries| && ptr + |JoinedMembers(nameTexts, texts, k, depth, fmt)| == start + n
      invariant out[..ptr] + JoinedMembers(nameTexts, texts, k, depth, fmt) == all
      invariant AreStrings(names, nameTexts) && AreStrings(entries, texts)
    {
      ptr := JoinMemberAt(out, ptr, names, entries, nameTexts, texts, k, depth, fmt);
      k := k + 1;
    }
    assert out[..ptr] + [] == out[..ptr];
  }
}
