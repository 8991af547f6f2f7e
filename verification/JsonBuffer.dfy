/** cJSON's buffered printer: all text goes into one buffer that grows on demand. */
module JsonBuffer {
  import opened Bytes
  import opened Json
  import opened JsonRoundTrip
  import opened JsonPrint
  import Pow2

  /** Sizes up to here are rounded up without overflow. */
  const LIMIT: nat := 0x4000_0000

  /** What a step may ask for beyond the text it writes. */
  const SLACK: nat := 21

  class PrintBuffer {
    var buffer: array<byte>
    var offset: nat

    constructor (prebuffer: nat)
      requires 1 <= prebuffer
      ensures fresh(buffer) && buffer.Length == prebuffer && offset == 0
    {
      buffer := new byte[prebuffer];
      offset := 0;
    }

    ghost predicate Valid()
      reads this, buffer
    {
      offset <= buffer.Length
    }

    /** The text written so far. */
    ghost function Done(): Text
      reads this, buffer
      requires Valid()
    {
      buffer[..offset]
    }

    /** The text `t` and a terminator stand behind the text `pre`, and the offset is in or behind `t`. */
    ghost predicate Printed(pre: Text, t: Text)
      reads this, buffer
    {
      && |pre| <= offset <= |pre| + |t| < buffer.Length
      && buffer[..|pre| + |t| + 1] == pre + t + [0]
    }

    /** `ensure`: room for `needed` bytes at the offset. */
    method Ensure(needed: nat)
      requires Valid() && 1 <= offset + needed <= LIMIT
      modifies this`buffer
      ensures Valid() && offset + needed <= buffer.Length && Done() == old(Done())
      ensures buffer == old(buffer) || (fresh(buffer) && buffer.Length > old(buffer.Length))
    {
      var total := offset + needed;
      if total <= buffer.Length {
        return;
      }
      var size := Pow2.RoundUp(total);
      var bigger := new byte[size];
      Write(bigger, 0, buffer[..]);
      assert bigger[..offset] == bigger[..buffer.Length][..offset];
      buffer := bigger;
    }

    /** `update`: the offset moves to the terminator. */
    method Update(ghost pre: Text, ghost t: Text)
      requires Printed(pre, t) && NulFree(t)
      modifies this`offset
      ensures Valid() && offset == |pre| + |t| && Done() == pre + t
    {
      ghost var end := |pre| + |t|;
      PrintedBytes(pre, t);
      var n := StrLen(buffer, offset, end);
      offset := offset + n;
    }

    lemma PrintedBytes(pre: Text, t: Text)
      requires Printed(pre, t) && NulFree(t)
      ensures buffer[|pre| + |t|] == 0 && buffer[..|pre| + |t|] == pre + t
      ensures forall k :: |pre| <= k < |pre| + |t| ==> buffer[k] != 0
    {
      var s := buffer[..|pre| + |t| + 1];
      assert buffer[..|pre| + |t|] == s[..|pre| + |t|];
      assert s[|pre| + |t|] == buffer[|pre| + |t|];
      forall k | |pre| <= k < |pre| + |t|
        ensures buffer[k] != 0
      {
        assert s[k] == buffer[k] == t[k - |pre|];
      }
    }

    /** Writes `t` at the offset and moves behind it; asks for `needed` bytes and, if that is more
        than `t`, ends it with a terminator. */
    method Emit(t: Text, needed: nat)
      requires Valid() && |t| <= needed <= |t| + 1 && 1 <= offset + needed <= LIMIT
      modifies this, buffer
      ensures Valid() && offset == old(offset) + |t| && Done() == old(Done()) + t
      ensures buffer == old(buffer) || fresh(buffer)
    {
      Ensure(needed);
      if needed > |t| {
        WriteCopy(buffer, offset, t);
      } else {
        Write(buffer, offset, t);
      }
      offset := offset + |t|;
    }

    /** Writes `t` and a terminator at the offset, which stays. */
    method Put(t: Text, needed: nat)
      requires Valid() && |t| < needed && offset + needed <= LIMIT
      modifies this, buffer
      ensures offset == old(offset) && Printed(old(Done()), t)
      ensures buffer == old(buffer) || fresh(buffer)
    {
      Ensure(needed);
      Finish(buffer, offset, t);
    }

    method PrintString(t: Text)
      requires Valid() && offset + |Quote(t)| + SLACK <= LIMIT
      modifies this, buffer
      ensures offset == old(offset) && Printed(old(Done()), Quote(t))
      ensures buffer == old(buffer) || fresh(buffer)
    {
      var flag, size := QuotedSize(t);
      Ensure(size);
      WriteQuoted(buffer, offset, t, flag);
    }

    method PrintNumber(x: real)
      requires Valid() && Printable(Number(x)) && offset + |Decimal(x.Floor)| + SLACK <= LIMIT
      modifies this, buffer
      ensures offset == old(offset) && Printed(old(Done()), Decimal(x.Floor))
      ensures buffer == old(buffer) || fresh(buffer)
    {
      var size, t := NumberText(x);
      Put(t, size);
    }

    /** `print_value` with a buffer.  The pointer it returns is where the text starts, except for a
        formatted object with members, whose loop over the closing indentation overwrites it. */
    method PrintValue(v: Json, depth: nat, fmt: bool) returns (start: nat)
      requires Valid() && Printable(v) && offset + |Render(v, depth, fmt)| + SLACK <= LIMIT
      modifies this, buffer
      ensures Printed(old(Done()), Render(v, depth, fmt)) && old(offset) <= offset
      ensures start == if fmt && v.Object? && v.members != [] then depth else old(offset)
      ensures buffer == old(buffer) || fresh(buffer)
      decreases v, 3
    {
      start := offset;
      match v {
        case Null => Put(NULL_TEXT, 5);
        case False => Put(FALSE_TEXT, 6);
        case True => Put(TRUE_TEXT, 5);
        case Number(x) => PrintNumber(x);
        case String(t) => PrintString(t);
        case Array(items) => start := PrintArray(items, depth, fmt);
        case Object(members) => start := PrintObject(members, depth, fmt);
      }
    }

    /** `print_value` followed by `update`. */
    method Append(v: Json, depth: nat, fmt: bool)
      requires Valid() && Printable(v) && offset + |Render(v, depth, fmt)| + SLACK <= LIMIT
      modifies this, buffer
      ensures Valid() && offset == old(offset) + |Render(v, depth, fmt)| && Done() == old(Done()) + Render(v, depth, fmt)
      ensures buffer == old(buffer) || fresh(buffer)
      decreases v, 4
    {
      ghost var pre := Done();
      var start := PrintValue(v, depth, fmt);
      RenderNulFree(v, depth, fmt);
      Update(pre, Render(v, depth, fmt));
    }

    method AppendString(t: Text)
      requires Valid() && NulFree(t) && offset + |Quote(t)| + SLACK <= LIMIT
      modifies this, buffer
      ensures Valid() && offset == old(offset) + |Quote(t)| && Done() == old(Done()) + Quote(t)
      ensures buffer == old(buffer) || fresh(buffer)
    {
      ghost var pre := Done();
      PrintString(t);
      QuoteNulFree(t);
      Update(pre, Quote(t));
    }

    method PrintArray(items: seq<Json>, depth: nat, fmt: bool) returns (start: nat)
      requires Valid() && PrintableItems(items) && offset + |Render(Array(items), depth, fmt)| + SLACK <= LIMIT
      modifies this, buffer
      ensures Printed(old(Done()), Render(Array(items), depth, fmt)) && old(offset) <= offset && start == old(offset)
      ensures buffer == old(buffer) || fresh(buffer)
      decreases items, 7
    {
      start := offset;
      if items == [] {
        Put([LBRACKET, RBRACKET], 3);
      } else {
        ghost var pre := Done();
        Emit([LBRACKET], 1);
        AppendItems(items, depth + 1, fmt);
        Put([RBRACKET], 2);
        ArrayText(pre, items, depth, fmt);
        PrintedLater(pre + [LBRACKET] + Items(items, 0, depth + 1, fmt), [RBRACKET], pre, Render(Array(items), depth, fmt));
      }
    }

    /** The same bytes seen from an earlier offset. */
    lemma PrintedLater(pre: Text, t: Text, pre0: Text, t0: Text)
      requires Printed(pre, t) && pre + t == pre0 + t0 && |pre0| <= |pre|
      ensures Printed(pre0, t0)
    {
    }

    method AppendItems(items: seq<Json>, depth: nat, fmt: bool)
      requires Valid() && PrintableItems(items) && offset + |Items(items, 0, depth, fmt)| + SLACK <= LIMIT
      modifies this, buffer
      ensures Valid() && offset == old(offset) + |Items(items, 0, depth, fmt)|
      ensures Done() == old(Done()) + Items(items, 0, depth, fmt)
      ensures buffer == old(buffer) || fresh(buffer)
      decreases items, 6
    {
      var k := 0;
      ghost var all := Done() + Items(items, 0, depth, fmt);
      while k < |items|
        invariant k <= |items| && Valid() && offset + |Items(items, k, depth, fmt)| == |all|
        invariant Done() + Items(items, k, depth, fmt) == all
        invariant buffer == old(buffer) || fresh(buffer)
      {
        AppendItem(items, k, depth, fmt);
        k := k + 1;
      }
      assert Done() + [] == Done();
    }

    /** Item `k` and the separator behind it. */
    method AppendItem(items: seq<Json>, k: nat, depth: nat, fmt: bool)
      requires Valid() && k < |items| && PrintableItems(items) && offset + |Items(items, k, depth, fmt)| + SLACK <= LIMIT
      modifies this, buffer
      ensures Valid() && offset + |Items(items, k + 1, depth, fmt)| == old(offset) + |Items(items, k, depth, fmt)|
      ensures Done() + Items(items, k + 1, depth, fmt) == old(Done()) + Items(items, k, depth, fmt)
      ensures buffer == old(buffer) || fresh(buffer)
      decreases items, 5
    {
      PrintableAt(items, k);
      ItemsAt(items, k, depth, fmt);
      ghost var pre, t, sep, rest := Done(), Render(items[k], depth, fmt), Separator(k + 1 == |items|, fmt), Items(items, k + 1, depth, fmt);
      Append(items[k], depth, fmt);
      if k + 1 < |items| {
        Emit(Separator(false, fmt), if fmt then 3 else 2);
      }
      Joined(pre, t, sep, rest);
    }

    method PrintObject(members: seq<Member>, depth: nat, fmt: bool) returns (start: nat)
      requires Valid() && PrintableMembers(members) && offset + |Render(Object(members), depth, fmt)| + SLACK <= LIMIT
      modifies this, buffer
      ensures Printed(old(Done()), Render(Object(members), depth, fmt)) && old(offset) <= offset
      ensures start == if fmt && members != [] then depth else old(offset)
      ensures buffer == old(buffer) || fresh(buffer)
      decreases members, 7
    {
      start := offset;
      if members == [] {
        var text := EmptyObject(depth, fmt);
        Put(text, if fmt then depth + 4 else 3);
      } else {
        start := PrintFullObject(members, depth, fmt);
      }
    }

    method PrintFullObject(members: seq<Member>, depth: nat, fmt: bool) returns (start: nat)
      requires Valid() && members != [] && PrintableMembers(members)
      requires offset + |Render(Object(members), depth, fmt)| + SLACK <= LIMIT
      modifies this, buffer
      ensures Printed(old(Done()), Render(Object(members), depth, fmt)) && old(offset) <= offset
      ensures start == if fmt then depth else old(offset)
      ensures buffer == old(buffer) || fresh(buffer)
      decreases members, 6
    {
      start := if fmt then depth else offset;
      ghost var pre := Done();
      ghost var body := ObjectText(pre, members, depth, fmt);
      var open := if fmt then [LBRACE, LF] else [LBRACE];
      Emit(open, |open| + 1);
      AppendMembers(members, depth + 1, fmt);
      var close := (if fmt then Tabs(depth) else []) + [RBRACE];
      Put(close, |close| + 1);
      PrintedLater(pre + open + body, close, pre, Render(Object(members), depth, fmt));
    }

    method AppendMembers(members: seq<Member>, depth: nat, fmt: bool)
      requires Valid() && depth > 0 && PrintableMembers(members)
      requires offset + |RenderMembers(members[0..], depth, fmt)| + SLACK <= LIMIT
      modifies this, buffer
      ensures Valid() && offset == old(offset) + |RenderMembers(members[0..], depth, fmt)|
      ensures Done() == old(Done()) + RenderMembers(members[0..], depth, fmt)
      ensures buffer == old(buffer) || fresh(buffer)
      decreases members, 5
    {
      var k := 0;
      ghost var all := Done() + RenderMembers(members[0..], depth, fmt);
      while k < |members|
        invariant k <= |members| && Valid() && offset + |RenderMembers(members[k..], depth, fmt)| == |all|
        invariant Done() + RenderMembers(members[k..], depth, fmt) == all
        invariant buffer == old(buffer) || fresh(buffer)
      {
        PrintableMemberAt(members, k);
        MembersAt(members, k, depth, fmt);
        AppendMember(members[k], k + 1 == |members|, depth, fmt, RenderMembers(members[k + 1..], depth, fmt));
        k := k + 1;
      }
      assert Done() + [] == Done();
    }

    /** One member: indentation, name, colon, value, comma, line feed. */
    method AppendMember(m: Member, last: bool, depth: nat, fmt: bool, ghost rest: Text)
      requires Valid() && depth > 0 && NulFree(m.name) && Printable(m.value)
      requires offset + |RenderMember(m, last, depth, fmt)| + SLACK <= LIMIT
      modifies this, buffer
      ensures Valid() && offset == old(offset) + |RenderMember(m, last, depth, fmt)|
      ensures Done() + rest == old(Done()) + (RenderMember(m, last, depth, fmt) + rest)
      ensures buffer == old(buffer) || fresh(buffer)
      decreases m, 6
    {
      ghost var pre := Done();
      MemberTextRender(m, last, depth, fmt);
      AppendName(m.name, depth, fmt);
      Append(m.value, depth, fmt);
      Emit(MemberEnd(last, fmt), |MemberEnd(last, fmt)| + 1);
      Joined(pre, Indent(depth, fmt) + Quote(m.name) + Colon(fmt), Render(m.value, depth, fmt), MemberEnd(last, fmt));
      Associate(pre, RenderMember(m, last, depth, fmt), rest);
    }

    method AppendName(name: Text, depth: nat, fmt: bool)
      requires Valid() && depth > 0 && NulFree(name)
      requires offset + |Indent(depth, fmt) + Quote(name) + Colon(fmt)| + SLACK <= LIMIT
      modifies this, buffer
      ensures Valid() && offset == old(offset) + |Indent(depth, fmt) + Quote(name) + Colon(fmt)|
      ensures Done() == old(Done()) + (Indent(depth, fmt) + Quote(name) + Colon(fmt))
      ensures buffer == old(buffer) || fresh(buffer)
    {
      ghost var pre := Done();
      if fmt {
        Emit(Tabs(depth), depth);
      }
      assert pre + [] == pre;
      AppendString(name);
      Emit(Colon(fmt), |Colon(fmt)|);
      Joined(pre, Indent(depth, fmt), Quote(name), Colon(fmt));
    }
  }

  lemma ArrayText(pre: Text, items: seq<Json>, depth: nat, fmt: bool)
    requires items != []
    ensures pre + [LBRACKET] + Items(items, 0, depth + 1, fmt) + [RBRACKET] == pre + Render(Array(items), depth, fmt)
    ensures |Render(Array(items), depth, fmt)| == 2 + |Items(items, 0, depth + 1, fmt)|
  {
    assert items[0..] == items;
    Joined(pre, [LBRACKET], Items(items, 0, depth + 1, fmt), [RBRACKET]);
  }

  lemma ObjectText(pre: Text, members: seq<Member>, depth: nat, fmt: bool) returns (body: Text)
    requires members != []
    ensures body == RenderMembers(members[0..], depth + 1, fmt)
    ensures var open := if fmt then [LBRACE, LF] else [LBRACE];
            var close := (if fmt then Tabs(depth) else []) + [RBRACE];
            pre + open + body + close == pre + Render(Object(members), depth, fmt)
            && |Render(Object(members), depth, fmt)| == |open| + |body| + |close|
  {
    body := RenderMembers(members[0..], depth + 1, fmt);
    assert members[0..] == members;
    var open := [LBRACE] + If(fmt, [LF]);
    Joined(pre, open, body, Indent(depth, fmt) + [RBRACE]);
    Associate(open + body, Indent(depth, fmt), [RBRACE]);
    assert open == if fmt then [LBRACE, LF] else [LBRACE];
  }

  /** `cJSON_PrintBuffered`, for every initial size of at least one. */
  method PrintBuffered(v: Json, prebuffer: nat, fmt: bool) returns (out: array<byte>)
    requires Printable(v) && 1 <= prebuffer && |Render(v, 0, fmt)| + SLACK <= LIMIT
    ensures fresh(out) && IsString(out, Render(v, 0, fmt))
  {
    var p := new PrintBuffer(prebuffer);
    assert p.Done() == [];
    var start := p.PrintValue(v, 0, fmt);
    assert start == 0;
    assert [] + Render(v, 0, fmt) == Render(v, 0, fmt);
    out := p.buffer;
  }

  /** The two printers give the same C string, for every tree, both formats and every initial size. */
  method BothPrinters(v: Json, prebuffer: nat, fmt: bool) returns (a: array<byte>, b: array<byte>)
    requires Printable(v) && 1 <= prebuffer && |Render(v, 0, fmt)| + SLACK <= LIMIT
    ensures exists t: Text :: NulFree(t) && IsString(a, t) && IsString(b, t) && Parse(t) == Done(v, |t|)
  {
    a := Print(v, 0, fmt);
    b := PrintBuffered(v, prebuffer, fmt);
    RenderNulFree(v, 0, fmt);
    ParsePrint(v, 0, fmt);
  }
}
