/** cJSON's parser as the source has it: cursors that move over the text in loops.  Each method
    computes the function of the same name in `Json`. */
module JsonParse {
  import opened Bytes
  import opened Json
  import opened JsonRoundTrip

  /** `skip`. */
  method SkipSpace(s: Text, start: nat) returns (i: nat)
    requires start <= |s|
    ensures i == Skip(s, start)
  {
    i := start;
    while At(s, i) != 0 && At(s, i) <= 32
      invariant start <= i <= |s| && Skip(s, i) == Skip(s, start)
      decreases |s| - i
    {
      i := i + 1;
    }
  }

  lemma {:induction false} SkipSkip(s: Text, i: nat)
    requires i <= |s|
    ensures Skip(s, Skip(s, i)) == Skip(s, i)
    decreases |s| - i
  {
    if i < |s| && s[i] != 0 && s[i] <= 32 {
      SkipSkip(s, i + 1);
    }
  }

  method ScanWhole(s: Text, start: nat) returns (n: nat, i: nat)
    requires start <= |s|
    ensures (n, i) == Whole(s, start)
  {
    n, i := 0, start;
    if At(s, i) == ZERO {
      i := i + 1;
    }
    if 49 <= At(s, i) <= 57 {
      n, i := ScanDigits(s, i, 0);
    }
  }

  method ScanExponent(s: Text, start: nat) returns (e: int, i: nat)
    requires start <= |s|
    ensures (e, i) == Exponent(s, start)
  {
    e, i := 0, start;
    if At(s, i) == 101 || At(s, i) == 69 {
      i := i + 1;
      var minus := false;
      if At(s, i) == 43 {
        i := i + 1;
      } else if At(s, i) == MINUS {
        minus, i := true, i + 1;
      }
      e, i := ScanDigits(s, i, 0);
      if minus {
        e := -e;
      }
    }
  }

  /** `parse_number`. */
  method NumberAt(s: Text, start: nat) returns (r: Parsed<Json>)
    requires start < |s| && (s[start] == MINUS || IsDigit(s[start]))
    ensures r == ParseNumber(s, start)
  {
    var negative, i := false, start;
    if s[i] == MINUS {
      negative, i := true, i + 1;
    }
    var n: nat, scale: int, exponent: int := 0, 0, 0;
    n, i := ScanWhole(s, i);
    if At(s, i) == DOT && IsDigit(At(s, i + 1)) {
      var point := i;
      n, i := ScanDigits(s, i + 1, n);
      scale := point + 1 - i;
    }
    exponent, i := ScanExponent(s, i);
    r := Done(Number(Signed(negative, n, scale + exponent)), i);
  }

  lemma PrependMore(t: Text, u: Text, r: Parsed<Text>)
    ensures Prepend(t, Prepend(u, r)) == Prepend(t + u, r)
  {
    if r.Done? {
      assert t + (u + r.value) == t + u + r.value;
    }
  }

  /** `parse_string`: the characters up to the closing quote. */
  method StringAt(s: Text, start: nat) returns (r: Parsed<Text>)
    requires start <= |s|
    ensures r == ParseString(s, start)
  {
    if At(s, start) != QUOTE {
      return Fail;
    }
    var i, out := start + 1, [];
    assert ParseChars(s, i) == Prepend([], ParseChars(s, i)) by { NothingPrepended(ParseChars(s, i)); }
    while At(s, i) != QUOTE && At(s, i) != 0
      invariant start < i <= |s| && ParseChars(s, start + 1) == Prepend(out, ParseChars(s, i))
      decreases |s| - i
    {
      if s[i] != BACKSLASH {
        PrependMore(out, [s[i]], ParseChars(s, i + 1));
        out, i := out + [s[i]], i + 1;
      } else {
        var e := ParseEscape(s, i + 1);
        if e.Fail? {
          return Fail;
        }
        PrependMore(out, e.value, ParseChars(s, e.end));
        out, i := out + e.value, e.end;
      }
    }
    assert out + [] == out;
    r := Done(out, if At(s, i) == QUOTE then i + 1 else i);
  }

  lemma NothingPrepended(r: Parsed<Text>)
    ensures Prepend([], r) == r
  {
    if r.Done? {
      assert [] + r.value == r.value;
    }
  }

  function Before<T>(a: seq<T>, r: Parsed<seq<T>>): Parsed<seq<T>> {
    match r
    case Fail => Fail
    case Done(u, e) => Done(a + u, e)
  }

  lemma BeforeMore<T>(a: seq<T>, x: T, r: Parsed<seq<T>>)
    ensures Before(a, Before([x], r)) == Before(a + [x], r)
  {
    if r.Done? {
      assert a + ([x] + r.value) == a + [x] + r.value;
    }
  }

  /** What follows an item: a comma and more items, or the closing bracket. */
  function MoreItems(s: Text, j: nat): Parsed<seq<Json>>
    requires j <= |s|
  {
    if At(s, j) == COMMA then ParseItems(s, j + 1)
    else if At(s, j) == RBRACKET then Done([], j + 1)
    else Fail
  }

  lemma ItemsByOne(s: Text, i: nat)
    requires i <= |s|
    ensures var r := ParseValue(s, Skip(s, i));
            ParseItems(s, i) == if r.Fail? then Fail else Before([r.value], MoreItems(s, Skip(s, r.end)))
  {
    var r := ParseValue(s, Skip(s, i));
    if r.Done? {
      assert [r.value] + [] == [r.value];
    }
  }

  function MoreMembers(s: Text, j: nat): Parsed<seq<Member>>
    requires j <= |s|
  {
    if At(s, j) == COMMA then ParseMembers(s, j + 1)
    else if At(s, j) == RBRACE then Done([], j + 1)
    else Fail
  }

  lemma MembersByOne(s: Text, i: nat)
    requires i <= |s|
    ensures var r := ParseMember(s, i);
            ParseMembers(s, i) == if r.Fail? then Fail else Before([r.value], MoreMembers(s, Skip(s, r.end)))
  {
    var r := ParseMember(s, i);
    if r.Done? {
      assert [r.value] + [] == [r.value];
    }
  }

  /** `parse_value`. */
  method ValueAt(s: Text, i: nat) returns (r: Parsed<Json>)
    requires i <= |s|
    ensures r == ParseValue(s, i)
    decreases |s| - i, 3
  {
    if HasAt(s, i, NULL_TEXT) {
      r := Done(Null, i + 4);
    } else if HasAt(s, i, FALSE_TEXT) {
      r := Done(False, i + 5);
    } else if HasAt(s, i, TRUE_TEXT) {
      r := Done(True, i + 4);
    } else if At(s, i) == QUOTE {
      var t := StringAt(s, i);
      r := if t.Fail? then Fail else Done(String(t.value), t.end);
    } else if At(s, i) == MINUS || IsDigit(At(s, i)) {
      r := NumberAt(s, i);
    } else if At(s, i) == LBRACKET {
      var a := ArrayAt(s, i);
      r := if a.Fail? then Fail else Done(Array(a.value), a.end);
    } else if At(s, i) == LBRACE {
      var o := ObjectAt(s, i);
      r := if o.Fail? then Fail else Done(Object(o.value), o.end);
    } else {
      r := Fail;
    }
  }

  /** `parse_array`, behind its opening bracket at `i`. */
  method ArrayAt(s: Text, i: nat) returns (r: Parsed<seq<Json>>)
    requires i < |s| && s[i] == LBRACKET
    ensures r == if At(s, Skip(s, i + 1)) == RBRACKET then Done([], Skip(s, i + 1) + 1) else ParseItems(s, i + 1)
    decreases |s| - i, 2
  {
    var j := SkipSpace(s, i + 1);
    if At(s, j) == RBRACKET {
      return Done([], j + 1);
    }
    ItemsByOne(s, i + 1);
    SkipSkip(s, i + 1);
    j := SkipSpace(s, j);
    var v := ValueAt(s, j);
    if v.Fail? {
      return Fail;
    }
    var items := [v.value];
    j := SkipSpace(s, v.end);
    r := ItemsFrom(s, j, items);
  }

  /** The loop of `parse_array`: what follows the items read so far. */
  method ItemsFrom(s: Text, start: nat, first: seq<Json>) returns (r: Parsed<seq<Json>>)
    requires start <= |s|
    ensures r == Before(first, MoreItems(s, start))
    decreases |s| - start, 4
  {
    var items, j := first, start;
    while At(s, j) == COMMA
      invariant start <= j <= |s| && Before(first, MoreItems(s, start)) == Before(items, MoreItems(s, j))
      decreases |s| - j
    {
      ItemsByOne(s, j + 1);
      var k := SkipSpace(s, j + 1);
      var v := ValueAt(s, k);
      if v.Fail? {
        return Fail;
      }
      k := SkipSpace(s, v.end);
      BeforeMore(items, v.value, MoreItems(s, k));
      items, j := items + [v.value], k;
    }
    assert items + [] == items;
    r := if At(s, j) == RBRACKET then Done(items, j + 1) else Fail;
  }

  /** A name, a colon and a value. */
  method MemberAt(s: Text, i: nat) returns (r: Parsed<Member>)
    requires i <= |s|
    ensures r == ParseMember(s, i)
    decreases |s| - i, 4
  {
    var j := SkipSpace(s, i);
    var name := StringAt(s, j);
    if name.Fail? {
      return Fail;
    }
    j := SkipSpace(s, name.end);
    if At(s, j) != COLON {
      return Fail;
    }
    j := SkipSpace(s, j + 1);
    var v := ValueAt(s, j);
    r := if v.Fail? then Fail else Done(Member(name.value, v.value), v.end);
  }

  lemma MemberFromSkip(s: Text, i: nat)
    requires i <= |s|
    ensures ParseMember(s, Skip(s, i)) == ParseMember(s, i)
  {
    SkipSkip(s, i);
  }

  /** `parse_object`, behind its opening brace at `i`. */
  method ObjectAt(s: Text, i: nat) returns (r: Parsed<seq<Member>>)
    requires i < |s| && s[i] == LBRACE
    ensures r == if At(s, Skip(s, i + 1)) == RBRACE then Done([], Skip(s, i + 1) + 1) else ParseMembers(s, i + 1)
    decreases |s| - i, 2
  {
    var j := SkipSpace(s, i + 1);
    if At(s, j) == RBRACE {
      return Done([], j + 1);
    }
    MembersByOne(s, i + 1);
    MemberFromSkip(s, i + 1);
    var m := MemberAt(s, j);
    if m.Fail? {
      return Fail;
    }
    var members := [m.value];
    j := SkipSpace(s, m.end);
    r := MembersFrom(s, j, members);
  }

  /** The loop of `parse_object`: what follows the members read so far. */
  method MembersFrom(s: Text, start: nat, first: seq<Member>) returns (r: Parsed<seq<Member>>)
    requires start <= |s|
    ensures r == Before(first, MoreMembers(s, start))
    decreases |s| - start, 4
  {
    var members, j := first, start;
    while At(s, j) == COMMA
      invariant start <= j <= |s| && Before(first, MoreMembers(s, start)) == Before(members, MoreMembers(s, j))
      decreases |s| - j
    {
      MembersByOne(s, j + 1);
      var m := MemberAt(s, j + 1);
      if m.Fail? {
        return Fail;
      }
      var k := SkipSpace(s, m.end);
      BeforeMore(members, m.value, MoreMembers(s, k));
      members, j := members + [m.value], k;
    }
    assert members + [] == members;
    r := if At(s, j) == RBRACE then Done(members, j + 1) else Fail;
  }

  /** What is left of a parse when only white space may follow it. */
  function Complete(s: Text, r: Parsed<Json>): Parsed<Json>
    requires r.Done? ==> r.end <= |s|
  {
    if r.Done? && At(s, Skip(s, r.end)) == 0 then Done(r.value, Skip(s, r.end)) else Fail
  }

  /** `cJSON_ParseWithOpts`: with `whole`, nothing but white space may follow the value. */
  method ParseText(s: Text, whole: bool) returns (r: Parsed<Json>)
    ensures !whole ==> r == Parse(s)
    ensures whole ==> r == Complete(s, Parse(s))
  {
    var i := SkipSpace(s, 0);
    r := ValueAt(s, i);
    if whole && r.Done? {
      var end := SkipSpace(s, r.end);
      r := if At(s, end) == 0 then Done(r.value, end) else Fail;
    }
  }

  /** The printed text parses back with nothing left over. */
  method ParsePrinted(v: Json, depth: nat, fmt: bool, whole: bool) returns (r: Parsed<Json>)
    requires Printable(v)
    ensures r == Done(v, |Render(v, depth, fmt)|)
  {
    ParsePrint(v, depth, fmt);
    r := ParseText(Render(v, depth, fmt), whole);
  }
}
