/** What the parser accepts beyond the grammar of RFC 8259, exactly.  White space is any byte from 1 to
    32; string and number tokens are those that `ParseString` and `ParseNumber` read; words need not
    end anywhere.  A value is accepted if and only if it has this form. */
module JsonAccepts {
  import opened Bytes
  import opened Collections
  import opened Json
  import opened JsonRoundTrip
  import opened JsonParse
  import opened JsonGrammar

  /** Bytes from 1 to 32 from `i` up to `j`, where something else stands. */
  ghost predicate Gap(s: Text, i: nat, j: nat) {
    i <= j <= |s| && (forall k :: i <= k < j ==> 0 < s[k] <= 32) && (At(s, j) == 0 || At(s, j) > 32)
  }

  lemma GapIsSkip(s: Text, i: nat, j: nat)
    requires i <= |s|
    ensures Gap(s, i, j) <==> j == Skip(s, i)
  {
    SkipStops(s, i);
  }

  ghost predicate Accepted(s: Text, i: nat, e: nat, v: Json)
    decreases v, 1
  {
    i <= |s| &&
    match v
    case Null => IsWord(s, i, e, NULL_TEXT)
    case False => IsWord(s, i, e, FALSE_TEXT)
    case True => IsWord(s, i, e, TRUE_TEXT)
    case Number(x) => i < |s| && (s[i] == MINUS || IsDigit(s[i])) && ParseNumber(s, i) == Done(v, e)
    case String(t) => ParseString(s, i) == Done(t, e)
    case Array(items) =>
      IsByte(s, i, LBRACKET) && if items == [] then Closed(s, i + 1, e, RBRACKET) else AcceptedItems(s, i + 1, e, items)
    case Object(members) =>
      IsByte(s, i, LBRACE) && if members == [] then Closed(s, i + 1, e, RBRACE) else AcceptedMembers(s, i + 1, e, members)
  }

  ghost predicate Closed(s: Text, i: nat, e: nat, b: byte) {
    0 < e && Gap(s, i, e - 1) && IsByte(s, e - 1, b)
  }

  ghost predicate AcceptedItems(s: Text, i: nat, e: nat, items: seq<Json>)
    requires items != []
    decreases items, 0
  {
    exists a: nat, b: nat, c: nat ::
      && Gap(s, i, a) && Accepted(s, a, b, items[0]) && Gap(s, b, c)
      && if |items| == 1 then IsByte(s, c, RBRACKET) && e == c + 1
         else IsByte(s, c, COMMA) && AcceptedItems(s, c + 1, e, items[1..])
  }

  ghost predicate AcceptedMember(s: Text, i: nat, e: nat, m: Member)
    decreases m, 2
  {
    exists a: nat, b: nat, c: nat, d: nat ::
      && Gap(s, i, a) && ParseString(s, a) == Done(m.name, b) && Gap(s, b, c) && IsByte(s, c, COLON)
      && Gap(s, c + 1, d) && Accepted(s, d, e, m.value)
  }

  ghost predicate AcceptedMembers(s: Text, i: nat, e: nat, members: seq<Member>)
    requires members != []
    decreases members, 0
  {
    exists b: nat, c: nat ::
      && AcceptedMember(s, i, b, members[0]) && Gap(s, b, c)
      && if |members| == 1 then IsByte(s, c, RBRACE) && e == c + 1
         else IsByte(s, c, COMMA) && AcceptedMembers(s, c + 1, e, members[1..])
  }

  // ----- what has the form is accepted

  lemma GapSkips(s: Text, i: nat, j: nat)
    requires Gap(s, i, j)
    ensures Skips(s, i, j)
  {
    GapIsSkip(s, i, j);
  }

  lemma AcceptedStarts(s: Text, i: nat, e: nat, v: Json)
    requires Accepted(s, i, e, v)
    ensures i < |s| && s[i] > 32 && s[i] != RBRACKET && s[i] != RBRACE
  {
    if v.Null? || v.False? || v.True? {
      assert s[i..e][0] == s[i];
    }
  }

  lemma TakesLeaf(s: Text, i: nat, e: nat, v: Json)
    requires (v.Number? || v.String?) && Accepted(s, i, e, v)
    ensures ReadsValue(s, i, v, e)
  {
    NotKeyword(s, i);
  }

  lemma {:induction false} Takes(s: Text, i: nat, e: nat, v: Json)
    requires Accepted(s, i, e, v)
    ensures ReadsValue(s, i, v, e)
    decreases v, 1
  {
    match v {
      case Null => ReadsWord(s, i, e, v);
      case False => ReadsWord(s, i, e, v);
      case True => ReadsWord(s, i, e, v);
      case Number(_) => TakesLeaf(s, i, e, v);
      case String(_) => TakesLeaf(s, i, e, v);
      case Array(items) =>
        if items == [] {
          GapSkips(s, i + 1, e - 1);
          ReadsEmptyArray(s, i, e - 1);
        } else {
          var a := TakesItems(s, i + 1, e, items);
          ReadsFullArray(s, i, a, items, e);
        }
      case Object(members) =>
        if members == [] {
          GapSkips(s, i + 1, e - 1);
          ReadsEmptyObject(s, i, e - 1);
        } else {
          var a := TakesMembers(s, i + 1, e, members);
          ObjectStep(s, i, a, members, e);
        }
    }
  }

  lemma {:induction false} TakesItems(s: Text, i: nat, e: nat, items: seq<Json>) returns (a: nat)
    requires items != [] && AcceptedItems(s, i, e, items)
    ensures ReadsItems(s, i, items, e) && Skips(s, i, a) && At(s, a) != RBRACKET
    decreases items, 0
  {
    var b: nat, c: nat;
    a, b, c :|
      && Gap(s, i, a) && Accepted(s, a, b, items[0]) && Gap(s, b, c)
      && if |items| == 1 then IsByte(s, c, RBRACKET) && e == c + 1
         else IsByte(s, c, COMMA) && AcceptedItems(s, c + 1, e, items[1..]);
    AcceptedStarts(s, a, b, items[0]);
    GapSkips(s, i, a);
    GapSkips(s, b, c);
    Takes(s, a, b, items[0]);
    HeadAndTail(items);
    if |items| == 1 {
      ReadsLastItem(s, i, a, items[0], b, c);
    } else {
      var a' := TakesItems(s, c + 1, e, items[1..]);
      ReadsItemThen(s, i, a, items[0], b, c, items[1..], e);
    }
  }

  lemma {:induction false} TakesMember(s: Text, i: nat, e: nat, m: Member) returns (a: nat)
    requires AcceptedMember(s, i, e, m)
    ensures ReadsMember(s, i, m, e) && Skips(s, i, a) && At(s, a) == QUOTE
    decreases m, 2
  {
    var b: nat, c: nat, d: nat;
    a, b, c, d :|
      && Gap(s, i, a) && ParseString(s, a) == Done(m.name, b) && Gap(s, b, c) && IsByte(s, c, COLON)
      && Gap(s, c + 1, d) && Accepted(s, d, e, m.value);
    GapSkips(s, i, a);
    GapSkips(s, b, c);
    GapSkips(s, c + 1, d);
    Takes(s, d, e, m.value);
    ReadsPairOf(s, i, a, m.name, b, c, d, m.value, e);
  }

  lemma {:induction false} TakesMembers(s: Text, i: nat, e: nat, members: seq<Member>) returns (a: nat)
    requires members != [] && AcceptedMembers(s, i, e, members)
    ensures ReadsMembers(s, i, members, e) && Skips(s, i, a) && At(s, a) != RBRACE
    decreases members, 0
  {
    var b: nat, c: nat :|
      && AcceptedMember(s, i, b, members[0]) && Gap(s, b, c)
      && if |members| == 1 then IsByte(s, c, RBRACE) && e == c + 1
         else IsByte(s, c, COMMA) && AcceptedMembers(s, c + 1, e, members[1..]);
    GapSkips(s, b, c);
    a := TakesMember(s, i, b, members[0]);
    HeadAndTail(members);
    if |members| == 1 {
      LastMemberStep(s, i, members[0], b, c);
    } else {
      var a' := TakesMembers(s, c + 1, e, members[1..]);
      ReadsMemberThen(s, i, members[0], b, c, members[1..], e);
    }
  }

  // ----- what is accepted has the form

  lemma ItemsForm(s: Text, i: nat, e: nat, items: seq<Json>, a: nat, b: nat, c: nat)
    requires items != [] && Gap(s, i, a) && Accepted(s, a, b, items[0]) && Gap(s, b, c)
    requires if |items| == 1 then IsByte(s, c, RBRACKET) && e == c + 1
             else IsByte(s, c, COMMA) && AcceptedItems(s, c + 1, e, items[1..])
    ensures AcceptedItems(s, i, e, items)
  {
  }

  lemma MemberForm(s: Text, i: nat, e: nat, m: Member, a: nat, b: nat, c: nat, d: nat)
    requires Gap(s, i, a) && ParseString(s, a) == Done(m.name, b) && Gap(s, b, c) && IsByte(s, c, COLON)
    requires Gap(s, c + 1, d) && Accepted(s, d, e, m.value)
    ensures AcceptedMember(s, i, e, m)
  {
  }

  lemma MembersForm(s: Text, i: nat, e: nat, members: seq<Member>, b: nat, c: nat)
    requires members != [] && AcceptedMember(s, i, b, members[0]) && Gap(s, b, c)
    requires if |members| == 1 then IsByte(s, c, RBRACE) && e == c + 1
             else IsByte(s, c, COMMA) && AcceptedMembers(s, c + 1, e, members[1..])
    ensures AcceptedMembers(s, i, e, members)
  {
  }

  /** The value that a bracket opens. */
  lemma ArrayIs(s: Text, i: nat)
    requires i < |s| && s[i] == LBRACKET
    ensures var j, r := Skip(s, i + 1), ParseItems(s, i + 1);
            ParseValue(s, i) == if At(s, j) == RBRACKET then Done(Array([]), j + 1)
                                else if r.Fail? then Fail else Done(Array(r.value), r.end)
  {
    NotKeyword(s, i);
  }

  lemma ObjectIs(s: Text, i: nat)
    requires i < |s| && s[i] == LBRACE
    ensures var j, r := Skip(s, i + 1), ParseMembers(s, i + 1);
            ParseValue(s, i) == if At(s, j) == RBRACE then Done(Object([]), j + 1)
                                else if r.Fail? then Fail else Done(Object(r.value), r.end)
  {
    NotKeyword(s, i);
  }

  lemma LeafHasForm(s: Text, i: nat)
    requires i <= |s| && ParseValue(s, i).Done? && At(s, i) != LBRACKET && At(s, i) != LBRACE
    ensures Accepted(s, i, ParseValue(s, i).end, ParseValue(s, i).value)
  {
    HasSlice(s, i, NULL_TEXT);
    HasSlice(s, i, FALSE_TEXT);
    HasSlice(s, i, TRUE_TEXT);
  }

  lemma {:induction false} HasForm(s: Text, i: nat)
    requires i <= |s| && ParseValue(s, i).Done?
    ensures Accepted(s, i, ParseValue(s, i).end, ParseValue(s, i).value)
    decreases |s| - i, 1
  {
    if At(s, i) == LBRACKET {
      ArrayHasForm(s, i);
    } else if At(s, i) == LBRACE {
      ObjectHasForm(s, i);
    } else {
      LeafHasForm(s, i);
    }
  }

  lemma {:induction false} ArrayHasForm(s: Text, i: nat)
    requires i < |s| && s[i] == LBRACKET && ParseValue(s, i).Done?
    ensures Accepted(s, i, ParseValue(s, i).end, ParseValue(s, i).value)
    decreases |s| - i, 0
  {
    ArrayIs(s, i);
    GapIsSkip(s, i + 1, Skip(s, i + 1));
    if At(s, Skip(s, i + 1)) != RBRACKET {
      var r := ParseItems(s, i + 1);
      ItemsHaveForm(s, i + 1, r.value, r.end);
    }
  }

  lemma {:induction false} ObjectHasForm(s: Text, i: nat)
    requires i < |s| && s[i] == LBRACE && ParseValue(s, i).Done?
    ensures Accepted(s, i, ParseValue(s, i).end, ParseValue(s, i).value)
    decreases |s| - i, 0
  {
    ObjectIs(s, i);
    GapIsSkip(s, i + 1, Skip(s, i + 1));
    if At(s, Skip(s, i + 1)) != RBRACE {
      var r := ParseMembers(s, i + 1);
      MembersHaveForm(s, i + 1, r.value, r.end);
    }
  }

  lemma SomeItems(s: Text, i: nat)
    requires i <= |s| && ParseItems(s, i).Done?
    ensures ParseItems(s, i).value != []
  {
    ItemsByOne(s, i);
  }

  /** What follows an item of an accepted list. */
  lemma RestOfItems(s: Text, c: nat, v: Json, items: seq<Json>, e: nat) returns (rest: seq<Json>)
    requires c <= |s| && Before([v], MoreItems(s, c)) == Done(items, e)
    ensures items == [v] + rest
    ensures if rest == [] then IsByte(s, c, RBRACKET) && e == c + 1 else IsByte(s, c, COMMA) && ReadsItems(s, c + 1, rest, e)
  {
    rest := MoreItems(s, c).value;
    if At(s, c) == COMMA {
      SomeItems(s, c + 1);
    }
  }

  lemma OpenItems(s: Text, i: nat, items: seq<Json>, e: nat)
    requires ReadsItems(s, i, items, e)
    ensures var v := ParseValue(s, Skip(s, i));
            v.Done? && Before([v.value], MoreItems(s, Skip(s, v.end))) == Done(items, e)
  {
    assert Look(0);
    ItemsByOne(s, i);
  }

  lemma SplitItems(s: Text, i: nat, items: seq<Json>, e: nat) returns (a: nat, v: Json, b: nat, c: nat, rest: seq<Json>)
    requires ReadsItems(s, i, items, e)
    ensures Gap(s, i, a) && i <= a < b <= c && items == [v] + rest && ReadsValue(s, a, v, b) && Gap(s, b, c)
    ensures if rest == [] then IsByte(s, c, RBRACKET) && e == c + 1 else IsByte(s, c, COMMA) && ReadsItems(s, c + 1, rest, e)
  {
    OpenItems(s, i, items, e);
    a := Skip(s, i);
    v, b := ParseValue(s, a).value, ParseValue(s, a).end;
    c := Skip(s, b);
    GapIsSkip(s, i, a);
    GapIsSkip(s, b, c);
    rest := RestOfItems(s, c, v, items, e);
  }

  lemma {:induction false} ItemsHaveForm(s: Text, i: nat, items: seq<Json>, e: nat)
    requires ReadsItems(s, i, items, e)
    ensures items != [] && AcceptedItems(s, i, e, items)
    decreases |s| - i, 3
  {
    var a, v, b, c, rest := SplitItems(s, i, items, e);
    assert Accepted(s, a, b, v) by {
      assert Look(0);
      HasForm(s, a);
    }
    if rest != [] {
      ItemsHaveForm(s, c + 1, rest, e);
    }
    assert items[0] == v && items[1..] == rest;
    ItemsForm(s, i, e, items, a, b, c);
  }

  lemma {:induction false} MemberHasForm(s: Text, i: nat, m: Member, e: nat)
    requires ReadsMember(s, i, m, e)
    ensures AcceptedMember(s, i, e, m)
    decreases |s| - i, 2
  {
    assert Look(0);
    var a := Skip(s, i);
    var b := ParseString(s, a).end;
    var c := Skip(s, b);
    var d := Skip(s, c + 1);
    GapIsSkip(s, i, a);
    GapIsSkip(s, b, c);
    GapIsSkip(s, c + 1, d);
    HasForm(s, d);
    MemberForm(s, i, e, m, a, b, c, d);
  }

  /** What follows a member of an accepted list. */
  lemma RestOfMembers(s: Text, c: nat, m: Member, members: seq<Member>, e: nat) returns (rest: seq<Member>)
    requires c <= |s| && Before([m], MoreMembers(s, c)) == Done(members, e)
    ensures members == [m] + rest
    ensures if rest == [] then IsByte(s, c, RBRACE) && e == c + 1 else IsByte(s, c, COMMA) && ReadsMembers(s, c + 1, rest, e)
  {
    rest := MoreMembers(s, c).value;
    if At(s, c) == COMMA {
      SomeMembers(s, c + 1);
    }
  }

  lemma OpenMembers(s: Text, i: nat, members: seq<Member>, e: nat)
    requires ReadsMembers(s, i, members, e)
    ensures var m := ParseMember(s, i);
            m.Done? && Before([m.value], MoreMembers(s, Skip(s, m.end))) == Done(members, e)
  {
    assert Look(0);
    MembersByOne(s, i);
  }

  /** The first member of an accepted list, and the others. */
  lemma SplitMembers(s: Text, i: nat, members: seq<Member>, e: nat) returns (m: Member, b: nat, c: nat, rest: seq<Member>)
    requires ReadsMembers(s, i, members, e)
    ensures i < b <= c && members == [m] + rest && ReadsMember(s, i, m, b) && Gap(s, b, c)
    ensures if rest == [] then IsByte(s, c, RBRACE) && e == c + 1 else IsByte(s, c, COMMA) && ReadsMembers(s, c + 1, rest, e)
  {
    OpenMembers(s, i, members, e);
    m, b := ParseMember(s, i).value, ParseMember(s, i).end;
    c := Skip(s, b);
    GapIsSkip(s, b, c);
    rest := RestOfMembers(s, c, m, members, e);
  }

  lemma SomeMembers(s: Text, i: nat)
    requires i <= |s| && ParseMembers(s, i).Done?
    ensures ParseMembers(s, i).value != []
  {
    MembersByOne(s, i);
  }

  lemma {:induction false} MembersHaveForm(s: Text, i: nat, members: seq<Member>, e: nat)
    requires ReadsMembers(s, i, members, e)
    ensures members != [] && AcceptedMembers(s, i, e, members)
    decreases |s| - i, 3
  {
    var m, b, c, rest := SplitMembers(s, i, members, e);
    MemberHasForm(s, i, m, b);
    if rest != [] {
      MembersHaveForm(s, c + 1, rest, e);
    }
    assert members[0] == m && members[1..] == rest;
    MembersForm(s, i, e, members, b, c);
  }

  /** The parser returns a value exactly for the texts of this form, and that value. */
  lemma AcceptsExactly(s: Text, i: nat, e: nat, v: Json)
    requires i <= |s|
    ensures ParseValue(s, i) == Done(v, e) <==> Accepted(s, i, e, v)
  {
    if ParseValue(s, i).Done? {
      HasForm(s, i);
    }
    if Accepted(s, i, e, v) {
      Takes(s, i, e, v);
      assert Look(0);
    }
  }

  /** It fails exactly when nothing of this form starts there. */
  lemma RejectsExactly(s: Text, i: nat)
    requires i <= |s|
    ensures ParseValue(s, i).Done? <==> exists e: nat, v: Json :: Accepted(s, i, e, v)
  {
    if e: nat, v: Json :| Accepted(s, i, e, v) {
      AcceptsExactly(s, i, e, v);
    } else if ParseValue(s, i).Done? {
      HasForm(s, i);
    }
  }
}
