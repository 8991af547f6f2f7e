/** What `cJSON_Minify` makes of any text, told by its tokens. */
module MinifyTokens {
  import opened Bytes
  import opened Json
  import opened JsonMinify

  /** One character of a string literal. */
  datatype Char = Plain(b: byte) | Escaped(b: byte)

  /** A text is white space, comments, string literals and other characters. */
  datatype Token =
    | Space(b: byte)
    | LineComment(body: Text)
    | BlockComment(body: Text)
    | Literal(chars: seq<Char>)
    | Other(b: byte)

  function SpellChars(chars: seq<Char>): Text {
    if chars == [] then []
    else (if chars[0].Plain? then [chars[0].b] else [BACKSLASH, chars[0].b]) + SpellChars(chars[1..])
  }

  function Spell(t: Token): (r: Text)
    ensures r != []
  {
    match t
    case Space(b) => [b]
    case LineComment(body) => [SLASH, SLASH] + body
    case BlockComment(body) => [SLASH, STAR] + body + [STAR, SLASH]
    case Literal(chars) => [QUOTE] + SpellChars(chars) + [QUOTE]
    case Other(b) => [b]
  }

  /** The end of a block comment stands at `i`. */
  ghost predicate ClosesAt(t: Text, i: nat) {
    i + 1 < |t| && t[i] == STAR && t[i + 1] == SLASH
  }

  /** The token is what it claims to be: a line comment has no line feed, a block comment ends where it
      ends and not before (the star that opens it counts), a literal has no bare quotation mark. */
  ghost predicate Sound(t: Token) {
    match t
    case Space(b) => b == SPACE || b == TAB || b == 13 || b == LF
    case LineComment(body) => forall k :: 0 <= k < |body| ==> body[k] != LF
    case BlockComment(body) => forall k: nat :: k < |body| ==> !ClosesAt([STAR] + body + [STAR, SLASH], k)
    case Literal(chars) => forall k :: 0 <= k < |chars| && chars[k].Plain? ==> chars[k].b != QUOTE && chars[k].b != BACKSLASH
    case Other(b) => b != SPACE && b != TAB && b != 13 && b != LF && b != SLASH && b != QUOTE
  }

  function SpellAll(tokens: seq<Token>): Text {
    if tokens == [] then [] else Spell(tokens[0]) + SpellAll(tokens[1..])
  }

  /** String literals and other characters, as they are. */
  function Kept(tokens: seq<Token>): Text {
    if tokens == [] then []
    else (if tokens[0].Literal? || tokens[0].Other? then Spell(tokens[0]) else []) + Kept(tokens[1..])
  }

  /** A line comment is followed by a line feed or nothing. */
  ghost predicate LinesEnd(tokens: seq<Token>) {
    forall k :: 0 <= k < |tokens| - 1 && tokens[k].LineComment? ==> tokens[k + 1] == Space(LF)
  }

  // ----- one token

  lemma {:induction false} LineLengthIs(body: Text, rest: Text)
    requires (forall k :: 0 <= k < |body| ==> body[k] != LF) && (rest == [] || rest[0] == LF)
    ensures LineLength(body + rest) == |body|
    decreases |body|
  {
    if body == [] {
      assert body + rest == rest;
    } else {
      LineLengthIs(body[1..], rest);
      assert (body + rest)[1..] == body[1..] + rest;
    }
  }

  lemma {:induction false} BlockLengthIs(t: Text, m: nat)
    requires ClosesAt(t, m) && forall k: nat :: k < m ==> !ClosesAt(t, k)
    ensures BlockLength(t) == m + 2
    decreases m
  {
    if m > 0 {
      assert !ClosesAt(t, 0);
      assert forall k: nat :: ClosesAt(t[1..], k) ==> ClosesAt(t, k + 1);
      BlockLengthIs(t[1..], m - 1);
    }
  }

  lemma {:induction false} LiteralLengthIs(chars: seq<Char>, rest: Text)
    requires Sound(Literal(chars))
    ensures LiteralLength(SpellChars(chars) + [QUOTE] + rest) == |SpellChars(chars)| + 1
    decreases |chars|
  {
    if chars != [] {
      LiteralLengthIs(chars[1..], rest);
      var head := if chars[0].Plain? then [chars[0].b] else [BACKSLASH, chars[0].b];
      var all := SpellChars(chars) + [QUOTE] + rest;
      assert all == head + (SpellChars(chars[1..]) + [QUOTE] + rest);
      assert all[|head|..] == SpellChars(chars[1..]) + [QUOTE] + rest;
    }
  }

  lemma LineTaken(body: Text, rest: Text)
    requires Sound(LineComment(body)) && (rest == [] || rest[0] == LF)
    ensures LineLength([SLASH, SLASH] + body + rest) == |body| + 2
  {
    LineLengthIs([SLASH, SLASH] + body, rest);
  }

  lemma LiteralTaken(chars: seq<Char>, rest: Text)
    requires Sound(Literal(chars))
    ensures var s := Spell(Literal(chars)) + rest; LiteralLength(s[1..]) == |SpellChars(chars)| + 1
  {
    BehindFirst(QUOTE, SpellChars(chars), [QUOTE], rest);
    LiteralLengthIs(chars, rest);
  }

  lemma BehindFirst(a: byte, t: Text, u: Text, rest: Text)
    ensures ([a] + t + u + rest)[1..] == t + u + rest
  {
  }

  /** The first two bytes tell what a token is. */
  lemma FirstTwo(s: Text, a: byte, b: byte, t: Text)
    requires s == [a, b] + t
    ensures s[0] == a && At(s, 1) == b
  {
  }

  lemma CommentTaken(t: Token, rest: Text)
    requires Sound(t) && (t.BlockComment? || (t.LineComment? && (rest == [] || rest[0] == LF)))
    ensures TokenLength(Spell(t) + rest) == |Spell(t)| && Dropped(Spell(t) + rest)
  {
    if t.BlockComment? {
      BlockTaken(t.body, rest);
      FirstTwo(Spell(t) + rest, SLASH, STAR, t.body + [STAR, SLASH] + rest);
    } else {
      LineTaken(t.body, rest);
      FirstTwo(Spell(t) + rest, SLASH, SLASH, t.body + rest);
    }
  }

  /** The token is taken off whole. */
  lemma TokenTaken(t: Token, rest: Text)
    requires Sound(t) && (t.LineComment? ==> rest == [] || rest[0] == LF)
    ensures TokenLength(Spell(t) + rest) == |Spell(t)|
    ensures Dropped(Spell(t) + rest) <==> !(t.Literal? || t.Other?)
  {
    if t.LineComment? || t.BlockComment? {
      CommentTaken(t, rest);
    } else if t.Literal? {
      LiteralTaken(t.chars, rest);
    }
  }

  lemma BlockTaken(body: Text, rest: Text)
    requires Sound(BlockComment(body))
    ensures BlockLength(Spell(BlockComment(body)) + rest) == |body| + 4
  {
    var s, t := Spell(BlockComment(body)) + rest, [STAR] + body + [STAR, SLASH];
    assert s == [SLASH] + t + rest;
    forall k: nat | k < |body| + 2 ensures !ClosesAt(s, k) {
      if k > 0 {
        assert s[k] == t[k - 1] && s[k + 1] == t[k];
        assert k - 1 < |body| ==> !ClosesAt(t, k - 1);
      }
    }
    BlockLengthIs(s, |body| + 2);
  }

  lemma TokenMinified(t: Token, rest: Text)
    requires Sound(t) && (t.LineComment? ==> rest == [] || rest[0] == LF)
    ensures Minify(Spell(t) + rest) == Then(if t.Literal? || t.Other? then Spell(t) else [], Minify(rest))
  {
    var s := Spell(t) + rest;
    TokenTaken(t, rest);
    assert s[..|Spell(t)|] == Spell(t) && s[|Spell(t)|..] == rest;
  }

  // ----- whole texts

  /** Whatever the text, minifying drops its white space and its comments and keeps the rest. */
  lemma {:induction false} MinifyDropsComments(tokens: seq<Token>)
    requires (forall k :: 0 <= k < |tokens| ==> Sound(tokens[k])) && LinesEnd(tokens)
    ensures Minify(SpellAll(tokens)) == Minified(Kept(tokens))
    decreases |tokens|
  {
    if tokens != [] {
      var rest := SpellAll(tokens[1..]);
      if |tokens| > 1 && tokens[0].LineComment? {
        assert tokens[1] == Space(LF) && tokens[1..][0] == tokens[1];
        assert rest[0] == LF;
      }
      assert LinesEnd(tokens[1..]) by {
        forall k | 0 <= k < |tokens[1..]| - 1 && tokens[1..][k].LineComment? ensures tokens[1..][k + 1] == Space(LF) {
          assert tokens[k + 1].LineComment?;
        }
      }
      TokenMinified(tokens[0], rest);
      MinifyDropsComments(tokens[1..]);
    }
  }
}
