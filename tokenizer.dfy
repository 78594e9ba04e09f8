/** The tokenizer of the pattern language: a cursor over the characters of a
    pattern that skips blanks and turns every other character into one token.

    The spec functions (`SkipWhitespace`, `NextToken`, `Tokenize`) say what the
    cursor computes; the class `Tokenizer` is the cursor itself, with the Rust
    `Peekable<Chars>` modelled as the pattern plus a position. */
module Lexing {
  import opened Wrappers

  datatype Token = LParen | RParen | UnionBar | KleeneStar | AnyChar | Char(c: char)

  /** The three characters `whitespace` skips. */
  predicate IsWhitespace(c: char) {
    c == ' ' || c == '\t' || c == '\n'
  }

  /** The character a token stands for in a pattern. */
  function SourceChar(t: Token): (c: char)
    ensures !t.Char? ==> c in "()|*."
  {
    match t
    case LParen => '('
    case RParen => ')'
    case UnionBar => '|'
    case KleeneStar => '*'
    case AnyChar => '.'
    case Char(x) => x
  }

  /** The dispatch of `next` on a peeked character: the five operator
      characters get their own tokens, every other character is a `Char`. */
  function TokenOf(c: char): (t: Token)
    ensures SourceChar(t) == c
    ensures t.Char? <==> c !in "()|*."
  {
    match c
    case '(' => LParen
    case ')' => RParen
    case '|' => UnionBar
    case '*' => KleeneStar
    case '.' => AnyChar
    case _ => Char(c)
  }

  /** The position `whitespace` stops at when it starts at `pos`: the first
      position at or after `pos` that is not a blank, or the end. */
  function SkipWhitespace(s: seq<char>, pos: nat): (r: nat)
    requires pos <= |s|
    ensures pos <= r <= |s|
    ensures forall k :: pos <= k < r ==> IsWhitespace(s[k])
    ensures r == |s| || !IsWhitespace(s[r])
    decreases |s| - pos
  {
    if pos < |s| && IsWhitespace(s[pos]) then SkipWhitespace(s, pos + 1) else pos
  }

  /** One call of `next` from position `pos`: the token produced (if any) and
      the position afterwards. */
  function NextToken(s: seq<char>, pos: nat): (r: (Option<Token>, nat))
    requires pos <= |s|
    ensures pos <= r.1 <= |s|
    ensures r.0.None? <==> forall k :: pos <= k < |s| ==> IsWhitespace(s[k])
    ensures r.0.None? ==> r.1 == |s|
    ensures r.0.Some? ==>
              && pos < r.1
              && !IsWhitespace(s[r.1 - 1])
              && r.0.value == TokenOf(s[r.1 - 1])
              && forall k :: pos <= k < r.1 - 1 ==> IsWhitespace(s[k])
  {
    var p := SkipWhitespace(s, pos);
    if p < |s| then (Some(TokenOf(s[p])), p + 1) else (None, p)
  }

  /** Once `next` has returned `None` it keeps returning `None`. */
  lemma {:induction false} NoneIsFinal(s: seq<char>, pos: nat)
    requires pos <= |s|
    requires NextToken(s, pos).0.None?
    ensures NextToken(s, NextToken(s, pos).1) == (None, |s|)
  {
  }

  /** All the tokens the cursor yields from `pos` until the first `None`. */
  function TokenizeFrom(s: seq<char>, pos: nat): seq<Token>
    requires pos <= |s|
    decreases |s| - pos
  {
    var (t, p) := NextToken(s, pos);
    match t
    case None => []
    case Some(tok) => [tok] + TokenizeFrom(s, p)
  }

  /** The token stream of a whole pattern. */
  function Tokenize(s: seq<char>): seq<Token> {
    TokenizeFrom(s, 0)
  }

  /** The pattern with every blank removed (the reference the tokenizer is
      compared against). */
  function StripWhitespace(s: seq<char>): (r: seq<char>)
    ensures |r| <= |s|
    ensures forall k :: 0 <= k < |r| ==> !IsWhitespace(r[k])
  {
    if s == [] then []
    else if IsWhitespace(s[0]) then StripWhitespace(s[1..])
    else [s[0]] + StripWhitespace(s[1..])
  }

  /** Maps every token back to the character it came from. */
  function Untokenize(ts: seq<Token>): (r: seq<char>)
    ensures |r| == |ts|
    ensures forall k :: 0 <= k < |ts| ==> r[k] == SourceChar(ts[k])
  {
    if ts == [] then [] else [SourceChar(ts[0])] + Untokenize(ts[1..])
  }

  /** Lexes a blank-free character sequence one character at a time: the
      reference the cursor is compared against. */
  function LexEach(cs: seq<char>): (ts: seq<Token>)
    ensures |ts| == |cs|
    ensures forall k :: 0 <= k < |cs| ==> ts[k] == TokenOf(cs[k])
  {
    if cs == [] then [] else [TokenOf(cs[0])] + LexEach(cs[1..])
  }

  /** Skipping a run of blanks does not change what is left once blanks are
      removed. */
  lemma {:induction false} StripSkipsBlanks(s: seq<char>, pos: nat, q: nat)
    requires pos <= q <= |s|
    requires forall k :: pos <= k < q ==> IsWhitespace(s[k])
    ensures StripWhitespace(s[pos..]) == StripWhitespace(s[q..])
    decreases q - pos
  {
    if pos < q {
      assert s[pos..][1..] == s[pos + 1..];
      StripSkipsBlanks(s, pos + 1, q);
    }
  }

  /** From position `pos`, the cursor yields one token per non-blank
      character left, each the dispatch of that character. */
  lemma {:induction false} TokenizeFromStripped(s: seq<char>, pos: nat)
    requires pos <= |s|
    ensures TokenizeFrom(s, pos) == LexEach(StripWhitespace(s[pos..]))
    decreases |s| - pos
  {
    var (t, p) := NextToken(s, pos);
    match t
    case None =>
      StripSkipsBlanks(s, pos, |s|);
      assert s[|s|..] == [];
    case Some(tok) =>
      StripSkipsBlanks(s, pos, p - 1);
      assert s[p - 1..][1..] == s[p..];
      TokenizeFromStripped(s, p);
  }

  /** What the whole token stream is: the dispatch of every non-blank
      character, in order. So there are exactly as many tokens as non-blank
      characters, no blank ever becomes a token, and mapping the tokens back
      gives the pattern with its blanks removed. */
  lemma {:induction false} TokenizeRoundTrip(s: seq<char>)
    ensures Tokenize(s) == LexEach(StripWhitespace(s))
    ensures |Tokenize(s)| == |StripWhitespace(s)|
    ensures Untokenize(Tokenize(s)) == StripWhitespace(s)
    ensures forall k :: 0 <= k < |Tokenize(s)| ==> !IsWhitespace(SourceChar(Tokenize(s)[k]))
  {
    TokenizeFromStripped(s, 0);
    assert s[0..] == s;
  }

  /** Removing blanks from a pattern that has none leaves it as it is. */
  lemma {:induction false} StripBlankFree(s: seq<char>)
    requires forall k :: 0 <= k < |s| ==> !IsWhitespace(s[k])
    ensures StripWhitespace(s) == s
  {
    if s != [] {
      assert !IsWhitespace(s[0]);
      StripBlankFree(s[1..]);
    }
  }

  /** A pattern without blanks yields exactly one token per character, the
      dispatch of that character. */
  lemma {:induction false} BlankFreeTokenize(s: seq<char>)
    requires forall k :: 0 <= k < |s| ==> !IsWhitespace(s[k])
    ensures Tokenize(s) == LexEach(s)
  {
    TokenizeRoundTrip(s);
    StripBlankFree(s);
  }

  /** The cursor of tokenizer.rs: the pattern and the position of the next
      unread character. */
  class Tokenizer {
    const chars: seq<char>
    var pos: nat

    ghost predicate Valid()
      reads this
    {
      pos <= |chars|
    }

    constructor (input: seq<char>)
      ensures Valid() && chars == input && pos == 0
    {
      chars := input;
      pos := 0;
    }

    /** Consumes blanks in place, stopping at the first other character. */
    method Whitespace()
      requires Valid()
      modifies this
      ensures Valid()
      ensures old(pos) <= pos
      ensures forall k :: old(pos) <= k < pos ==> IsWhitespace(chars[k])
      ensures pos == |chars| || !IsWhitespace(chars[pos])
      ensures pos == SkipWhitespace(chars, old(pos))
    {
      while pos < |chars| && IsWhitespace(chars[pos])
        invariant old(pos) <= pos <= |chars|
        invariant forall k :: old(pos) <= k < pos ==> IsWhitespace(chars[k])
        invariant SkipWhitespace(chars, pos) == SkipWhitespace(chars, old(pos))
        decreases |chars| - pos
      {
        pos := pos + 1;
      }
    }

    /** Reads a parenthesis; `next` only calls it on one. */
    method Paren() returns (t: Token)
      requires Valid() && pos < |chars| && (chars[pos] == '(' || chars[pos] == ')')
      modifies this
      ensures Valid() && pos == old(pos) + 1
      ensures t == (if chars[old(pos)] == '(' then LParen else RParen)
    {
      var c := chars[pos];
      pos := pos + 1;
      if c == '(' {
        t := LParen;
      } else {
        t := RParen;
      }
    }

    /** Reads a `|`; `next` only calls it on one. */
    method Union() returns (t: Token)
      requires Valid() && pos < |chars| && chars[pos] == '|'
      modifies this
      ensures Valid() && pos == old(pos) + 1 && t == UnionBar
    {
      pos := pos + 1;
      t := UnionBar;
    }

    /** Reads a `*`; `next` only calls it on one. */
    method Kleene() returns (t: Token)
      requires Valid() && pos < |chars| && chars[pos] == '*'
      modifies this
      ensures Valid() && pos == old(pos) + 1 && t == KleeneStar
    {
      pos := pos + 1;
      t := KleeneStar;
    }

    /** Reads a `.`; `next` only calls it on one. */
    method AnyCharToken() returns (t: Token)
      requires Valid() && pos < |chars| && chars[pos] == '.'
      modifies this
      ensures Valid() && pos == old(pos) + 1 && t == AnyChar
    {
      pos := pos + 1;
      t := AnyChar;
    }

    /** Reads any other character as a literal. */
    method OtherChars() returns (t: Token)
      requires Valid() && pos < |chars|
      modifies this
      ensures Valid() && pos == old(pos) + 1 && t == Char(chars[old(pos)])
    {
      t := Char(chars[pos]);
      pos := pos + 1;
    }

    /** `Iterator::next`: skip blanks, then read one token if a character is
        left. The helpers' panics cannot happen: each is called only on the
        character it expects. */
    method Next() returns (t: Option<Token>)
      requires Valid()
      modifies this
      ensures Valid()
      ensures (t, pos) == NextToken(chars, old(pos))
    {
      Whitespace();
      if pos < |chars| {
        var c := chars[pos];
        var tok: Token;
        if c == '(' || c == ')' {
          tok := Paren();
        } else if c == '|' {
          tok := Union();
        } else if c == '*' {
          tok := Kleene();
        } else if c == '.' {
          tok := AnyCharToken();
        } else {
          tok := OtherChars();
        }
        t := Some(tok);
      } else {
        t := None;
      }
    }
  }

  /** The unit tests of tokenizer.rs, replayed on the cursor. */
  method EmptyTest() {
    var tokens := new Tokenizer("");
    var t := tokens.Next();
    assert t == None;
    t := tokens.Next();
    assert t == None;
  }

  method ParenthesesWithCharsTest() {
    var tokens := new Tokenizer("(yuh)");
    var t := tokens.Next(); assert t == Some(LParen);
    t := tokens.Next(); assert t == Some(Char('y'));
    t := tokens.Next(); assert t == Some(Char('u'));
    t := tokens.Next(); assert t == Some(Char('h'));
    t := tokens.Next(); assert t == Some(RParen);
    t := tokens.Next(); assert t == None;
  }

  method UnionWithCharsTest() {
    var tokens := new Tokenizer("y|n");
    var t := tokens.Next(); assert t == Some(Char('y'));
    t := tokens.Next(); assert t == Some(UnionBar);
    t := tokens.Next(); assert t == Some(Char('n'));
    t := tokens.Next(); assert t == None;
  }

  method KleeneStarWithCharTest() {
    var tokens := new Tokenizer("x*");
    var t := tokens.Next(); assert t == Some(Char('x'));
    t := tokens.Next(); assert t == Some(KleeneStar);
    t := tokens.Next(); assert t == None;
  }

  method AnyCharWithCharsTest() {
    var tokens := new Tokenizer("a.b");
    var t := tokens.Next(); assert t == Some(Char('a'));
    t := tokens.Next(); assert t == Some(AnyChar);
    t := tokens.Next(); assert t == Some(Char('b'));
    t := tokens.Next(); assert t == None;
  }

  method AllTokensTest() {
    var tokens := new Tokenizer("(a|b).c*");
    var t := tokens.Next(); assert t == Some(LParen);
    t := tokens.Next(); assert t == Some(Char('a'));
    t := tokens.Next(); assert t == Some(UnionBar);
    t := tokens.Next(); assert t == Some(Char('b'));
    t := tokens.Next(); assert t == Some(RParen);
    t := tokens.Next(); assert t == Some(AnyChar);
    t := tokens.Next(); assert t == Some(Char('c'));
    t := tokens.Next(); assert t == Some(KleeneStar);
    t := tokens.Next(); assert t == None;
  }

  /** Blanks around and between tokens are skipped. */
  method BlanksTest() {
    var tokens := new Tokenizer(" y |\tn\n");
    var t := tokens.Next(); assert t == Some(Char('y'));
    t := tokens.Next(); assert t == Some(UnionBar);
    t := tokens.Next(); assert t == Some(Char('n'));
    t := tokens.Next(); assert t == None;
    t := tokens.Next(); assert t == None;
  }
}
