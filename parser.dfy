/** The recursive-descent parser of the pattern language.

    Grammar, lowest precedence first:
      RegExpr     ::= Catenation (UnionBar RegExpr)?
      Catenation  ::= Closure (Catenation)?
      Closure     ::= Atom (KleeneStar)?
      Atom        ::= LParen RegExpr RParen | AnyChar | Char

    The Rust parser keeps a `Peekable` token stream in a field and advances it
    as it goes; here every nonterminal takes the tokens that are still unread
    and returns, on success, the tree it built together with the tokens it left
    unread. */
module Parsing {
  import opened Wrappers
  import L = Lexing

  datatype AST =
    | Alternation(left: AST, right: AST)
    | Catenation(left: AST, right: AST)
    | Closure(body: AST)
    | Char(c: char)
    | AnyChar

  /** The ways a parse fails, one per error message of parser.rs. */
  datatype ParseError =
    | UnexpectedEndOfInput
    | UnexpectedToken(found: L.Token)
    | ExpectedToken(expected: L.Token, found: L.Token)
    | TrailingInput(found: L.Token)

  type Tokens = seq<L.Token>

  /** A successful parse: the tree and the tokens left unread. */
  type Parsed = Result<(AST, Tokens), ParseError>

  /** The tokens that can begin an atom, and so continue a catenation. */
  predicate StartsAtom(t: L.Token) {
    t == L.LParen || t == L.AnyChar || t.Char?
  }

  /** `peek_next`: the next token, without consuming it. */
  function PeekNext(ts: Tokens): (r: Option<L.Token>)
    ensures r.Some? <==> ts != []
    ensures r.Some? ==> r.value == ts[0]
  {
    if ts == [] then None else Some(ts[0])
  }

  /** `take_next_token`: consume the next token, or fail at the end of the
      input. */
  function TakeNextToken(ts: Tokens): (r: Result<(L.Token, Tokens), ParseError>)
    ensures r.Ok? <==> ts != []
    ensures r.Ok? ==> ts == [r.value.0] + r.value.1
    ensures r.Err? ==> r.error == UnexpectedEndOfInput
  {
    if ts == [] then Err(UnexpectedEndOfInput) else Ok((ts[0], ts[1..]))
  }

  /** `consume_token`: consume the next token, which must be `expected`. */
  function ConsumeToken(ts: Tokens, expected: L.Token): (r: Result<(L.Token, Tokens), ParseError>)
    ensures r.Ok? <==> ts != [] && ts[0] == expected
    ensures r.Ok? ==> r.value == (expected, ts[1..])
    ensures ts == [] ==> r == Err(UnexpectedEndOfInput)
    ensures ts != [] && ts[0] != expected ==> r == Err(ExpectedToken(expected, ts[0]))
  {
    if ts == [] then Err(UnexpectedEndOfInput)
    else if ts[0] != expected then Err(ExpectedToken(expected, ts[0]))
    else Ok((ts[0], ts[1..]))
  }

  /** The tokens left unread are a proper suffix of the tokens given: a
      successful nonterminal always consumes at least one token. */
  predicate Consumed(ts: Tokens, rest: Tokens) {
    |rest| < |ts| && rest == ts[|ts| - |rest|..]
  }

  /** RegExpr ::= Catenation (UnionBar RegExpr)?
      Alternation nests to the right and stops only at the end of the input,
      at a `)` or at a `*` that no atom could take. */
  function ParseRegExpr(ts: Tokens): (r: Parsed)
    ensures r.Ok? ==> Consumed(ts, r.value.1)
    ensures r.Ok? ==> r.value.1 == [] || r.value.1[0] == L.RParen || r.value.1[0] == L.KleeneStar
    ensures ts == [] ==> r == Err(UnexpectedEndOfInput)
    ensures ts != [] && !StartsAtom(ts[0]) ==> r == Err(UnexpectedToken(ts[0]))
    decreases |ts|, 3
  {
    match ParseCatenation(ts)
    case Err(e) => Err(e)
    case Ok((left, rest)) =>
      match PeekNext(rest)
      case Some(UnionBar) =>
        (match ConsumeToken(rest, L.UnionBar)
         case Err(e) => Err(e)
         case Ok((_, rest')) =>
           match ParseRegExpr(rest')
           case Err(e) => Err(e)
           case Ok((right, rest'')) => Ok((Alternation(left, right), rest'')))
      case _ => Ok((left, rest))
  }

  /** Catenation ::= Closure (Catenation)?
      Catenation nests to the right and continues exactly while the next
      token can begin an atom. */
  function ParseCatenation(ts: Tokens): (r: Parsed)
    ensures r.Ok? ==> Consumed(ts, r.value.1)
    ensures r.Ok? ==> r.value.1 == [] || !StartsAtom(r.value.1[0])
    ensures ts == [] ==> r == Err(UnexpectedEndOfInput)
    ensures ts != [] && !StartsAtom(ts[0]) ==> r == Err(UnexpectedToken(ts[0]))
    decreases |ts|, 2
  {
    match ParseClosure(ts)
    case Err(e) => Err(e)
    case Ok((first, rest)) =>
      if rest != [] && StartsAtom(rest[0]) then
        match ParseCatenation(rest)
        case Err(e) => Err(e)
        case Ok((second, rest')) => Ok((Catenation(first, second), rest'))
      else
        Ok((first, rest))
  }

  /** Closure ::= Atom (KleeneStar)?
      At most one star is taken per atom. */
  function ParseClosure(ts: Tokens): (r: Parsed)
    ensures r.Ok? ==> Consumed(ts, r.value.1)
    ensures ts == [] ==> r == Err(UnexpectedEndOfInput)
    ensures ts != [] && !StartsAtom(ts[0]) ==> r == Err(UnexpectedToken(ts[0]))
    decreases |ts|, 1
  {
    match ParseAtom(ts)
    case Err(e) => Err(e)
    case Ok((atom, rest)) =>
      match PeekNext(rest)
      case Some(KleeneStar) =>
        (match ConsumeToken(rest, L.KleeneStar)
         case Err(e) => Err(e)
         case Ok((_, rest')) => Ok((Closure(atom), rest')))
      case _ => Ok((atom, rest))
  }

  /** Atom ::= LParen RegExpr RParen | AnyChar | Char
      Fails at the end of the input, and on any token that cannot begin an
      atom. */
  function ParseAtom(ts: Tokens): (r: Parsed)
    ensures r.Ok? ==> Consumed(ts, r.value.1)
    ensures ts == [] ==> r == Err(UnexpectedEndOfInput)
    ensures ts != [] && !StartsAtom(ts[0]) ==> r == Err(UnexpectedToken(ts[0]))
    decreases |ts|, 0
  {
    match TakeNextToken(ts)
    case Err(e) => Err(e)
    case Ok((t, rest)) =>
      match t
      case LParen =>
        (match ParseRegExpr(rest)
         case Err(e) => Err(e)
         case Ok((inner, rest')) =>
           match ConsumeToken(rest', L.RParen)
           case Err(e) => Err(e)
           case Ok((_, rest'')) => Ok((inner, rest'')))
      case AnyChar => Ok((AnyChar, rest))
      case Char(c) => Ok((Char(c), rest))
      case _ => Err(UnexpectedToken(t))
  }

  /** `Parser::parse`: a whole regular expression, and nothing after it. */
  function Parse(ts: Tokens): (r: Result<AST, ParseError>)
    ensures ts == [] ==> r == Err(UnexpectedEndOfInput)
    ensures ts != [] && !StartsAtom(ts[0]) ==> r == Err(UnexpectedToken(ts[0]))
    ensures r.Ok? <==> ParseRegExpr(ts).Ok? && ParseRegExpr(ts).value.1 == []
    ensures r.Ok? ==> ParseRegExpr(ts) == Ok((r.value, []))
    ensures ParseRegExpr(ts).Err? ==> r == Err(ParseRegExpr(ts).error)
    ensures ParseRegExpr(ts).Ok? && ParseRegExpr(ts).value.1 != [] ==>
              r == Err(TrailingInput(ParseRegExpr(ts).value.1[0]))
  {
    match ParseRegExpr(ts)
    case Err(e) => Err(e)
    case Ok((ast, rest)) =>
      if rest != [] then Err(TrailingInput(rest[0])) else Ok(ast)
  }

  /** Parses a pattern string: tokenizing never fails, so this is `parse`
      applied to the token stream of the pattern. */
  function ParsePattern(pattern: seq<char>): Result<AST, ParseError> {
    Parse(L.Tokenize(pattern))
  }

  /** Prints a tree as tokens, at a precedence level: 0 for a RegExpr, 1 for
      a Catenation, 2 for a Closure and 3 for an Atom. A tree whose operator
      binds looser than the level allows is put in parentheses. This is the
      independent reference the parser is checked against: parsing what is
      printed gives back the same tree. */
  function Print(ast: AST, level: nat): (ts: Tokens)
    requires level <= 3
    ensures ts != [] && StartsAtom(ts[0])
    decreases ast, level
  {
    match ast
    case Alternation(l, r) =>
      if level == 0 then Print(l, 1) + [L.UnionBar] + Print(r, 0)
      else [L.LParen] + Print(ast, 0) + [L.RParen]
    case Catenation(l, r) =>
      if level <= 1 then Print(l, 2) + Print(r, 1)
      else [L.LParen] + Print(ast, 0) + [L.RParen]
    case Closure(x) =>
      if level <= 2 then Print(x, 3) + [L.KleeneStar]
      else [L.LParen] + Print(ast, 0) + [L.RParen]
    case Char(c) => [L.Char(c)]
    case AnyChar => [L.AnyChar]
  }

  /** The order in which the four round-trip lemmas below call each other on
      the same tree; calls on a subtree need no rank. */
  function Rank(ast: AST, level: nat): nat {
    match ast
    case Alternation(_, _) => [0, 3, 2, 1][level % 4]
    case Catenation(_, _) => [1, 0, 3, 2][level % 4]
    case Closure(_) => [2, 1, 0, 3][level % 4]
    case _ => 3 - level % 4
  }

  /** A printed RegExpr, followed by the end of the input or a `)`, parses
      back to the same tree and leaves exactly what followed it. */
  lemma {:induction false} RegExprParsesPrinted(ast: AST, rest: Tokens)
    requires rest == [] || rest[0] == L.RParen
    ensures ParseRegExpr(Print(ast, 0) + rest) == Ok((ast, rest))
    decreases ast, Rank(ast, 0), 1
  {
    match ast
    case Alternation(l, r) =>
      AlternationParsesPrinted(l, r, rest);
    case _ =>
      assert Print(ast, 0) == Print(ast, 1);
      CatenationParsesPrinted(ast, rest);
  }

  /** The same for an Alternation: its left operand, the `|`, and its right
      operand, printed as a RegExpr. */
  lemma {:induction false} AlternationParsesPrinted(l: AST, r: AST, rest: Tokens)
    requires rest == [] || rest[0] == L.RParen
    ensures ParseRegExpr(Print(Alternation(l, r), 0) + rest) == Ok((Alternation(l, r), rest))
    decreases Alternation(l, r), 0, 0
  {
    var tail := [L.UnionBar] + (Print(r, 0) + rest);
    PrintedAlternation(l, r, rest);
    CatenationParsesPrinted(l, tail);
    RegExprParsesPrinted(r, rest);
    assert tail[1..] == Print(r, 0) + rest;
    RegExprTakesBar(Print(l, 1) + tail, l, tail, r, rest);
  }

  /** A printed Alternation is its left operand, a `|`, and its right
      operand. */
  lemma {:induction false} PrintedAlternation(l: AST, r: AST, rest: Tokens)
    ensures Print(Alternation(l, r), 0) + rest == Print(l, 1) + ([L.UnionBar] + (Print(r, 0) + rest))
  {
  }

  /** A Catenation followed by a `|` and a RegExpr parses as their
      Alternation. */
  lemma {:induction false} RegExprTakesBar(ts: Tokens, l: AST, tail: Tokens, r: AST, rest: Tokens)
    requires ParseCatenation(ts) == Ok((l, tail))
    requires tail != [] && tail[0] == L.UnionBar && ParseRegExpr(tail[1..]) == Ok((r, rest))
    ensures ParseRegExpr(ts) == Ok((Alternation(l, r), rest))
  {
  }

  /** A printed Catenation, followed by the end of the input, a `)` or a
      `|`, parses back to the same tree. */
  lemma {:induction false} CatenationParsesPrinted(ast: AST, rest: Tokens)
    requires rest == [] || rest[0] == L.RParen || rest[0] == L.UnionBar
    ensures ParseCatenation(Print(ast, 1) + rest) == Ok((ast, rest))
    decreases ast, Rank(ast, 1), 1
  {
    match ast
    case Catenation(l, r) =>
      var tail := Print(r, 1) + rest;
      assert Print(ast, 1) + rest == Print(l, 2) + tail;
      ClosureParsesPrinted(l, tail);
      CatenationParsesPrinted(r, rest);
      CatenationTakesAtom(Print(l, 2) + tail, l, tail, r, rest);
    case _ =>
      assert Print(ast, 1) == Print(ast, 2);
      ClosureParsesPrinted(ast, rest);
  }

  /** A Closure followed by a Catenation parses as their Catenation. */
  lemma {:induction false} CatenationTakesAtom(ts: Tokens, l: AST, tail: Tokens, r: AST, rest: Tokens)
    requires ParseClosure(ts) == Ok((l, tail))
    requires tail != [] && StartsAtom(tail[0]) && ParseCatenation(tail) == Ok((r, rest))
    ensures ParseCatenation(ts) == Ok((Catenation(l, r), rest))
  {
  }

  /** A printed Closure, followed by anything but a `*`, parses back to the
      same tree. */
  lemma {:induction false} ClosureParsesPrinted(ast: AST, rest: Tokens)
    requires rest == [] || rest[0] != L.KleeneStar
    ensures ParseClosure(Print(ast, 2) + rest) == Ok((ast, rest))
    decreases ast, Rank(ast, 2), 1
  {
    match ast
    case Closure(x) =>
      var ts := Print(x, 3) + ([L.KleeneStar] + rest);
      assert Print(ast, 2) + rest == ts;
      AtomParsesPrinted(x, [L.KleeneStar] + rest);
      assert ([L.KleeneStar] + rest)[1..] == rest;
    case _ =>
      assert Print(ast, 2) == Print(ast, 3);
      AtomParsesPrinted(ast, rest);
  }

  /** A printed Atom, followed by anything, parses back to the same tree. */
  lemma {:induction false} AtomParsesPrinted(ast: AST, rest: Tokens)
    ensures ParseAtom(Print(ast, 3) + rest) == Ok((ast, rest))
    decreases ast, Rank(ast, 3), 1
  {
    match ast
    case Char(c) =>
      assert (Print(ast, 3) + rest)[1..] == rest;
    case AnyChar =>
      assert (Print(ast, 3) + rest)[1..] == rest;
    case _ =>
      var ts := [L.LParen] + (Print(ast, 0) + ([L.RParen] + rest));
      assert Print(ast, 3) + rest == ts;
      assert ts[1..] == Print(ast, 0) + ([L.RParen] + rest);
      RegExprParsesPrinted(ast, [L.RParen] + rest);
      assert ([L.RParen] + rest)[1..] == rest;
  }

  /** The parser inverts the printer: every tree, printed, parses back to
      itself. This fixes the grammar's precedence and grouping: `|` binds
      loosest and nests to the right, catenation nests to the right, and a
      `*` applies to the atom just before it. */
  lemma {:induction false} ParsePrintRoundTrip(ast: AST)
    ensures Parse(Print(ast, 0)) == Ok(ast)
  {
    RegExprParsesPrinted(ast, []);
    assert Print(ast, 0) + [] == Print(ast, 0);
  }

  /** A complete expression followed by a stray `)`, and whatever comes
      after it, is rejected with that `)`, not silently truncated. */
  lemma {:induction false} TrailingTokenRejected(ast: AST, more: Tokens)
    ensures Parse(Print(ast, 0) + ([L.RParen] + more)) == Err(TrailingInput(L.RParen))
  {
    RegExprParsesPrinted(ast, [L.RParen] + more);
  }

  /** A missing operand at the end of the input: `a|`. */
  lemma {:induction false} MissingOperandRejected()
    ensures Parse([L.Char('a'), L.UnionBar]) == Err(UnexpectedEndOfInput)
  {
    var ts := [L.Char('a'), L.UnionBar];
    assert ts[1..] == [L.UnionBar];
    assert ParseCatenation(ts) == Ok((Char('a'), [L.UnionBar]));
    assert [L.UnionBar][1..] == [];
  }

  /** An unclosed group: `(a`. */
  lemma {:induction false} UnclosedGroupRejected()
    ensures Parse([L.LParen, L.Char('a')]) == Err(UnexpectedEndOfInput)
  {
    var ts := [L.LParen, L.Char('a')];
    assert ts[1..] == [L.Char('a')];
    assert [L.Char('a')][1..] == [];
    assert ParseRegExpr([L.Char('a')]) == Ok((Char('a'), []));
    assert ParseAtom(ts) == Err(UnexpectedEndOfInput);
  }

  /** A second star after an atom is left over: `a**`. */
  lemma {:induction false} DoubleStarRejected()
    ensures Parse([L.Char('a'), L.KleeneStar, L.KleeneStar]) == Err(TrailingInput(L.KleeneStar))
  {
    var ts := [L.Char('a'), L.KleeneStar, L.KleeneStar];
    assert ts[1..] == [L.KleeneStar, L.KleeneStar];
    assert [L.KleeneStar, L.KleeneStar][1..] == [L.KleeneStar];
    assert ParseClosure(ts) == Ok((Closure(Char('a')), [L.KleeneStar]));
  }

  /** A stray `)`: `a)`. */
  lemma {:induction false} StrayParenRejected()
    ensures Parse([L.Char('a'), L.RParen]) == Err(TrailingInput(L.RParen))
  {
    TrailingTokenRejected(Char('a'), []);
    assert [L.Char('a')] + ([L.RParen] + []) == [L.Char('a'), L.RParen];
  }

  /** `a|*b`: the error of the right operand is reported, not the `b` still
      unread after it; `parse` looks for trailing input only after a
      successful `reg_expr`. */
  lemma {:induction false} OperandErrorFirst(ts: Tokens)
    requires ts == [L.Char('a'), L.UnionBar, L.KleeneStar, L.Char('b')]
    ensures Parse(ts) == Err(UnexpectedToken(L.KleeneStar))
  {
    var rest := ts[1..];
    assert rest == [L.UnionBar, L.KleeneStar, L.Char('b')] && rest[1..] == ts[2..];
    assert ParseAtom(ts) == Ok((Char('a'), rest));
    assert ParseClosure(ts) == Ok((Char('a'), rest));
    assert ParseCatenation(ts) == Ok((Char('a'), rest));
    assert ParseRegExpr(ts[2..]) == Err(UnexpectedToken(L.KleeneStar));
  }

  /** `a|b|c` groups to the right: `a|(b|c)`. */
  lemma {:induction false} AlternationNestsRight()
    ensures Parse([L.Char('a'), L.UnionBar, L.Char('b'), L.UnionBar, L.Char('c')])
            == Ok(Alternation(Char('a'), Alternation(Char('b'), Char('c'))))
  {
    var a, b, c := Char('a'), Char('b'), Char('c');
    assert Print(Alternation(b, c), 0) == [L.Char('b'), L.UnionBar, L.Char('c')] by {
      assert Print(b, 1) == [L.Char('b')];
      assert Print(c, 0) == [L.Char('c')];
    }
    assert Print(a, 1) == [L.Char('a')];
    var ast := Alternation(a, Alternation(b, c));
    assert Print(ast, 0) == [L.Char('a'), L.UnionBar, L.Char('b'), L.UnionBar, L.Char('c')];
    ParsePrintRoundTrip(ast);
  }

  /** `ab*|c` is `(a(b*))|c`: the star binds tightest, `|` loosest. */
  lemma {:induction false} PrecedenceExample()
    ensures Parse([L.Char('a'), L.Char('b'), L.KleeneStar, L.UnionBar, L.Char('c')])
            == Ok(Alternation(Catenation(Char('a'), Closure(Char('b'))), Char('c')))
  {
    var a, b, c := Char('a'), Char('b'), Char('c');
    assert Print(Catenation(a, Closure(b)), 1) == [L.Char('a'), L.Char('b'), L.KleeneStar] by {
      assert Print(a, 2) == [L.Char('a')];
      assert Print(Closure(b), 1) == [L.Char('b'), L.KleeneStar] by {
        assert Print(b, 3) == [L.Char('b')];
      }
    }
    assert Print(c, 0) == [L.Char('c')];
    var ast := Alternation(Catenation(a, Closure(b)), c);
    assert Print(ast, 0) == [L.Char('a'), L.Char('b'), L.KleeneStar, L.UnionBar, L.Char('c')];
    ParsePrintRoundTrip(ast);
  }
}
