/** The automata of the unit tests of `NFA::accepts`, built from their
    trees, with the verdicts those tests expect; and an input on which
    `accept_helper` reads past the end of its list. */
module NfaExamples {
  import opened Wrappers
  import L = Lexing
  import P = Parsing
  import opened Thompson
  import opened Simulation

  const a := P.Char('a')
  const b := P.Char('b')

  /** `Match(tag, None)`, a state as `gen_fragment` first adds it. */
  function Open(tag: Char): State {
    Match(tag, None)
  }

  /** Binding one loose end is a single `join`. */
  lemma {:induction false} JoinOne(s: seq<State>, e: nat, to: nat)
    requires e < |s|
    ensures JoinAll(s, [e], to) == s[e := Bound(s[e], to)]
  {
    assert [e][..0] == [];
  }

  /** A catenation whose left operand is a leaf: the leaf's Match state,
      bound to the right operand's entry, then the right operand. */
  lemma {:induction false} CatAfterLeaf(s: seq<State>, leaf: P.AST, rhs: P.AST)
    requires leaf.Char? || leaf.AnyChar?
    ensures var t := GenFragment(s + [Open(TagOf(leaf))], rhs);
            GenFragment(s, P.Catenation(leaf, rhs))
            == (t.0[|s| := Match(TagOf(leaf), Some(t.1.start))], Fragment(|s|, t.1.ends))
  {
    var t := GenFragment(s + [Open(TagOf(leaf))], rhs);
    assert GenFragment(s, leaf) == (s + [Open(TagOf(leaf))], Fragment(|s|, [|s|]));
    assert t.0[|s|] == (s + [Open(TagOf(leaf))])[|s|] by {
      assert t.0[..|s| + 1] == s + [Open(TagOf(leaf))];
    }
    JoinOne(t.0, |s|, t.1.start);
  }

  /** Rewiring the state right after `s`. */
  lemma {:induction false} ReplaceAt(s: seq<State>, x: State, y: State, rest: seq<State>)
    ensures ((s + [x]) + rest)[|s| := y] == s + ([y] + rest)
  {
  }

  /** The same, with the right operand's states and fragment given. */
  lemma {:induction false} CatLeafChain(s: seq<State>, leaf: P.AST, rhs: P.AST, mid: seq<State>, start: nat, ends: seq<nat>)
    requires leaf.Char? || leaf.AnyChar?
    requires GenFragment(s + [Open(TagOf(leaf))], rhs) == ((s + [Open(TagOf(leaf))]) + mid, Fragment(start, ends))
    ensures GenFragment(s, P.Catenation(leaf, rhs))
         == (s + ([Match(TagOf(leaf), Some(start))] + mid), Fragment(|s|, ends))
  {
    CatAfterLeaf(s, leaf, rhs);
    ReplaceAt(s, Open(TagOf(leaf)), Match(TagOf(leaf), Some(start)), mid);
  }

  /** The automaton of a tree whose fragment after the Start is known: the
      Start bound to the entry, an End appended, the loose ends bound to it. */
  lemma {:induction false} BuildOfBody(ast: P.AST, s1: seq<State>, body: Fragment)
    requires GenFragment([Start(None)], ast) == (s1, body)
    ensures forall e :: e in body.ends ==> e < |s1|
    ensures Build(ast) == Automaton(0, JoinAll(Join(s1, 0, body.start) + [End], body.ends, |s1|))
  {
  }

  /** The same, with the character written at the head of the input. */
  lemma {:induction false} StepCons(states: seq<State>, list: seq<nat>, c: char, rest: seq<char>, fuel: nat, next: seq<nat>)
    requires HelperLoop(states, c, list, 0, |list|, fuel) == Settled(next)
    ensures Steps(states, list, [c] + rest, fuel) == Steps(states, next, rest, fuel)
  {
    assert ([c] + rest)[1..] == rest;
  }

  /** One character of `accepts`: the list `accept_helper` settles on
      carries over to the rest of the input. */
  lemma {:induction false} StepOne(states: seq<State>, list: seq<nat>, input: seq<char>, fuel: nat, next: seq<nat>)
    requires input != [] && HelperLoop(states, input[0], list, 0, |list|, fuel) == Settled(next)
    ensures Steps(states, list, input, fuel) == Steps(states, next, input[1..], fuel)
  {
  }

  /** `NFA::from` on a pattern without blanks: its tokens are its characters
      dispatched one by one, and a tree they parse to is the tree built. */
  lemma {:induction false} LexedPattern(pattern: seq<char>, ts: P.Tokens, ast: P.AST)
    requires forall k :: 0 <= k < |pattern| ==> !L.IsWhitespace(pattern[k])
    requires L.LexEach(pattern) == ts
    requires P.Parse(ts) == Ok(ast)
    ensures FromPattern(pattern) == Ok(Build(ast))
  {
    L.BlankFreeTokenize(pattern);
  }

  /** The same for a pattern whose characters are the printed tree. */
  lemma {:induction false} PrintedPattern(pattern: seq<char>, ast: P.AST)
    requires forall k :: 0 <= k < |pattern| ==> !L.IsWhitespace(pattern[k])
    requires L.LexEach(pattern) == P.Print(ast, 0)
    ensures FromPattern(pattern) == Ok(Build(ast))
  {
    P.ParsePrintRoundTrip(ast);
    LexedPattern(pattern, P.Print(ast, 0), ast);
  }

  /* ----- `.` ----- */

  const anyStates := [Start(Some(1)), Match(Any, Some(2)), End]

  lemma {:induction false} AnyCharBuild()
    ensures Build(P.AnyChar) == Automaton(0, anyStates)
  {
    var s1 := [Start(None), Open(Any)];
    LeafFragment([Start(None)], P.AnyChar);
    assert [Start(None)] + [Open(Any)] == s1;
    BuildOfBody(P.AnyChar, s1, Fragment(1, [1]));
    JoinOne(Join(s1, 0, 1) + [End], 1, 2);
  }

  /** `NFA::from(".")` builds exactly this automaton. */
  lemma {:induction false} AnyCharFrom()
    ensures FromPattern(".") == Ok(Automaton(0, anyStates))
  {
    assert L.LexEach(".") == P.Print(P.AnyChar, 0);
    PrintedPattern(".", P.AnyChar);
    AnyCharBuild();
  }

  /** The verdicts the unit test of `.` expects, on its automaton. */
  lemma {:induction false} AnyCharVerdicts()
    ensures Run(anyStates, 0, "a", 20) == Accept
    ensures Run(anyStates, 0, "9", 20) == Accept
    ensures Run(anyStates, 0, "", 20) == Reject
  {
  }

  /** The unit test of `NFA::from(".")`, from the pattern string. */
  lemma {:induction false} AnyCharTest()
    ensures FromPattern(".").Ok?
    ensures Accepts(FromPattern(".").value, "a", 20) == Accept
    ensures Accepts(FromPattern(".").value, "9", 20) == Accept
    ensures Accepts(FromPattern(".").value, "", 20) == Reject
  {
    AnyCharFrom();
    AnyCharVerdicts();
  }

  /* ----- `ab` ----- */

  const catStates := [Start(Some(1)), Match(Literal('a'), Some(2)), Match(Literal('b'), Some(3)), End]

  lemma {:induction false} SimpleCatBuild()
    ensures Build(P.Catenation(a, b)) == Automaton(0, catStates)
  {
    var s1 := [Start(None), Open(Literal('a'))];
    assert GenFragment([Start(None)], a).0 == s1;
    var s2 := s1 + [Open(Literal('b'))];
    JoinOne(s2, 1, 2);
    var body := GenFragment([Start(None)], P.Catenation(a, b));
    assert body.0 == [Start(None), Match(Literal('a'), Some(2)), Open(Literal('b'))];
    assert body.1 == Fragment(1, [2]);
    JoinOne(Join(body.0, 0, 1) + [End], 2, 3);
  }

  /** `NFA::from("ab")` builds exactly this automaton. */
  lemma {:induction false} SimpleCatFrom()
    ensures FromPattern("ab") == Ok(Automaton(0, catStates))
  {
    assert L.LexEach("ab") == P.Print(P.Catenation(a, b), 0);
    PrintedPattern("ab", P.Catenation(a, b));
    SimpleCatBuild();
  }

  /** The verdicts the unit test of `ab` expects, on its automaton. */
  lemma {:induction false} SimpleCatVerdicts()
    ensures Run(catStates, 0, "a", 20) == Reject
    ensures Run(catStates, 0, "ab", 20) == Accept
  {
  }

  /** The unit test of `NFA::from("ab")`, from the pattern string. */
  lemma {:induction false} SimpleCatTest()
    ensures FromPattern("ab").Ok?
    ensures Accepts(FromPattern("ab").value, "a", 20) == Reject
    ensures Accepts(FromPattern("ab").value, "ab", 20) == Accept
  {
    SimpleCatFrom();
    SimpleCatVerdicts();
  }

  /* ----- `a|b` ----- */

  const altStates := [Start(Some(3)), Match(Literal('a'), Some(4)), Match(Literal('b'), Some(4)),
                      Split(Some(1), Some(2)), End]

  lemma {:induction false} SimpleAltBuild()
    ensures Build(P.Alternation(a, b)) == Automaton(0, altStates)
  {
    var s1 := [Start(None), Open(Literal('a'))];
    assert GenFragment([Start(None)], a).0 == s1;
    var s2 := s1 + [Open(Literal('b'))];
    assert GenFragment(s1, b).0 == s2;
    assert [] + [1] + [2] == [1, 2];
    var body := GenFragment([Start(None)], P.Alternation(a, b));
    assert body.0 == s2 + [Split(Some(1), Some(2))];
    assert body.1 == Fragment(3, [1, 2]);
    var s3 := Join(body.0, 0, 3) + [End];
    assert s3 == [Start(Some(3)), Open(Literal('a')), Open(Literal('b')), Split(Some(1), Some(2)), End];
    assert JoinAll(s3, [1, 2], 4) == Join(JoinAll(s3, [1], 4), 2, 4) by {
      assert [1, 2][..1] == [1];
    }
    JoinOne(s3, 1, 4);
  }

  /** `NFA::from("a|b")` builds exactly this automaton. */
  lemma {:induction false} SimpleAltFrom()
    ensures FromPattern("a|b") == Ok(Automaton(0, altStates))
  {
    assert L.LexEach("a|b") == P.Print(P.Alternation(a, b), 0);
    PrintedPattern("a|b", P.Alternation(a, b));
    SimpleAltBuild();
  }

  /** The verdicts the unit test of `a|b` expects, on its automaton. */
  lemma {:induction false} SimpleAltVerdicts()
    ensures Run(altStates, 0, "a", 20) == Accept
    ensures Run(altStates, 0, "b", 20) == Accept
  {
    AltReadsA(20);
    AltSettles('a', [4, 2]);
    AltReadsB(20);
    AltSettles('b', [1, 4]);
  }

  /** The unit test of `NFA::from("a|b")`, from the pattern string. */
  lemma {:induction false} SimpleAltTest()
    ensures FromPattern("a|b").Ok?
    ensures Accepts(FromPattern("a|b").value, "a", 20) == Accept
    ensures Accepts(FromPattern("a|b").value, "b", 20) == Accept
  {
    SimpleAltFrom();
    SimpleAltVerdicts();
  }

  /** On `a|b`, a `b` opens the Split, steps over the Match for `a`, and
      moves the Match for `b` on to the End. */
  lemma {:induction false} AltReadsB(fuel: nat)
    requires fuel >= 4
    ensures HelperLoop(altStates, 'b', [0], 0, 1, fuel) == Settled([1, 4])
  {
    assert SwapRemove([0] + [3], 0) == [3];
    assert SwapRemove([3] + [1], 0) + [2] == [1, 2];
    assert SwapRemove([1, 2] + [4], 1) == [1, 4];
    LoopTurn(altStates, 'b', [0], 0, 1, fuel, Continue([3], 0, 1));
    LoopTurn(altStates, 'b', [3], 0, 1, fuel - 1, Continue([1, 2], 0, 2));
    LoopTurn(altStates, 'b', [1, 2], 0, 2, fuel - 2, Continue([1, 2], 1, 2));
    LoopTurn(altStates, 'b', [1, 2], 1, 2, fuel - 3, Continue([1, 4], 2, 2));
  }

  /** A one-character input on `a|b` whose pass settles on one of the two
      lists above: `empty_str` stops at the first entry, which is not a
      Start or a Split, and the End is found. */
  lemma {:induction false} AltSettles(c: char, next: seq<nat>)
    requires HelperLoop(altStates, c, [0], 0, 1, 20) == Settled(next)
    requires next == [4, 2] || next == [1, 4]
    ensures Run(altStates, 0, [c], 20) == Accept
  {
    StepCons(altStates, [0], c, [], 20, next);
    assert [c] + [] == [c];
    assert Steps(altStates, [0], [c], 20) == Settled(next);
    assert EmptyTurn(altStates, next, 0) == Halt;
    assert EmptyLoop(altStates, next, 0, 20) == Settled(next);
    if next == [4, 2] {
      assert altStates[next[0]].End?;
    } else {
      assert altStates[next[1]].End?;
    }
    assert FinalVerdict(altStates, next) == Accept;
  }

  /* ----- `a*` ----- */

  const starStates := [Start(Some(2)), Match(Literal('a'), Some(2)), Split(Some(1), Some(3)), End]

  lemma {:induction false} SimpleClosureBuild()
    ensures Build(P.Closure(a)) == Automaton(0, starStates)
  {
    var s1 := [Start(None), Open(Literal('a'))];
    assert GenFragment([Start(None)], a).0 == s1;
    JoinOne(s1 + [Split(Some(1), None)], 1, 2);
    var body := GenFragment([Start(None)], P.Closure(a));
    assert body.0 == [Start(None), Match(Literal('a'), Some(2)), Split(Some(1), None)];
    assert body.1 == Fragment(2, [2]);
    JoinOne(Join(body.0, 0, 2) + [End], 2, 3);
  }

  /** `NFA::from("a*")` builds exactly this automaton. */
  lemma {:induction false} SimpleClosureFrom()
    ensures FromPattern("a*") == Ok(Automaton(0, starStates))
  {
    assert L.LexEach("a*") == P.Print(P.Closure(a), 0);
    PrintedPattern("a*", P.Closure(a));
    SimpleClosureBuild();
  }

  /** One `a` read at the Split of the star: the Split opens into the Match
      and the End, the Match moves back to the Split, and the End is
      removed. */
  lemma {:induction false} StarTurn(fuel: nat)
    requires fuel >= 3
    ensures HelperLoop(starStates, 'a', [2], 0, 1, fuel) == Settled([2])
  {
    assert SwapRemove([2] + [1], 0) + [3] == [1, 3];
    assert SwapRemove([1, 3] + [2], 0) == [2, 3];
    assert Remove([2, 3], 1) == [2];
    LoopTurn(starStates, 'a', [2], 0, 1, fuel, Continue([1, 3], 0, 2));
    LoopTurn(starStates, 'a', [1, 3], 0, 2, fuel - 1, Continue([2, 3], 1, 2));
    LoopTurn(starStates, 'a', [2, 3], 1, 2, fuel - 2, Continue([2], 2, 2));
  }

  /** After any run of `a`s the list is back at the Split of the star. */
  lemma {:induction false} StarSteps(w: seq<char>, fuel: nat)
    requires forall k :: 0 <= k < |w| ==> w[k] == 'a'
    requires fuel >= 3
    ensures Steps(starStates, [2], w, fuel) == Settled([2])
    decreases |w|
  {
    if w != [] {
      StarTurn(fuel);
      StarSteps(w[1..], fuel);
    }
  }

  /** `a*` accepts every word made only of `a`s, the empty word included. */
  lemma {:induction false} StarAcceptsAs(w: seq<char>, fuel: nat)
    requires forall k :: 0 <= k < |w| ==> w[k] == 'a'
    requires fuel >= 4
    ensures Run(starStates, 0, w, fuel) == Accept
  {
    assert SwapRemove([0] + [2], 0) == [2];
    assert SwapRemove([2] + [1], 0) + [3] == [1, 3];
    if w != [] {
      assert HelperLoop(starStates, 'a', [0], 0, 1, fuel)
          == HelperLoop(starStates, 'a', [2], 0, 1, fuel - 1);
      StarTurn(fuel - 1);
      StarSteps(w[1..], fuel);
    }
    var last := if w == [] then [0] else [2];
    assert EmptyLoop(starStates, [2], 0, fuel - 1) == EmptyLoop(starStates, [1, 3], 1, fuel - 2) == Settled([1, 3]);
    assert EmptyLoop(starStates, [2], 0, fuel) == EmptyLoop(starStates, [1, 3], 1, fuel - 1) == Settled([1, 3]);
    assert EmptyLoop(starStates, [0], 0, fuel) == EmptyLoop(starStates, [2], 0, fuel - 1);
    assert EmptyLoop(starStates, last, 0, fuel) == Settled([1, 3]);
    assert starStates[[1, 3][1]].End?;
  }

  /** The verdicts the unit test of `a*` expects, on its automaton. */
  lemma {:induction false} SimpleClosureVerdicts()
    ensures Run(starStates, 0, "", 20) == Accept
    ensures Run(starStates, 0, "a", 20) == Accept
    ensures Run(starStates, 0, "aaaaaaa", 20) == Accept
  {
    StarAcceptsAs("", 20);
    StarAcceptsAs("a", 20);
    StarAcceptsAs("aaaaaaa", 20);
  }

  /** The unit test of `NFA::from("a*")`, from the pattern string. */
  lemma {:induction false} SimpleClosureTest()
    ensures FromPattern("a*").Ok?
    ensures Accepts(FromPattern("a*").value, "", 20) == Accept
    ensures Accepts(FromPattern("a*").value, "a", 20) == Accept
    ensures Accepts(FromPattern("a*").value, "aaaaaaa", 20) == Accept
  {
    SimpleClosureFrom();
    SimpleClosureVerdicts();
  }

  /* ----- `a.c` ----- */

  const anyInMiddle := P.Catenation(a, P.Catenation(P.AnyChar, P.Char('c')))

  const anyInMiddleStates := [Start(Some(1)), Match(Literal('a'), Some(2)), Match(Any, Some(3)),
                              Match(Literal('c'), Some(4)), End]

  /** The fragment of `a.c` after any states `s`. */
  lemma {:induction false} CatAndAnyFragment(s: seq<State>)
    ensures GenFragment(s, anyInMiddle)
         == (s + ([Match(Literal('a'), Some(|s| + 1))] + ([Match(Any, Some(|s| + 2))] + [Open(Literal('c'))])),
             Fragment(|s|, [|s| + 2]))
  {
    var s1 := s + [Open(Literal('a'))];
    LeafFragment(s1 + [Open(Any)], P.Char('c'));
    CatLeafChain(s1, P.AnyChar, P.Char('c'), [Open(Literal('c'))], |s| + 2, [|s| + 2]);
    CatLeafChain(s, a, anyInMiddle.right, [Match(Any, Some(|s| + 2))] + [Open(Literal('c'))], |s| + 1, [|s| + 2]);
  }

  /** The arena of `a.c` once the fragment is built, and once it is wired. */
  lemma {:induction false} CatAndAnyArena(s0: seq<State>, s1: seq<State>)
    requires s0 == [Start(None)]
    requires s1 == [Start(None), Match(Literal('a'), Some(2)), Match(Any, Some(3)), Open(Literal('c'))]
    ensures s0 + ([Match(Literal('a'), Some(2))] + ([Match(Any, Some(3))] + [Open(Literal('c'))])) == s1
    ensures JoinAll(Join(s1, 0, 1) + [End], [3], 4) == anyInMiddleStates
  {
    JoinOne(Join(s1, 0, 1) + [End], 3, 4);
  }

  lemma {:induction false} CatAndAnyBuild()
    ensures Build(anyInMiddle) == Automaton(0, anyInMiddleStates)
  {
    var s0 := [Start(None)];
    var s1 := [Start(None), Match(Literal('a'), Some(2)), Match(Any, Some(3)), Open(Literal('c'))];
    CatAndAnyArena(s0, s1);
    CatAndAnyFragment(s0);
    BuildOfBody(anyInMiddle, s1, Fragment(1, [3]));
  }

  /** `NFA::from("a.c")` builds exactly this automaton. */
  lemma {:induction false} CatAndAnyFrom()
    ensures FromPattern("a.c") == Ok(Automaton(0, anyInMiddleStates))
  {
    assert L.LexEach("a.c") == P.Print(anyInMiddle, 0);
    PrintedPattern("a.c", anyInMiddle);
    CatAndAnyBuild();
  }

  /** A pass over a list holding one Match that admits `c`: the Match
      moves on to its successor. */
  lemma {:induction false} MatchStep(states: seq<State>, c: char, j: nat, fuel: nat)
    requires j < |states| && fuel >= 1
    requires states[j].Match? && states[j].out.Some? && Admits(states[j].ch, c)
    ensures HelperLoop(states, c, [j], 0, 1, fuel) == Settled([states[j].out.value])
  {
    var n := states[j].out.value;
    assert SwapRemove([j] + [n], 0) == [n];
    LoopTurn(states, c, [j], 0, 1, fuel, Continue([n], 1, 1));
  }

  /** `a.c` accepts `a`, then any character, then `c`. */
  lemma {:induction false} CatAndAnyAccepts(x: char, fuel: nat)
    requires fuel >= 2
    ensures Run(anyInMiddleStates, 0, ['a', x, 'c'], fuel) == Accept
  {
    var input := ['a', x, 'c'];
    assert SwapRemove([0] + [1], 0) == [1];
    LoopTurn(anyInMiddleStates, 'a', [0], 0, 1, fuel, Continue([1], 0, 1));
    MatchStep(anyInMiddleStates, 'a', 1, fuel - 1);
    StepOne(anyInMiddleStates, [0], input, fuel, [2]);
    MatchStep(anyInMiddleStates, x, 2, fuel);
    StepOne(anyInMiddleStates, [2], input[1..], fuel, [3]);
    MatchStep(anyInMiddleStates, 'c', 3, fuel);
    StepOne(anyInMiddleStates, [3], input[1..][1..], fuel, [4]);
    assert input[1..][1..][1..] == [];
    assert EmptyLoop(anyInMiddleStates, [4], 0, fuel) == Settled([4]);
    assert anyInMiddleStates[[4][0]].End?;
  }

  /** The verdicts the unit test of `a.c` expects, on its automaton. */
  lemma {:induction false} CatAndAnyVerdicts()
    ensures Run(anyInMiddleStates, 0, "abc", 20) == Accept
    ensures Run(anyInMiddleStates, 0, "a9c", 20) == Accept
  {
    CatAndAnyAccepts('b', 20);
    assert "abc" == ['a', 'b', 'c'];
    CatAndAnyAccepts('9', 20);
    assert "a9c" == ['a', '9', 'c'];
  }

  /** The unit test of `NFA::from("a.c")`, from the pattern string. */
  lemma {:induction false} CatAndAnyTest()
    ensures FromPattern("a.c").Ok?
    ensures Accepts(FromPattern("a.c").value, "abc", 20) == Accept
    ensures Accepts(FromPattern("a.c").value, "a9c", 20) == Accept
  {
    CatAndAnyFrom();
    CatAndAnyVerdicts();
  }

  /* ----- `a....` ----- */

  const fiveLetters := P.Catenation(a, anyQuad)

  const fiveLetterStates := [Start(Some(1)), Match(Literal('a'), Some(2)), Match(Any, Some(3)),
                             Match(Any, Some(4)), Match(Any, Some(5)), Match(Any, Some(6)), End]

  const anyPair := P.Catenation(P.AnyChar, P.AnyChar)
  const anyTriple := P.Catenation(P.AnyChar, anyPair)
  const anyQuad := P.Catenation(P.AnyChar, anyTriple)

  /** The fragment of `..` after any states `s`. */
  lemma {:induction false} AnyPairFragment(s: seq<State>)
    ensures GenFragment(s, anyPair)
         == (s + ([Match(Any, Some(|s| + 1))] + [Open(Any)]), Fragment(|s|, [|s| + 1]))
  {
    LeafFragment(s + [Open(Any)], P.AnyChar);
    CatLeafChain(s, P.AnyChar, P.AnyChar, [Open(Any)], |s| + 1, [|s| + 1]);
  }

  /** The fragment of `...` after any states `s`. */
  lemma {:induction false} AnyTripleFragment(s: seq<State>)
    ensures GenFragment(s, anyTriple)
         == (s + ([Match(Any, Some(|s| + 1))] + ([Match(Any, Some(|s| + 2))] + [Open(Any)])),
             Fragment(|s|, [|s| + 2]))
  {
    AnyPairFragment(s + [Open(Any)]);
    CatLeafChain(s, P.AnyChar, anyPair, [Match(Any, Some(|s| + 2))] + [Open(Any)], |s| + 1, [|s| + 2]);
  }

  /** The fragment of `....` after any states `s`. */
  lemma {:induction false} AnyQuadFragment(s: seq<State>)
    ensures GenFragment(s, anyQuad)
         == (s + ([Match(Any, Some(|s| + 1))] + ([Match(Any, Some(|s| + 2))] + ([Match(Any, Some(|s| + 3))] + [Open(Any)]))),
             Fragment(|s|, [|s| + 3]))
  {
    AnyTripleFragment(s + [Open(Any)]);
    CatLeafChain(s, P.AnyChar, anyTriple, [Match(Any, Some(|s| + 2))] + ([Match(Any, Some(|s| + 3))] + [Open(Any)]), |s| + 1, [|s| + 3]);
  }

  /** The fragment of `a....` after any states `s`: a chain of Match
      states, each bound to the next, the last one loose. */
  lemma {:induction false} FiveLetterFragment(s: seq<State>)
    ensures GenFragment(s, fiveLetters)
         == (s + ([Match(Literal('a'), Some(|s| + 1))] + ([Match(Any, Some(|s| + 2))]
              + ([Match(Any, Some(|s| + 3))] + ([Match(Any, Some(|s| + 4))] + [Open(Any)])))),
             Fragment(|s|, [|s| + 4]))
  {
    AnyQuadFragment(s + [Open(Literal('a'))]);
    CatLeafChain(s, a, anyQuad,
                 [Match(Any, Some(|s| + 2))] + ([Match(Any, Some(|s| + 3))] + ([Match(Any, Some(|s| + 4))] + [Open(Any)])),
                 |s| + 1, [|s| + 4]);
  }

  /** The arena of `a....` once the fragment is built, and once it is
      wired. */
  lemma {:induction false} FiveLetterArena(s0: seq<State>, s1: seq<State>)
    requires s0 == [Start(None)]
    requires s1 == [Start(None), Match(Literal('a'), Some(2)), Match(Any, Some(3)), Match(Any, Some(4)),
                    Match(Any, Some(5)), Open(Any)]
    ensures s0 + ([Match(Literal('a'), Some(2))] + ([Match(Any, Some(3))]
              + ([Match(Any, Some(4))] + ([Match(Any, Some(5))] + [Open(Any)])))) == s1
    ensures JoinAll(Join(s1, 0, 1) + [End], [5], 6) == fiveLetterStates
  {
    JoinOne(Join(s1, 0, 1) + [End], 5, 6);
  }

  lemma {:induction false} FiveLetterBuild()
    ensures Build(fiveLetters) == Automaton(0, fiveLetterStates)
  {
    var s0 := [Start(None)];
    var s1 := [Start(None), Match(Literal('a'), Some(2)), Match(Any, Some(3)), Match(Any, Some(4)),
               Match(Any, Some(5)), Open(Any)];
    FiveLetterArena(s0, s1);
    FiveLetterFragment(s0);
    BuildOfBody(fiveLetters, s1, Fragment(1, [5]));
  }

  /** `NFA::from("a....")` builds exactly this automaton. */
  lemma {:induction false} FiveLetterFrom()
    ensures FromPattern("a....") == Ok(Automaton(0, fiveLetterStates))
  {
    assert L.LexEach("a....") == P.Print(fiveLetters, 0);
    PrintedPattern("a....", fiveLetters);
    FiveLetterBuild();
  }

  /** From the state after `a`, each further character moves one state on;
      one character past the End removes it and leaves the list empty. */
  lemma {:induction false} FiveLetterTail(w: seq<char>, k: nat, fuel: nat)
    requires 2 <= k <= 6 && fuel >= 1
    ensures |w| == 6 - k ==> Steps(fiveLetterStates, [k], w, fuel) == Settled([6])
    ensures |w| == 7 - k ==> Steps(fiveLetterStates, [k], w, fuel) == Settled([])
    decreases |w|
  {
    if w != [] && |w| <= 7 - k {
      if k < 6 {
        MatchStep(fiveLetterStates, w[0], k, fuel);
        StepOne(fiveLetterStates, [k], w, fuel, [k + 1]);
        FiveLetterTail(w[1..], k + 1, fuel);
      } else {
        assert Remove([6], 0) == [];
        LoopTurn(fiveLetterStates, w[0], [6], 0, 1, fuel, Continue([], 1, 1));
        StepOne(fiveLetterStates, [6], w, fuel, []);
      }
    }
  }

  /** `a....` accepts every five-character word that starts with `a`, and
      rejects every such word followed by one more character. */
  lemma {:induction false} FiveLetterWords(w: seq<char>, fuel: nat)
    requires |w| >= 1 && w[0] == 'a' && fuel >= 2
    ensures |w| == 5 ==> Run(fiveLetterStates, 0, w, fuel) == Accept
    ensures |w| == 6 ==> Run(fiveLetterStates, 0, w, fuel) == Reject
  {
    assert SwapRemove([0] + [1], 0) == [1];
    assert SwapRemove([1] + [2], 0) == [2];
    assert HelperLoop(fiveLetterStates, 'a', [0], 0, 1, fuel)
        == HelperLoop(fiveLetterStates, 'a', [1], 0, 1, fuel - 1)
        == HelperLoop(fiveLetterStates, 'a', [2], 1, 1, fuel - 2);
    FiveLetterTail(w[1..], 2, fuel);
    if |w| == 5 {
      assert EmptyLoop(fiveLetterStates, [6], 0, fuel) == Settled([6]);
      assert fiveLetterStates[[6][0]].End?;
    }
  }

  /** Without an `a` the list never leaves the Match for `a`. */
  lemma {:induction false} FiveLetterNoA(w: seq<char>, fuel: nat)
    requires 'a' !in w && fuel >= 1
    ensures Steps(fiveLetterStates, [1], w, fuel) == Settled([1])
    decreases |w|
  {
    if w != [] {
      assert HelperLoop(fiveLetterStates, w[0], [1], 0, 1, fuel)
          == HelperLoop(fiveLetterStates, w[0], [1], 1, 1, fuel - 1);
      assert 'a' !in w[1..] by {
        assert forall x :: x in w[1..] ==> x in w;
      }
      FiveLetterNoA(w[1..], fuel);
    }
  }

  /** `a....` rejects every non-empty word without an `a`. */
  lemma {:induction false} FiveLetterRejectsWithoutA(w: seq<char>, fuel: nat)
    requires w != [] && 'a' !in w && fuel >= 2
    ensures Run(fiveLetterStates, 0, w, fuel) == Reject
  {
    assert w[0] != 'a';
    assert SwapRemove([0] + [1], 0) == [1];
    assert HelperLoop(fiveLetterStates, w[0], [0], 0, 1, fuel)
        == HelperLoop(fiveLetterStates, w[0], [1], 0, 1, fuel - 1)
        == HelperLoop(fiveLetterStates, w[0], [1], 1, 1, fuel - 2);
    assert 'a' !in w[1..] by {
      assert forall x :: x in w[1..] ==> x in w;
    }
    FiveLetterNoA(w[1..], fuel);
    assert EmptyLoop(fiveLetterStates, [1], 0, fuel) == Settled([1]);
  }

  /** The verdicts the unit test of `a....` expects, on its automaton. */
  lemma {:induction false} FiveLetterVerdicts()
    ensures Run(fiveLetterStates, 0, "apple", 20) == Accept
    ensures Run(fiveLetterStates, 0, "apples", 20) == Reject
    ensures Run(fiveLetterStates, 0, "ankle", 20) == Accept
    ensures Run(fiveLetterStates, 0, "butts", 20) == Reject
  {
    FiveLetterWords("apple", 20);
    FiveLetterWords("apples", 20);
    FiveLetterWords("ankle", 20);
    FiveLetterRejectsWithoutA("butts", 20);
  }

  /** The unit test of `NFA::from("a....")`, from the pattern string. */
  lemma {:induction false} FiveLetterTest()
    ensures FromPattern("a....").Ok?
    ensures Accepts(FromPattern("a....").value, "apple", 20) == Accept
    ensures Accepts(FromPattern("a....").value, "apples", 20) == Reject
    ensures Accepts(FromPattern("a....").value, "ankle", 20) == Accept
    ensures Accepts(FromPattern("a....").value, "butts", 20) == Reject
  {
    FiveLetterFrom();
    FiveLetterVerdicts();
  }

  /* ----- `s(.)*e` ----- */

  const starThenE := P.Catenation(P.Closure(P.AnyChar), P.Char('e'))
  const sThenE := P.Catenation(P.Char('s'), starThenE)

  const sThenEStates := [Start(Some(1)), Match(Literal('s'), Some(3)), Match(Any, Some(3)),
                         Split(Some(2), Some(4)), Match(Literal('e'), Some(5)), End]

  /** Binding the first of two states that follow `s`. */
  lemma {:induction false} BindFirst(s: seq<State>, y: State, z: State, to: nat)
    ensures JoinAll((s + [y]) + [z], [|s|], to) == s + ([Bound(y, to)] + [z])
  {
    JoinOne((s + [y]) + [z], |s|, to);
    ReplaceAt(s, y, Bound(y, to), [z]);
  }

  /** The fragment of `(.)*` after any states `s`: the Match for any
      character, bound back to the Split that enters it. */
  lemma {:induction false} StarAnyFragment(s: seq<State>)
    ensures GenFragment(s, P.Closure(P.AnyChar))
         == (s + ([Match(Any, Some(|s| + 1))] + [Split(Some(|s|), None)]), Fragment(|s| + 1, [|s| + 1]))
  {
    LeafFragment(s, P.AnyChar);
    CloHelperOf(s, P.AnyChar, s + [Open(Any)], Fragment(|s|, [|s|]));
    BindFirst(s, Open(Any), Split(Some(|s|), None), |s| + 1);
  }

  /** `cat_helper` on `(.)*e` after any states `s`, before the Split's
      loose branch is bound. */
  lemma {:induction false} StarThenEUnbound(s: seq<State>)
    ensures GenFragment(s, starThenE)
         == (JoinAll((s + ([Match(Any, Some(|s| + 1))] + [Split(Some(|s|), None)])) + [Open(Literal('e'))], [|s| + 1], |s| + 2),
             Fragment(|s| + 1, [|s| + 2]))
  {
    var s1 := s + ([Match(Any, Some(|s| + 1))] + [Split(Some(|s|), None)]);
    StarAnyFragment(s);
    LeafFragment(s1, P.Char('e'));
    CatHelperOf(s, P.Closure(P.AnyChar), P.Char('e'), s1, Fragment(|s| + 1, [|s| + 1]),
                s1 + [Open(Literal('e'))], Fragment(|s| + 2, [|s| + 2]));
  }

  /** The fragment of `(.)*e` after any states `s`: the Split's second
      branch leads to the Match for `e`. */
  lemma {:induction false} StarThenEFragment(s: seq<State>)
    ensures GenFragment(s, starThenE)
         == (s + ([Match(Any, Some(|s| + 1))] + ([Split(Some(|s|), Some(|s| + 2))] + [Open(Literal('e'))])),
             Fragment(|s| + 1, [|s| + 2]))
  {
    StarThenEUnbound(s);
    BindSecond(s, Match(Any, Some(|s| + 1)), Split(Some(|s|), None), Open(Literal('e')), |s| + 2);
  }

  /** Binding the second of three states that follow `s`. */
  lemma {:induction false} BindSecond(s: seq<State>, x: State, y: State, z: State, to: nat)
    ensures JoinAll((s + ([x] + [y])) + [z], [|s| + 1], to) == s + ([x] + ([Bound(y, to)] + [z]))
  {
    JoinOne((s + ([x] + [y])) + [z], |s| + 1, to);
    ReplaceSecond(s, x, y, z, Bound(y, to));
  }

  /** Rewiring the second of three states that follow `s`. */
  lemma {:induction false} ReplaceSecond(s: seq<State>, x: State, y: State, z: State, y': State)
    ensures ((s + ([x] + [y])) + [z])[|s| + 1 := y'] == s + ([x] + ([y'] + [z]))
  {
  }

  /** The fragment of `s(.)*e` after any states `s`. */
  lemma {:induction false} SThenEFragment(s: seq<State>)
    ensures GenFragment(s, sThenE)
         == (s + ([Match(Literal('s'), Some(|s| + 2))] + ([Match(Any, Some(|s| + 2))]
              + ([Split(Some(|s| + 1), Some(|s| + 3))] + [Open(Literal('e'))]))),
             Fragment(|s|, [|s| + 3]))
  {
    StarThenEFragment(s + [Open(Literal('s'))]);
    CatLeafChain(s, P.Char('s'), starThenE,
                 [Match(Any, Some(|s| + 2))] + ([Split(Some(|s| + 1), Some(|s| + 3))] + [Open(Literal('e'))]),
                 |s| + 2, [|s| + 3]);
  }

  /** The arena of `s(.)*e` once the fragment is built, and once it is
      wired. */
  lemma {:induction false} SThenEArena(s0: seq<State>, s1: seq<State>)
    requires s0 == [Start(None)]
    requires s1 == [Start(None), Match(Literal('s'), Some(3)), Match(Any, Some(3)),
                    Split(Some(2), Some(4)), Open(Literal('e'))]
    ensures s0 + ([Match(Literal('s'), Some(3))] + ([Match(Any, Some(3))]
              + ([Split(Some(2), Some(4))] + [Open(Literal('e'))]))) == s1
    ensures JoinAll(Join(s1, 0, 1) + [End], [4], 5) == sThenEStates
  {
    JoinOne(Join(s1, 0, 1) + [End], 4, 5);
  }

  lemma {:induction false} CatAndClosureBuild()
    ensures Build(sThenE) == Automaton(0, sThenEStates)
  {
    var s0 := [Start(None)];
    var s1 := [Start(None), Match(Literal('s'), Some(3)), Match(Any, Some(3)),
               Split(Some(2), Some(4)), Open(Literal('e'))];
    SThenEArena(s0, s1);
    SThenEFragment(s0);
    BuildOfBody(sThenE, s1, Fragment(1, [4]));
  }

  /** The parenthesised star `(.)*`, followed by `e`: the group parses to
      its inner tree, and the star applies to it. */
  lemma {:induction false} GroupedStar(ts: P.Tokens)
    requires ts == [L.LParen, L.AnyChar, L.RParen, L.KleeneStar, L.Char('e')]
    ensures P.ParseClosure(ts) == Ok((P.Closure(P.AnyChar), ts[4..]))
  {
    P.RegExprParsesPrinted(P.AnyChar, ts[2..]);
    assert ts[1..] == P.Print(P.AnyChar, 0) + ts[2..];
    assert ts[2..][1..] == ts[3..];
    assert P.ParseAtom(ts) == Ok((P.AnyChar, ts[3..]));
    assert ts[3..][1..] == ts[4..];
  }

  lemma {:induction false} GroupedStarThenE(ts: P.Tokens)
    requires ts == [L.LParen, L.AnyChar, L.RParen, L.KleeneStar, L.Char('e')]
    ensures P.ParseCatenation(ts) == Ok((starThenE, []))
  {
    GroupedStar(ts);
    var last := ts[4..];
    assert last == [L.Char('e')] && last[1..] == [];
    assert P.ParseAtom(last) == Ok((P.Char('e'), []));
    assert P.ParseClosure(last) == Ok((P.Char('e'), []));
    assert P.ParseCatenation(last) == Ok((P.Char('e'), []));
  }

  /** The tokens of `s(.)*e` parse to `s` followed by the star and `e`; the
      parentheses leave no node of their own. */
  lemma {:induction false} SThenETokens(ts: P.Tokens)
    requires ts == [L.Char('s'), L.LParen, L.AnyChar, L.RParen, L.KleeneStar, L.Char('e')]
    ensures P.Parse(ts) == Ok(sThenE)
  {
    GroupedStarThenE(ts[1..]);
    assert P.ParseClosure(ts) == Ok((P.Char('s'), ts[1..]));
    assert P.ParseCatenation(ts) == Ok((sThenE, []));
    assert P.ParseRegExpr(ts) == Ok((sThenE, []));
  }

  /** `NFA::from("s(.)*e")` builds exactly this automaton. */
  lemma {:induction false} CatAndClosureFrom()
    ensures FromPattern("s(.)*e") == Ok(Automaton(0, sThenEStates))
  {
    var ts := [L.Char('s'), L.LParen, L.AnyChar, L.RParen, L.KleeneStar, L.Char('e')];
    var p := "s(.)*e";
    assert forall k :: 0 <= k < |p| ==> !L.IsWhitespace(p[k]);
    assert L.LexEach(p) == ts;
    SThenETokens(ts);
    LexedPattern(p, ts, sThenE);
    CatAndClosureBuild();
  }

  /** `k` copies of the id `x`. */
  function Repeat(x: nat, k: nat): (r: seq<nat>)
    ensures |r| == k && forall j :: 0 <= j < k ==> r[j] == x
  {
    seq(k, _ => x)
  }

  /** A character other than `e` leaves every Match for `e` where it is. */
  lemma {:induction false} SThenEMismatches(c: char, list: seq<nat>, i: nat, fuel: nat)
    requires c != 'e' && i <= |list| && fuel >= |list| - i
    requires forall j :: i <= j < |list| ==> list[j] == 4
    ensures HelperLoop(sThenEStates, c, list, i, |list|, fuel) == Settled(list)
    decreases |list| - i
  {
    if i < |list| {
      assert HelperLoop(sThenEStates, c, list, i, |list|, fuel)
          == HelperLoop(sThenEStates, c, list, i + 1, |list|, fuel - 1);
      SThenEMismatches(c, list, i + 1, fuel - 1);
    }
  }

  /** Moving the Match for `e` at `i` on to the End. */
  lemma {:induction false} SThenEOneMatch(list: seq<nat>, i: nat)
    requires i < |list| && list[i] == 4
    ensures HelperTurn(sThenEStates, 'e', list, i, |list|) == Continue(list[i := 5], i + 1, |list|)
  {
    assert SwapRemove(list + [5], i) == list[i := 5];
  }

  lemma {:induction false} PrefixThenFives(list: seq<nat>, i: nat)
    requires i < |list|
    ensures list[i := 5][..i + 1] + Repeat(5, |list| - i - 1) == list[..i] + Repeat(5, |list| - i)
  {
  }

  /** An `e` moves every Match for `e` on to the End. */
  lemma {:induction false} SThenEMatches(list: seq<nat>, i: nat, fuel: nat)
    requires i <= |list| && fuel >= |list| - i
    requires forall j :: i <= j < |list| ==> list[j] == 4
    ensures HelperLoop(sThenEStates, 'e', list, i, |list|, fuel) == Settled(list[..i] + Repeat(5, |list| - i))
    decreases |list| - i
  {
    if i < |list| {
      var next := list[i := 5];
      SThenEOneMatch(list, i);
      LoopTurn(sThenEStates, 'e', list, i, |list|, fuel, Continue(next, i + 1, |list|));
      SThenEMatches(next, i + 1, fuel - 1);
      PrefixThenFives(list, i);
    } else {
      assert list[..i] + Repeat(5, 0) == list;
    }
  }

  /** After `s`, the Split opens into the Match for any character and the
      Match for `e`, which goes to the back of the list. */
  lemma {:induction false} SThenESplitTurn(c: char, k: nat)
    ensures HelperTurn(sThenEStates, c, [3] + Repeat(4, k), 0, k + 1)
         == Continue([2] + Repeat(4, k + 1), 0, k + 2)
  {
    var list0 := [3] + Repeat(4, k);
    assert SwapRemove(list0 + [2], 0) == [2] + Repeat(4, k);
    assert [2] + Repeat(4, k) + [4] == [2] + Repeat(4, k + 1);
  }

  /** The Match for any character moves back to the Split. */
  lemma {:induction false} SThenEAnyTurn(c: char, k: nat)
    ensures HelperTurn(sThenEStates, c, [2] + Repeat(4, k + 1), 0, k + 2)
         == Continue([3] + Repeat(4, k + 1), 1, k + 2)
  {
    var list1 := [2] + Repeat(4, k + 1);
    assert SwapRemove(list1 + [3], 0) == [3] + Repeat(4, k + 1);
  }

  /** The first two turns of a pass after `s`: the Split opens, and the
      Match for any character moves back to it. */
  lemma {:induction false} SThenEOpen(c: char, k: nat, fuel: nat)
    requires fuel >= 2
    ensures HelperLoop(sThenEStates, c, [3] + Repeat(4, k), 0, k + 1, fuel)
         == HelperLoop(sThenEStates, c, [3] + Repeat(4, k + 1), 1, k + 2, fuel - 2)
  {
    var list0 := [3] + Repeat(4, k);
    var list1 := [2] + Repeat(4, k + 1);
    var list2 := [3] + Repeat(4, k + 1);
    SThenESplitTurn(c, k);
    LoopTurn(sThenEStates, c, list0, 0, k + 1, fuel, Continue(list1, 0, k + 2));
    SThenEAnyTurn(c, k);
    LoopTurn(sThenEStates, c, list1, 0, k + 2, fuel - 1, Continue(list2, 1, k + 2));
  }

  /** A character other than `e` read after `s`: the Split and the Match
      for any character turn over, and one more Match for `e` waits. */
  lemma {:induction false} SThenEOther(c: char, k: nat, fuel: nat)
    requires c != 'e' && fuel >= k + 3
    ensures HelperLoop(sThenEStates, c, [3] + Repeat(4, k), 0, k + 1, fuel) == Settled([3] + Repeat(4, k + 1))
  {
    SThenEOpen(c, k, fuel);
    SThenEReadsOther(c, k, fuel - 2);
  }

  /** An `e` read after `s`: every waiting Match for `e`, and the new one,
      moves on to the End. */
  lemma {:induction false} SThenEOnE(k: nat, fuel: nat)
    requires fuel >= k + 3
    ensures HelperLoop(sThenEStates, 'e', [3] + Repeat(4, k), 0, k + 1, fuel) == Settled([3] + Repeat(5, k + 1))
  {
    SThenEOpen('e', k, fuel);
    SThenEReadsE(k, fuel - 2);
  }

  /** The list after `s` and `k` more characters: the Split, then `k`
      Matches for `e`. */
  lemma {:induction false} SThenEFours(k: nat)
    ensures |[3] + Repeat(4, k)| == k + 1
    ensures forall j :: 1 <= j < k + 1 ==> ([3] + Repeat(4, k))[j] == 4
  {
  }

  /** The rest of a pass on `e`: every Match for `e` moves on to the End. */
  lemma {:induction false} SThenEReadsE(k: nat, fuel: nat)
    requires fuel >= k + 1
    ensures HelperLoop(sThenEStates, 'e', [3] + Repeat(4, k + 1), 1, k + 2, fuel) == Settled([3] + Repeat(5, k + 1))
  {
    var list := [3] + Repeat(4, k + 1);
    SThenEFours(k + 1);
    SThenEMatches(list, 1, fuel);
    assert list[..1] == [3];
  }

  /** The rest of a pass on another character: nothing moves. */
  lemma {:induction false} SThenEReadsOther(c: char, k: nat, fuel: nat)
    requires c != 'e' && fuel >= k + 1
    ensures HelperLoop(sThenEStates, c, [3] + Repeat(4, k + 1), 1, k + 2, fuel) == Settled([3] + Repeat(4, k + 1))
  {
    SThenEFours(k + 1);
    SThenEMismatches(c, [3] + Repeat(4, k + 1), 1, fuel);
  }

  /** The characters between `s` and the final `e`. */
  lemma {:induction false} SThenEWord(w: seq<char>, k: nat, fuel: nat)
    requires forall j :: 0 <= j < |w| ==> w[j] != 'e'
    requires fuel >= k + |w| + 3
    ensures Steps(sThenEStates, [3] + Repeat(4, k), w, fuel) == Settled([3] + Repeat(4, k + |w|))
    decreases |w|
  {
    if w != [] {
      SThenEFours(k);
      SThenEOther(w[0], k, fuel);
      StepOne(sThenEStates, [3] + Repeat(4, k), w, fuel, [3] + Repeat(4, k + 1));
      SThenEWord(w[1..], k + 1, fuel);
    }
  }

  /** The final `e`. */
  lemma {:induction false} SThenELast(k: nat, fuel: nat)
    requires fuel >= k + 3
    ensures Steps(sThenEStates, [3] + Repeat(4, k), ['e'], fuel) == Settled([3] + Repeat(5, k + 1))
  {
    SThenEFours(k);
    SThenEOnE(k, fuel);
    StepCons(sThenEStates, [3] + Repeat(4, k), 'e', [], fuel, [3] + Repeat(5, k + 1));
    assert ['e'] + [] == ['e'];
  }

  /** The character `s` read at the start. */
  lemma {:induction false} SThenEStart(c: char, fuel: nat)
    requires fuel >= 2
    ensures c == 's' ==> HelperLoop(sThenEStates, c, [0], 0, 1, fuel) == Settled([3])
  {
    if c == 's' {
      assert SwapRemove([0] + [1], 0) == [1];
      assert SwapRemove([1] + [3], 0) == [3];
      LoopTurn(sThenEStates, c, [0], 0, 1, fuel, Continue([1], 0, 1));
      LoopTurn(sThenEStates, c, [1], 0, 1, fuel - 1, Continue([3], 1, 1));
    }
  }

  /** Reading `s`, a word without an `e`, and `e` leaves the Split and
      one End per character after `s`. */
  lemma {:induction false} SThenEReads(w: seq<char>, fuel: nat)
    requires 'e' !in w && fuel >= |w| + 3
    ensures Steps(sThenEStates, [0], ['s'] + w + ['e'], fuel) == Settled([3] + Repeat(5, |w| + 1))
  {
    var input := ['s'] + w + ['e'];
    SThenEStart('s', fuel);
    StepOne(sThenEStates, [0], input, fuel, [3]);
    assert input[1..] == w + ['e'];
    assert [3] + Repeat(4, 0) == [3];
    forall j | 0 <= j < |w|
      ensures w[j] != 'e'
    {
      assert w[j] in w;
    }
    SThenEWord(w, 0, fuel);
    SThenELast(|w|, fuel);
    StepsAppend(sThenEStates, [3], w, ['e'], fuel);
  }

  /** Once the input is used up, `empty_str` opens the Split, which puts
      the Match for `e` at the back and an End second. */
  lemma {:induction false} SThenEFinal(m: nat, fuel: nat)
    requires m > 0 && fuel >= 2
    ensures EmptyLoop(sThenEStates, [3] + Repeat(5, m), 0, fuel) == Settled([2] + Repeat(5, m) + [4])
    ensures FinalVerdict(sThenEStates, [2] + Repeat(5, m) + [4]) == Accept
  {
    var list := [3] + Repeat(5, m);
    assert SwapRemove(list + [2], 0) == [2] + Repeat(5, m);
    var last := [2] + Repeat(5, m) + [4];
    assert EmptyLoop(sThenEStates, list, 0, fuel) == EmptyLoop(sThenEStates, last, 1, fuel - 1);
    assert sThenEStates[last[1]].End?;
    assert AllIn(last, |sThenEStates|);
  }

  /** `s(.)*e` accepts `s`, then any word without an `e`, then `e`. */
  lemma {:induction false} SThenEAccepts(w: seq<char>, fuel: nat)
    requires 'e' !in w && fuel >= |w| + 3
    ensures Run(sThenEStates, 0, ['s'] + w + ['e'], fuel) == Accept
  {
    SThenEReads(w, fuel);
    SThenEFinal(|w| + 1, fuel);
  }

  /** The verdicts the unit test of `s(.)*e` expects, on its automaton. */
  lemma {:induction false} CatAndClosureVerdicts()
    ensures Run(sThenEStates, 0, "sunshine", 20) == Accept
    ensures Run(sThenEStates, 0, "sale", 20) == Accept
  {
    assert "sunshine" == ['s'] + "unshin" + ['e'];
    SThenEAccepts("unshin", 20);
    assert "sale" == ['s'] + "al" + ['e'];
    SThenEAccepts("al", 20);
  }

  /** The unit test of `NFA::from("s(.)*e")`, from the pattern string. */
  lemma {:induction false} CatAndClosureTest()
    ensures FromPattern("s(.)*e").Ok?
    ensures Accepts(FromPattern("s(.)*e").value, "sunshine", 20) == Accept
    ensures Accepts(FromPattern("s(.)*e").value, "sale", 20) == Accept
  {
    CatAndClosureFrom();
    CatAndClosureVerdicts();
  }

  /* ----- Reading past the end of the list ----- */

  /** On `a|b`, the `a` leaves the End in front of the Match for `b`; the
      `b` then removes the End, steps past it, and looks up index 1 of a
      list of one id. */
  lemma {:induction false} AltReadsA(fuel: nat)
    requires fuel >= 4
    ensures HelperLoop(altStates, 'a', [0], 0, 1, fuel) == Settled([4, 2])
  {
    assert SwapRemove([0] + [3], 0) == [3];
    assert SwapRemove([3] + [1], 0) == [1];
    assert SwapRemove([1, 2] + [4], 0) == [4, 2];
    LoopTurn(altStates, 'a', [0], 0, 1, fuel, Continue([3], 0, 1));
    LoopTurn(altStates, 'a', [3], 0, 1, fuel - 1, Continue([1, 2], 0, 2));
    LoopTurn(altStates, 'a', [1, 2], 0, 2, fuel - 2, Continue([4, 2], 1, 2));
    LoopTurn(altStates, 'a', [4, 2], 1, 2, fuel - 3, Continue([4, 2], 2, 2));
  }

  lemma {:induction false} AltPanicsOnB(fuel: nat)
    requires fuel >= 2
    ensures HelperLoop(altStates, 'b', [4, 2], 0, 2, fuel) == IndexPanic
  {
    assert Remove([4, 2], 0) == [2];
    LoopTurn(altStates, 'b', [4, 2], 0, 2, fuel, Continue([2], 1, 2));
  }

  lemma {:induction false} AltPanicsOnAb(fuel: nat)
    requires fuel >= 4
    ensures Run(altStates, 0, "ab", fuel) == Panic
  {
    AltReadsA(fuel);
    AltPanicsOnB(fuel);
    StepCons(altStates, [0], 'a', "b", fuel, [4, 2]);
    assert "ab" == ['a'] + "b";
  }

  /** On `s(.)*e`, a second `e` finds an End in front of a Match for `e`. */
  lemma {:induction false} SThenEPanicsOnSee(fuel: nat)
    requires fuel >= 4
    ensures Run(sThenEStates, 0, "see", fuel) == Panic
  {
    SThenEStart('s', fuel);
    assert [3] + Repeat(4, 0) == [3];
    SThenELast(0, fuel);
    assert [3] + Repeat(5, 1) == [3, 5];
    assert SwapRemove([3, 5] + [2], 0) == [2, 5];
    assert SwapRemove([2, 5, 4] + [3], 0) == [3, 5, 4];
    assert Remove([3, 5, 4], 1) == [3, 4];
    LoopTurn(sThenEStates, 'e', [3, 5], 0, 2, fuel, Continue([2, 5, 4], 0, 3));
    LoopTurn(sThenEStates, 'e', [2, 5, 4], 0, 3, fuel - 1, Continue([3, 5, 4], 1, 3));
    LoopTurn(sThenEStates, 'e', [3, 5, 4], 1, 3, fuel - 2, Continue([3, 4], 2, 3));
    assert HelperLoop(sThenEStates, 'e', [3, 5], 0, 2, fuel) == IndexPanic;
    assert "see" == ['s'] + ['e'] + ['e'];
    StepsAppend(sThenEStates, [0], ['s'] + ['e'], ['e'], fuel);
    StepsAppend(sThenEStates, [0], ['s'], ['e'], fuel);
    StepCons(sThenEStates, [0], 's', [], fuel, [3]);
  }

  /** `NFA::from("a|b").accepts("ab")` panics. */
  lemma {:induction false} AltPatternPanicsOnAb()
    ensures FromPattern("a|b").Ok? && Accepts(FromPattern("a|b").value, "ab", 20) == Panic
  {
    SimpleAltFrom();
    AltPanicsOnAb(20);
  }

  /** `NFA::from("s(.)*e").accepts("see")` panics. */
  lemma {:induction false} SThenEPatternPanicsOnSee()
    ensures FromPattern("s(.)*e").Ok? && Accepts(FromPattern("s(.)*e").value, "see", 20) == Panic
  {
    CatAndClosureFrom();
    SThenEPanicsOnSee(20);
  }
}
