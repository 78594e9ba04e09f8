# rustegrep core in Dafny

rustegrep is a small egrep-like regular-expression matcher. A pattern goes through three stages:

- The tokenizer turns the pattern's characters into tokens: `(`, `)`, `|`, `*`, `.`, and every other character as a literal. Blanks (space, tab, newline) are skipped.
- A recursive-descent parser turns the tokens into an abstract syntax tree. It has five node kinds: Alternation, Catenation, Closure, and the leaves Char and AnyChar.
- `NFA::from` builds a Thompson automaton from the tree, as an arena (a vector of states addressed by index): a Start state, Match states labelled by a literal or by any character, Split states, and one End state. `NFA::accepts` then simulates the automaton on an input string with a worklist of state ids.

This project models those three stages.

- **`Lexing`** (`tokenizer.dfy`). The tokenizer is a class: a cursor over the pattern, with one method per helper of the Rust iterator. `Next` is proved equal to the function `NextToken`. The lemma `TokenizeRoundTrip` states what the whole token stream is: one token per non-blank character, in order, each mapping back to its character.
- **`Parsing`** (`parser.dfy`). The parser is a set of functions. Each nonterminal takes the unread tokens and returns the tree together with the tokens it left unread. Each one is specified by:
  - its error cases;
  - how much it consumes;
  - an independent printer, `Print`, which it inverts (`ParsePrintRoundTrip`).
- **`Thompson`** (`nfa_build.dfy`). The construction is stated as functions over the arena. It carries two kinds of lemmas:
  - shape lemmas: every fragment is closed over its own states, and its loose ends are exactly its unbound states;
  - `BuildWellFormed`: every automaton `NFA::from` builds is well formed.
- **`Simulation`** (`nfa_run.dfy`). The loops of `accepts`, `accept_helper` and `empty_str` are stated as fuel-bounded functions. The verdict is one of Accept, Reject, Panic (an index out of bounds in Rust) or OutOfFuel.
- **`NfaEngine`** (`nfa_engine.dfy`). The class `Nfa` holds the `states` vector and the `start` index. Its methods grow and rewire the arena in place, and run the same loops with `while` statements. Each method is proved equal to the corresponding function of `Thompson` or `Simulation`.
- **`NfaExamples`** (`nfa_examples.dfy`). The unit tests of `accepts`, replayed on the model. For each test pattern it proves:
  - the exact automaton `NFA::from` builds from the test's pattern string, through the tokenizer, the parser and the construction;
  - the verdict on each test input;
  - where possible, the whole language the test samples, such as every word of `a`s for `a*`.

The tokenizer's unit tests are the methods at the end of `tokenizer.dfy`. Each runs the cursor on the test input and asserts the tokens the Rust test expects.

## Model

| member | source | states |
|---|---|---|
| Lexing.SourceChar | src/tokenizer.rs:9-17 | every token other than a literal stands for one of the five operator characters `( ) \| * .` |
| Lexing.TokenOf | src/tokenizer.rs:36-43 | the dispatch of `next` yields a token standing for the peeked character, and yields a literal exactly when that character is not an operator |
| Lexing.SkipWhitespace | src/tokenizer.rs:116-123 | `whitespace` stops at the first non-blank character at or after the position, or at the end, and everything it passes is a space, tab or newline |
| Lexing.NextToken | src/tokenizer.rs:34-47 | `next` returns `None` exactly when only blanks remain, and then the cursor is at the end; otherwise it returns the token of the first non-blank character and moves past it |
| Lexing.NoneIsFinal | src/tokenizer.rs:34-47 | once `next` has returned `None`, it returns `None` again and the cursor stays at the end |
| Lexing.TokenizeFrom | src/tokenizer.rs:34-47 | the tokens `next` yields from a position until its first `None`; `Lexing.TokenizeFromStripped` states which tokens these are |
| Lexing.Tokenize | src/tokenizer.rs:24-47 | the token stream a new cursor yields over a whole pattern; `Lexing.TokenizeRoundTrip` states which tokens these are |
| Lexing.TokenizeFromStripped | src/tokenizer.rs:34-47 | the tokens yielded from any position are the dispatch of each non-blank character after it, in order |
| Lexing.TokenizeRoundTrip | src/tokenizer.rs:31-47 | the token stream of a pattern has one token per non-blank character, maps back to the pattern with its blanks removed, and holds no blank |
| Lexing.StripBlankFree | src/tokenizer.rs:116-123 | removing the blanks from a pattern that has none leaves it unchanged |
| Lexing.BlankFreeTokenize | src/tokenizer.rs:34-47 | a pattern without blanks yields exactly one token per character, the dispatch of that character |
| Lexing.Tokenizer.constructor | src/tokenizer.rs:24-28 | `new` places the cursor at the first character of the pattern |
| Lexing.Tokenizer.Whitespace | src/tokenizer.rs:116-123 | the cursor moves over blanks only and stops on the first non-blank character or at the end, which is `SkipWhitespace` |
| Lexing.Tokenizer.Paren | src/tokenizer.rs:125-132 | on a parenthesis, consumes it and returns `LParen` or `RParen` according to the character |
| Lexing.Tokenizer.Union | src/tokenizer.rs:134-140 | on `\|`, consumes it and returns `UnionBar` |
| Lexing.Tokenizer.Kleene | src/tokenizer.rs:142-148 | on `*`, consumes it and returns `KleeneStar` |
| Lexing.Tokenizer.AnyCharToken | src/tokenizer.rs:150-156 | on `.`, consumes it and returns `AnyChar` |
| Lexing.Tokenizer.OtherChars | src/tokenizer.rs:158-161 | consumes any character and returns it as a literal |
| Lexing.Tokenizer.Next | src/tokenizer.rs:34-47 | the token returned and the new cursor position are exactly those of `NextToken` |
| Lexing.EmptyTest | src/tokenizer.rs:55-60 | on the empty pattern, `next` returns `None` twice; the asserts in its body check each call |
| Lexing.ParenthesesWithCharsTest | src/tokenizer.rs:62-71 | on `(yuh)`, `next` returns `LParen`, the literals `y`, `u`, `h`, `RParen`, then `None`; the asserts in its body check each call |
| Lexing.UnionWithCharsTest | src/tokenizer.rs:73-80 | on `y\|n`, `next` returns the literal `y`, `UnionBar`, the literal `n`, then `None`; the asserts in its body check each call |
| Lexing.KleeneStarWithCharTest | src/tokenizer.rs:82-88 | on `x*`, `next` returns the literal `x`, `KleeneStar`, then `None`; the asserts in its body check each call |
| Lexing.AnyCharWithCharsTest | src/tokenizer.rs:90-97 | on `a.b`, `next` returns the literal `a`, `AnyChar`, the literal `b`, then `None`; the asserts in its body check each call |
| Lexing.AllTokensTest | src/tokenizer.rs:99-111 | on `(a\|b).c*`, `next` returns every kind of token in the order of the pattern, then `None`; the asserts in its body check each call |
| Lexing.BlanksTest | src/tokenizer.rs:116-123 | an added test with no counterpart among the Rust tests: on ` y \|<tab>n<newline>`, the blanks are skipped, `next` returns `y`, `UnionBar`, `n`, then `None` twice; the asserts in its body check each call |
| Parsing.PeekNext | src/parser.rs:150-156 | `peek_next` returns the first unread token, and `None` exactly when none is left |
| Parsing.TakeNextToken | src/parser.rs:142-148 | `take_next_token` splits off the first token, and fails with end of input exactly when none is left |
| Parsing.ConsumeToken | src/parser.rs:158-168 | `consume_token` succeeds exactly when the next token is the expected one; otherwise it fails with end of input, or with the expected and the found token |
| Parsing.ParseRegExpr | src/parser.rs:62-76 | a successful `reg_expr` consumes at least one token and stops only at the end, at `)` or at a `*`; on empty input or a token that cannot begin an atom, it fails with that error |
| Parsing.ParseCatenation | src/parser.rs:79-97 | a successful `catenation` consumes at least one token and stops only where no atom can begin; it has the same error cases as `reg_expr` |
| Parsing.ParseClosure | src/parser.rs:99-113 | a successful `closure` consumes at least one token; it has the same error cases as `reg_expr` |
| Parsing.ParseAtom | src/parser.rs:115-127 | a successful `atom` consumes at least one token; on empty input it fails with end of input, and on `)`, `\|` or `*` with that unexpected token |
| Parsing.Parse | src/parser.rs:42-53 | `parse` succeeds exactly when `reg_expr` succeeds and consumes every token, and then returns `reg_expr`'s tree; an error of `reg_expr` is passed on unchanged; a leftover token is reported as trailing input; an empty stream fails with end of input, and a stream that cannot begin an expression with its first token |
| Parsing.ParsePattern | src/nfa.rs:43 | `Parser::parse(Tokenizer::new(pattern))`: `parse` on the pattern's token stream; `NfaExamples.LexedPattern` states what it returns on a pattern without blanks |
| Parsing.Print | src/parser.rs:61-127 | the reference printer of the grammar: a printed tree is never empty and begins with a token that can begin an atom |
| Parsing.RegExprParsesPrinted | src/parser.rs:62-76 | a printed expression followed by the end or a `)` parses back to the same tree and leaves exactly what followed |
| Parsing.AlternationParsesPrinted | src/parser.rs:62-76 | the same for a printed Alternation, whose right operand is parsed by the recursive `reg_expr` |
| Parsing.RegExprTakesBar | src/parser.rs:62-76 | a catenation followed by `\|` and an expression parses as their Alternation |
| Parsing.CatenationParsesPrinted | src/parser.rs:79-97 | a printed catenation followed by the end, `)` or `\|` parses back to the same tree |
| Parsing.CatenationTakesAtom | src/parser.rs:79-97 | a closure followed by something that begins an atom and parses as a catenation gives their Catenation |
| Parsing.ClosureParsesPrinted | src/parser.rs:99-113 | a printed closure followed by anything but `*` parses back to the same tree |
| Parsing.AtomParsesPrinted | src/parser.rs:115-127 | a printed atom, parenthesised where needed, parses back to the same tree whatever follows |
| Parsing.ParsePrintRoundTrip | src/parser.rs:42-53 | `parse` inverts the printer: every tree, printed, parses back to itself |
| Parsing.TrailingTokenRejected | src/parser.rs:48-51 | a complete expression followed by a stray `)`, whatever tokens come after it, is rejected with that `)` as trailing input |
| Parsing.StrayParenRejected | src/parser.rs:48-51 | `a)` is rejected with the trailing `)` |
| Parsing.MissingOperandRejected | src/parser.rs:62-76 | `a\|` is rejected with end of input |
| Parsing.UnclosedGroupRejected | src/parser.rs:115-127 | `(a` is rejected with end of input |
| Parsing.DoubleStarRejected | src/parser.rs:99-113 | `a**` is rejected: one star is taken, and the second is trailing input |
| Parsing.OperandErrorFirst | src/parser.rs:48-51 | `a\|*b` fails with the `*` that the right operand cannot begin with: the error of `reg_expr` is reported, not the `b` still unread after it |
| Parsing.AlternationNestsRight | src/parser.rs:62-76 | `a\|b\|c` parses as `a\|(b\|c)` |
| Parsing.PrecedenceExample | src/parser.rs:61-116 | `ab*\|c` parses as `(a(b*))\|c`: the star binds tightest, `\|` loosest |
| Thompson.Join | src/nfa.rs:316-323 | `join` binds the successor slot of `from` to `to` (the second slot of a Split) and leaves an End as it is; `Thompson.JoinAllBinds` and `Thompson.BindLoose` state what this binds |
| Thompson.JoinAll | src/nfa.rs:304-308 | `join_fragment` keeps the arena's length |
| Thompson.JoinAllBinds | src/nfa.rs:304-323 | after `join_fragment`, every listed state has its successor slot bound to the target and every other state is unchanged |
| Thompson.JoinAllSnoc | src/nfa.rs:304-308 | joining one more loose end is one more `join`, after the others |
| Thompson.LeafFragment | src/nfa.rs:277-290 | a `.` or a literal leaf appends exactly one unbound Match, labelled with any character or with that literal, which is both the entry and the only loose end |
| Thompson.GenFragment | src/nfa.rs:275-299 | `gen_fragment` only appends to the arena, as many states as the tree has leaves, Alternations and Closures, and its fragment's entry and loose ends are among the new states |
| Thompson.CatHelper | src/nfa.rs:328-340 | `cat_helper` appends the states of both operands, and its entry is the left operand's entry |
| Thompson.CatHelperOf | src/nfa.rs:328-340 | given both operands' fragments, `cat_helper` binds the left loose ends to the right entry and returns the left entry with the right loose ends |
| Thompson.AltHelper | src/nfa.rs:345-360 | `alt_helper` appends both operands and then a Split, which is the entry; it keeps the loose ends it is given and adds both operands' loose ends after them; `Thompson.AltHelperOf` states the Split and the loose ends exactly |
| Thompson.AltHelperOf | src/nfa.rs:345-360 | given both operands' fragments, `alt_helper` appends exactly one state, a Split from the left entry (inside the left fragment) to the right entry (inside the right one); the Split is the entry, and the loose ends are the given `ends`, then the left ones, then the right ones |
| Thompson.CloHelper | src/nfa.rs:365-373 | `clo_helper` appends the body and then a Split, which is both the entry and the only loose end; `Thompson.CloHelperOf` states the Split's wiring exactly |
| Thompson.CloHelperOf | src/nfa.rs:365-373 | given the body's fragment, `clo_helper` appends exactly one state, a Split whose first arm is the body's entry (inside the body's states) and whose second arm is loose; every loose end of the body is bound to that Split, which is both the entry and the only loose end |
| Thompson.Build | src/nfa.rs:36-52 | `NFA::from` once the pattern has parsed: a Start, the tree's fragment with the Start bound to its entry, an End, and the loose ends bound to the End; `Thompson.BuildWellFormed` states the shape of every such automaton |
| Thompson.FromPattern | src/nfa.rs:36-52 | `NFA::from` passes a parse error on unchanged, and otherwise returns the automaton of the tree |
| Thompson.BindLoose | src/nfa.rs:316-323 | `join` on a loose state of a fragment, to a state of the fragment, binds it and keeps it inside the fragment |
| Thompson.GenShape | src/nfa.rs:275-299 | every fragment is closed: its bound slots stay among its own states, and its loose ends are exactly its states with an unbound slot |
| Thompson.CatShape | src/nfa.rs:328-340 | `cat_helper` yields a closed fragment whose loose ends are the right operand's |
| Thompson.ChainShape | src/nfa.rs:328-340 | two closed fragments side by side, the first's loose ends bound to the second's entry, form one closed fragment |
| Thompson.AltShape | src/nfa.rs:345-360 | `alt_helper` yields a closed fragment whose loose ends are both operands' |
| Thompson.SplitShape | src/nfa.rs:345-360 | two closed fragments joined by a Split to both entries form one closed fragment |
| Thompson.CloShape | src/nfa.rs:365-373 | `clo_helper` yields a closed fragment whose one loose end is its Split |
| Thompson.BuildWellFormed | src/nfa.rs:36-52 | every automaton `NFA::from` builds has these properties: the Start state first, the End state last, only Match and Split states between, and every successor slot bound inside the arena; it has two states more than the tree's cost |
| Thompson.FromPatternWellFormed | src/nfa.rs:36-52 | whenever `NFA::from` succeeds, its automaton is well formed |
| NfaEngine.Nfa.constructor | src/nfa.rs:255-260 | `new` gives an empty arena with start 0 |
| NfaEngine.Nfa.Add | src/nfa.rs:265-269 | `add` appends the state and returns its index |
| NfaEngine.Nfa.Join | src/nfa.rs:316-323 | `join` rewrites only the successor slot of `from`, as `Thompson.Join` |
| NfaEngine.Nfa.JoinFragment | src/nfa.rs:304-308 | the loop of `join_fragment` leaves the arena `Thompson.JoinAll` describes |
| NfaEngine.Nfa.GenFragment | src/nfa.rs:275-299 | the new arena and the fragment are those of `Thompson.GenFragment` |
| NfaEngine.Nfa.CatHelper | src/nfa.rs:328-340 | the new arena and the fragment are those of `Thompson.CatHelper` |
| NfaEngine.Nfa.PushEnds | src/nfa.rs:347-354 | each loop of `alt_helper` appends the fragment's loose ends to `ends`, in order |
| NfaEngine.Nfa.AltHelper | src/nfa.rs:345-360 | the new arena and the fragment are those of `Thompson.AltHelper` |
| NfaEngine.Nfa.CloHelper | src/nfa.rs:365-373 | the new arena and the fragment are those of `Thompson.CloHelper` |
| NfaEngine.Nfa.From | src/nfa.rs:36-52 | `NFA::from` returns the parse error, or a new object whose start and arena are those of the automaton `Thompson.FromPattern` gives |
| NfaEngine.Nfa.AcceptTurn | src/nfa.rs:110-142 | one pass of the loop body of `accept_helper` on the worklist is `Simulation.HelperTurn` |
| NfaEngine.Nfa.AcceptHelper | src/nfa.rs:103-144 | the loop of `accept_helper` ends with the list, the panic or the fuel-out of `Simulation.HelperLoop` |
| NfaEngine.Nfa.EmptyStrTurn | src/nfa.rs:86-98 | one pass of the loop body of `empty_str` is `Simulation.EmptyTurn` |
| NfaEngine.Nfa.EmptyStr | src/nfa.rs:83-101 | the loop of `empty_str` ends as `Simulation.EmptyLoop` |
| NfaEngine.Nfa.FinalScan | src/nfa.rs:73-80 | the final loop accepts when some listed state is End, and panics when a listed id is outside the arena, as `Simulation.FinalVerdict` |
| NfaEngine.Nfa.Accepts | src/nfa.rs:58-81 | `accepts` returns the verdict of `Simulation.Run` on the object's arena |
| Simulation.SwapRemove | src/nfa.rs:112-113 | `swap_remove` shortens the list by one, puts the last entry at `i` and leaves the others in place |
| Simulation.SwapRemoveDrops | src/nfa.rs:112-113 | `swap_remove` drops exactly the entry at `i`, as a multiset |
| Simulation.Remove | src/nfa.rs:138 | `remove` shortens the list by one and shifts the entries after `i` down |
| Simulation.RemoveDrops | src/nfa.rs:138 | `remove` drops exactly the entry at `i`, as a multiset |
| Simulation.HelperTurn | src/nfa.rs:110-142 | one pass of the loop body of `accept_helper`, by the kind of the state at entry `i`; `Simulation.HelperTurnInRange` states that on a wired arena it only brings ids of the arena into the list |
| Simulation.HelperLoop | src/nfa.rs:103-144 | the loop of `accept_helper`, stopping when the position reaches the count, on a `break`, or with a panic on an index outside the list or the arena; `Simulation.HelperFuel` and `Simulation.HelperInRange` state its properties |
| Simulation.Proceed | src/nfa.rs:106-143 | after a turn, the loop goes on from the turn's list, position and count, or stops on the list it had when the turn breaks; `Simulation.LoopTurn` states the first case |
| Simulation.EmptyTurn | src/nfa.rs:86-98 | one pass of the loop body of `empty_str`; `Simulation.EmptyTurnInRange` states what it brings into the list |
| Simulation.EmptyLoop | src/nfa.rs:83-101 | the loop of `empty_str`, at most two positions; `Simulation.EmptyFuel` and `Simulation.EmptyInRange` state its properties |
| Simulation.Steps | src/nfa.rs:63-67 | the `for` loop of `accepts`, one `accept_helper` per character; `Simulation.StepsAppend`, `Simulation.StepsFuel` and `Simulation.StepsInRange` state its properties |
| Simulation.Run | src/nfa.rs:58-81 | `accepts` from a start id: the character loop, `empty_str` on a non-empty list, then the final scan; `Simulation.RunFuel` and `Simulation.PanicOnlyInHelper` state its properties |
| Simulation.Accepts | src/nfa.rs:58-81 | `accepts` on an automaton `NFA::from` built; the `NfaExamples` `*Test` lemmas state its verdicts on the automaton built from each test's pattern string |
| Simulation.FinalVerdict | src/nfa.rs:73-80 | the final scan panics exactly when a listed id is outside the arena, and accepts exactly when, otherwise, some listed state is End |
| Simulation.LoopTurn | src/nfa.rs:106-143 | a turn of `accept_helper` that does not break hands the rest of the loop to the next turn |
| Simulation.HelperFuel | src/nfa.rs:103-144 | more fuel does not change a result `accept_helper` reached without running out |
| Simulation.ProceedFuel | src/nfa.rs:106-143 | the same, after a given turn |
| Simulation.EmptyFuel | src/nfa.rs:83-101 | more fuel does not change a result of `empty_str` |
| Simulation.StepsFuel | src/nfa.rs:63-67 | more fuel does not change the list reached after the input |
| Simulation.StepsAppend | src/nfa.rs:63-67 | reading `u + v` is reading `u`, then `v` from the list `u` left |
| Simulation.RunFuel | src/nfa.rs:58-81 | a verdict reached with some fuel is the verdict with any more fuel |
| Simulation.HelperTurnInRange | src/nfa.rs:110-142 | on an arena whose slots are all bound inside it, a turn only brings ids of the arena into the list |
| Simulation.HelperInRange | src/nfa.rs:103-144 | on such an arena, the list `accept_helper` settles on holds only ids of the arena |
| Simulation.EmptyTurnInRange | src/nfa.rs:86-98 | on such an arena, a turn of `empty_str` only brings ids of the arena in, and the list grows by as many entries as the position advances |
| Simulation.EmptyInRange | src/nfa.rs:83-101 | on such an arena, `empty_str` on a non-empty list never reads past the list, and settles on ids of the arena |
| Simulation.StepsInRange | src/nfa.rs:63-67 | on such an arena, the list after the input holds only ids of the arena |
| Simulation.PanicOnlyInHelper | src/nfa.rs:58-81 | on a well-formed automaton, `accepts` panics only inside `accept_helper`, never in `empty_str` or the final scan |
| Simulation.HelperTurnFixed | src/nfa.rs:137-140 | the End branch repaired: the End is removed, the position stays, and one entry fewer is left to visit; `Simulation.HelperTurnFixedKeeps` states the invariant this keeps |
| Simulation.HelperLoopFixed | src/nfa.rs:103-144 | the loop of `accept_helper` with the repaired End branch; `Simulation.FixedNeverPanics` states that it never reads past the list |
| Simulation.StepsFixed | src/nfa.rs:63-67 | the character loop of `accepts` with the repaired loop; `Simulation.StepsFixedInRange` states its property |
| Simulation.RunFixed | src/nfa.rs:58-81 | `accepts` with the repaired loop; `Simulation.RunFixedNeverPanics` states its property |
| Simulation.HelperTurnFixedKeeps | src/nfa.rs:137-140 | with the End branch repaired, a turn keeps the count of entries to visit equal to the list's length |
| Simulation.FixedNeverPanics | src/nfa.rs:103-144 | the repaired `accept_helper` never reads past the list, and settles on ids of the arena |
| Simulation.StepsFixedInRange | src/nfa.rs:63-67 | with the repaired loop, reading the input never panics |
| Simulation.RunFixedNeverPanics | src/nfa.rs:58-81 | with the repaired loop, `accepts` on a well-formed automaton never panics, whatever the input |
| NfaExamples.LexedPattern | src/nfa.rs:36-52 | on a pattern without blanks whose characters, dispatched one by one, parse to a tree, `NFA::from` returns the automaton of that tree |
| NfaExamples.PrintedPattern | src/nfa.rs:36-52 | the same for a pattern whose characters are the printed tree |
| NfaExamples.AnyCharBuild | src/nfa.rs:154 | the tree of `.` builds Start, one Match for any character, and End |
| NfaExamples.AnyCharFrom | src/nfa.rs:154 | `NFA::from(".")` succeeds and returns exactly that automaton: Start, one Match for any character, and End |
| NfaExamples.AnyCharVerdicts | src/nfa.rs:153-159 | the automaton of `.` accepts `a` and `9` and rejects the empty string |
| NfaExamples.AnyCharTest | src/nfa.rs:153-159 | `NFA::from(".")` succeeds, and `accepts` on its automaton accepts `a` and `9` and rejects the empty string |
| NfaExamples.SimpleCatBuild | src/nfa.rs:162 | the tree of `ab` builds the chain Start, Match a, Match b, End |
| NfaExamples.SimpleCatFrom | src/nfa.rs:162 | `NFA::from("ab")` succeeds and returns exactly that automaton: the chain Start, Match a, Match b, End |
| NfaExamples.SimpleCatVerdicts | src/nfa.rs:161-166 | the automaton of `ab` rejects `a` and accepts `ab` |
| NfaExamples.SimpleCatTest | src/nfa.rs:161-166 | `NFA::from("ab")` succeeds, and `accepts` on its automaton rejects `a` and accepts `ab` |
| NfaExamples.SimpleAltBuild | src/nfa.rs:169 | the tree of `a\|b` builds both Matches, joined to End, and a Split after them |
| NfaExamples.SimpleAltFrom | src/nfa.rs:169 | `NFA::from("a\|b")` succeeds and returns exactly that automaton: both Matches, joined to End, and a Split after them |
| NfaExamples.SimpleAltVerdicts | src/nfa.rs:168-173 | the automaton of `a\|b` accepts `a` and `b` |
| NfaExamples.SimpleAltTest | src/nfa.rs:168-173 | `NFA::from("a\|b")` succeeds, and `accepts` on its automaton accepts `a` and `b` |
| NfaExamples.SimpleClosureBuild | src/nfa.rs:176 | the tree of `a*` builds a Match looping back to a Split that leads to End |
| NfaExamples.SimpleClosureFrom | src/nfa.rs:176 | `NFA::from("a*")` succeeds and returns exactly that automaton: a Match looping back to a Split that leads to End |
| NfaExamples.StarAcceptsAs | src/nfa.rs:175-181 | `a*` accepts every word made only of `a`s, the empty word included |
| NfaExamples.SimpleClosureVerdicts | src/nfa.rs:175-181 | the automaton of `a*` accepts the empty string, `a` and `aaaaaaa` |
| NfaExamples.SimpleClosureTest | src/nfa.rs:175-181 | `NFA::from("a*")` succeeds, and `accepts` on its automaton accepts the empty string, `a` and `aaaaaaa` |
| NfaExamples.CatAndAnyBuild | src/nfa.rs:184 | the tree of `a.c` builds the chain Start, Match a, Match any, Match c, End |
| NfaExamples.CatAndAnyFrom | src/nfa.rs:184 | `NFA::from("a.c")` succeeds and returns exactly that automaton: the chain Start, Match a, Match any, Match c, End |
| NfaExamples.CatAndAnyAccepts | src/nfa.rs:183-188 | `a.c` accepts `a`, any one character, then `c` |
| NfaExamples.CatAndAnyVerdicts | src/nfa.rs:183-188 | the automaton of `a.c` accepts `abc` and `a9c` |
| NfaExamples.CatAndAnyTest | src/nfa.rs:183-188 | `NFA::from("a.c")` succeeds, and `accepts` on its automaton accepts `abc` and `a9c` |
| NfaExamples.FiveLetterBuild | src/nfa.rs:191 | the tree of `a....` builds a chain of five Matches |
| NfaExamples.FiveLetterFrom | src/nfa.rs:191 | `NFA::from("a....")` succeeds and returns exactly that automaton: a chain of five Matches |
| NfaExamples.FiveLetterWords | src/nfa.rs:190-197 | `a....` accepts every five-character word that starts with `a`, and rejects every such six-character word |
| NfaExamples.FiveLetterRejectsWithoutA | src/nfa.rs:190-197 | `a....` rejects every non-empty word without an `a` |
| NfaExamples.FiveLetterVerdicts | src/nfa.rs:190-197 | the automaton of `a....` accepts `apple` and `ankle`, and rejects `apples` and `butts` |
| NfaExamples.FiveLetterTest | src/nfa.rs:190-197 | `NFA::from("a....")` succeeds, and `accepts` on its automaton accepts `apple` and `ankle`, and rejects `apples` and `butts` |
| NfaExamples.CatAndClosureBuild | src/nfa.rs:200 | the tree of `s(.)*e` builds Start, Match s, the looping Match any and Split, Match e, End |
| NfaExamples.GroupedStar | src/parser.rs:99-127 | `(.)*` followed by `e` parses, as a closure, to the star of `.`, and leaves the `e` |
| NfaExamples.SThenETokens | src/parser.rs:42-127 | the tokens of `s(.)*e` parse to `s` followed by the star of `.` and `e`; the parentheses leave no node of their own |
| NfaExamples.CatAndClosureFrom | src/nfa.rs:200 | `NFA::from("s(.)*e")` succeeds and returns exactly that automaton: Start, Match s, the looping Match any and Split, Match e, End |
| NfaExamples.SThenEAccepts | src/nfa.rs:199-204 | `s(.)*e` accepts `s`, then any word without an `e`, then `e` |
| NfaExamples.CatAndClosureVerdicts | src/nfa.rs:199-204 | the automaton of `s(.)*e` accepts `sunshine` and `sale` |
| NfaExamples.CatAndClosureTest | src/nfa.rs:199-204 | `NFA::from("s(.)*e")` succeeds, and `accepts` on its automaton accepts `sunshine` and `sale` |
| NfaExamples.AltPanicsOnAb | src/nfa.rs:137-140 | `accepts` on `a\|b` panics on the input `ab` |
| NfaExamples.SThenEPanicsOnSee | src/nfa.rs:137-140 | `accepts` on `s(.)*e` panics on the input `see` |
| NfaExamples.AltPatternPanicsOnAb | src/nfa.rs:137-140 | `NFA::from("a\|b")` succeeds, and `accepts` on its automaton panics on the input `ab` |
| NfaExamples.SThenEPatternPanicsOnSee | src/nfa.rs:137-140 | `NFA::from("s(.)*e")` succeeds, and `accepts` on its automaton panics on the input `see` |

## Left out

- src/main.rs is not part of this model: it reads command-line arguments and standard input, and prints the matching lines. src/string_gen.rs is not part of this model either: it generates random strings for testing.
- Error messages are modelled as the values of `Parsing.ParseError`, one per message of parser.rs. The formatted text of each message is not modelled.
- Non-termination: `accept_helper` has no visited set. On a pattern with a nested star, its Split states can keep re-entering the list. Every loop of the simulation therefore takes a fuel bound, and OutOfFuel stands for a loop that did not finish within it. The test lemmas use a fuel of 20, and `Simulation.RunFuel` shows that a verdict does not depend on the fuel once it is reached.
- Panics: an index out of bounds in `accepts`, `accept_helper` or `empty_str` is the verdict Panic. The panicking branch of `gen_fragment` (src/nfa.rs:297) cannot be reached, because every tree is one of the five node kinds. The panicking branches of the tokenizer helpers (src/tokenizer.rs:125-156) cannot be reached from `next`, so the methods' preconditions exclude them.
- The parser follows the grammar its comments state (src/parser.rs:61-116). The Rust text of parser.rs does not compile as written, and the model settles each of these points as follows:
  - `parse` reads a field `token` that does not exist. It also discards its trailing-input error (lines 49-51). The model returns that error, `TrailingInput`.
  - `reg_expr` calls `unwrap` on the right operand of `|` (line 69), which would panic on a failed operand. The model returns the operand's error.
  - `catenation` consumes a `(` itself before parsing the rest of the catenation (lines 85-87). The model lets `atom` consume it, as the grammar says. The `)` after a group is consumed by `atom` and must be present: the consuming call at lines 87 and 121 comes after a `return` and is unreachable.
  - `parse` looks for trailing input only after `reg_expr` has succeeded; when `reg_expr` fails, its own error is reported even if tokens are left unread (`Parsing.OperandErrorFirst`). Had the discarded trailing-input check (lines 49-51) been placed before the result of `reg_expr` is returned, it would report the token left unread instead: `*a` would give `Char('a')`, not the `*`.
  - `peek_next` copies the peeked token with `Some(*t)` (line 151), but `Token` is not `Copy`. The model returns the token itself.
  - Several arms return an `AST` or a nested `Result` where a `Result<AST, String>` is expected (lines 69, 86, 90, 106, 120). The model wraps each tree in `Ok` and passes each error on.
- `Parsing.ParsePattern` applies `parse` to the whole token stream at once. The Rust parser pulls tokens lazily from the same stream, which gives the same result.
- The Rust `String`/`&str` input is a `seq<char>`. Unicode scalar values are not distinguished from Dafny characters.

## Findings

| source | as written | input that shows it | evidently intended | confidence | as-written member | corrected member |
|---|---|---|---|---|---|---|
| src/nfa.rs:137-140 | The End branch of `accept_helper` removes entry `i` and still advances `i`, without lowering `total_current_states`. The entry shifted into place `i` is skipped, and the loop goes on to read `c_states[i]` past the end of the shortened list, which panics. | `NFA::from("a\|b")` on the input `ab` (`NfaExamples.AltPatternPanicsOnAb`); `NFA::from("s(.)*e")` on the input `see` (`NfaExamples.SThenEPatternPanicsOnSee`) | When an End is removed, the position stays on the entry that moved into its place, and one entry fewer is left to visit. `accepts` on a well-formed automaton then never panics. | not executed | Simulation.HelperLoop | Simulation.RunFixedNeverPanics |

`Simulation.HelperLoopFixed` is the repaired loop and `Simulation.RunFixed` is `accepts` with it. `Simulation.RunFixedNeverPanics` proves that the repaired `accepts` never panics on any automaton `NFA::from` builds, whatever the input. `NfaEngine.Nfa.Accepts` and the test lemmas keep the loop as written, so that they describe what the Rust code does.
