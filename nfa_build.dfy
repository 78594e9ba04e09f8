/** Thompson's construction as nfa.rs performs it, stated as functions over
    the arena of states: each function takes the arena before a step and
    returns the arena after it, with the fragment the step built. The class
    `NfaEngine.Nfa` runs the same steps in place and is proved to agree with
    these functions. */
module Thompson {
  import opened Wrappers
  import P = Parsing

  /** The label of a Match state's one transition. */
  datatype Char = Literal(c: char) | Any

  /** A state of the arena; successor slots hold arena indices and stay
      `None` until bound. */
  datatype State =
    | Start(next: Option<nat>)
    | Match(ch: Char, out: Option<nat>)
    | Split(left: Option<nat>, right: Option<nat>)
    | End

  /** A partly built piece of automaton: its entry state and its loose ends,
      the states whose successor slot is still to be bound. */
  datatype Fragment = Fragment(start: nat, ends: seq<nat>)

  /** What `NFA::from` returns: the start index and the arena. */
  datatype Automaton = Automaton(start: nat, states: seq<State>)

  /** A state with its successor slot bound to `to`: the next state of a
      Start or a Match, the second branch of a Split. An End has no slot. */
  function Bound(s: State, to: nat): State {
    match s
    case Start(_) => Start(Some(to))
    case Match(ch, _) => Match(ch, Some(to))
    case Split(left, _) => Split(left, Some(to))
    case End => End
  }

  /** `join`: binds the successor slot of state `from` to `to` and leaves
      every other state as it was. */
  function Join(states: seq<State>, from: nat, to: nat): seq<State>
    requires from < |states|
  {
    states[from := Bound(states[from], to)]
  }

  /** `join_fragment`: binds every listed loose end to `to`, in order. */
  function JoinAll(states: seq<State>, ends: seq<nat>, to: nat): (r: seq<State>)
    requires forall e :: e in ends ==> e < |states|
    ensures |r| == |states|
    decreases |ends|
  {
    if ends == [] then states
    else
      var last := |ends| - 1;
      assert forall e :: e in ends[..last] ==> e in ends;
      assert ends[last] in ends;
      Join(JoinAll(states, ends[..last], to), ends[last], to)
  }

  /** What `join_fragment` leaves: every listed state bound to `to`, every
      other state as it was. Binding twice to the same target changes
      nothing, so the result depends only on which states are listed. */
  lemma {:induction false} JoinAllBinds(states: seq<State>, ends: seq<nat>, to: nat)
    requires forall e :: e in ends ==> e < |states|
    ensures forall k :: 0 <= k < |states| ==>
              JoinAll(states, ends, to)[k] == if k in ends then Bound(states[k], to) else states[k]
    decreases |ends|
  {
    if ends != [] {
      var last := |ends| - 1;
      assert forall e :: e in ends[..last] ==> e in ends;
      JoinAllBinds(states, ends[..last], to);
      assert ends == ends[..last] + [ends[last]];
      forall k | 0 <= k < |states|
        ensures JoinAll(states, ends, to)[k] == if k in ends then Bound(states[k], to) else states[k]
      {
        assert k in ends <==> k in ends[..last] || k == ends[last];
      }
    }
  }

  /** Binding one more loose end is one more `join`. */
  lemma {:induction false} JoinAllSnoc(states: seq<State>, ends: seq<nat>, e: nat, to: nat)
    requires forall x :: x in ends ==> x < |states|
    requires e < |states|
    ensures JoinAll(states, ends + [e], to) == Join(JoinAll(states, ends, to), e, to)
  {
    assert (ends + [e])[..|ends|] == ends;
  }

  /** Number of nodes of a tree. */
  function Nodes(ast: P.AST): (n: nat)
    ensures n >= 1
  {
    match ast
    case Alternation(l, r) => 1 + Nodes(l) + Nodes(r)
    case Catenation(l, r) => 1 + Nodes(l) + Nodes(r)
    case Closure(x) => 1 + Nodes(x)
    case _ => 1
  }

  /** Number of Catenation nodes of a tree. */
  function Catenations(ast: P.AST): (n: nat)
    ensures n < Nodes(ast)
  {
    match ast
    case Alternation(l, r) => Catenations(l) + Catenations(r)
    case Catenation(l, r) => 1 + Catenations(l) + Catenations(r)
    case Closure(x) => Catenations(x)
    case _ => 0
  }

  /** The states a tree adds to the arena: one per Char, AnyChar, Alternation
      and Closure node; a Catenation adds none. */
  function Cost(ast: P.AST): nat {
    Nodes(ast) - Catenations(ast)
  }

  /** What every construction step guarantees: it appends `added` states and
      never changes, removes or reorders the ones already there, and the
      fragment it returns starts and ends among the new states. */
  predicate Appends(before: seq<State>, after: seq<State>, added: nat, f: Fragment) {
    && |after| == |before| + added
    && after[..|before|] == before
    && |before| <= f.start < |after|
    && forall e :: e in f.ends ==> |before| <= e < |after|
  }

  /** `gen_fragment`: the fragment of a tree, built at the end of the arena. */
  function GenFragment(states: seq<State>, ast: P.AST): (r: (seq<State>, Fragment))
    ensures Appends(states, r.0, Cost(ast), r.1)
    decreases ast, 1
  {
    match ast
    case AnyChar =>
      (states + [Match(Any, None)], Fragment(|states|, [|states|]))
    case Char(c) =>
      (states + [Match(Literal(c), None)], Fragment(|states|, [|states|]))
    case Catenation(lhs, rhs) => CatHelper(states, lhs, rhs)
    case Alternation(lhs, rhs) => AltHelper(states, lhs, rhs, [])
    case Closure(x) => CloHelper(states, x)
  }

  /** The label of the Match state of a Char or AnyChar leaf. */
  function TagOf(leaf: P.AST): Char
    requires leaf.Char? || leaf.AnyChar?
  {
    if leaf.AnyChar? then Any else Literal(leaf.c)
  }

  /** The leaf arms of `gen_fragment`: one Match state with the leaf's
      label and an unbound successor, which is both the entry and the one
      loose end. */
  lemma {:induction false} LeafFragment(states: seq<State>, leaf: P.AST)
    requires leaf.Char? || leaf.AnyChar?
    ensures GenFragment(states, leaf) == (states + [Match(TagOf(leaf), None)], Fragment(|states|, [|states|]))
  {
  }

  /** `cat_helper`: the left fragment's loose ends are bound to the right
      fragment's entry. The guard of the Rust code is kept; it always holds. */
  function CatHelper(states: seq<State>, lhs: P.AST, rhs: P.AST): (r: (seq<State>, Fragment))
    ensures Appends(states, r.0, Cost(P.Catenation(lhs, rhs)), r.1)
    ensures r.1.start == GenFragment(states, lhs).1.start
    decreases P.Catenation(lhs, rhs), 0
  {
    var (s1, left) := GenFragment(states, lhs);
    var (s2, right) := GenFragment(s1, rhs);
    var s3 := if right.start < |s2| then JoinAllBinds(s2, left.ends, right.start); JoinAll(s2, left.ends, right.start) else s2;
    (s3, Fragment(left.start, right.ends))
  }

  /** `cat_helper` once both operands' fragments are known. */
  lemma {:induction false} CatHelperOf(states: seq<State>, lhs: P.AST, rhs: P.AST,
                                       s1: seq<State>, left: Fragment, s2: seq<State>, right: Fragment)
    requires GenFragment(states, lhs) == (s1, left) && GenFragment(s1, rhs) == (s2, right)
    ensures forall e :: e in left.ends ==> e < |s2|
    ensures right.start < |s2|
    ensures CatHelper(states, lhs, rhs) == (JoinAll(s2, left.ends, right.start), Fragment(left.start, right.ends))
  {
    assert Appends(states, s1, Cost(lhs), left) && Appends(s1, s2, Cost(rhs), right);
  }

  /** `alt_helper`: a Split to both entries, allocated after both
      fragments; its loose ends are `ends`, then the left ones, then the
      right ones. */
  function AltHelper(states: seq<State>, lhs: P.AST, rhs: P.AST, ends: seq<nat>): (r: (seq<State>, Fragment))
    ensures |r.0| == |states| + Cost(P.Alternation(lhs, rhs))
    ensures r.0[..|states|] == states
    ensures r.1.start == |r.0| - 1
    ensures |ends| <= |r.1.ends| && r.1.ends[..|ends|] == ends
    ensures forall i :: |ends| <= i < |r.1.ends| ==> |states| <= r.1.ends[i] < |r.0|
    decreases P.Alternation(lhs, rhs), 0
  {
    var (s1, left) := GenFragment(states, lhs);
    var (s2, right) := GenFragment(s1, rhs);
    var all := ends + left.ends + right.ends;
    assert all[..|ends|] == ends;
    forall i | |ends| <= i < |all|
      ensures |states| <= all[i] < |s2| + 1
    {
      if i < |ends| + |left.ends| {
        assert all[i] == left.ends[i - |ends|] && all[i] in left.ends;
      } else {
        assert all[i] == right.ends[i - |ends| - |left.ends|] && all[i] in right.ends;
      }
    }
    (s2 + [Split(Some(left.start), Some(right.start))], Fragment(|s2|, all))
  }

  /** `alt_helper` once both operands' fragments are known: the one state
      it adds is a Split whose branches are the left entry, inside the left
      fragment, and the right entry, inside the right one; the Split is the
      entry, and the loose ends are `ends`, the left ones, then the right
      ones. */
  lemma {:induction false} AltHelperOf(states: seq<State>, lhs: P.AST, rhs: P.AST, ends: seq<nat>,
                                       s1: seq<State>, left: Fragment, s2: seq<State>, right: Fragment)
    requires GenFragment(states, lhs) == (s1, left) && GenFragment(s1, rhs) == (s2, right)
    ensures |states| <= left.start < |s1| <= right.start < |s2|
    ensures AltHelper(states, lhs, rhs, ends)
            == (s2 + [Split(Some(left.start), Some(right.start))], Fragment(|s2|, ends + left.ends + right.ends))
  {
    assert Appends(states, s1, Cost(lhs), left) && Appends(s1, s2, Cost(rhs), right);
  }

  /** `clo_helper`: a Split whose first branch enters the body, with the
      body's loose ends bound back to it; the Split is both the entry and the
      one loose end. */
  function CloHelper(states: seq<State>, body: P.AST): (r: (seq<State>, Fragment))
    ensures Appends(states, r.0, Cost(P.Closure(body)), r.1)
    ensures r.1 == Fragment(|r.0| - 1, [|r.0| - 1])
    decreases P.Closure(body), 0
  {
    var (s1, inner) := GenFragment(states, body);
    var split := |s1|;
    var s2 := s1 + [Split(Some(inner.start), None)];
    JoinAllBinds(s2, inner.ends, split);
    (JoinAll(s2, inner.ends, split), Fragment(split, [split]))
  }

  /** `clo_helper` once the body's fragment is known: the Split appended
      after the body enters it by its first branch and leaves its second
      branch loose; the body's loose ends are bound back to the Split, which
      is the entry and the one loose end. */
  lemma {:induction false} CloHelperOf(states: seq<State>, body: P.AST, s1: seq<State>, inner: Fragment)
    requires GenFragment(states, body) == (s1, inner)
    ensures |states| <= inner.start < |s1|
    ensures forall e :: e in inner.ends ==> |states| <= e < |s1|
    ensures CloHelper(states, body)
            == (JoinAll(s1 + [Split(Some(inner.start), None)], inner.ends, |s1|), Fragment(|s1|, [|s1|]))
  {
    assert Appends(states, s1, Cost(body), inner);
  }

  /** `NFA::from` once the pattern has parsed: a Start state, the body's
      fragment, the Start bound to the body's entry, an End state, and the
      body's loose ends bound to the End. */
  function Build(ast: P.AST): Automaton {
    var s0 := [Start(None)];
    var (s1, body) := GenFragment(s0, ast);
    var s2 := Join(s1, 0, body.start);
    var s3 := s2 + [End];
    Automaton(0, JoinAll(s3, body.ends, |s2|))
  }

  /** `NFA::from`: a parse error is passed on unchanged; otherwise the
      automaton of the tree. */
  function FromPattern(pattern: seq<char>): (r: Result<Automaton, P.ParseError>)
    ensures P.ParsePattern(pattern).Err? ==> r == Err(P.ParsePattern(pattern).error)
    ensures P.ParsePattern(pattern).Ok? ==> r == Ok(Build(P.ParsePattern(pattern).value))
  {
    match P.ParsePattern(pattern)
    case Err(e) => Err(e)
    case Ok(ast) => Ok(Build(ast))
  }

  /* ----- Shape of the fragments ----- */

  /** A slot that holds an index in [lo, hi). */
  predicate InRange(o: Option<nat>, lo: nat, hi: nat) {
    o.Some? && lo <= o.value < hi
  }

  /** A state whose successor slot is still unbound. */
  predicate Loose(s: State) {
    (s.Match? && s.out.None?) || (s.Split? && s.right.None?)
  }

  /** A state a fragment may hold: a Match or a Split whose bound slots lead
      into [lo, hi), and whose first Split branch is always bound (the
      assumption the comment on `join` states). */
  predicate Inner(s: State, lo: nat, hi: nat) {
    match s
    case Match(_, out) => out.None? || InRange(out, lo, hi)
    case Split(left, right) => InRange(left, lo, hi) && (right.None? || InRange(right, lo, hi))
    case _ => false
  }

  /** The states [lo, |s|) form the fragment `f`: its entry is among them,
      every transition stays among them, and its loose ends are exactly the
      states with an unbound slot. */
  predicate Shaped(s: seq<State>, lo: nat, f: Fragment) {
    && lo <= f.start < |s|
    && (forall e :: e in f.ends ==> lo <= e < |s|)
    && forall k :: lo <= k < |s| ==> Inner(s[k], lo, |s|) && (Loose(s[k]) <==> k in f.ends)
  }

  /** Binding a loose end to a state of the fragment leaves it bound. */
  lemma {:induction false} BindLoose(s: State, lo: nat, hi: nat, to: nat)
    requires Inner(s, lo, hi) && Loose(s) && lo <= to < hi
    ensures Inner(Bound(s, to), lo, hi) && !Loose(Bound(s, to))
  {
  }

  /** Every fragment `gen_fragment` builds is closed over its own states and
      lists exactly its unbound states as loose ends. */
  lemma {:induction false} GenShape(states: seq<State>, ast: P.AST)
    ensures Shaped(GenFragment(states, ast).0, |states|, GenFragment(states, ast).1)
    decreases ast, 1
  {
    match ast
    case AnyChar =>
    case Char(_) =>
    case Catenation(lhs, rhs) => CatShape(states, lhs, rhs);
    case Alternation(lhs, rhs) => AltShape(states, lhs, rhs);
    case Closure(x) => CloShape(states, x);
  }

  lemma {:induction false} CatShape(states: seq<State>, lhs: P.AST, rhs: P.AST)
    ensures Shaped(CatHelper(states, lhs, rhs).0, |states|, CatHelper(states, lhs, rhs).1)
    decreases P.Catenation(lhs, rhs), 0
  {
    var (s1, left) := GenFragment(states, lhs);
    GenShape(states, lhs);
    var (s2, right) := GenFragment(s1, rhs);
    GenShape(s1, rhs);
    assert CatHelper(states, lhs, rhs) == (JoinAll(s2, left.ends, right.start), Fragment(left.start, right.ends));
    ChainShape(s1, s2, |states|, left, right);
  }

  /** Two fragments side by side, the loose ends of the first bound to the
      entry of the second, form one fragment whose loose ends are the
      second's. */
  lemma {:induction false} ChainShape(s1: seq<State>, s2: seq<State>, lo: nat, left: Fragment, right: Fragment)
    requires Shaped(s1, lo, left) && Shaped(s2, |s1|, right)
    requires |s1| <= |s2| && s2[..|s1|] == s1
    ensures forall e :: e in left.ends ==> e < |s2|
    ensures Shaped(JoinAll(s2, left.ends, right.start), lo, Fragment(left.start, right.ends))
  {
    var s3 := JoinAll(s2, left.ends, right.start);
    JoinAllBinds(s2, left.ends, right.start);
    forall k | lo <= k < |s3|
      ensures Inner(s3[k], lo, |s3|) && (Loose(s3[k]) <==> k in right.ends)
    {
      if k < |s1| {
        assert s2[..|s1|][k] == s1[k];
        assert k !in right.ends;
        if k in left.ends {
          BindLoose(s1[k], lo, |s3|, right.start);
        }
      } else {
        assert k !in left.ends;
      }
    }
  }

  lemma {:induction false} AltShape(states: seq<State>, lhs: P.AST, rhs: P.AST)
    ensures Shaped(AltHelper(states, lhs, rhs, []).0, |states|, AltHelper(states, lhs, rhs, []).1)
    decreases P.Alternation(lhs, rhs), 0
  {
    var (s1, left) := GenFragment(states, lhs);
    GenShape(states, lhs);
    var (s2, right) := GenFragment(s1, rhs);
    GenShape(s1, rhs);
    assert [] + left.ends + right.ends == left.ends + right.ends;
    assert AltHelper(states, lhs, rhs, []) == (s2 + [Split(Some(left.start), Some(right.start))], Fragment(|s2|, left.ends + right.ends));
    SplitShape(s1, s2, |states|, left, right);
  }

  /** Two fragments side by side, joined by a Split to both entries, form one
      fragment whose loose ends are theirs. */
  lemma {:induction false} SplitShape(s1: seq<State>, s2: seq<State>, lo: nat, left: Fragment, right: Fragment)
    requires Shaped(s1, lo, left) && Shaped(s2, |s1|, right)
    requires |s1| <= |s2| && s2[..|s1|] == s1
    ensures Shaped(s2 + [Split(Some(left.start), Some(right.start))], lo, Fragment(|s2|, left.ends + right.ends))
  {
    var s3 := s2 + [Split(Some(left.start), Some(right.start))];
    var all := left.ends + right.ends;
    forall e | e in all
      ensures lo <= e < |s3|
    {
      assert e in left.ends || e in right.ends;
    }
    forall k | lo <= k < |s3|
      ensures Inner(s3[k], lo, |s3|) && (Loose(s3[k]) <==> k in all)
    {
      assert k in all <==> k in left.ends || k in right.ends;
      if k < |s1| {
        assert s3[k] == s2[..|s1|][k] == s1[k];
        assert k !in right.ends;
      } else if k < |s2| {
        assert s3[k] == s2[k];
        assert k !in left.ends;
      } else {
        assert k !in left.ends && k !in right.ends;
      }
    }
  }

  lemma {:induction false} CloShape(states: seq<State>, body: P.AST)
    ensures Shaped(CloHelper(states, body).0, |states|, CloHelper(states, body).1)
    decreases P.Closure(body), 0
  {
    var lo := |states|;
    var (s1, inner) := GenFragment(states, body);
    GenShape(states, body);
    var split := |s1|;
    var s2 := s1 + [Split(Some(inner.start), None)];
    var s3 := JoinAll(s2, inner.ends, split);
    JoinAllBinds(s2, inner.ends, split);
    assert CloHelper(states, body) == (s3, Fragment(split, [split]));
    forall k | lo <= k < |s3|
      ensures Inner(s3[k], lo, |s3|) && (Loose(s3[k]) <==> k in [split])
    {
      if k < |s1| {
        assert s2[k] == s1[k];
        if k in inner.ends {
          BindLoose(s1[k], lo, |s3|, split);
        }
      } else {
        assert k !in inner.ends;
      }
    }
  }

  /* ----- The finished automaton ----- */

  /** Every successor slot of `s` is bound to an index below `n`. */
  predicate Wired(s: State, n: nat) {
    match s
    case Start(next) => InRange(next, 0, n)
    case Match(_, out) => InRange(out, 0, n)
    case Split(left, right) => InRange(left, 0, n) && InRange(right, 0, n)
    case End => true
  }

  /** The automaton `NFA::from` promises: the Start state first and nowhere
      else, the End state last and nowhere else, Match and Split states in
      between, and no transition left unbound or leading out of the arena. */
  predicate WellFormed(a: Automaton) {
    var n := |a.states|;
    && n >= 2
    && a.start == 0
    && a.states[0].Start?
    && a.states[n - 1] == End
    && (forall k :: 0 < k < n - 1 ==> a.states[k].Match? || a.states[k].Split?)
    && forall k :: 0 <= k < n ==> Wired(a.states[k], n)
  }

  /** The automaton of any tree is well formed and has one state per Char,
      AnyChar, Alternation and Closure node, plus Start and End. */
  lemma {:induction false} BuildWellFormed(ast: P.AST)
    ensures WellFormed(Build(ast))
    ensures |Build(ast).states| == Cost(ast) + 2
  {
    var s0 := [Start(None)];
    var (s1, body) := GenFragment(s0, ast);
    GenShape(s0, ast);
    var s2 := Join(s1, 0, body.start);
    var s3 := s2 + [End];
    var s4 := JoinAll(s3, body.ends, |s2|);
    JoinAllBinds(s3, body.ends, |s2|);
    assert Build(ast) == Automaton(0, s4);
    var n := |s4|;
    assert 0 !in body.ends;
    forall k | 0 <= k < n
      ensures Wired(s4[k], n)
      ensures 0 < k < n - 1 ==> s4[k].Match? || s4[k].Split?
    {
      if 0 < k < |s1| {
        assert s3[k] == s1[k];
        if k in body.ends {
          BindLoose(s1[k], 1, n, |s2|);
        }
      } else if k == |s1| {
        assert k !in body.ends;
      }
    }
  }

  /** Whenever `NFA::from` succeeds, its automaton is well formed. */
  lemma {:induction false} FromPatternWellFormed(pattern: seq<char>)
    ensures FromPattern(pattern).Ok? ==> WellFormed(FromPattern(pattern).value)
  {
    if FromPattern(pattern).Ok? {
      BuildWellFormed(P.ParsePattern(pattern).value);
    }
  }
}
