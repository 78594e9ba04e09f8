/** The `NFA` struct of nfa.rs as a class: an arena of states, grown by
    `add` and rewired by `join` while `NFA::from` builds it, then simulated
    by `accepts` with a worklist of state ids. Every method is proved to
    leave the arena, or return the answer, that the functions of `Thompson`
    and `Simulation` describe. */
module NfaEngine {
  import opened Wrappers
  import P = Parsing
  import T = Thompson
  import opened Simulation

  class Nfa {
    var start: nat
    var states: seq<T.State>

    /** `NFA::new`: an empty arena whose start is 0. */
    constructor ()
      ensures start == 0 && states == []
    {
      start := 0;
      states := [];
    }

    /** `add`: appends a state and returns its index. */
    method Add(s: T.State) returns (idx: nat)
      modifies this
      ensures idx == |old(states)| && states == old(states) + [s]
      ensures start == old(start)
    {
      idx := |states|;
      states := states + [s];
    }

    /** `join`: binds the successor slot of `from` to `to`. */
    method Join(from: nat, to: nat)
      requires from < |states|
      modifies this
      ensures states == T.Join(old(states), from, to)
      ensures start == old(start)
    {
      match states[from]
      case Start(_) => states := states[from := T.Start(Some(to))];
      case Match(ch, _) => states := states[from := T.Match(ch, Some(to))];
      case Split(left, _) => states := states[from := T.Split(left, Some(to))];
      case End =>
    }

    /** `join_fragment`: joins every loose end of `f` to `to`, in order. */
    method JoinFragment(f: T.Fragment, to: nat)
      requires forall e :: e in f.ends ==> e < |states|
      modifies this
      ensures states == T.JoinAll(old(states), f.ends, to)
      ensures start == old(start)
    {
      for k := 0 to |f.ends|
        invariant |states| == |old(states)| && start == old(start)
        invariant forall e :: e in f.ends ==> e < |old(states)|
        invariant forall e :: e in f.ends[..k] ==> e < |old(states)|
        invariant states == T.JoinAll(old(states), f.ends[..k], to)
      {
        assert f.ends[k] in f.ends;
        assert f.ends[..k + 1] == f.ends[..k] + [f.ends[k]];
        T.JoinAllSnoc(old(states), f.ends[..k], f.ends[k], to);
        Join(f.ends[k], to);
      }
      assert f.ends[..|f.ends|] == f.ends;
    }

    /** `gen_fragment`: builds the fragment of `ast` at the end of the arena. */
    method GenFragment(ast: P.AST) returns (f: T.Fragment)
      modifies this
      ensures (states, f) == T.GenFragment(old(states), ast)
      ensures start == old(start)
      decreases ast, 1
    {
      match ast {
        case AnyChar =>
          var s := Add(T.Match(T.Any, None));
          f := T.Fragment(s, [s]);
        case Char(c) =>
          var s := Add(T.Match(T.Literal(c), None));
          f := T.Fragment(s, [s]);
        case Catenation(lhs, rhs) =>
          f := CatHelper(lhs, rhs);
        case Alternation(lhs, rhs) =>
          f := AltHelper(lhs, rhs, []);
        case Closure(body) =>
          f := CloHelper(body);
      }
    }

    /** `cat_helper`: the left fragment, the right fragment, and the left
        fragment's loose ends joined to the right fragment's entry. */
    method CatHelper(lhs: P.AST, rhs: P.AST) returns (f: T.Fragment)
      modifies this
      ensures (states, f) == T.CatHelper(old(states), lhs, rhs)
      ensures start == old(start)
      decreases P.Catenation(lhs, rhs), 0
    {
      ghost var s0 := states;
      var left := GenFragment(lhs);
      ghost var s1 := states;
      var right := GenFragment(rhs);
      T.CatHelperOf(s0, lhs, rhs, s1, left, states, right);
      if right.start < |states| {
        JoinFragment(left, right.start);
      }
      f := T.Fragment(left.start, right.ends);
    }

    /** The loops of `alt_helper` that push a fragment's loose ends, one
        by one, onto the ones collected so far. */
    static method PushEnds(collected: seq<nat>, ends: seq<nat>) returns (r: seq<nat>)
      ensures r == collected + ends
    {
      r := collected;
      for k := 0 to |ends|
        invariant r == collected + ends[..k]
      {
        assert ends[..k + 1] == ends[..k] + [ends[k]];
        r := r + [ends[k]];
      }
      assert ends[..|ends|] == ends;
    }

    /** `alt_helper`: both fragments, their loose ends pushed onto `ends`,
        and a Split to both entries. */
    method AltHelper(lhs: P.AST, rhs: P.AST, ends: seq<nat>) returns (f: T.Fragment)
      modifies this
      ensures (states, f) == T.AltHelper(old(states), lhs, rhs, ends)
      ensures start == old(start)
      decreases P.Alternation(lhs, rhs), 0
    {
      ghost var s0 := states;
      var left := GenFragment(lhs);
      ghost var s1 := states;
      var collected := PushEnds(ends, left.ends);
      var right := GenFragment(rhs);
      assert (s1, left) == T.GenFragment(s0, lhs) && (states, right) == T.GenFragment(s1, rhs);
      collected := PushEnds(collected, right.ends);
      var split := Add(T.Split(Some(left.start), Some(right.start)));
      f := T.Fragment(split, collected);
    }

    /** `clo_helper`: the body's fragment, a Split entering it, and the
        body's loose ends joined back to the Split. */
    method CloHelper(body: P.AST) returns (f: T.Fragment)
      modifies this
      ensures (states, f) == T.CloHelper(old(states), body)
      ensures start == old(start)
      decreases P.Closure(body), 0
    {
      var inner := GenFragment(body);
      var split := Add(T.Split(Some(inner.start), None));
      JoinFragment(inner, split);
      f := T.Fragment(split, [split]);
    }

    /** `NFA::from`: a Start state, the parse (whose error is passed on),
        the body's fragment, the Start joined to it, an End state, and the
        body's loose ends joined to the End. */
    static method From(pattern: seq<char>) returns (r: Result<Nfa, P.ParseError>)
      ensures T.FromPattern(pattern).Err? ==> r == Err(T.FromPattern(pattern).error)
      ensures T.FromPattern(pattern).Ok? ==>
                && r.Ok? && fresh(r.value)
                && r.value.start == T.FromPattern(pattern).value.start
                && r.value.states == T.FromPattern(pattern).value.states
    {
      var nfa := new Nfa();
      var s := nfa.Add(T.Start(None));
      nfa.start := s;
      var parsed := P.ParsePattern(pattern);
      if parsed.Err? {
        return Err(parsed.error);
      }
      var ast := parsed.value;
      assert nfa.states == [T.Start(None)] && nfa.start == 0;
      var body := nfa.GenFragment(ast);
      ghost var built := T.GenFragment([T.Start(None)], ast);
      assert nfa.states == built.0 && body == built.1;
      nfa.Join(nfa.start, body.start);
      var end := nfa.Add(T.End);
      nfa.JoinFragment(body, end);
      assert nfa.states == T.Build(ast).states;
      r := Ok(nfa);
    }

    /** One pass of the loop body of `accept_helper`, on entry `i`. */
    method AcceptTurn(c: char, list: seq<nat>, i: nat, total: nat) returns (t: Turn)
      requires CanIndex(states, list, i)
      ensures t == HelperTurn(states, c, list, i, total)
    {
      var current := list;
      match states[current[i]] {
        case Start(Some(first)) =>
          current := current + [first];
          current := SwapRemove(current, i);
          t := Continue(current, i, total);
        case Match(tag, Some(next)) =>
          if Admits(tag, c) {
            current := current + [next];
            current := SwapRemove(current, i);
          }
          t := Continue(current, i + 1, total);
        case Split(Some(l), Some(r)) =>
          current := current + [l];
          current := SwapRemove(current, i);
          current := current + [r];
          t := Continue(current, i, total + 1);
        case End =>
          current := Remove(current, i);
          t := Continue(current, i + 1, total);
        case _ =>
          t := Halt;
      }
    }

    /** `accept_helper`: rewrites `list` for one input character. Each turn
        is charged one unit of `fuel`. */
    method AcceptHelper(c: char, list: seq<nat>, fuel: nat) returns (w: Worklist)
      ensures w == HelperLoop(states, c, list, 0, |list|, fuel)
    {
      var current: seq<nat>, i: nat, total: nat, left: nat := list, 0, |list|, fuel;
      while true
        invariant HelperLoop(states, c, current, i, total, left) == HelperLoop(states, c, list, 0, |list|, fuel)
        decreases left
      {
        if i >= total {
          return Settled(current);
        }
        if left == 0 {
          return FuelOut;
        }
        if !(i < |current| && current[i] < |states|) {
          return IndexPanic;
        }
        var t := AcceptTurn(c, current, i, total);
        if t.Halt? {
          return Settled(current);
        }
        current, i, total, left := t.list, t.i, t.total, left - 1;
      }
    }

    /** One pass of the loop body of `empty_str`, on entry `i`. */
    method EmptyStrTurn(list: seq<nat>, i: nat) returns (t: Turn)
      requires CanIndex(states, list, i)
      ensures t == EmptyTurn(states, list, i)
    {
      var current := list;
      match states[current[i]] {
        case Start(Some(first)) =>
          current := current + [first];
          current := SwapRemove(current, i);
          t := Continue(current, i, 0);
        case Split(Some(l), Some(r)) =>
          current := current + [l];
          current := SwapRemove(current, i);
          current := current + [r];
          t := Continue(current, i + 1, 0);
        case _ =>
          t := Halt;
      }
    }

    /** `empty_str`: at most two turns, which move past a Start and open a
        Split once the input is used up. */
    method EmptyStr(list: seq<nat>, fuel: nat) returns (w: Worklist)
      ensures w == EmptyLoop(states, list, 0, fuel)
    {
      var current: seq<nat>, i: nat, left: nat := list, 0, fuel;
      while i < 2
        invariant EmptyLoop(states, current, i, left) == EmptyLoop(states, list, 0, fuel)
        decreases left
      {
        if left == 0 {
          return FuelOut;
        }
        if !(i < |current| && current[i] < |states|) {
          return IndexPanic;
        }
        var t := EmptyStrTurn(current, i);
        if t.Halt? {
          return Settled(current);
        }
        current, i, left := t.list, t.i, left - 1;
      }
      return Settled(current);
    }

    /** The last loop of `accepts`: every listed state is looked up, and
        the answer is whether one of them is the End state. */
    method FinalScan(clist: seq<nat>) returns (v: Verdict)
      ensures v == FinalVerdict(states, clist)
    {
      var result := false;
      for k := 0 to |clist|
        invariant AllIn(clist[..k], |states|)
        invariant result <==> exists j :: 0 <= j < k && states[clist[j]].End?
      {
        if clist[k] >= |states| {
          assert !AllIn(clist, |states|);
          return Panic;
        }
        if states[clist[k]].End? {
          result := true;
        }
        assert clist[..k + 1] == clist[..k] + [clist[k]];
      }
      assert clist[..|clist|] == clist;
      v := if result then Accept else Reject;
    }

    /** `accepts`: the list starts as the start state, each character
        rewrites it, `empty_str` runs once more on a non-empty list, and the
        answer is whether an End state is listed. */
    method Accepts(input: seq<char>, fuel: nat) returns (v: Verdict)
      ensures v == Run(states, start, input, fuel)
    {
      var clist := [start];
      for k := 0 to |input|
        invariant Steps(states, [start], input, fuel) == Steps(states, clist, input[k..], fuel)
      {
        var w := AcceptHelper(input[k], clist, fuel);
        if !w.Settled? {
          return Stopped(w);
        }
        assert input[k..][1..] == input[k + 1..];
        clist := w.ids;
      }
      assert input[|input|..] == [];
      if |clist| > 0 {
        var w := EmptyStr(clist, fuel);
        if !w.Settled? {
          return Stopped(w);
        }
        clist := w.ids;
      }
      v := FinalScan(clist);
    }
  }
}
