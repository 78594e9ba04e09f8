/** The simulation `NFA::accepts` performs, stated as functions: a worklist
    of state ids, rewritten once per input character by `accept_helper`,
    expanded once more by `empty_str`, and searched for the End state. Each
    loop of the Rust code becomes a recursive function with a fuel bound,
    because the loops are not guaranteed to stop. The class `NfaEngine.Nfa`
    runs the same loops and is proved to agree with these functions. */
module Simulation {
  import opened Wrappers
  import opened Thompson

  /** `Vec::swap_remove`: the element at `i` is replaced by the last one and
      the vector shrinks by one. */
  function SwapRemove(v: seq<nat>, i: nat): (r: seq<nat>)
    requires i < |v|
    ensures |r| == |v| - 1
    ensures forall k {:trigger r[k]} :: 0 <= k < |r| && k != i ==> r[k] == v[k]
    ensures i < |r| ==> r[i] == v[|v| - 1]
  {
    var last := |v| - 1;
    if i < last then v[..last][i := v[last]] else v[..last]
  }

  /** `swap_remove` drops exactly the one element at `i`. */
  lemma {:induction false} SwapRemoveDrops(v: seq<nat>, i: nat)
    requires i < |v|
    ensures multiset(SwapRemove(v, i)) == multiset(v) - multiset{v[i]}
  {
    var last := |v| - 1;
    assert v == v[..i] + [v[i]] + v[i + 1..];
    if i < last {
      assert SwapRemove(v, i) == v[..i] + [v[last]] + v[i + 1..last];
      assert v[i + 1..] == v[i + 1..last] + [v[last]];
    } else {
      assert SwapRemove(v, i) == v[..i];
    }
  }

  /** `Vec::remove`: the element at `i` is taken out and the ones after it
      shift down by one. */
  function Remove(v: seq<nat>, i: nat): (r: seq<nat>)
    requires i < |v|
    ensures |r| == |v| - 1
    ensures forall k {:trigger r[k]} :: 0 <= k < i ==> r[k] == v[k]
    ensures forall k {:trigger r[k]} :: i <= k < |r| ==> r[k] == v[k + 1]
  {
    seq(|v| - 1, k requires 0 <= k < |v| - 1 => if k < i then v[k] else v[k + 1])
  }

  /** `remove` drops exactly the one element at `i`. */
  lemma {:induction false} RemoveDrops(v: seq<nat>, i: nat)
    requires i < |v|
    ensures multiset(Remove(v, i)) == multiset(v) - multiset{v[i]}
  {
    assert Remove(v, i) == v[..i] + v[i + 1..];
    assert v == v[..i] + [v[i]] + v[i + 1..];
  }

  /** Whether a Match state's tag admits the character. */
  predicate Admits(tag: Char, c: char) {
    tag.Any? || tag.c == c
  }

  /** Where a worklist loop stops: with the list it settled on, on an index
      out of bounds (a panic in Rust), or when the fuel runs out. */
  datatype Worklist = Settled(ids: seq<nat>) | IndexPanic | FuelOut

  /** What `accepts` answers, or that it panicked, or that the fuel ran out
      before it finished. */
  datatype Verdict = Accept | Reject | Panic | OutOfFuel

  /** Both list accesses of one loop turn are in bounds. */
  predicate CanIndex(states: seq<State>, list: seq<nat>, i: nat) {
    i < |list| && list[i] < |states|
  }

  /** Every entry of the list names a state of the arena. */
  predicate AllIn(list: seq<nat>, n: nat) {
    forall k :: 0 <= k < |list| ==> list[k] < n
  }

  /** Every successor slot of the arena is bound inside the arena. */
  predicate AllWired(states: seq<State>) {
    forall k :: 0 <= k < |states| ==> Wired(states[k], |states|)
  }

  /** One turn of a worklist loop that did not stop: the new list, position
      and count, or `Halt` when the loop breaks. */
  datatype Turn = Continue(list: seq<nat>, i: nat, total: nat) | Halt

  /** One turn of the loop of `accept_helper` on entry `i`. A Start or a
      matching Match is replaced by its successor (a Match advances the
      position either way); a Split by its first branch, with its second
      branch appended and counted; an End is removed and the position still
      advances; any state with an unbound slot breaks the loop. */
  function HelperTurn(states: seq<State>, c: char, list: seq<nat>, i: nat, total: nat): Turn
    requires CanIndex(states, list, i)
  {
    match states[list[i]]
    case Start(Some(next)) => Continue(SwapRemove(list + [next], i), i, total)
    case Match(tag, Some(next)) =>
      Continue(if Admits(tag, c) then SwapRemove(list + [next], i) else list, i + 1, total)
    case Split(Some(left), Some(right)) => Continue(SwapRemove(list + [left], i) + [right], i, total + 1)
    case End => Continue(Remove(list, i), i + 1, total)
    case _ => Halt
  }

  /** The loop of `accept_helper` from position `i`, with `total` the number
      of entries it means to visit; reading an entry or a state outside the
      list or the arena panics. */
  function HelperLoop(states: seq<State>, c: char, list: seq<nat>, i: nat, total: nat, fuel: nat): Worklist
    decreases fuel, 1
  {
    if i >= total then Settled(list)
    else if fuel == 0 then FuelOut
    else if !CanIndex(states, list, i) then IndexPanic
    else Proceed(states, c, list, HelperTurn(states, c, list, i, total), fuel - 1)
  }

  /** What the loop of `accept_helper` does after turn `t` on `list`: it goes
      on with the next turn's list, position and count, or stops with `list`
      when the turn broke the loop. */
  function Proceed(states: seq<State>, c: char, list: seq<nat>, t: Turn, fuel: nat): Worklist
    decreases fuel, 2
  {
    match t
    case Continue(list', i', total') => HelperLoop(states, c, list', i', total', fuel)
    case Halt => Settled(list)
  }

  /** One turn of the loop of `empty_str` on entry `i`: a Start is replaced
      by its successor; a Split by its first branch, with its second branch
      appended, and the position advances; anything else breaks the loop. */
  function EmptyTurn(states: seq<State>, list: seq<nat>, i: nat): Turn
    requires CanIndex(states, list, i)
  {
    match states[list[i]]
    case Start(Some(next)) => Continue(SwapRemove(list + [next], i), i, 0)
    case Split(Some(left), Some(right)) => Continue(SwapRemove(list + [left], i) + [right], i + 1, 0)
    case _ => Halt
  }

  /** The loop of `empty_str` from position `i`: it stops at position 2. */
  function EmptyLoop(states: seq<State>, list: seq<nat>, i: nat, fuel: nat): Worklist
    decreases fuel
  {
    if i >= 2 then Settled(list)
    else if fuel == 0 then FuelOut
    else if !CanIndex(states, list, i) then IndexPanic
    else
      match EmptyTurn(states, list, i)
      case Continue(list', i', _) => EmptyLoop(states, list', i', fuel - 1)
      case Halt => Settled(list)
  }

  /** The `for` loop of `accepts`: one run of `accept_helper` per input
      character, each over the whole current list. */
  function Steps(states: seq<State>, list: seq<nat>, input: seq<char>, fuel: nat): Worklist
    decreases |input|
  {
    if input == [] then Settled(list)
    else
      match HelperLoop(states, input[0], list, 0, |list|, fuel)
      case Settled(next) => Steps(states, next, input[1..], fuel)
      case stop => stop
  }

  /** The final scan of `accepts`: it looks every listed state up in order,
      panicking on an id outside the arena, and accepts when one is the End
      state. */
  function FinalVerdict(states: seq<State>, list: seq<nat>): (v: Verdict)
    ensures v != OutOfFuel
    ensures v == Panic <==> !AllIn(list, |states|)
    ensures v == Accept <==> AllIn(list, |states|) && exists k :: 0 <= k < |list| && states[list[k]].End?
  {
    if !AllIn(list, |states|) then Panic
    else if exists k :: 0 <= k < |list| && states[list[k]].End? then Accept
    else Reject
  }

  /** A loop that stopped early decides the verdict. */
  function Stopped(w: Worklist): Verdict
    requires !w.Settled?
  {
    if w.IndexPanic? then Panic else OutOfFuel
  }

  /** `NFA::accepts`: the list starts as the start state alone, every
      character rewrites it, `empty_str` runs once more if it is not empty,
      and the final scan decides. */
  function Run(states: seq<State>, start: nat, input: seq<char>, fuel: nat): Verdict {
    match Steps(states, [start], input, fuel)
    case Settled(list) =>
      if |list| > 0 then
        match EmptyLoop(states, list, 0, fuel)
        case Settled(last) => FinalVerdict(states, last)
        case stop => Stopped(stop)
      else FinalVerdict(states, list)
    case stop => Stopped(stop)
  }

  /** The answer `accepts` gives for the automaton `NFA::from` builds. */
  function Accepts(a: Automaton, input: seq<char>, fuel: nat): Verdict {
    Run(a.states, a.start, input, fuel)
  }

  /** One turn of `accept_helper` that does not halt hands the rest of the
      pass on to the next turn. */
  lemma {:induction false} LoopTurn(states: seq<State>, c: char, list: seq<nat>, i: nat, total: nat, fuel: nat, next: Turn)
    requires i < total && fuel > 0 && CanIndex(states, list, i)
    requires HelperTurn(states, c, list, i, total) == next && next.Continue?
    ensures HelperLoop(states, c, list, i, total, fuel) == HelperLoop(states, c, next.list, next.i, next.total, fuel - 1)
  {
  }

  /* ----- Fuel is only a bound ----- */

  lemma {:induction false} HelperFuel(states: seq<State>, c: char, list: seq<nat>, i: nat, total: nat, fuel: nat, more: nat)
    requires fuel <= more
    requires HelperLoop(states, c, list, i, total, fuel) != FuelOut
    ensures HelperLoop(states, c, list, i, total, more) == HelperLoop(states, c, list, i, total, fuel)
    decreases fuel, 1
  {
    if i < total && fuel > 0 && CanIndex(states, list, i) {
      ProceedFuel(states, c, list, HelperTurn(states, c, list, i, total), fuel - 1, more - 1);
    }
  }

  lemma {:induction false} ProceedFuel(states: seq<State>, c: char, list: seq<nat>, t: Turn, fuel: nat, more: nat)
    requires fuel <= more
    requires Proceed(states, c, list, t, fuel) != FuelOut
    ensures Proceed(states, c, list, t, more) == Proceed(states, c, list, t, fuel)
    decreases fuel, 2
  {
    if t.Continue? {
      HelperFuel(states, c, t.list, t.i, t.total, fuel, more);
    }
  }

  lemma {:induction false} EmptyFuel(states: seq<State>, list: seq<nat>, i: nat, fuel: nat, more: nat)
    requires fuel <= more
    requires EmptyLoop(states, list, i, fuel) != FuelOut
    ensures EmptyLoop(states, list, i, more) == EmptyLoop(states, list, i, fuel)
    decreases fuel
  {
    if i < 2 && fuel > 0 && CanIndex(states, list, i) {
      var t := EmptyTurn(states, list, i);
      if t.Continue? {
        EmptyFuel(states, t.list, t.i, fuel - 1, more - 1);
      }
    }
  }

  lemma {:induction false} StepsFuel(states: seq<State>, list: seq<nat>, input: seq<char>, fuel: nat, more: nat)
    requires fuel <= more
    requires Steps(states, list, input, fuel) != FuelOut
    ensures Steps(states, list, input, more) == Steps(states, list, input, fuel)
    decreases |input|
  {
    if input != [] {
      HelperFuel(states, input[0], list, 0, |list|, fuel, more);
      match HelperLoop(states, input[0], list, 0, |list|, fuel)
      case Settled(next) => StepsFuel(states, next, input[1..], fuel, more);
      case _ =>
    }
  }

  /** Reading `u` and then `v` is reading `u + v`: each character only
      sees the list the previous one left. */
  lemma {:induction false} StepsAppend(states: seq<State>, list: seq<nat>, u: seq<char>, v: seq<char>, fuel: nat)
    ensures Steps(states, list, u + v, fuel)
         == match Steps(states, list, u, fuel)
            case Settled(next) => Steps(states, next, v, fuel)
            case stop => stop
    decreases |u|
  {
    if u == [] {
      assert u + v == v;
    } else {
      assert (u + v)[0] == u[0] && (u + v)[1..] == u[1..] + v;
      match HelperLoop(states, u[0], list, 0, |list|, fuel)
      case Settled(next) => StepsAppend(states, next, u[1..], v, fuel);
      case _ =>
    }
  }

  /** A verdict reached with some fuel is the verdict with any more fuel. */
  lemma {:induction false} RunFuel(states: seq<State>, start: nat, input: seq<char>, fuel: nat, more: nat)
    requires fuel <= more
    requires Run(states, start, input, fuel) != OutOfFuel
    ensures Run(states, start, input, more) == Run(states, start, input, fuel)
  {
    StepsFuel(states, [start], input, fuel, more);
    match Steps(states, [start], input, fuel)
    case Settled(list) =>
      if |list| > 0 {
        EmptyFuel(states, list, 0, fuel, more);
      }
    case _ =>
  }

  /* ----- Ids stay inside a wired arena ----- */

  /** A turn of `accept_helper` on a wired arena only brings in ids of
      the arena. */
  lemma {:induction false} HelperTurnInRange(states: seq<State>, c: char, list: seq<nat>, i: nat, total: nat)
    requires AllWired(states) && AllIn(list, |states|) && CanIndex(states, list, i)
    ensures HelperTurn(states, c, list, i, total).Continue? ==>
              AllIn(HelperTurn(states, c, list, i, total).list, |states|)
  {
    assert Wired(states[list[i]], |states|);
  }

  lemma {:induction false} HelperInRange(states: seq<State>, c: char, list: seq<nat>, i: nat, total: nat, fuel: nat)
    requires AllWired(states) && AllIn(list, |states|)
    ensures HelperLoop(states, c, list, i, total, fuel).Settled? ==>
              AllIn(HelperLoop(states, c, list, i, total, fuel).ids, |states|)
    decreases fuel
  {
    if i < total && fuel > 0 && CanIndex(states, list, i) {
      HelperTurnInRange(states, c, list, i, total);
      match HelperTurn(states, c, list, i, total)
      case Continue(list', i', total') => HelperInRange(states, c, list', i', total', fuel - 1);
      case Halt =>
    }
  }

  /** A turn of `empty_str` on a wired arena only brings in ids of the arena,
      and grows the list by one exactly when it advances. */
  lemma {:induction false} EmptyTurnInRange(states: seq<State>, list: seq<nat>, i: nat)
    requires AllWired(states) && AllIn(list, |states|) && CanIndex(states, list, i)
    ensures EmptyTurn(states, list, i).Continue? ==>
              && AllIn(EmptyTurn(states, list, i).list, |states|)
              && |EmptyTurn(states, list, i).list| == |list| + EmptyTurn(states, list, i).i - i
  {
    assert Wired(states[list[i]], |states|);
  }

  /** On a wired arena, `empty_str` started on a non-empty list never reads
      past the list, and keeps every id inside the arena. */
  lemma {:induction false} EmptyInRange(states: seq<State>, list: seq<nat>, i: nat, fuel: nat)
    requires AllWired(states) && AllIn(list, |states|)
    requires i <= 1 ==> i < |list|
    ensures EmptyLoop(states, list, i, fuel) != IndexPanic
    ensures EmptyLoop(states, list, i, fuel).Settled? ==> AllIn(EmptyLoop(states, list, i, fuel).ids, |states|)
    decreases fuel
  {
    if i < 2 && fuel > 0 {
      EmptyTurnInRange(states, list, i);
      var turn := EmptyTurn(states, list, i);
      if turn.Continue? {
        EmptyInRange(states, turn.list, turn.i, fuel - 1);
      }
    }
  }

  lemma {:induction false} StepsInRange(states: seq<State>, list: seq<nat>, input: seq<char>, fuel: nat)
    requires AllWired(states) && AllIn(list, |states|)
    ensures Steps(states, list, input, fuel).Settled? ==> AllIn(Steps(states, list, input, fuel).ids, |states|)
    decreases |input|
  {
    if input != [] {
      HelperInRange(states, input[0], list, 0, |list|, fuel);
      var w := HelperLoop(states, input[0], list, 0, |list|, fuel);
      if w.Settled? {
        StepsInRange(states, w.ids, input[1..], fuel);
      }
    }
  }

  /** On a well-formed automaton, `accepts` can only panic inside
      `accept_helper`: `empty_str` and the final scan never do. */
  lemma {:induction false} PanicOnlyInHelper(a: Automaton, input: seq<char>, fuel: nat)
    requires WellFormed(a)
    ensures Accepts(a, input, fuel) == Panic ==> Steps(a.states, [a.start], input, fuel) == IndexPanic
  {
    StepsInRange(a.states, [a.start], input, fuel);
    var w := Steps(a.states, [a.start], input, fuel);
    if w.Settled? && |w.ids| > 0 {
      EmptyInRange(a.states, w.ids, 0, fuel);
    }
  }

  /* ----- The End branch of `accept_helper`, repaired ----- */

  /** One turn of `accept_helper` with the End branch repaired: the End entry
      is removed, the position stays on the entry that moved into its place,
      and one entry fewer is left to visit. */
  function HelperTurnFixed(states: seq<State>, c: char, list: seq<nat>, i: nat, total: nat): Turn
    requires CanIndex(states, list, i) && i < total
  {
    if states[list[i]].End? then Continue(Remove(list, i), i, total - 1)
    else HelperTurn(states, c, list, i, total)
  }

  /** The loop of `accept_helper` with the repaired End branch. */
  function HelperLoopFixed(states: seq<State>, c: char, list: seq<nat>, i: nat, total: nat, fuel: nat): Worklist
    decreases fuel
  {
    if i >= total then Settled(list)
    else if fuel == 0 then FuelOut
    else if !CanIndex(states, list, i) then IndexPanic
    else
      match HelperTurnFixed(states, c, list, i, total)
      case Continue(list', i', total') => HelperLoopFixed(states, c, list', i', total', fuel - 1)
      case Halt => Settled(list)
  }

  /** A repaired turn keeps the count of entries to visit equal to the
      length of the list, and the position within it. */
  lemma {:induction false} HelperTurnFixedKeeps(states: seq<State>, c: char, list: seq<nat>, i: nat, total: nat)
    requires AllWired(states) && AllIn(list, |states|) && i < total == |list|
    requires CanIndex(states, list, i)
    ensures HelperTurnFixed(states, c, list, i, total).Continue? ==>
              var t := HelperTurnFixed(states, c, list, i, total);
              AllIn(t.list, |states|) && t.i <= t.total == |t.list|
  {
    HelperTurnInRange(states, c, list, i, total);
  }

  /** The repaired loop never reads past the list on a wired arena, when it
      starts, as `accept_helper` does, with the count equal to the length. */
  lemma {:induction false} FixedNeverPanics(states: seq<State>, c: char, list: seq<nat>, i: nat, total: nat, fuel: nat)
    requires AllWired(states) && AllIn(list, |states|) && i <= total == |list|
    ensures HelperLoopFixed(states, c, list, i, total, fuel) != IndexPanic
    ensures HelperLoopFixed(states, c, list, i, total, fuel).Settled? ==>
              AllIn(HelperLoopFixed(states, c, list, i, total, fuel).ids, |states|)
    decreases fuel
  {
    if i < total && fuel > 0 {
      HelperTurnFixedKeeps(states, c, list, i, total);
      var turn := HelperTurnFixed(states, c, list, i, total);
      if turn.Continue? {
        FixedNeverPanics(states, c, turn.list, turn.i, turn.total, fuel - 1);
      }
    }
  }

  /** `accepts` with the repaired loop in place of `accept_helper`. */
  function StepsFixed(states: seq<State>, list: seq<nat>, input: seq<char>, fuel: nat): Worklist
    decreases |input|
  {
    if input == [] then Settled(list)
    else
      match HelperLoopFixed(states, input[0], list, 0, |list|, fuel)
      case Settled(next) => StepsFixed(states, next, input[1..], fuel)
      case stop => stop
  }

  function RunFixed(states: seq<State>, start: nat, input: seq<char>, fuel: nat): Verdict {
    match StepsFixed(states, [start], input, fuel)
    case Settled(list) =>
      if |list| > 0 then
        match EmptyLoop(states, list, 0, fuel)
        case Settled(last) => FinalVerdict(states, last)
        case stop => Stopped(stop)
      else FinalVerdict(states, list)
    case stop => Stopped(stop)
  }

  lemma {:induction false} StepsFixedInRange(states: seq<State>, list: seq<nat>, input: seq<char>, fuel: nat)
    requires AllWired(states) && AllIn(list, |states|)
    ensures StepsFixed(states, list, input, fuel) != IndexPanic
    ensures StepsFixed(states, list, input, fuel).Settled? ==> AllIn(StepsFixed(states, list, input, fuel).ids, |states|)
    decreases |input|
  {
    if input != [] {
      FixedNeverPanics(states, input[0], list, 0, |list|, fuel);
      var w := HelperLoopFixed(states, input[0], list, 0, |list|, fuel);
      if w.Settled? {
        StepsFixedInRange(states, w.ids, input[1..], fuel);
      }
    }
  }

  /** With the repaired loop, `accepts` on a well-formed automaton never
      panics, whatever the input: it accepts, rejects, or runs out of fuel. */
  lemma {:induction false} RunFixedNeverPanics(a: Automaton, input: seq<char>, fuel: nat)
    requires WellFormed(a)
    ensures RunFixed(a.states, a.start, input, fuel) != Panic
  {
    StepsFixedInRange(a.states, [a.start], input, fuel);
    var w := StepsFixed(a.states, [a.start], input, fuel);
    if w.Settled? && |w.ids| > 0 {
      EmptyInRange(a.states, w.ids, 0, fuel);
    }
  }
}
