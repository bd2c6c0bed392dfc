/** The read-only algorithms of the nondeterministic automaton: the ε-closure
    of a state, the one-symbol successor set, word acceptance and the
    determinism test. The automaton class adds no fields to the general
    automaton, so each operation takes that automaton as its receiver. */
module Engine {
  import opened Base
  import opened Collections
  import opened Language
  import opened Automaton

  /** Marks the members of `connected` not yet in `processed` and pushes each
      of them once onto the stack. */
  method PushUnseen(processed: set<State>, toProcess: seq<State>, connected: set<State>)
    returns (processed': set<State>, toProcess': seq<State>)
    ensures processed' == processed + connected
    ensures Elements(toProcess') == Elements(toProcess) + (connected - processed)
    ensures connected <= processed ==> toProcess' == toProcess
  {
    processed', toProcess' := processed, toProcess;
    var rest := connected;
    while rest != {}
      invariant rest <= connected
      invariant processed' == processed + (connected - rest)
      invariant Elements(toProcess') == Elements(toProcess) + ((connected - rest) - processed)
      invariant connected <= processed ==> toProcess' == toProcess
      decreases rest
    {
      var conn :| conn in rest;
      if conn !in processed' {
        assert Elements(toProcess' + [conn]) == Elements(toProcess') + {conn};
        processed' := processed' + {conn};
        toProcess' := toProcess' + [conn];
      }
      rest := rest - {conn};
    }
  }

  /** Every state that is processed and no longer waits on the stack has all
      of its ε-successors processed. */
  ghost predicate Settled(T: set<Transition>, processed: set<State>, stack: seq<State>)
  {
    forall x :: x in processed && x !in Elements(stack) ==> Post(T, {x}, Epsilon) <= processed
  }

  /** Popping `current` and pushing its unseen ε-successors keeps the
      processed states settled. */
  lemma SettleStep(T: set<Transition>, before: set<State>, popped: seq<State>, current: State,
                   processed: set<State>, stack: seq<State>)
    requires Settled(T, before, popped + [current]) && current in before
    requires processed == before + Post(T, {current}, Epsilon)
    requires Elements(stack) == Elements(popped) + (Post(T, {current}, Epsilon) - before)
    ensures Settled(T, processed, stack)
  {
    forall x | x in processed && x !in Elements(stack)
      ensures Post(T, {x}, Epsilon) <= processed
    {
      if x != current {
        assert x in before && x !in Elements(popped + [current]);
      }
    }
  }

  /** With nothing left on the stack, the processed states are ε-closed. */
  lemma SettledClosed(T: set<Transition>, processed: set<State>)
    requires Settled(T, processed, [])
    ensures Closed(T, processed)
  {
    forall y | y in Post(T, processed, Epsilon)
      ensures y in processed
    {
      var t :| t in T && t.from in processed && t.sym == Epsilon && t.to == y;
      assert y in Post(T, {t.from}, Epsilon);
    }
  }

  /** The ε-successors of a member of a closed set stay in it. */
  lemma ClosedStep(T: set<Transition>, C: set<State>, current: State)
    requires Closed(T, C) && current in C
    ensures Post(T, {current}, Epsilon) <= C
  {
    assert Post(T, {current}, Epsilon) <= Post(T, C, Epsilon);
  }

  /** Marking a new state of `C` brings the unmarked part of `C` down. */
  lemma MarkProgress(C: set<State>, before: set<State>, connected: set<State>)
    requires connected <= C && !(connected <= before)
    ensures |C - (before + connected)| < |C - before|
  {
    var x :| x in connected && x !in before;
    assert x in C - before && x !in C - (before + connected);
    StrictSubsetCard(C - (before + connected), C - before);
  }

  /** One round of the search: `current` has been popped off the stack and
      its ε-successors looked up; the unseen ones are marked and pushed. */
  method Visit(ghost T: set<Transition>, ghost C: set<State>, processed: set<State>, popped: seq<State>,
               current: State, connected: Option<set<State>>)
    returns (processed': set<State>, toProcess': seq<State>)
    requires Closed(T, C) && current in processed && processed <= C
    requires Elements(popped) <= processed && Settled(T, processed, popped + [current])
    requires connected.Some? ==> connected.value == Post(T, {current}, Epsilon)
    requires connected.None? ==> Post(T, {current}, Epsilon) == {}
    ensures processed <= processed' <= C
    ensures Elements(toProcess') <= processed' && Settled(T, processed', toProcess')
    ensures |C - processed'| < |C - processed| || (processed' == processed && toProcess' == popped)
  {
    processed', toProcess' := processed, popped;
    if connected.Some? {
      ClosedStep(T, C, current);
      processed', toProcess' := PushUnseen(processed, popped, connected.value);
      if connected.value <= processed {
        assert processed' == processed;
      } else {
        MarkProgress(C, processed, connected.value);
      }
    }
    SettleStep(T, processed, popped, current, processed', toProcess');
  }

  /** The ε-closure of `state`, by depth-first search with an explicit stack:
      a state is pushed exactly when it is first seen. */
  method Eclose(nfa: FiniteAutomaton, state: State) returns (processed: set<State>)
    requires nfa.transitions.Valid()
    ensures processed == Closure(nfa.Model().trans, {state})
  {
    ghost var T := nfa.Model().trans;
    ghost var C := Closure(T, {state});
    processed := {state};
    var toProcess := [state];
    while toProcess != []
      invariant state in processed && processed <= C
      invariant Elements(toProcess) <= processed
      invariant Settled(T, processed, toProcess)
      decreases |C - processed|, |toProcess|
    {
      var current := toProcess[|toProcess| - 1];
      var popped := toProcess[..|toProcess| - 1];
      SplitLast(toProcess);
      toProcess := popped;
      var connected := nfa.Lookup(current, Epsilon);
      processed, toProcess := Visit(T, C, processed, popped, current, connected);
    }
    SettledClosed(T, processed);
    ClosureLeast(T, {state}, processed);
  }

  /** The union of the `symbol`-successors of the given states. */
  method GetNextStates(nfa: FiniteAutomaton, currentStates: set<State>, symbol: Symbol)
    returns (nextStates: set<State>)
    requires nfa.transitions.Valid()
    ensures nextStates == Post(nfa.Model().trans, currentStates, symbol)
  {
    ghost var T := nfa.Model().trans;
    nextStates := {};
    var rest := currentStates;
    ghost var done: set<State> := {};
    while rest != {}
      invariant done + rest == currentStates && done !! rest
      invariant nextStates == Post(T, done, symbol)
      decreases rest
    {
      var current :| current in rest;
      var temp := nfa.Lookup(current, symbol);
      if temp.Some? {
        nextStates := nextStates + temp.value;
      }
      PostUnion(T, done, {current}, symbol);
      done := done + {current};
      rest := rest - {current};
    }
    assert done == currentStates;
  }

  /** The union of the ε-closures of the given states, one state at a time:
      the closure of the set. */
  method CloseAll(nfa: FiniteAutomaton, S: set<State>) returns (closed: set<State>)
    requires nfa.transitions.Valid()
    ensures closed == Closure(nfa.Model().trans, S)
  {
    ghost var T := nfa.Model().trans;
    closed := {};
    var rest := S;
    ghost var done: set<State> := {};
    assert Closure(T, done) == {} by {
      assert Closed(T, {});
      ClosureOfClosed(T, {});
    }
    while rest != {}
      invariant done + rest == S && done !! rest
      invariant closed == Closure(T, done)
      decreases rest
    {
      var start :| start in rest;
      var startSet := Eclose(nfa, start);
      closed := closed + startSet;
      ClosureUnion(T, done, {start});
      done := done + {start};
      rest := rest - {start};
    }
    assert done == S;
  }

  /** Reads the word from the closure of the start states, skipping ε
      entries and closing after every real symbol, then asks whether a final
      state was reached. */
  method Accepts(nfa: FiniteAutomaton, word: seq<Symbol>) returns (accepted: bool)
    requires nfa.Valid()
    ensures accepted <==> Language.Accepts(nfa.Model(), word)
  {
    ghost var T := nfa.Model().trans;
    ghost var S0 := Closure(T, nfa.startStates);
    var currentStates := CloseAll(nfa, nfa.startStates);
    var i := 0;
    while i < |word|
      invariant 0 <= i <= |word|
      invariant currentStates == Run(T, S0, word[..i])
    {
      RunStep(T, S0, word, i);
      if word[i] != Epsilon {
        var next := GetNextStates(nfa, currentStates, word[i]);
        currentStates := CloseAll(nfa, next);
      }
      i := i + 1;
    }
    assert word[..i] == word;
    accepted := currentStates * nfa.finalStates != {};
  }

  /** Whether `state` is alone in its ε-closure. */
  method IsAlone(nfa: FiniteAutomaton, state: State) returns (alone: bool)
    requires nfa.transitions.Valid()
    ensures alone <==> Alone(nfa.Model().trans, state)
  {
    var closure := Eclose(nfa, state);
    alone := |closure| <= 1;
  }

  /** Whether each of the given states is alone in its ε-closure; stops at
      the first that is not. */
  method AllAlone(nfa: FiniteAutomaton, states: set<State>) returns (r: bool)
    requires nfa.Valid()
    ensures r <==> forall s :: s in states ==> Alone(nfa.Model().trans, s)
  {
    ghost var T := nfa.Model().trans;
    var rest := states;
    ghost var done: set<State> := {};
    while rest != {}
      invariant done + rest == states
      invariant forall s :: s in done ==> Alone(T, s)
      decreases rest
    {
      var state :| state in rest;
      var alone := IsAlone(nfa, state);
      if !alone {
        return false;
      }
      done := done + {state};
      rest := rest - {state};
    }
    return true;
  }

  /** At most one start state, a functional transition relation, and every
      known state alone in its ε-closure. */
  method IsDeterministic(nfa: FiniteAutomaton) returns (r: bool)
    requires nfa.Valid()
    ensures r <==> DeterministicNfa(nfa.Model())
  {
    var starts := nfa.StartStateCount();
    if starts > 1 {
      return false;
    }
    var functional := nfa.transitions.IsDeterministic();
    if !functional {
      return false;
    }
    r := AllAlone(nfa, nfa.states.Keys);
  }
}
