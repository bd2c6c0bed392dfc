/** The subset construction as the library runs it: a worklist of numbered
    sets of nondeterministic states, expanded symbol by symbol into the arcs
    of a fresh automaton. Each step keeps the invariants of the subset
    construction, so the result is a subset automaton of the input. */
module Determinize {
  import opened Base
  import opened Collections
  import opened Language
  import opened Automaton
  import opened SubsetConstruction
  import Engine

  /** Gives the set `next` its number: the existing one, or the next free
      number, in which case the set is also put on the worklist. */
  method Number(ghost A: Nfa, ids: map<set<State>, State>, ghost sub: map<State, set<State>>, last: State,
                stack: seq<(set<State>, State)>, next: set<State>)
    returns (ids': map<set<State>, State>, ghost sub': map<State, set<State>>, last': State,
             stack': seq<(set<State>, State)>, to: State)
    requires Registry(A, ids, sub, last) && Tracked(sub, stack)
    requires next != {} && next <= Universe(A)
    ensures Registry(A, ids', sub', last') && Tracked(sub', stack') && Extends(sub, sub')
    ensures to in sub' && sub'[to] == next
    ensures to in sub ==> ids' == ids && sub' == sub && last' == last && stack' == stack
    ensures to !in sub ==> last < to && ids.Keys < ids'.Keys && Pending(stack') == Pending(stack) + {to}
    ensures to !in sub ==> sub'.Keys == sub.Keys + {to}
    ensures ids.Keys <= ids'.Keys
  {
    if next in ids {
      to := ids[next];
      ids', sub', last', stack' := ids, sub, last, stack;
    } else {
      last' := last + 1;
      to := last';
      ids' := ids[next := to];
      sub' := sub[to := next];
      stack' := stack + [(next, to)];
      assert stack'[..|stack|] == stack;
      assert next in ids'.Keys - ids.Keys;
    }
  }

  /** Draws the arc `t` and marks its target final when `final`. */
  method Draw(dfa: FiniteAutomaton, t: Transition, final: bool)
    requires dfa.Valid()
    modifies dfa, dfa.transitions
    ensures dfa.Valid()
    ensures dfa.Model() == WithArc(old(dfa.Model()), t, final)
  {
    var added := dfa.AddTransition(t.from, t.sym, t.to);
    if final {
      var known := dfa.SetFinalState(t.to, true);
    }
  }

  /** Marks state 1 as the start state, and as final when `final`. */
  method MarkSeed(dfa: FiniteAutomaton, final: bool)
    requires dfa.Valid() && dfa.Model().starts == {}
    modifies dfa
    ensures dfa.Valid()
    ensures dfa.Model().trans == old(dfa.Model().trans)
    ensures dfa.Model().starts == if 1 in Endpoints(old(dfa.Model().trans)) then {1} else {}
    ensures dfa.Model().finals == if 1 in Endpoints(old(dfa.Model().trans)) && final
                                  then old(dfa.Model().finals) + {1} else old(dfa.Model().finals)
  {
    var known := dfa.SetStartState(1, true);
    if final {
      known := dfa.SetFinalState(1, true);
    }
  }

  /** One symbol of the expansion of the popped number `p`, whose set is
      `X`: the closure of the successors is numbered (and queued when new),
      the arc is drawn and its target marked final when the set meets the
      final states. ε and symbols without successors are skipped. */
  method ExpandSymbol(nfa: FiniteAutomaton, dfa: FiniteAutomaton, ghost A: Nfa, X: set<State>, p: State,
                      symbol: Symbol, ghost S: set<Symbol>, ids: map<set<State>, State>,
                      ghost sub: map<State, set<State>>, last: State, stack: seq<(set<State>, State)>)
    returns (ids': map<set<State>, State>, ghost sub': map<State, set<State>>, last': State,
             stack': seq<(set<State>, State)>)
    requires nfa.Valid() && nfa.Model() == A && dfa.Valid()
    requires dfa != nfa && dfa.transitions != nfa.transitions
    requires Expanding(A, dfa.Model(), ids, sub, last, stack, p, S) && sub[p] == X
    modifies dfa, dfa.transitions
    ensures dfa.Valid()
    ensures Expanding(A, dfa.Model(), ids', sub', last', stack', p, S + {symbol}) && Extends(sub, sub')
    ensures ids.Keys <= ids'.Keys && (ids.Keys < ids'.Keys || stack' == stack)
  {
    ghost var D := dfa.Model();
    ids', sub', last', stack' := ids, sub, last, stack;
    var next: set<State> := {};
    if symbol != Epsilon {
      next := Engine.GetNextStates(nfa, X, symbol);
      next := Engine.CloseAll(nfa, next);
    }
    if next == {} {
      ExpandingSkip(A, D, ids, sub, last, stack, p, S, symbol);
      return;
    }
    var isFinal := next * nfa.finalStates != {};
    assert next <= Universe(A);
    var to;
    ids', sub', last', stack', to := Number(A, ids, sub, last, stack, next);
    Draw(dfa, Transition(p, symbol, to), isFinal);
    ExpandingAdd(A, D, dfa.Model(), ids, sub, last, stack, ids', sub', last', stack', p, S, symbol, to);
  }

  /** The expansion of the popped number `p` over every known symbol. */
  method Expand(nfa: FiniteAutomaton, dfa: FiniteAutomaton, ghost A: Nfa, X: set<State>, p: State,
                ids: map<set<State>, State>, ghost sub: map<State, set<State>>, last: State,
                stack: seq<(set<State>, State)>)
    returns (ids': map<set<State>, State>, ghost sub': map<State, set<State>>, last': State,
             stack': seq<(set<State>, State)>)
    requires nfa.Valid() && nfa.Model() == A && dfa.Valid()
    requires dfa != nfa && dfa.transitions != nfa.transitions
    requires Expanding(A, dfa.Model(), ids, sub, last, stack, p, {}) && sub[p] == X
    modifies dfa, dfa.transitions
    ensures dfa.Valid()
    ensures Building(A, dfa.Model(), ids', sub', last', stack')
    ensures ids.Keys <= ids'.Keys && (ids.Keys < ids'.Keys || stack' == stack)
  {
    var symbols := nfa.ForeachSymbol();
    ids', sub', last', stack' := ids, sub, last, stack;
    var i := 0;
    while i < |symbols|
      invariant 0 <= i <= |symbols|
      invariant dfa.Valid()
      invariant Expanding(A, dfa.Model(), ids', sub', last', stack', p, Elements(symbols[..i]))
      invariant Extends(sub, sub')
      invariant ids.Keys <= ids'.Keys && (ids.Keys < ids'.Keys || stack' == stack)
    {
      ElementsStep(symbols, i);
      ghost var keys := ids'.Keys;
      ids', sub', last', stack' :=
        ExpandSymbol(nfa, dfa, A, X, p, symbols[i], Elements(symbols[..i]), ids', sub', last', stack');
      GrowChain(ids.Keys, keys, ids'.Keys);
      i := i + 1;
    }
    ElementsAll(symbols);
    ExpandingDone(A, dfa.Model(), ids', sub', last', stack', p, Elements(symbols));
  }

  /** Pops the last queued number and expands it. Either a new set was
      numbered, or the worklist got shorter. */
  method ExploreStep(nfa: FiniteAutomaton, dfa: FiniteAutomaton, ghost A: Nfa, ids: map<set<State>, State>,
                     ghost sub: map<State, set<State>>, last: State, stack: seq<(set<State>, State)>)
    returns (ids': map<set<State>, State>, ghost sub': map<State, set<State>>, last': State,
             stack': seq<(set<State>, State)>)
    requires nfa.Valid() && nfa.Model() == A && dfa.Valid()
    requires dfa != nfa && dfa.transitions != nfa.transitions
    requires Building(A, dfa.Model(), ids, sub, last, stack) && stack != []
    modifies dfa, dfa.transitions
    ensures dfa.Valid()
    ensures Building(A, dfa.Model(), ids', sub', last', stack')
    ensures |Subsets(Universe(A)) - ids'.Keys| < |Subsets(Universe(A)) - ids.Keys|
            || (ids'.Keys == ids.Keys && |stack'| < |stack|)
  {
    BuildingPop(A, dfa.Model(), ids, sub, last, stack);
    var (current, fromState) := stack[|stack| - 1];
    ids', sub', last', stack' := Expand(nfa, dfa, A, current, fromState, ids, sub, last, stack[..|stack| - 1]);
    Progress(Universe(A), ids.Keys, ids'.Keys, |stack|, |stack'|);
  }

  /** Pops and expands numbers until the worklist is empty. Only new sets
      are queued, and they are drawn from the subsets of the universe. */
  method Explore(nfa: FiniteAutomaton, dfa: FiniteAutomaton, ghost A: Nfa, ids: map<set<State>, State>,
                 ghost sub: map<State, set<State>>, last: State, stack: seq<(set<State>, State)>)
    returns (ids': map<set<State>, State>, ghost sub': map<State, set<State>>, last': State)
    requires nfa.Valid() && nfa.Model() == A && dfa.Valid()
    requires dfa != nfa && dfa.transitions != nfa.transitions
    requires Building(A, dfa.Model(), ids, sub, last, stack)
    modifies dfa, dfa.transitions
    ensures dfa.Valid()
    ensures Building(A, dfa.Model(), ids', sub', last', [])
  {
    ids', sub', last' := ids, sub, last;
    var toProcess := stack;
    while toProcess != []
      invariant dfa.Valid()
      invariant Building(A, dfa.Model(), ids', sub', last', toProcess)
      decreases |Subsets(Universe(A)) - ids'.Keys|, |toProcess|
    {
      ids', sub', last', toProcess := ExploreStep(nfa, dfa, A, ids', sub', last', toProcess);
    }
  }

  /** The deterministic automaton of the subset construction: empty when
      there is no start state, otherwise numbered from 1 for the closure of
      all start states. */
  method ToDeterministic(nfa: FiniteAutomaton) returns (dfa: FiniteAutomaton)
    requires nfa.Valid()
    ensures fresh(dfa) && fresh(dfa.transitions) && dfa.Valid()
    ensures nfa.Model().starts == {} ==> dfa.Model() == Nfa({}, {}, {})
    ensures nfa.Model().starts != {} ==> exists sub :: IsSubsetAutomaton(nfa.Model(), dfa.Model(), sub)
  {
    if nfa.StartStateCount() == 0 {
      dfa := new FiniteAutomaton();
      return;
    }
    ghost var sub;
    dfa, sub := Construct(nfa);
  }

  /** Numbers the closure of the start states 1 and queues it. */
  method Start(nfa: FiniteAutomaton)
    returns (current: set<State>, ids: map<set<State>, State>, ghost sub: map<State, set<State>>,
             stack: seq<(set<State>, State)>)
    requires nfa.Valid() && nfa.Model().starts != {}
    ensures current == Seed(nfa.Model())
    ensures Building(nfa.Model(), Nfa({}, {}, {}), ids, sub, 1, stack)
  {
    current := Engine.CloseAll(nfa, nfa.startStates);
    ids := map[current := 1];
    sub := map[1 := current];
    stack := [(current, 1)];
    BuildingInit(nfa.Model());
  }

  /** Numbers the closure of the start states 1, explores from it into a
      fresh automaton, and marks state 1 as the start state, and final when
      its set meets the final states. */
  method Construct(nfa: FiniteAutomaton) returns (dfa: FiniteAutomaton, ghost sub: map<State, set<State>>)
    requires nfa.Valid() && nfa.Model().starts != {}
    ensures fresh(dfa) && fresh(dfa.transitions) && dfa.Valid()
    ensures IsSubsetAutomaton(nfa.Model(), dfa.Model(), sub)
  {
    ghost var A := nfa.Model();
    var current, ids, stack;
    current, ids, sub, stack := Start(nfa);
    dfa := new FiniteAutomaton();
    var last;
    ids, sub, last := Explore(nfa, dfa, A, ids, sub, 1, stack);
    assert nfa.Model() == A;
    ghost var D := dfa.Model();
    MarkSeed(dfa, current * nfa.finalStates != {});
    BuildingFinish(A, D, dfa.Model(), ids, sub, last);
  }

  /** Minimisation is the subset construction. */
  method Minimize(nfa: FiniteAutomaton) returns (dfa: FiniteAutomaton)
    requires nfa.Valid()
    ensures fresh(dfa) && fresh(dfa.transitions) && dfa.Valid()
    ensures nfa.Model().starts == {} ==> dfa.Model() == Nfa({}, {}, {})
    ensures nfa.Model().starts != {} ==> exists sub :: IsSubsetAutomaton(nfa.Model(), dfa.Model(), sub)
  {
    dfa := ToDeterministic(nfa);
  }
}
