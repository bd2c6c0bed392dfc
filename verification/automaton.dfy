/** The general finite automaton: a transition relation together with the
    bookkeeping the library keeps beside it — a reference count per state and
    per symbol, and the start and final state sets. */
module Automaton {
  import opened Base
  import opened Collections
  import opened Transitions
  import opened Language

  /** `++m[k]`, inserting a zero count first when `k` is absent. */
  function Increment<K>(m: map<K, nat>, k: K): map<K, nat>
  {
    m[k := (if k in m then m[k] else 0) + 1]
  }

  /** `--m[k]`, erasing the entry when the count reaches zero. */
  function Decrement<K>(m: map<K, nat>, k: K): (r: map<K, nat>)
    requires k in m && m[k] >= 1
    ensures r.Keys == if m[k] == 1 then m.Keys - {k} else m.Keys
  {
    if m[k] == 1 then m - {k} else m[k := m[k] - 1]
  }

  /** `m` counts, for exactly the endpoints of `T`, the arc endpoints at
      each state (a self-loop counts twice). */
  ghost predicate CountsStates(m: map<State, nat>, T: set<Transition>)
  {
    m.Keys == Endpoints(T) && forall s :: s in m ==> m[s] == Degree(T, s)
  }

  /** `m` counts, for exactly the labels of `T`, the arcs each one labels. */
  ghost predicate CountsSymbols(m: map<Symbol, nat>, T: set<Transition>)
  {
    m.Keys == Labels(T) && forall b :: b in m ==> m[b] == |Labelled(T, b)|
  }

  /** A state is an endpoint exactly when its degree is positive. */
  lemma DegreePositive(T: set<Transition>, s: State)
    ensures s in Endpoints(T) <==> Degree(T, s) > 0
  {
    if s in Sources(T) {
      var t :| t in T && t.from == s;
      assert t in Outgoing(T, s);
    } else if s in Targets(T) {
      var t :| t in T && t.to == s;
      assert t in Incoming(T, s);
    } else {
      assert Outgoing(T, s) == {};
      assert Incoming(T, s) == {};
    }
  }

  /** A symbol labels an arc exactly when its label count is positive. */
  lemma LabelPositive(T: set<Transition>, b: Symbol)
    ensures b in Labels(T) <==> |Labelled(T, b)| > 0
  {
    if b in Labels(T) {
      var t :| t in T && t.sym == b;
      assert t in Labelled(T, b);
    } else {
      assert Labelled(T, b) == {};
    }
  }

  /** A new arc adds one to the degree of each of its endpoints. */
  lemma DegreeInsert(T: set<Transition>, arc: Transition, s: State)
    requires arc !in T
    ensures Degree(T + {arc}, s) ==
      Degree(T, s) + (if arc.from == s then 1 else 0) + (if arc.to == s then 1 else 0)
  {
    if arc.from == s {
      assert Outgoing(T + {arc}, s) == Outgoing(T, s) + {arc};
    } else {
      assert Outgoing(T + {arc}, s) == Outgoing(T, s);
    }
    if arc.to == s {
      assert Incoming(T + {arc}, s) == Incoming(T, s) + {arc};
    } else {
      assert Incoming(T + {arc}, s) == Incoming(T, s);
    }
  }

  /** Incrementing the counts of both endpoints of a new arc yields the
      counts of the grown relation. */
  lemma CountsStatesInsert(m: map<State, nat>, T: set<Transition>, arc: Transition)
    requires CountsStates(m, T) && arc !in T
    ensures CountsStates(Increment(Increment(m, arc.from), arc.to), T + {arc})
  {
    var r := Increment(Increment(m, arc.from), arc.to);
    assert Endpoints(T + {arc}) == Endpoints(T) + {arc.from, arc.to};
    forall s | s in r
      ensures r[s] == Degree(T + {arc}, s)
    {
      DegreeInsert(T, arc, s);
      DegreePositive(T, s);
    }
  }

  /** Decrementing the counts of both endpoints of a removed arc, erasing a
      count that reaches zero, yields the counts of the shrunk relation. */
  lemma CountsStatesRemove(m: map<State, nat>, T: set<Transition>, arc: Transition)
    requires CountsStates(m, T) && arc in T
    ensures arc.from in m && m[arc.from] >= 1
    ensures arc.to in Decrement(m, arc.from) && Decrement(m, arc.from)[arc.to] >= 1
    ensures CountsStates(Decrement(Decrement(m, arc.from), arc.to), T - {arc})
  {
    var U := T - {arc};
    DegreeInsert(U, arc, arc.from);
    DegreeInsert(U, arc, arc.to);
    assert U + {arc} == T;
    var r := Decrement(Decrement(m, arc.from), arc.to);
    forall s
      ensures s in r <==> s in Endpoints(U)
      ensures s in r ==> r[s] == Degree(U, s)
    {
      DegreeInsert(U, arc, s);
      DegreePositive(T, s);
      DegreePositive(U, s);
    }
  }

  /** A new arc adds one to the count of its label. */
  lemma CountsSymbolsInsert(m: map<Symbol, nat>, T: set<Transition>, arc: Transition)
    requires CountsSymbols(m, T) && arc !in T
    ensures CountsSymbols(Increment(m, arc.sym), T + {arc})
  {
    assert Labels(T + {arc}) == Labels(T) + {arc.sym};
    assert Labelled(T + {arc}, arc.sym) == Labelled(T, arc.sym) + {arc};
    forall b | b in m && b != arc.sym
      ensures Labelled(T + {arc}, b) == Labelled(T, b)
    {
    }
    LabelPositive(T, arc.sym);
  }

  /** Removing an arc takes one from the count of its label, erasing a count
      that reaches zero. */
  lemma CountsSymbolsRemove(m: map<Symbol, nat>, T: set<Transition>, arc: Transition)
    requires CountsSymbols(m, T) && arc in T
    ensures arc.sym in m && m[arc.sym] >= 1
    ensures CountsSymbols(Decrement(m, arc.sym), T - {arc})
  {
    var U := T - {arc};
    assert Labelled(T, arc.sym) == Labelled(U, arc.sym) + {arc};
    forall b | b != arc.sym
      ensures Labelled(U, b) == Labelled(T, b)
    {
    }
    LabelPositive(T, arc.sym);
    LabelPositive(U, arc.sym);
    forall b
      ensures b in Labels(U) <==> b in Decrement(m, arc.sym)
    {
      LabelPositive(T, b);
      LabelPositive(U, b);
    }
  }

  /** The symbol update of arc removal as the library writes it: the count
      is decremented and the entry erased once it is at most two, so a label
      still carried by one or two arcs is forgotten. */
  function DecrementWritten(m: map<Symbol, nat>, b: Symbol): (r: map<Symbol, nat>)
    requires b in m && m[b] >= 1
    ensures r.Keys == if m[b] <= 3 then m.Keys - {b} else m.Keys
    ensures b in r ==> r[b] == m[b] - 1
  {
    if m[b] - 1 <= 2 then m - {b} else m[b := m[b] - 1]
  }

  /** With two arcs labelled 7, removing one leaves the other, but the
      written update drops 7 from the symbol counts; the erase-at-zero
      update keeps it with count one. */
  lemma SymbolForgotten()
    ensures var T := {Transition(1, 7, 2), Transition(2, 7, 3)};
            var arc := Transition(1, 7, 2);
            && CountsSymbols(map[7 := 2], T)
            && !CountsSymbols(DecrementWritten(map[7 := 2], 7), T - {arc})
            && Decrement(map[7 := 2], 7) == map[7 := 1]
            && CountsSymbols(Decrement(map[7 := 2], 7), T - {arc})
  {
    var a, b := Transition(1, 7, 2), Transition(2, 7, 3);
    var T := {a, b};
    assert T - {a} == {b};
    assert Labels(T) == {7} by {
      assert a in T;
    }
    assert Labelled(T, 7) == T;
    assert |T| == 2 by {
      assert a != b;
    }
    assert Labels({b}) == {7} by {
      assert b in {b};
    }
    assert Labelled({b}, 7) == {b};
    assert DecrementWritten(map[7 := 2], 7) == map[];
  }

  /** The bookkeeping invariant of an automaton over the arcs `T`: the state
      and symbol counts are exact and every marked state is known. */
  ghost predicate Consistent(T: set<Transition>, states: map<State, nat>, starts: set<State>,
                             finals: set<State>, symbols: map<Symbol, nat>)
  {
    && CountsStates(states, T)
    && CountsSymbols(symbols, T)
    && starts <= states.Keys
    && finals <= states.Keys
  }

  /** Start and final marks may be moved freely among the known states. */
  lemma RemarkConsistent(T: set<Transition>, states: map<State, nat>, starts: set<State>, finals: set<State>,
                         symbols: map<Symbol, nat>, starts': set<State>, finals': set<State>)
    requires Consistent(T, states, starts, finals, symbols)
    requires starts' <= states.Keys && finals' <= states.Keys
    ensures Consistent(T, states, starts', finals', symbols)
  {
  }

  /** The count updates for a new arc: each endpoint and the label gain one. */
  method AcquireArc(ghost T: set<Transition>, ghost U: set<Transition>, arc: Transition, states: map<State, nat>,
                    symbols: map<Symbol, nat>)
    returns (states': map<State, nat>, symbols': map<Symbol, nat>)
    requires arc !in T && U == T + {arc} && CountsStates(states, T) && CountsSymbols(symbols, T)
    ensures CountsStates(states', U) && CountsSymbols(symbols', U)
    ensures states.Keys <= states'.Keys
    ensures states' == Increment(Increment(states, arc.from), arc.to)
    ensures symbols' == Increment(symbols, arc.sym)
  {
    CountsStatesInsert(states, T, arc);
    CountsSymbolsInsert(symbols, T, arc);
    states' := Increment(states, arc.from);
    states' := Increment(states', arc.to);
    symbols' := Increment(symbols, arc.sym);
  }

  /** One endpoint of a removed arc loses one from its count; a state whose
      count reaches zero is erased together with its start and final marks. */
  method ReleaseEnd(states: map<State, nat>, starts: set<State>, finals: set<State>, s: State)
    returns (states': map<State, nat>, starts': set<State>, finals': set<State>)
    requires s in states && states[s] >= 1
    ensures states' == Decrement(states, s)
    ensures starts' == starts - (states.Keys - states'.Keys)
    ensures finals' == finals - (states.Keys - states'.Keys)
  {
    starts', finals' := starts, finals;
    if states[s] == 1 {
      starts' := starts - {s};
      finals' := finals - {s};
    }
    states' := Decrement(states, s);
  }

  /** Marks taken off along two shrinking key sets are the marks taken off
      along the whole shrink. */
  lemma ShrinkTwice(A: set<State>, K0: set<State>, K1: set<State>, K2: set<State>)
    requires K2 <= K1 <= K0
    ensures A - (K0 - K1) - (K1 - K2) == A - (K0 - K2)
  {
  }

  /** The count updates for a removed arc: each endpoint and the label lose
      one, and a state whose count reaches zero is erased together with its
      start and final marks. */
  method ReleaseArc(ghost T: set<Transition>, ghost U: set<Transition>, arc: Transition, states: map<State, nat>,
                    starts: set<State>, finals: set<State>, symbols: map<Symbol, nat>)
    returns (states': map<State, nat>, starts': set<State>, finals': set<State>, symbols': map<Symbol, nat>)
    requires arc in T && U == T - {arc} && Consistent(T, states, starts, finals, symbols)
    ensures Consistent(U, states', starts', finals', symbols')
    ensures starts' == starts - (states.Keys - states'.Keys)
    ensures finals' == finals - (states.Keys - states'.Keys)
    ensures arc.sym in symbols && symbols[arc.sym] >= 1 && symbols' == Decrement(symbols, arc.sym)
  {
    CountsStatesRemove(states, T, arc);
    CountsSymbolsRemove(symbols, T, arc);
    var mid, startsMid, finalsMid := ReleaseEnd(states, starts, finals, arc.from);
    states', starts', finals' := ReleaseEnd(mid, startsMid, finalsMid, arc.to);
    ShrinkTwice(starts, states.Keys, mid.Keys, states'.Keys);
    ShrinkTwice(finals, states.Keys, mid.Keys, states'.Keys);
    symbols' := Decrement(symbols, arc.sym);
  }

  class FiniteAutomaton {
    /** Reference count per known state. */
    var states: map<State, nat>
    var startStates: set<State>
    var finalStates: set<State>
    /** Reference count per known symbol. */
    var symbols: map<Symbol, nat>
    const transitions: NondeterministicTransitions

    /** Every count is the number of arc endpoints (labels) at its key, the
        known states and symbols are exactly those of some arc, and every
        start and final state is known. */
    ghost predicate Valid()
      reads this, transitions
    {
      && transitions.Valid()
      && Consistent(transitions.Triples(), states, startStates, finalStates, symbols)
    }

    /** The automaton as a value. */
    ghost function Model(): Nfa
      reads this, transitions
    {
      Nfa(transitions.Triples(), startStates, finalStates)
    }

    constructor ()
      ensures Valid() && fresh(transitions)
      ensures Model() == Nfa({}, {}, {})
    {
      states := map[];
      startStates := {};
      finalStates := {};
      symbols := map[];
      transitions := new NondeterministicTransitions();
    }

    /** Adds an arc; only a new arc bumps the counts of its endpoints and of
        its label (a self-loop bumps its state twice). */
    method AddTransition(from: State, symbol: Symbol, to: State) returns (added: bool)
      requires Valid()
      modifies this, transitions
      ensures Valid()
      ensures added <==> Transition(from, symbol, to) !in old(Model().trans)
      ensures Model() == old(Model()).(trans := old(Model().trans) + {Transition(from, symbol, to)})
      ensures states == if added then Increment(Increment(old(states), from), to) else old(states)
      ensures symbols == if added then Increment(old(symbols), symbol) else old(symbols)
    {
      ghost var T := transitions.Triples();
      var arc := Transition(from, symbol, to);
      added := transitions.AddTransition(from, symbol, to);
      if !added {
        assert transitions.Triples() == T;
        return;
      }
      CountAdded(T, arc);
    }

    /** Brings the counts in line with the arcs after `arc` has joined the
        stored relation. */
    method CountAdded(ghost T: set<Transition>, arc: Transition)
      requires transitions.Valid() && arc !in T && transitions.Triples() == T + {arc}
      requires Consistent(T, states, startStates, finalStates, symbols)
      modifies this
      ensures Valid()
      ensures states == Increment(Increment(old(states), arc.from), arc.to)
      ensures symbols == Increment(old(symbols), arc.sym)
      ensures startStates == old(startStates) && finalStates == old(finalStates)
    {
      ghost var U := transitions.Triples();
      var st, sy := AcquireArc(T, U, arc, states, symbols);
      Store(st, startStates, finalStates, sy);
    }

    /** Removes an arc; a state whose count drops to zero is forgotten,
        together with its start and final marks, and so is a symbol. */
    method RemoveTransition(from: State, symbol: Symbol, to: State) returns (removed: bool)
      requires Valid()
      modifies this, transitions
      ensures Valid()
      ensures removed <==> Transition(from, symbol, to) in old(Model().trans)
      ensures Model().trans == old(Model().trans) - {Transition(from, symbol, to)}
      ensures startStates == old(startStates) - (old(states).Keys - states.Keys)
      ensures finalStates == old(finalStates) - (old(states).Keys - states.Keys)
      ensures !removed ==> states == old(states) && symbols == old(symbols)
    {
      ghost var T := transitions.Triples();
      var arc := Transition(from, symbol, to);
      removed := transitions.RemoveTransition(from, symbol, to);
      if !removed {
        assert transitions.Triples() == T;
        return;
      }
      CountRemoved(T, arc);
    }

    /** Brings the counts and marks in line with the arcs after `arc` has
        left the stored relation. */
    method CountRemoved(ghost T: set<Transition>, arc: Transition)
      requires transitions.Valid() && arc in T && transitions.Triples() == T - {arc}
      requires Consistent(T, states, startStates, finalStates, symbols)
      modifies this
      ensures Valid()
      ensures startStates == old(startStates) - (old(states).Keys - states.Keys)
      ensures finalStates == old(finalStates) - (old(states).Keys - states.Keys)
    {
      ghost var U := transitions.Triples();
      var st, ss, fs, sy := ReleaseArc(T, U, arc, states, startStates, finalStates, symbols);
      Store(st, ss, fs, sy);
    }

    /** Installs counts and marks that agree with the stored arcs. */
    method Store(st: map<State, nat>, ss: set<State>, fs: set<State>, sy: map<Symbol, nat>)
      requires transitions.Valid() && Consistent(transitions.Triples(), st, ss, fs, sy)
      modifies this
      ensures Valid()
      ensures states == st && startStates == ss && finalStates == fs && symbols == sy
    {
      states, startStates, finalStates, symbols := st, ss, fs, sy;
    }

    /** Sets both marks of a known state; an unknown state is refused. */
    method SetState(state: State, isStart: bool, isFinal: bool) returns (known: bool)
      requires Valid()
      modifies this
      ensures Valid()
      ensures known <==> state in Endpoints(Model().trans)
      ensures states == old(states) && symbols == old(symbols)
      ensures !known ==> startStates == old(startStates) && finalStates == old(finalStates)
      ensures known ==> startStates == if isStart then old(startStates) + {state} else old(startStates) - {state}
      ensures known ==> finalStates == if isFinal then old(finalStates) + {state} else old(finalStates) - {state}
    {
      if state !in states {
        return false;
      }
      if isStart {
        startStates := startStates + {state};
      } else {
        startStates := startStates - {state};
      }
      if isFinal {
        finalStates := finalStates + {state};
      } else {
        finalStates := finalStates - {state};
      }
      return true;
    }

    /** The start mark alone, with the same known-state check. */
    method SetStartState(state: State, isStart: bool) returns (known: bool)
      requires Valid()
      modifies this
      ensures Valid()
      ensures known <==> state in Endpoints(Model().trans)
      ensures states == old(states) && symbols == old(symbols) && finalStates == old(finalStates)
      ensures startStates == if known && isStart then old(startStates) + {state}
        else if known then old(startStates) - {state}
        else old(startStates)
    {
      if state !in states {
        return false;
      }
      if isStart {
        startStates := startStates + {state};
      } else {
        startStates := startStates - {state};
      }
      return true;
    }

    /** The final mark alone, with the same known-state check. */
    method SetFinalState(state: State, isFinal: bool) returns (known: bool)
      requires Valid()
      modifies this
      ensures Valid()
      ensures known <==> state in Endpoints(Model().trans)
      ensures states == old(states) && symbols == old(symbols) && startStates == old(startStates)
      ensures finalStates == if known && isFinal then old(finalStates) + {state}
        else if known then old(finalStates) - {state}
        else old(finalStates)
    {
      if state !in states {
        return false;
      }
      if isFinal {
        finalStates := finalStates + {state};
      } else {
        finalStates := finalStates - {state};
      }
      return true;
    }

    /** Membership in the start set; only a known state can be a start. */
    function IsStateStart(state: State): (r: bool)
      reads this, transitions
      requires Valid()
      ensures r <==> state in Model().starts
      ensures r ==> state in Endpoints(Model().trans)
    {
      state in startStates
    }

    /** Membership in the final set; only a known state can be final. */
    function IsStateFinal(state: State): (r: bool)
      reads this, transitions
      requires Valid()
      ensures r <==> state in Model().finals
      ensures r ==> state in Endpoints(Model().trans)
    {
      state in finalStates
    }

    /** The number of known states: the endpoints of the arcs. */
    function StateCount(): (n: nat)
      reads this, transitions
      requires Valid()
      ensures n == |Endpoints(Model().trans)|
    {
      |states|
    }

    /** The number of start states, never more than the known states. */
    function StartStateCount(): (n: nat)
      reads this, transitions
      requires Valid()
      ensures n == |Model().starts| && n <= |Endpoints(Model().trans)|
    {
      SubsetCard(startStates, Endpoints(Model().trans));
      |startStates|
    }

    /** The number of final states, never more than the known states. */
    function FinalStateCount(): (n: nat)
      reads this, transitions
      requires Valid()
      ensures n == |Model().finals| && n <= |Endpoints(Model().trans)|
    {
      SubsetCard(finalStates, Endpoints(Model().trans));
      |finalStates|
    }

    /** The number of known symbols: the labels of the arcs. */
    function SymbolCount(): (n: nat)
      reads this, transitions
      requires Valid()
      ensures n == |Labels(Model().trans)|
    {
      |symbols|
    }

    /** The number of arcs. */
    method TransitionCount() returns (n: nat)
      requires Valid()
      ensures n == |Model().trans|
    {
      n := transitions.TransitionsCount();
    }

    /** The target set of (`from`, `symbol`), or `None` when it is empty. */
    function Lookup(from: State, symbol: Symbol): (r: Option<set<State>>)
      reads this, transitions
      requires transitions.Valid()
      ensures r.None? <==> Post(Model().trans, {from}, symbol) == {}
      ensures r.Some? ==> r.value == Post(Model().trans, {from}, symbol)
    {
      transitions.Lookup(from, symbol)
    }

    /** Every known state, once each. */
    method ForeachState() returns (xs: seq<State>)
      requires Valid()
      ensures Distinct(xs) && Elements(xs) == Endpoints(Model().trans)
    {
      xs := Enumerate(states.Keys);
    }

    /** Every start state, once each. */
    method ForeachStartState() returns (xs: seq<State>)
      requires Valid()
      ensures Distinct(xs) && Elements(xs) == Model().starts
    {
      xs := Enumerate(startStates);
    }

    /** Every final state, once each. */
    method ForeachFinalState() returns (xs: seq<State>)
      requires Valid()
      ensures Distinct(xs) && Elements(xs) == Model().finals
    {
      xs := Enumerate(finalStates);
    }

    /** Every known symbol, once each. */
    method ForeachSymbol() returns (xs: seq<Symbol>)
      requires Valid()
      ensures Distinct(xs) && Elements(xs) == Labels(Model().trans)
    {
      xs := Enumerate(symbols.Keys);
    }

    /** Every arc, once each. */
    method ForeachTransition() returns (xs: seq<Transition>)
      requires Valid()
      ensures Distinct(xs) && Elements(xs) == Model().trans
    {
      xs := transitions.ForeachTransition();
    }
  }
}
