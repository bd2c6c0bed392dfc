/** The in-place operations of the nondeterministic automaton that combine
    it with another one — union, concatenation — or with itself — the star.
    Each renumbers, adds arcs through the general automaton and edits the
    start and final sets directly, and each is proved to leave exactly the
    automaton the matching construction of the algebra describes. */
module Combine {
  import opened Base
  import opened Collections
  import opened Language
  import opened Automaton
  import opened Algebra

  /** The running maximum over the visited states, starting from 0. */
  method LargestVisited(states: seq<State>) returns (maxState: State)
    ensures forall j :: 0 <= j < |states| ==> states[j] <= maxState
    ensures maxState == 0 || maxState in states
  {
    maxState := 0;
    var i := 0;
    while i < |states|
      invariant 0 <= i <= |states|
      invariant forall j :: 0 <= j < i ==> states[j] <= maxState
      invariant maxState == 0 || maxState in states
    {
      if maxState < states[i] {
        maxState := states[i];
      }
      i := i + 1;
    }
  }

  /** The largest known state, 0 when there is none. */
  method MaxState(nfa: FiniteAutomaton) returns (maxState: State)
    requires nfa.Valid()
    ensures maxState == Offset(nfa.Model())
  {
    ghost var E := Endpoints(nfa.Model().trans);
    var states := nfa.ForeachState();
    maxState := LargestVisited(states);
    assert maxState == 0 || maxState in Elements(states);
    if E == {} {
      assert maxState == 0;
    } else {
      var x :| x in E;
      assert x in Elements(states);
      if maxState == 0 {
        assert x == 0;
      }
      forall y | y in E
        ensures y <= maxState
      {
        assert y in Elements(states);
      }
      MaxUnique(E, maxState);
    }
  }

  /** One more listed arc, renumbered, grows the shifted copy by its image. */
  lemma ShiftedGrow(T: set<Transition>, before: set<Transition>, arcs: seq<Transition>, i: nat, k: nat)
    requires i < |arcs| && before == T + ShiftArcs(Elements(arcs[..i]), k)
    ensures before + {ShiftArc(arcs[i], k)} == T + ShiftArcs(Elements(arcs[..i + 1]), k)
    ensures ShiftArc(arcs[i], k) == Transition(arcs[i].from + k, arcs[i].sym, arcs[i].to + k)
  {
    ElementsStep(arcs, i);
    ShiftArcsAdd(Elements(arcs[..i]), arcs[i], k);
  }

  /** Adds the `i`-th listed arc renumbered `k` higher, after the ones
      before it. */
  method AddShiftedArc(nfa: FiniteAutomaton, ghost T: set<Transition>, arcs: seq<Transition>, i: nat, k: nat)
    requires nfa.Valid() && i < |arcs|
    requires nfa.Model().trans == T + ShiftArcs(Elements(arcs[..i]), k)
    modifies nfa, nfa.transitions
    ensures nfa.Valid()
    ensures nfa.Model() == old(nfa.Model()).(trans := T + ShiftArcs(Elements(arcs[..i + 1]), k))
  {
    ghost var before := nfa.Model();
    ghost var after := T + ShiftArcs(Elements(arcs[..i + 1]), k);
    ShiftedGrow(T, before.trans, arcs, i, k);
    var arc := arcs[i];
    var added := nfa.AddTransition(arc.from + k, arc.sym, arc.to + k);
    assert nfa.Model().trans == after;
  }

  /** Adds every listed arc renumbered `k` higher. */
  method AddShifted(nfa: FiniteAutomaton, arcs: seq<Transition>, k: nat)
    requires nfa.Valid()
    modifies nfa, nfa.transitions
    ensures nfa.Valid()
    ensures nfa.Model() == old(nfa.Model()).(trans := old(nfa.Model().trans) + ShiftArcs(Elements(arcs), k))
  {
    ghost var A := nfa.Model();
    var i := 0;
    while i < |arcs|
      invariant 0 <= i <= |arcs|
      invariant nfa.Valid()
      invariant nfa.Model() == A.(trans := A.trans + ShiftArcs(Elements(arcs[..i]), k))
    {
      AddShiftedArc(nfa, A.trans, arcs, i, k);
      i := i + 1;
    }
    ElementsAll(arcs);
  }

  /** Adds an ε-arc from every listed state to `to`. */
  method AddEpsilonInto(nfa: FiniteAutomaton, froms: seq<State>, to: State)
    requires nfa.Valid()
    modifies nfa, nfa.transitions
    ensures nfa.Valid()
    ensures nfa.Model() == old(nfa.Model()).(trans := old(nfa.Model().trans) + Bridge(Elements(froms), {to}))
  {
    ghost var A := nfa.Model();
    var i := 0;
    while i < |froms|
      invariant 0 <= i <= |froms|
      invariant nfa.Valid()
      invariant nfa.Model() == A.(trans := A.trans + Bridge(Elements(froms[..i]), {to}))
    {
      ElementsStep(froms, i);
      BridgeAddSource(Elements(froms[..i]), froms[i], to);
      var added := nfa.AddTransition(froms[i], Epsilon, to);
      i := i + 1;
    }
    ElementsAll(froms);
  }

  /** Adds an ε-arc from `from` to every listed state. */
  method AddEpsilonFrom(nfa: FiniteAutomaton, from: State, tos: seq<State>)
    requires nfa.Valid()
    modifies nfa, nfa.transitions
    ensures nfa.Valid()
    ensures nfa.Model() == old(nfa.Model()).(trans := old(nfa.Model().trans) + Bridge({from}, Elements(tos)))
  {
    ghost var A := nfa.Model();
    var i := 0;
    while i < |tos|
      invariant 0 <= i <= |tos|
      invariant nfa.Valid()
      invariant nfa.Model() == A.(trans := A.trans + Bridge({from}, Elements(tos[..i])))
    {
      ElementsStep(tos, i);
      BridgeAddTarget(from, Elements(tos[..i]), tos[i]);
      var added := nfa.AddTransition(from, Epsilon, tos[i]);
      i := i + 1;
    }
    ElementsAll(tos);
  }

  /** `S` with every listed state, renumbered `k` higher, inserted. */
  method InsertShifted(S: set<State>, xs: seq<State>, k: nat) returns (r: set<State>)
    ensures r == S + ShiftSet(Elements(xs), k)
  {
    r := S;
    var i := 0;
    while i < |xs|
      invariant 0 <= i <= |xs|
      invariant r == S + ShiftSet(Elements(xs[..i]), k)
    {
      ShiftPrefixStep(xs, i, k);
      r := r + {xs[i] + k};
      i := i + 1;
    }
    ElementsAll(xs);
  }

  /** Replaces the start and final sets by the given sets of known states. */
  method Remark(nfa: FiniteAutomaton, starts: set<State>, finals: set<State>)
    requires nfa.Valid()
    requires starts <= Endpoints(nfa.Model().trans) && finals <= Endpoints(nfa.Model().trans)
    modifies nfa
    ensures nfa.Valid()
    ensures nfa.Model() == old(nfa.Model()).(starts := starts, finals := finals)
  {
    RemarkConsistent(nfa.transitions.Triples(), nfa.states, nfa.startStates, nfa.finalStates, nfa.symbols,
                     starts, finals);
    nfa.startStates, nfa.finalStates := starts, finals;
  }

  /** Gives every final state an ε-arc to each listed state renumbered `k`
      higher, enumerating the final states afresh for each of them. */
  method BridgeFinalsTo(nfa: FiniteAutomaton, starts: seq<State>, k: nat)
    requires nfa.Valid()
    modifies nfa, nfa.transitions
    ensures nfa.Valid()
    ensures nfa.Model() == old(nfa.Model()).(trans := old(nfa.Model().trans) + Bridge(old(nfa.Model().finals), ShiftSet(Elements(starts), k)))
  {
    ghost var A := nfa.Model();
    var i := 0;
    while i < |starts|
      invariant 0 <= i <= |starts|
      invariant nfa.Valid()
      invariant nfa.Model() == A.(trans := A.trans + Bridge(A.finals, ShiftSet(Elements(starts[..i]), k)))
    {
      var to: State := starts[i] + k;
      var finals := nfa.ForeachFinalState();
      ghost var done := ShiftSet(Elements(starts[..i]), k);
      ghost var mid := nfa.Model();
      assert Elements(finals) == A.finals && mid.trans == A.trans + Bridge(A.finals, done);
      AddEpsilonInto(nfa, finals, to);
      assert nfa.Model().trans == mid.trans + Bridge(A.finals, {to});
      ShiftPrefixStep(starts, i, k);
      BridgeSplitTargets(A.finals, done, to);
      i := i + 1;
    }
    ElementsAll(starts);
  }

  /** Joins the other automaton, renumbered past this one, to this one: its
      arcs, start states and final states are added. The two automata must
      be distinct objects. */
  method Union(nfa: FiniteAutomaton, other: FiniteAutomaton)
    requires nfa.Valid() && other.Valid()
    requires nfa != other && nfa.transitions != other.transitions
    modifies nfa, nfa.transitions
    ensures nfa.Valid()
    ensures nfa.Model() == UnionNfa(old(nfa.Model()), other.Model())
  {
    ghost var A := nfa.Model();
    ghost var B := other.Model();
    var maxStateNumber := MaxState(nfa);
    var arcs := other.ForeachTransition();
    AddShifted(nfa, arcs, maxStateNumber);
    ghost var C := Shift(B, maxStateNumber);
    assert other.Model() == B && nfa.Model() == Nfa(A.trans + C.trans, A.starts, A.finals);
    assert WellFormed(B);
    ShiftWellFormed(B, maxStateNumber);
    var starts := other.ForeachStartState();
    var newStarts := InsertShifted(nfa.startStates, starts, maxStateNumber);
    var finals := other.ForeachFinalState();
    var newFinals := InsertShifted(nfa.finalStates, finals, maxStateNumber);
    assert newStarts == A.starts + C.starts && newFinals == A.finals + C.finals;
    EndpointsMono(A.trans, A.trans + C.trans);
    EndpointsMono(C.trans, A.trans + C.trans);
    Remark(nfa, newStarts, newFinals);
  }

  /** Appends the other automaton, renumbered past this one: its arcs are
      added, every final state of this one gets an ε-arc to each of its
      renumbered start states, and only its renumbered final states stay
      final. The two automata must be distinct objects. */
  method Concatenate(nfa: FiniteAutomaton, other: FiniteAutomaton)
    requires nfa.Valid() && other.Valid()
    requires nfa != other && nfa.transitions != other.transitions
    modifies nfa, nfa.transitions
    ensures nfa.Valid()
    ensures nfa.Model() == ConcatNfa(old(nfa.Model()), other.Model())
  {
    ghost var A := nfa.Model();
    ghost var B := other.Model();
    var maxStateNumber := MaxState(nfa);
    var arcs := other.ForeachTransition();
    AddShifted(nfa, arcs, maxStateNumber);
    ghost var C := Shift(B, maxStateNumber);
    assert other.Model() == B && nfa.Model() == Nfa(A.trans + C.trans, A.starts, A.finals);
    var starts := other.ForeachStartState();
    BridgeFinalsTo(nfa, starts, maxStateNumber);
    assert nfa.Model() == Nfa(A.trans + C.trans + Bridge(A.finals, C.starts), A.starts, A.finals);
    assert WellFormed(B);
    ShiftWellFormed(B, maxStateNumber);
    var finals := other.ForeachFinalState();
    var newFinals := InsertShifted({}, finals, maxStateNumber);
    assert newFinals == C.finals;
    EndpointsMono(A.trans, nfa.Model().trans);
    EndpointsMono(C.trans, nfa.Model().trans);
    Remark(nfa, nfa.startStates, newFinals);
  }

  /** Gives every final state an ε-arc to every start state, then makes
      every start state final. */
  method KleeneStar(nfa: FiniteAutomaton)
    requires nfa.Valid()
    modifies nfa, nfa.transitions
    ensures nfa.Valid()
    ensures nfa.Model() == StarNfa(old(nfa.Model()))
  {
    ghost var A := nfa.Model();
    var finals := nfa.ForeachFinalState();
    var i := 0;
    while i < |finals|
      invariant 0 <= i <= |finals|
      invariant nfa.Valid()
      invariant nfa.Model() == A.(trans := A.trans + Bridge(Elements(finals[..i]), A.starts))
    {
      var starts := nfa.ForeachStartState();
      AddEpsilonFrom(nfa, finals[i], starts);
      ElementsStep(finals, i);
      BridgeSplitSources(Elements(finals[..i]), finals[i], A.starts);
      i := i + 1;
    }
    ElementsAll(finals);
    nfa.finalStates := nfa.finalStates + nfa.startStates;
  }
}
