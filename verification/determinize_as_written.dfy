/** Five steps of the library's subset construction as they are written,
    each next to the corrected step that the rest of the model uses, and
    each with an input on which the two differ. */
module DeterminizeAsWritten {
  import opened Base
  import opened Collections
  import opened Language
  import opened SubsetConstruction

  // ---------------------------------------------------------------------
  // The successor buffer is shared by every symbol and every popped set.

  /** The set drawn for symbol `a` from the popped set `X` as written: the
      buffer still holds `carried`, what earlier symbols put there, and the
      new successors and the closure are added to it. */
  ghost function CarriedNext(T: set<Transition>, carried: set<State>, X: set<State>, a: Symbol): (r: set<State>)
    ensures Step(T, X, a) <= r && carried <= r
  {
    ClosureMono(T, Post(T, X, a), carried + Post(T, X, a));
    Closure(T, carried + Post(T, X, a))
  }

  /** With no ε-arcs the closure is the identity. */
  lemma PlainClosure(T: set<Transition>, S: set<State>)
    requires forall t :: t in T ==> t.sym != Epsilon
    ensures Closure(T, S) == S
  {
    NoEpsilonClosed(T, S);
  }

  /** From {10} over the arcs 10 -0-> 11 and 10 -1-> 12, symbol 0 draws {11};
      symbol 1 should then draw {12}, but the buffer makes it {11, 12}. */
  lemma CarriedNextDiffers()
    ensures var T := {Transition(10, 0, 11), Transition(10, 1, 12)};
            && CarriedNext(T, {}, {10}, 0) == Step(T, {10}, 0) == {11}
            && CarriedNext(T, CarriedNext(T, {}, {10}, 0), {10}, 1) == {11, 12}
            && Step(T, {10}, 1) == {12}
  {
    var T := {Transition(10, 0, 11), Transition(10, 1, 12)};
    assert Post(T, {10}, 0) == {11} by {
      assert Transition(10, 0, 11) in T;
    }
    assert Post(T, {10}, 1) == {12} by {
      assert Transition(10, 1, 12) in T;
    }
    PlainClosure(T, {11});
    PlainClosure(T, {12});
    PlainClosure(T, {11, 12});
    assert {} + Post(T, {10}, 0) == {11};
    assert {11} + Post(T, {10}, 1) == {11, 12};
  }

  // ---------------------------------------------------------------------
  // A newly met set is recorded under the wrong number.

  /** The number table after meeting the new set `next` while expanding the
      number `from`, as written: `next` is recorded under `from`, not under
      the fresh number the arc is drawn to. */
  function RecordAsWritten(ids: map<set<State>, State>, next: set<State>, from: State): (r: map<set<State>, State>)
    ensures r.Keys == ids.Keys + {next}
    ensures r[next] == from
  {
    ids[next := from]
  }

  /** The expanded number belongs to a set already in the table, so the
      table as written gives two different sets the same number, and a later
      arc to `next` goes back to `from`. */
  lemma {:induction false} RecordCollides(ids: map<set<State>, State>, X: set<State>, next: set<State>)
    requires X in ids && next !in ids
    ensures X != next
    ensures RecordAsWritten(ids, next, ids[X])[X] == RecordAsWritten(ids, next, ids[X])[next]
  {
  }

  /** The first expansion of the first scenario: {10} is number 1, and the
      new set {10, 11} is recorded under 1 as well. */
  lemma RecordCollidesOnFirst()
    ensures var r := RecordAsWritten(map[{10} := 1], {10, 11}, 1);
            r[{10}] == r[{10, 11}] == 1
  {
    RecordCollides(map[{10} := 1], {10}, {10, 11});
  }

  // ---------------------------------------------------------------------
  // Only one start state seeds the construction.

  /** The set numbered 1 as written: the closure of the one start state that
      the set's iteration yields first. */
  ghost function SeedAsWritten(A: Nfa, first: State): (r: set<State>)
    requires first in A.starts
    ensures r <= Seed(A)
  {
    ClosureMono(A.trans, {first}, A.starts);
    Closure(A.trans, {first})
  }

  /** Two start states, 10 reading 0 into 11 and 20 reading 1 into 21, both
      11 and 21 final. */
  function TwoStarts(): Nfa
  {
    Nfa({Transition(10, 0, 11), Transition(20, 1, 21)}, {10, 20}, {11, 21})
  }

  /** Started from both of its start states, the automaton accepts the
      words 0 and 1. */
  lemma TwoStartsAccept()
    ensures Accepts(TwoStarts(), [0]) && Accepts(TwoStarts(), [1])
  {
    var A := TwoStarts();
    var T := A.trans;
    PlainClosure(T, {10, 20});
    PlainClosure(T, {11});
    PlainClosure(T, {21});
    assert Post(T, {10, 20}, 0) == {11} by {
      assert Transition(10, 0, 11) in T;
    }
    assert Post(T, {10, 20}, 1) == {21} by {
      assert Transition(20, 1, 21) in T;
    }
    assert 11 in Reach(A, [0]) * A.finals;
    assert 21 in Reach(A, [1]) * A.finals;
  }

  /** Reading 1 from the seed as written ends in no final state when the
      first start is 10, and reading 0 ends in none when it is 20, though
      the automaton accepts both words. */
  lemma SeedMissesStart()
    ensures Accepts(TwoStarts(), [0]) && Accepts(TwoStarts(), [1])
    ensures Run(TwoStarts().trans, SeedAsWritten(TwoStarts(), 10), [1]) * TwoStarts().finals == {}
    ensures Run(TwoStarts().trans, SeedAsWritten(TwoStarts(), 20), [0]) * TwoStarts().finals == {}
  {
    TwoStartsAccept();
    var T := TwoStarts().trans;
    PlainClosure(T, {10});
    PlainClosure(T, {20});
    PlainClosure(T, {});
    assert Post(T, {10}, 1) == {};
    assert Post(T, {20}, 0) == {};
  }

  // ---------------------------------------------------------------------
  // The seed's own finality is never set.

  /** The marks of the finished automaton as written: state 1 becomes the
      start state when it is known, and its finality is left to the arcs
      that entered it. */
  function FinishAsWritten(D: Nfa): (r: Nfa)
    ensures r.trans == D.trans && r.finals == D.finals
    ensures r.starts <= {1} && (r.starts == {1} <==> 1 in Endpoints(D.trans))
  {
    D.(starts := if 1 in Endpoints(D.trans) then {1} else {})
  }

  /** When the seed meets the final states but no arc re-enters it, the
      input accepts the empty word and the automaton finished as written
      does not. */
  lemma SeedFinalityLost(A: Nfa, D: Nfa, ids: map<set<State>, State>, sub: map<State, set<State>>, last: State)
    requires Building(A, D, ids, sub, last, [])
    requires 1 !in Targets(D.trans) && Seed(A) * A.finals != {}
    ensures Accepts(A, [])
    ensures !Accepts(FinishAsWritten(D), [])
  {
    var F := FinishAsWritten(D);
    NoEpsilonArcs(A, D, sub);
    NoEpsilonClosed(D.trans, F.starts);
    assert Reach(F, []) == F.starts;
    assert 1 !in F.finals;
  }

  /** When the seed holds a state that no arc enters, no arc of the subset
      automaton re-enters state 1: every set an arc leads to consists of
      arc targets. */
  lemma SeedNotReentered(A: Nfa, D: Nfa, ids: map<set<State>, State>, sub: map<State, set<State>>, last: State)
    requires Building(A, D, ids, sub, last, [])
    requires !(Seed(A) <= Targets(A.trans))
    ensures 1 !in Targets(D.trans)
  {
    forall t | t in D.trans
      ensures t.to != 1
    {
      var P := Post(A.trans, sub[t.from], t.sym);
      forall y | y in P
        ensures y in Targets(A.trans)
      {
        var u :| u in A.trans && u.from in sub[t.from] && u.sym == t.sym && u.to == y;
      }
      assert sub[t.to] == Closure(A.trans, P) <= Targets(A.trans);
    }
  }

  /** Start and final state 10, and the single arc 10 -0-> 11. */
  function FinalSeed(): Nfa
  {
    Nfa({Transition(10, 0, 11)}, {10}, {10})
  }

  /** On `FinalSeed()` no arc re-enters state 1, so finishing as written
      loses the empty word, which the automaton accepts. */
  lemma SeedFinalityLostOnArc(D: Nfa, ids: map<set<State>, State>, sub: map<State, set<State>>, last: State)
    requires Building(FinalSeed(), D, ids, sub, last, [])
    ensures Accepts(FinalSeed(), [])
    ensures !Accepts(FinishAsWritten(D), [])
  {
    var A := FinalSeed();
    PlainClosure(A.trans, {10});
    assert Targets(A.trans) == {11} by {
      assert Transition(10, 0, 11) in A.trans;
    }
    SeedNotReentered(A, D, ids, sub, last);
    SeedFinalityLost(A, D, ids, sub, last);
  }

  // ---------------------------------------------------------------------
  // ε is expanded like a symbol.

  /** The symbols the construction expands as written: every label, ε
      included. */
  function AlphabetAsWritten(T: set<Transition>): (r: set<Symbol>)
    ensures Alphabet(T) <= r && r - Alphabet(T) <= {Epsilon}
    ensures Epsilon in r <==> exists t :: t in T && t.sym == Epsilon
  {
    Labels(T)
  }

  /** An arc on ε between two states makes an automaton nondeterministic. */
  lemma EpsilonArcNondeterministic(D: Nfa, p: State, q: State)
    requires Transition(p, Epsilon, q) in D.trans && p != q
    ensures !DeterministicNfa(D)
  {
    var C := Closure(D.trans, {p});
    assert q in Post(D.trans, C, Epsilon);
    SubsetCard({p, q}, C);
    assert p in Endpoints(D.trans) && !Alone(D.trans, p);
  }

  /** Over the single arc 10 -ε-> 11 the seed is {10, 11}; expanding it on
      ε as written yields the different non-empty set {11}, so an arc on ε
      is drawn from 1 to a new number. */
  lemma EpsilonExpanded()
    ensures var T := {Transition(10, Epsilon, 11)};
            && Epsilon in AlphabetAsWritten(T) && Epsilon !in Alphabet(T)
            && Closure(T, {10}) == {10, 11}
            && Step(T, {10, 11}, Epsilon) == {11}
  {
    var T := {Transition(10, Epsilon, 11)};
    assert Transition(10, Epsilon, 11) in T;
    var C := Closure(T, {10});
    assert 11 in Post(T, C, Epsilon);
    assert C == {10, 11};
    assert Post(T, {10, 11}, Epsilon) == {11};
    var E := Closure(T, {11});
    assert E <= {11} + Targets(T);
    assert Targets(T) == {11};
  }
}
