/** The two determinisation scenarios of the library's tests: small
    automata over the states 10, 11, 12 and the symbols 0 and 1 whose
    subset automata have a fixed number of states and arcs, whatever the
    numbering the construction happens to choose. */
module Scenarios {
  import opened Base
  import opened Collections
  import opened Language
  import opened Automaton
  import opened SubsetConstruction
  import Engine
  import Determinize

  /** The arcs of the first scenario: a 0-loop and a 1-loop on 10, and the
      path 10 -0-> 11 -1-> 12. */
  ghost predicate FirstArcs(T: set<Transition>)
  {
    forall t :: t in T <==>
      t == Transition(10, 0, 10) || t == Transition(10, 0, 11) || t == Transition(10, 1, 10) ||
      t == Transition(11, 1, 12)
  }

  /** The arcs of the second scenario: both loops on 10, a 1-loop on 11,
      and 10 -0-> 11 -1-> 10. */
  ghost predicate SecondArcs(T: set<Transition>)
  {
    forall t :: t in T <==>
      t == Transition(10, 0, 10) || t == Transition(10, 1, 10) || t == Transition(10, 0, 11) ||
      t == Transition(11, 1, 10) || t == Transition(11, 1, 11)
  }

  /** Both scenarios start in 10 and accept in 11. */
  ghost predicate Marked(A: Nfa)
  {
    (forall s :: s in A.starts <==> s == 10) && (forall s :: s in A.finals <==> s == 11)
  }

  /** Without ε-arcs a step is the plain successor set. */
  lemma StepPlain(T: set<Transition>, X: set<State>, a: Symbol)
    requires forall t :: t in T ==> t.sym != Epsilon
    ensures Step(T, X, a) == Post(T, X, a)
  {
    NoEpsilonClosed(T, Post(T, X, a));
  }

  /** Every successor lies in `Y` when every matching arc ends there. */
  lemma PostWithin(T: set<Transition>, X: set<State>, a: Symbol, Y: set<State>)
    requires forall t :: t in T && t.from in X && t.sym == a ==> t.to in Y
    ensures Post(T, X, a) <= Y
  {
    forall y | y in Post(T, X, a)
      ensures y in Y
    {
      var t :| t in T && t.from in X && t.sym == a && t.to == y;
    }
  }

  /** A step from `X` on `a` is `Y` in an automaton without ε-arcs when
      every matching arc ends in `Y` and each member of `Y` is reached. */
  lemma StepIs(T: set<Transition>, X: set<State>, a: Symbol, Y: set<State>)
    requires forall t :: t in T ==> t.sym != Epsilon
    requires forall t :: t in T && t.from in X && t.sym == a ==> t.to in Y
    requires forall y :: y in Y ==> exists t :: t in T && t.from in X && t.sym == a && t.to == y
    ensures Step(T, X, a) == Y
  {
    PostWithin(T, X, a, Y);
    forall y | y in Y
      ensures y in Post(T, X, a)
    {
      var t :| t in T && t.from in X && t.sym == a && t.to == y;
    }
    StepPlain(T, X, a);
  }

  /** The alphabet and the seed of an automaton whose arcs carry only 0
      and 1, both of them, with 10 its only start and no ε-arc. */
  lemma Basics(A: Nfa)
    requires FirstArcs(A.trans) || SecondArcs(A.trans)
    requires Marked(A)
    ensures forall t :: t in A.trans ==> t.sym != Epsilon
    ensures Alphabet(A.trans) == {0, 1}
    ensures Seed(A) == {10}
  {
    assert Transition(10, 0, 10) in A.trans && Transition(10, 1, 10) in A.trans;
    assert Labels(A.trans) == {0, 1};
    NoEpsilonClosed(A.trans, A.starts);
    assert A.starts == {10};
  }

  /** The subset table of the first scenario: on 0 every reached subset
      goes to `{10, 11}`; on 1 `{10, 11}` goes to `{10, 12}` and the
      others to `{10}`. */
  function FirstNext(X: set<State>, a: Symbol): set<State>
  {
    if a == 0 then {10, 11} else if X == {10, 11} then {10, 12} else {10}
  }

  /** The subset table of the second scenario: `{10}` goes to `{10, 11}`
      on 0 and to itself on 1; `{10, 11}` goes to itself on both. */
  function SecondNext(X: set<State>, a: Symbol): set<State>
  {
    if a == 0 || X == {10, 11} then {10, 11} else {10}
  }

  /** The steps of the first scenario follow its table. */
  lemma FirstStep(T: set<Transition>, X: set<State>, a: Symbol)
    requires FirstArcs(T)
    requires (X == {10} || X == {10, 11} || X == {10, 12}) && (a == 0 || a == 1)
    ensures Step(T, X, a) == FirstNext(X, a)
  {
    assert Transition(10, 0, 10) in T && Transition(10, 0, 11) in T;
    assert Transition(10, 1, 10) in T && Transition(11, 1, 12) in T;
    if a == 0 {
      StepIs(T, X, 0, {10, 11});
    } else if X == {10, 11} {
      StepIs(T, X, 1, {10, 12});
    } else {
      StepIs(T, X, 1, {10});
    }
  }

  /** The steps of the second scenario follow its table. */
  lemma SecondStep(T: set<Transition>, X: set<State>, a: Symbol)
    requires SecondArcs(T)
    requires (X == {10} || X == {10, 11}) && (a == 0 || a == 1)
    ensures Step(T, X, a) == SecondNext(X, a)
  {
    assert Transition(10, 0, 10) in T && Transition(10, 0, 11) in T;
    assert Transition(10, 1, 10) in T && Transition(11, 1, 11) in T;
    if a == 0 || X == {10, 11} {
      StepIs(T, X, a, {10, 11});
    } else {
      StepIs(T, X, 1, {10});
    }
  }

  /** The arc a numbered state has on a symbol with a non-empty step. */
  lemma ArcOn(A: Nfa, D: Nfa, sub: map<State, set<State>>, p: State, a: Symbol) returns (q: State)
    requires IsSubsetAutomaton(A, D, sub) && p in sub
    requires a != Epsilon && Step(A.trans, sub[p], a) != {}
    ensures q in sub && sub[q] == Step(A.trans, sub[p], a)
    ensures Transition(p, a, q) in D.trans
    ensures forall t :: t in D.trans && t.from == p && t.sym == a ==> t.to == q
  {
    q := StepOne(A, D, sub, p, a);
    assert q in Post(D.trans, {p}, a);
    forall t | t in D.trans && t.from == p && t.sym == a
      ensures t.to == q
    {
      assert t.to in Post(D.trans, {p}, a);
    }
  }

  /** The three subsets of the first scenario are distinct. */
  lemma FirstSetsDistinct()
    ensures {10} != {10, 11} && {10} != {10, 12} && {10, 11} != {10, 12}
  {
    assert 11 !in {10} && 11 !in {10, 12};
    assert 12 !in {10};
  }

  /** The subsets the first scenario reaches from its seed. */
  ghost predicate FirstSet(X: set<State>)
  {
    X == {10} || X == {10, 11} || X == {10, 12}
  }

  /** Every set a subset automaton numbers lies in any family that holds
      the seed and is closed under the non-empty steps on real symbols. */
  lemma {:induction false} NumberedIn(A: Nfa, D: Nfa, sub: map<State, set<State>>, F: set<set<State>>, p: State)
    requires IsSubsetAutomaton(A, D, sub) && p in sub
    requires Seed(A) in F
    requires forall X, a :: X in F && a in Alphabet(A.trans) && Step(A.trans, X, a) != {} ==> Step(A.trans, X, a) in F
    ensures sub[p] in F
    decreases p
  {
    if p != 1 {
      var t :| t in D.trans && t.to == p && t.from < p;
      NumberedIn(A, D, sub, F, t.from);
    }
  }

  /** The three subsets of the first scenario are closed under its steps. */
  lemma FirstClosed(A: Nfa)
    requires FirstArcs(A.trans) && Marked(A)
    ensures forall X, a :: X in FirstFamily() && a in Alphabet(A.trans) && Step(A.trans, X, a) != {} ==>
      Step(A.trans, X, a) in FirstFamily()
  {
    Basics(A);
    forall X, a | X in FirstFamily() && a in Alphabet(A.trans)
      ensures Step(A.trans, X, a) in FirstFamily()
    {
      FirstStep(A.trans, X, a);
    }
  }

  /** The three subsets of the first scenario, as a family. */
  function FirstFamily(): (F: set<set<State>>)
    ensures forall X :: X in F <==> FirstSet(X)
  {
    {{10}, {10, 11}, {10, 12}}
  }

  /** Every set a subset automaton of the first scenario numbers is one of
      its three subsets. */
  lemma FirstReached(A: Nfa, D: Nfa, sub: map<State, set<State>>, p: State)
    requires FirstArcs(A.trans) && Marked(A) && IsSubsetAutomaton(A, D, sub) && p in sub
    ensures FirstSet(sub[p])
  {
    assert Seed(A) in FirstFamily() by { Basics(A); }
    FirstClosed(A);
    NumberedIn(A, D, sub, FirstFamily(), p);
  }

  /** A subset automaton of the first scenario numbers exactly three sets:
      `{10}` as 1, `{10, 11}` as `q` and `{10, 12}` as `r`. */
  lemma FirstNumbers(A: Nfa, D: Nfa, sub: map<State, set<State>>) returns (q: State, r: State)
    requires FirstArcs(A.trans) && Marked(A) && IsSubsetAutomaton(A, D, sub)
    ensures q in sub && r in sub && forall p :: p in sub ==> p == 1 || p == q || p == r
    ensures sub[1] == {10} && sub[q] == {10, 11} && sub[r] == {10, 12}
    ensures 1 != q && 1 != r && q != r
  {
    var T := A.trans;
    Basics(A);
    FirstStep(T, {10}, 0);
    q := ArcOn(A, D, sub, 1, 0);
    FirstStep(T, {10, 11}, 1);
    assert Step(T, sub[q], 1) == {10, 12};
    r := ArcOn(A, D, sub, q, 1);
    FirstSetsDistinct();
    forall p | p in sub
      ensures p == 1 || p == q || p == r
    {
      FirstReached(A, D, sub, p);
    }
  }

  /** The one arc a state of the first scenario's subset automaton has on
      a symbol: to the number of the next set in the table. */
  lemma FirstOut(A: Nfa, D: Nfa, sub: map<State, set<State>>, p: State, a: Symbol, x: State)
    requires FirstArcs(A.trans) && Marked(A) && IsSubsetAutomaton(A, D, sub)
    requires p in sub && FirstSet(sub[p]) && (a == 0 || a == 1)
    requires x in sub && sub[x] == FirstNext(sub[p], a)
    ensures Transition(p, a, x) in D.trans
    ensures forall t :: t in D.trans && t.from == p && t.sym == a ==> t.to == x
  {
    Basics(A);
    FirstStep(A.trans, sub[p], a);
    var y := ArcOn(A, D, sub, p, a);
    assert sub[y] == sub[x];
  }

  /** The six arcs of the first scenario's subset automaton under the
      numbering `q` for `{10, 11}` and `r` for `{10, 12}`. */
  function FirstDfaTable(q: State, r: State): set<Transition>
  {
    {Transition(1, 0, q), Transition(1, 1, 1), Transition(q, 0, q),
     Transition(q, 1, r), Transition(r, 0, q), Transition(r, 1, 1)}
  }

  /** Each arc of a subset automaton of the first scenario is in its table. */
  lemma FirstArcIn(A: Nfa, D: Nfa, sub: map<State, set<State>>, q: State, r: State, t: Transition)
    requires FirstArcs(A.trans) && Marked(A) && IsSubsetAutomaton(A, D, sub)
    requires q in sub && r in sub && forall p :: p in sub ==> p == 1 || p == q || p == r
    requires sub[1] == {10} && sub[q] == {10, 11} && sub[r] == {10, 12}
    requires t in D.trans
    ensures t in FirstDfaTable(q, r)
  {
    assert t.sym == 0 || t.sym == 1 by {
      Basics(A);
      assert t.sym in Alphabet(A.trans);
    }
    assert t.from == 1 || t.from == q || t.from == r;
    FirstSetsDistinct();
    if t.sym == 0 {
      FirstOut(A, D, sub, t.from, 0, q);
    } else if t.from == q {
      FirstOut(A, D, sub, q, 1, r);
    } else {
      FirstOut(A, D, sub, t.from, 1, 1);
    }
    FirstTableRow(t, q, r);
  }

  /** An arc on 0 or 1 from one of the three numbers, to the number the
      table gives it, is a row of the table. */
  lemma FirstTableRow(t: Transition, q: State, r: State)
    requires t.sym == 0 || t.sym == 1
    requires t.from == 1 || t.from == q || t.from == r
    requires t.to == if t.sym == 0 then q else if t.from == q then r else 1
    ensures t in FirstDfaTable(q, r)
  {
  }

  /** The arcs of a subset automaton of the first scenario, given its
      numbering. */
  lemma FirstDfaArcs(A: Nfa, D: Nfa, sub: map<State, set<State>>, q: State, r: State)
    requires FirstArcs(A.trans) && Marked(A) && IsSubsetAutomaton(A, D, sub)
    requires q in sub && r in sub && forall p :: p in sub ==> p == 1 || p == q || p == r
    requires sub[1] == {10} && sub[q] == {10, 11} && sub[r] == {10, 12}
    ensures D.trans == FirstDfaTable(q, r)
  {
    assert Transition(1, 0, q) in D.trans && Transition(1, 1, 1) in D.trans && Transition(q, 0, q) in D.trans &&
           Transition(q, 1, r) in D.trans && Transition(r, 0, q) in D.trans && Transition(r, 1, 1) in D.trans by {
      FirstSetsDistinct();
      FirstOut(A, D, sub, 1, 0, q);
      FirstOut(A, D, sub, 1, 1, 1);
      FirstOut(A, D, sub, q, 0, q);
      FirstOut(A, D, sub, q, 1, r);
      FirstOut(A, D, sub, r, 0, q);
      FirstOut(A, D, sub, r, 1, 1);
    }
    assert forall t :: t in D.trans ==> t in FirstDfaTable(q, r) by {
      forall t | t in D.trans
        ensures t in FirstDfaTable(q, r)
      {
        FirstArcIn(A, D, sub, q, r, t);
      }
    }
    FirstTableExact(D.trans, q, r);
  }

  /** A set holding the six arcs of the table and nothing else is the table. */
  lemma FirstTableExact(K: set<Transition>, q: State, r: State)
    requires Transition(1, 0, q) in K && Transition(1, 1, 1) in K && Transition(q, 0, q) in K
    requires Transition(q, 1, r) in K && Transition(r, 0, q) in K && Transition(r, 1, 1) in K
    requires forall t :: t in K ==> t in FirstDfaTable(q, r)
    ensures K == FirstDfaTable(q, r)
  {
  }

  /** The first scenario: the subset automaton is deterministic and has
      three states and six arcs. */
  lemma FirstDeterminized(A: Nfa, D: Nfa, sub: map<State, set<State>>)
    requires FirstArcs(A.trans) && Marked(A) && IsSubsetAutomaton(A, D, sub)
    ensures DeterministicNfa(D)
    ensures |Endpoints(D.trans)| == 3 && |D.trans| == 6
  {
    var q, r := FirstNumbers(A, D, sub);
    FirstDfaArcs(A, D, sub, q, r);
    FirstTableSize(q, r);
    SubsetDeterministic(A, D, sub);
  }

  /** The table has three states and six arcs when its numbers differ. */
  lemma FirstTableSize(q: State, r: State)
    requires 1 != q && 1 != r && q != r
    ensures |Endpoints(FirstDfaTable(q, r))| == 3
    ensures |FirstDfaTable(q, r)| == 6
  {
    FirstTableStates(q, r);
    assert |{1, q, r}| == 3 by {
      assert |{1, q}| == 2;
      assert {1, q, r} == {1, q} + {r};
    }
    FirstTableArcs(q, r);
  }

  /** The states of the table are 1, `q` and `r`. */
  lemma FirstTableStates(q: State, r: State)
    ensures Endpoints(FirstDfaTable(q, r)) == {1, q, r}
  {
    var E := FirstDfaTable(q, r);
    assert Sources(E) == {1, q, r} by {
      assert Transition(1, 0, q) in E && Transition(q, 0, q) in E && Transition(r, 0, q) in E;
    }
    assert Targets(E) == {1, q, r} by {
      assert Transition(1, 1, 1) in E && Transition(1, 0, q) in E && Transition(q, 1, r) in E;
    }
  }

  /** The six arcs of the table differ when its numbers do. */
  lemma FirstTableArcs(q: State, r: State)
    requires 1 != q && 1 != r && q != r
    ensures |FirstDfaTable(q, r)| == 6
  {
    var E2 := {Transition(1, 0, q), Transition(1, 1, 1)};
    var E4 := E2 + {Transition(q, 0, q), Transition(q, 1, r)};
    assert |E4| == 4 by {
      assert E2 !! {Transition(q, 0, q), Transition(q, 1, r)};
    }
    assert FirstDfaTable(q, r) == E4 + {Transition(r, 0, q), Transition(r, 1, 1)};
    assert E4 !! {Transition(r, 0, q), Transition(r, 1, 1)};
  }

  /** The subsets the second scenario reaches from its seed. */
  ghost predicate SecondSet(X: set<State>)
  {
    X == {10} || X == {10, 11}
  }

  /** The two subsets of the second scenario, as a family. */
  function SecondFamily(): (F: set<set<State>>)
    ensures forall X :: X in F <==> SecondSet(X)
  {
    {{10}, {10, 11}}
  }

  /** The two subsets of the second scenario are closed under its steps. */
  lemma SecondClosed(A: Nfa)
    requires SecondArcs(A.trans) && Marked(A)
    ensures forall X, a :: X in SecondFamily() && a in Alphabet(A.trans) && Step(A.trans, X, a) != {} ==>
      Step(A.trans, X, a) in SecondFamily()
  {
    Basics(A);
    forall X, a | X in SecondFamily() && a in Alphabet(A.trans)
      ensures Step(A.trans, X, a) in SecondFamily()
    {
      SecondStep(A.trans, X, a);
    }
  }

  /** Every set a subset automaton of the second scenario numbers is one of
      its two subsets. */
  lemma SecondReached(A: Nfa, D: Nfa, sub: map<State, set<State>>, p: State)
    requires SecondArcs(A.trans) && Marked(A) && IsSubsetAutomaton(A, D, sub) && p in sub
    ensures SecondSet(sub[p])
  {
    assert Seed(A) in SecondFamily() by { Basics(A); }
    SecondClosed(A);
    NumberedIn(A, D, sub, SecondFamily(), p);
  }

  /** A subset automaton of the second scenario numbers exactly two sets:
      `{10}` as 1 and `{10, 11}` as `q`. */
  lemma SecondNumbers(A: Nfa, D: Nfa, sub: map<State, set<State>>) returns (q: State)
    requires SecondArcs(A.trans) && Marked(A) && IsSubsetAutomaton(A, D, sub)
    ensures q in sub && forall p :: p in sub ==> p == 1 || p == q
    ensures sub[1] == {10} && sub[q] == {10, 11}
    ensures 1 != q
  {
    var T := A.trans;
    Basics(A);
    SecondStep(T, {10}, 0);
    q := ArcOn(A, D, sub, 1, 0);
    assert 11 !in {10};
    forall p | p in sub
      ensures p == 1 || p == q
    {
      SecondReached(A, D, sub, p);
    }
  }

  /** The one arc a state of the second scenario's subset automaton has on
      a symbol: to the number of the next set in the table. */
  lemma SecondOut(A: Nfa, D: Nfa, sub: map<State, set<State>>, p: State, a: Symbol, x: State)
    requires SecondArcs(A.trans) && Marked(A) && IsSubsetAutomaton(A, D, sub)
    requires p in sub && SecondSet(sub[p]) && (a == 0 || a == 1)
    requires x in sub && sub[x] == SecondNext(sub[p], a)
    ensures Transition(p, a, x) in D.trans
    ensures forall t :: t in D.trans && t.from == p && t.sym == a ==> t.to == x
  {
    Basics(A);
    SecondStep(A.trans, sub[p], a);
    var y := ArcOn(A, D, sub, p, a);
    assert sub[y] == sub[x];
  }

  /** The four arcs of the second scenario's subset automaton under the
      numbering `q` for `{10, 11}`. */
  function SecondDfaTable(q: State): set<Transition>
  {
    {Transition(1, 0, q), Transition(1, 1, 1), Transition(q, 0, q), Transition(q, 1, q)}
  }

  /** Each arc of a subset automaton of the second scenario is in its table. */
  lemma SecondArcIn(A: Nfa, D: Nfa, sub: map<State, set<State>>, q: State, t: Transition)
    requires SecondArcs(A.trans) && Marked(A) && IsSubsetAutomaton(A, D, sub)
    requires q in sub && forall p :: p in sub ==> p == 1 || p == q
    requires sub[1] == {10} && sub[q] == {10, 11}
    requires t in D.trans
    ensures t in SecondDfaTable(q)
  {
    assert t.sym == 0 || t.sym == 1 by {
      Basics(A);
      assert t.sym in Alphabet(A.trans);
    }
    assert t.from == 1 || t.from == q;
    assert 11 !in {10};
    if t.sym == 0 || t.from == q {
      SecondOut(A, D, sub, t.from, t.sym, q);
    } else {
      SecondOut(A, D, sub, 1, 1, 1);
    }
    SecondTableRow(t, q);
  }

  /** An arc on 0 or 1 from one of the two numbers, to the number the table
      gives it, is a row of the table. */
  lemma SecondTableRow(t: Transition, q: State)
    requires t.sym == 0 || t.sym == 1
    requires t.from == 1 || t.from == q
    requires t.to == if t.sym == 0 || t.from == q then q else 1
    ensures t in SecondDfaTable(q)
  {
  }

  /** The arcs of a subset automaton of the second scenario, given its
      numbering. */
  lemma SecondDfaArcs(A: Nfa, D: Nfa, sub: map<State, set<State>>, q: State)
    requires SecondArcs(A.trans) && Marked(A) && IsSubsetAutomaton(A, D, sub)
    requires q in sub && forall p :: p in sub ==> p == 1 || p == q
    requires sub[1] == {10} && sub[q] == {10, 11}
    ensures D.trans == SecondDfaTable(q)
  {
    assert Transition(1, 0, q) in D.trans && Transition(1, 1, 1) in D.trans &&
           Transition(q, 0, q) in D.trans && Transition(q, 1, q) in D.trans by {
      assert 11 !in {10};
      SecondOut(A, D, sub, 1, 0, q);
      SecondOut(A, D, sub, 1, 1, 1);
      SecondOut(A, D, sub, q, 0, q);
      SecondOut(A, D, sub, q, 1, q);
    }
    assert forall t :: t in D.trans ==> t in SecondDfaTable(q) by {
      forall t | t in D.trans
        ensures t in SecondDfaTable(q)
      {
        SecondArcIn(A, D, sub, q, t);
      }
    }
    SecondTableExact(D.trans, q);
  }

  /** A set holding the four arcs of the table and nothing else is the table. */
  lemma SecondTableExact(K: set<Transition>, q: State)
    requires Transition(1, 0, q) in K && Transition(1, 1, 1) in K
    requires Transition(q, 0, q) in K && Transition(q, 1, q) in K
    requires forall t :: t in K ==> t in SecondDfaTable(q)
    ensures K == SecondDfaTable(q)
  {
  }

  /** The table has two states and four arcs when `q` is not 1. */
  lemma SecondTableSize(q: State)
    requires q != 1
    ensures |Endpoints(SecondDfaTable(q))| == 2
    ensures |SecondDfaTable(q)| == 4
  {
    var E := SecondDfaTable(q);
    assert Endpoints(E) == {1, q} by {
      assert Transition(1, 0, q) in E && Transition(q, 0, q) in E && Transition(1, 1, 1) in E;
    }
    var E2 := {Transition(1, 0, q), Transition(1, 1, 1)};
    assert E == E2 + {Transition(q, 0, q), Transition(q, 1, q)};
    assert E2 !! {Transition(q, 0, q), Transition(q, 1, q)};
  }

  /** The second scenario: the subset automaton is deterministic and has
      two states and four arcs. */
  lemma SecondDeterminized(A: Nfa, D: Nfa, sub: map<State, set<State>>)
    requires SecondArcs(A.trans) && Marked(A) && IsSubsetAutomaton(A, D, sub)
    ensures DeterministicNfa(D)
    ensures |Endpoints(D.trans)| == 2 && |D.trans| == 4
  {
    var q := SecondNumbers(A, D, sub);
    SecondDfaArcs(A, D, sub, q);
    SecondTableSize(q);
    SubsetDeterministic(A, D, sub);
  }

  /** The arcs of the first scenario, added one by one. */
  lemma FirstAdded(T: set<Transition>)
    requires T == {} + {Transition(10, 0, 10)} + {Transition(10, 0, 11)} + {Transition(10, 1, 10)} + {Transition(11, 1, 12)}
    ensures FirstArcs(T)
  {
  }

  /** The arcs of the second scenario, added one by one. */
  lemma SecondAdded(T: set<Transition>)
    requires T == {} + {Transition(10, 0, 10)} + {Transition(10, 1, 10)} + {Transition(10, 0, 11)} +
                  {Transition(11, 1, 10)} + {Transition(10, 1, 10)} + {Transition(11, 1, 11)}
    ensures SecondArcs(T)
  {
  }

  /** Both ends of an arc are states of the automaton. */
  lemma ArcEnds(T: set<Transition>, t: Transition)
    requires t in T
    ensures t.from in Endpoints(T) && t.to in Endpoints(T)
  {
    assert t.from in Sources(T) && t.to in Targets(T);
  }

  /** Starting in 10 alone and accepting in 11 alone is `Marked`. */
  lemma MarkedOf(A: Nfa)
    requires A.starts == {} + {10} && A.finals == {} + {11}
    ensures Marked(A)
  {
  }

  /** Marks `start` as a start state and `final` as a final state. */
  method Mark(nfa: FiniteAutomaton, start: State, final: State)
    requires nfa.Valid() && start in Endpoints(nfa.Model().trans) && final in Endpoints(nfa.Model().trans)
    modifies nfa
    ensures nfa.Valid()
    ensures nfa.Model() == old(nfa.Model()).(starts := old(nfa.Model().starts) + {start},
                                             finals := old(nfa.Model().finals) + {final})
  {
    var known := nfa.SetStartState(start, true);
    known := nfa.SetFinalState(final, true);
  }

  /** Builds the automaton of the first scenario: four arcs added, then 10
      made the start and 11 final. */
  method BuildFirst() returns (nfa: FiniteAutomaton)
    ensures fresh(nfa) && fresh(nfa.transitions) && nfa.Valid()
    ensures FirstArcs(nfa.Model().trans) && Marked(nfa.Model())
  {
    nfa := new FiniteAutomaton();
    var added := nfa.AddTransition(10, 0, 10);
    added := nfa.AddTransition(10, 0, 11);
    added := nfa.AddTransition(10, 1, 10);
    added := nfa.AddTransition(11, 1, 12);
    ghost var T := nfa.Model().trans;
    FirstAdded(T);
    ArcEnds(T, Transition(10, 0, 11));
    Mark(nfa, 10, 11);
    MarkedOf(nfa.Model());
  }

  /** Builds the automaton of the second scenario: six arcs added, one of
      them twice, then 10 made the start and 11 final. */
  method BuildSecond() returns (nfa: FiniteAutomaton)
    ensures fresh(nfa) && fresh(nfa.transitions) && nfa.Valid()
    ensures SecondArcs(nfa.Model().trans) && Marked(nfa.Model())
  {
    nfa := new FiniteAutomaton();
    var added := nfa.AddTransition(10, 0, 10);
    added := nfa.AddTransition(10, 1, 10);
    added := nfa.AddTransition(10, 0, 11);
    added := nfa.AddTransition(11, 1, 10);
    added := nfa.AddTransition(10, 1, 10);
    added := nfa.AddTransition(11, 1, 11);
    ghost var T := nfa.Model().trans;
    SecondAdded(T);
    ArcEnds(T, Transition(10, 0, 11));
    Mark(nfa, 10, 11);
    MarkedOf(nfa.Model());
  }

  /** The first scenario determinised: the result is deterministic and has
      three states and six arcs. */
  method DeterminizeFirst() returns (deterministic: bool, states: nat, arcs: nat)
    ensures deterministic && states == 3 && arcs == 6
  {
    var nfa := BuildFirst();
    assert 10 in nfa.Model().starts;
    var dfa := Determinize.ToDeterministic(nfa);
    ghost var sub :| IsSubsetAutomaton(nfa.Model(), dfa.Model(), sub);
    FirstDeterminized(nfa.Model(), dfa.Model(), sub);
    deterministic := Engine.IsDeterministic(dfa);
    states := dfa.StateCount();
    arcs := dfa.TransitionCount();
  }

  /** The second scenario determinised: the result is deterministic and has
      two states and four arcs. */
  method DeterminizeSecond() returns (deterministic: bool, states: nat, arcs: nat)
    ensures deterministic && states == 2 && arcs == 4
  {
    var nfa := BuildSecond();
    assert 10 in nfa.Model().starts;
    var dfa := Determinize.ToDeterministic(nfa);
    ghost var sub :| IsSubsetAutomaton(nfa.Model(), dfa.Model(), sub);
    SecondDeterminized(nfa.Model(), dfa.Model(), sub);
    deterministic := Engine.IsDeterministic(dfa);
    states := dfa.StateCount();
    arcs := dfa.TransitionCount();
  }
}
