/** The subset construction behind `ToDeterministic`: every state of the
    result numbers a non-empty, ε-closed set of states of the source
    automaton, state 1 numbers the closure of all start states, and each
    real symbol leads from a set to the closure of its successors. The
    specification is a predicate on automaton values with the language and
    determinism theorems proved about it; the worklist algorithm that builds
    such an automaton follows. */
module SubsetConstruction {
  import opened Base
  import opened Collections
  import opened Language
  import opened Automaton
  import Engine

  /** The successor of a set of states on a real symbol: the closure of the
      states its members reach on that symbol. */
  ghost function Step(T: set<Transition>, X: set<State>, a: Symbol): set<State>
  {
    Closure(T, Post(T, X, a))
  }

  /** The set numbered 1: the closure of all start states. */
  ghost function Seed(A: Nfa): set<State>
  {
    Closure(A.trans, A.starts)
  }

  /** The real symbols: the labels of the arcs other than ε. */
  function Alphabet(T: set<Transition>): set<Symbol>
  {
    Labels(T) - {Epsilon}
  }

  /** `sub` gives distinct numbers to distinct non-empty sets, 1 to the seed. */
  ghost predicate Numbering(A: Nfa, sub: map<State, set<State>>)
  {
    && 1 in sub && sub[1] == Seed(A)
    && (forall p :: p in sub ==> sub[p] != {})
    && (forall p, q :: p in sub && q in sub && sub[p] == sub[q] ==> p == q)
  }

  /** Every arc leads on a real symbol from a numbered set to the number of
      its successor. */
  ghost predicate ArcsSound(A: Nfa, D: Nfa, sub: map<State, set<State>>)
  {
    forall t :: t in D.trans ==>
      && t.from in sub && t.to in sub && t.sym in Alphabet(A.trans)
      && sub[t.to] == Step(A.trans, sub[t.from], t.sym)
  }

  /** `p` has an arc on each symbol of `S` whose successor is non-empty. */
  ghost predicate ExpandedOn(A: Nfa, D: Nfa, sub: map<State, set<State>>, p: State, S: set<Symbol>)
    requires p in sub
  {
    forall a :: a in S && a in Alphabet(A.trans) && Step(A.trans, sub[p], a) != {} ==>
      exists q :: q in sub && Transition(p, a, q) in D.trans
  }

  /** Every numbered set has its arcs. */
  ghost predicate Complete(A: Nfa, D: Nfa, sub: map<State, set<State>>)
  {
    forall p :: p in sub ==> ExpandedOn(A, D, sub, p, Alphabet(A.trans))
  }

  /** Every number but 1 is entered by an arc from a smaller number. */
  ghost predicate Entered(D: Nfa, sub: map<State, set<State>>)
  {
    forall p :: p in sub && p != 1 ==> exists t :: t in D.trans && t.to == p && t.from < p
  }

  /** `D` is a subset automaton of `A` under the numbering `sub`: its arcs
      are exactly the successor steps of the numbered sets, state 1 is its
      start once it is known, and a known state is final iff its set meets
      the final states of `A`. */
  ghost predicate IsSubsetAutomaton(A: Nfa, D: Nfa, sub: map<State, set<State>>)
  {
    && Numbering(A, sub)
    && ArcsSound(A, D, sub)
    && Entered(D, sub)
    && Complete(A, D, sub)
    && D.starts == (if 1 in Endpoints(D.trans) then {1} else {})
    && D.finals == set p | p in sub && p in Endpoints(D.trans) && sub[p] * A.finals != {}
  }

  // ---------------------------------------------------------------------
  // Facts about runs used by the theorems.

  /** Without ε-arcs every set is its own closure. */
  lemma NoEpsilonClosed(T: set<Transition>, S: set<State>)
    requires forall t :: t in T ==> t.sym != Epsilon
    ensures Closure(T, S) == S
  {
    assert Post(T, S, Epsilon) == {};
    ClosureOfClosed(T, S);
  }

  /** A run stays among its start states and the targets of arcs. */
  lemma {:induction false} RunWithin(T: set<Transition>, S: set<State>, w: seq<Symbol>)
    ensures Run(T, S, w) <= S + Targets(T)
    decreases |w|
  {
    if w != [] {
      if w[0] == Epsilon {
        RunWithin(T, S, w[1..]);
      } else {
        var P := Post(T, S, w[0]);
        assert P <= Targets(T);
        RunWithin(T, Closure(T, P), w[1..]);
      }
    }
  }

  // ---------------------------------------------------------------------
  // The theorems.

  /** The subset automaton has no ε-arc. */
  lemma NoEpsilonArcs(A: Nfa, D: Nfa, sub: map<State, set<State>>)
    requires ArcsSound(A, D, sub)
    ensures forall t :: t in D.trans ==> t.sym != Epsilon
  {
  }

  /** A real symbol with a non-empty successor labels an arc. */
  lemma StepLabel(T: set<Transition>, X: set<State>, a: Symbol)
    requires a != Epsilon && Step(T, X, a) != {}
    ensures a in Alphabet(T)
  {
    if Post(T, X, a) == {} {
      ClosureEmpty(T);
    }
    var u :| u in Post(T, X, a);
    var t :| t in T && t.from in X && t.sym == a && t.to == u;
  }

  /** No arc leaves a numbered set on a symbol without successors. */
  lemma StepNone(A: Nfa, D: Nfa, sub: map<State, set<State>>, p: State, a: Symbol)
    requires Numbering(A, sub) && ArcsSound(A, D, sub) && p in sub
    requires Step(A.trans, sub[p], a) == {}
    ensures Post(D.trans, {p}, a) == {}
  {
    forall t | t in D.trans && t.from == p
      ensures t.sym != a
    {
    }
  }

  /** A real symbol with a non-empty successor leads from a numbered set to
      the number of that successor, and nowhere else. */
  lemma StepOne(A: Nfa, D: Nfa, sub: map<State, set<State>>, p: State, a: Symbol) returns (q: State)
    requires Numbering(A, sub) && ArcsSound(A, D, sub) && p in sub
    requires ExpandedOn(A, D, sub, p, Alphabet(A.trans))
    requires a != Epsilon && Step(A.trans, sub[p], a) != {}
    ensures q in sub && sub[q] == Step(A.trans, sub[p], a)
    ensures Post(D.trans, {p}, a) == {q}
  {
    StepLabel(A.trans, sub[p], a);
    q :| q in sub && Transition(p, a, q) in D.trans;
    assert Transition(p, a, q) in D.trans;
    forall r | r in Post(D.trans, {p}, a)
      ensures r == q
    {
      var t :| t in D.trans && t.from == p && t.sym == a && t.to == r;
      assert sub[r] == sub[q];
    }
  }

  /** Reading a word from a numbered state of the subset automaton lands on
      the number of the set the source automaton reaches from its set, or
      nowhere when that set is empty. */
  lemma {:induction false} SubsetRun(A: Nfa, D: Nfa, sub: map<State, set<State>>, p: State, w: seq<Symbol>)
    requires Numbering(A, sub) && ArcsSound(A, D, sub) && Complete(A, D, sub) && p in sub
    ensures Run(A.trans, sub[p], w) == {} ==> Run(D.trans, {p}, w) == {}
    ensures Run(A.trans, sub[p], w) != {} ==>
      exists q :: q in sub && sub[q] == Run(A.trans, sub[p], w) && Run(D.trans, {p}, w) == {q}
    decreases |w|
  {
    if w == [] {
    } else if w[0] == Epsilon {
      SubsetRun(A, D, sub, p, w[1..]);
    } else {
      var a := w[0];
      var X := Step(A.trans, sub[p], a);
      NoEpsilonArcs(A, D, sub);
      var P := Post(D.trans, {p}, a);
      NoEpsilonClosed(D.trans, P);
      if X == {} {
        StepNone(A, D, sub, p, a);
        RunEmpty(D.trans, w[1..]);
        RunEmpty(A.trans, w[1..]);
      } else {
        var q := StepOne(A, D, sub, p, a);
        SubsetRun(A, D, sub, q, w[1..]);
      }
    }
  }

  /** The subset automaton accepts exactly the words of the source
      automaton, provided its state 1 is known. */
  lemma SubsetAccepts(A: Nfa, D: Nfa, sub: map<State, set<State>>, w: seq<Symbol>)
    requires IsSubsetAutomaton(A, D, sub)
    ensures Accepts(D, w) <==> 1 in Endpoints(D.trans) && Accepts(A, w)
  {
    NoEpsilonClosed(D.trans, D.starts);
    if 1 !in Endpoints(D.trans) {
      RunEmpty(D.trans, w);
    } else {
      SubsetRun(A, D, sub, 1, w);
      var X := Reach(A, w);
      RunWithin(D.trans, {1}, w);
      if X != {} {
        var q :| q in sub && sub[q] == X && Run(D.trans, {1}, w) == {q};
        assert q in Endpoints(D.trans);
        assert q in D.finals <==> X * A.finals != {};
      }
    }
  }

  /** The subset automaton is deterministic. */
  lemma SubsetDeterministic(A: Nfa, D: Nfa, sub: map<State, set<State>>)
    requires IsSubsetAutomaton(A, D, sub)
    ensures DeterministicNfa(D)
  {
    forall t, u | t in D.trans && u in D.trans && t.from == u.from && t.sym == u.sym
      ensures t.to == u.to
    {
      assert sub[t.to] == sub[u.to];
    }
    forall s | s in Endpoints(D.trans)
      ensures Alone(D.trans, s)
    {
      NoEpsilonClosed(D.trans, {s});
    }
  }

  /** Any arc leads back to an arc out of state 1. */
  lemma {:induction false} SeedLeads(A: Nfa, D: Nfa, sub: map<State, set<State>>, t: Transition)
    requires IsSubsetAutomaton(A, D, sub) && t in D.trans
    ensures 1 in Sources(D.trans)
    decreases t.from
  {
    if t.from != 1 {
      var u :| u in D.trans && u.to == t.from && u.from < t.from;
      SeedLeads(A, D, sub, u);
    }
  }

  /** State 1 is known iff the seed has a non-empty successor on some real
      symbol. */
  lemma SeedKnown(A: Nfa, D: Nfa, sub: map<State, set<State>>)
    requires IsSubsetAutomaton(A, D, sub)
    ensures 1 in Endpoints(D.trans) <==> exists a :: a in Alphabet(A.trans) && Step(A.trans, Seed(A), a) != {}
  {
    if 1 in Endpoints(D.trans) {
      var t :| t in D.trans;
      SeedLeads(A, D, sub, t);
      var u :| u in D.trans && u.from == 1;
      assert Step(A.trans, Seed(A), u.sym) == sub[u.to];
    } else {
      forall a | a in Alphabet(A.trans)
        ensures Step(A.trans, Seed(A), a) == {}
      {
        assert ExpandedOn(A, D, sub, 1, Alphabet(A.trans));
      }
    }
  }

  // ---------------------------------------------------------------------
  // The worklist construction.

  /** Every set the construction can number lies within the start states
      and the targets of arcs. */
  ghost function Universe(A: Nfa): set<State>
  {
    A.starts + Targets(A.trans)
  }

  /** The numbers waiting on the worklist. */
  ghost function Pending(stack: seq<(set<State>, State)>): set<State>
  {
    if stack == [] then {} else Pending(stack[..|stack| - 1]) + {stack[|stack| - 1].1}
  }

  /** `ids` (set to number) and `sub` (number to set) are inverse
      numberings, every number is at most `last`, and every numbered set is
      drawn from the universe. */
  ghost predicate Registry(A: Nfa, ids: map<set<State>, State>, sub: map<State, set<State>>, last: State)
  {
    && Numbering(A, sub)
    && (forall X :: X in ids ==> ids[X] in sub && sub[ids[X]] == X && X <= Universe(A))
    && (forall p :: p in sub ==> sub[p] in ids && ids[sub[p]] == p && p <= last)
  }

  /** The arcs drawn so far are sound and enter every number but 1, no
      start is set yet, and a target is final iff its set meets the final
      states. */
  ghost predicate Drawn(A: Nfa, D: Nfa, sub: map<State, set<State>>)
  {
    && ArcsSound(A, D, sub)
    && Entered(D, sub)
    && D.starts == {}
    && D.finals == set p | p in sub && p in Targets(D.trans) && sub[p] * A.finals != {}
  }

  /** Every worklist entry pairs a number with its set. */
  ghost predicate Tracked(sub: map<State, set<State>>, stack: seq<(set<State>, State)>)
  {
    forall i :: 0 <= i < |stack| ==> stack[i].1 in sub && sub[stack[i].1] == stack[i].0
  }

  /** The loop invariant of the worklist: a number off the list has all of
      its arcs. */
  ghost predicate Building(A: Nfa, D: Nfa, ids: map<set<State>, State>, sub: map<State, set<State>>,
                           last: State, stack: seq<(set<State>, State)>)
  {
    && Registry(A, ids, sub, last)
    && Drawn(A, D, sub)
    && Tracked(sub, stack)
    && forall q :: q in sub && q !in Pending(stack) ==> ExpandedOn(A, D, sub, q, Alphabet(A.trans))
  }

  /** The invariant while the popped number `p` is expanded: `p` has its
      arcs on the symbols of `S`. */
  ghost predicate Expanding(A: Nfa, D: Nfa, ids: map<set<State>, State>, sub: map<State, set<State>>,
                            last: State, stack: seq<(set<State>, State)>, p: State, S: set<Symbol>)
  {
    && Registry(A, ids, sub, last)
    && Drawn(A, D, sub)
    && Tracked(sub, stack)
    && p in sub
    && OthersExpanded(A, D, sub, stack, p)
    && ExpandedOn(A, D, sub, p, S)
  }

  /** Every number off the worklist but `p` has all of its arcs. */
  ghost predicate OthersExpanded(A: Nfa, D: Nfa, sub: map<State, set<State>>, stack: seq<(set<State>, State)>,
                                 p: State)
  {
    forall q :: q in sub && q !in Pending(stack) && q != p ==> ExpandedOn(A, D, sub, q, Alphabet(A.trans))
  }

  /** The worklist starts with the seed numbered 1 and nothing drawn. */
  lemma BuildingInit(A: Nfa)
    requires Seed(A) != {}
    ensures Building(A, Nfa({}, {}, {}), map[Seed(A) := 1], map[1 := Seed(A)], 1, [(Seed(A), 1)])
  {
    var D := Nfa({}, {}, {});
    var sub := map[1 := Seed(A)];
    assert Seed(A) <= Universe(A);
    assert Pending([(Seed(A), 1)]) == {1};
    assert Targets(D.trans) == {};
  }

  /** Popping the last entry starts its expansion. */
  lemma BuildingPop(A: Nfa, D: Nfa, ids: map<set<State>, State>, sub: map<State, set<State>>,
                    last: State, stack: seq<(set<State>, State)>)
    requires stack != [] && Building(A, D, ids, sub, last, stack)
    ensures stack[|stack| - 1].1 in sub && sub[stack[|stack| - 1].1] == stack[|stack| - 1].0
    ensures Expanding(A, D, ids, sub, last, stack[..|stack| - 1], stack[|stack| - 1].1, {})
  {
    var rest := stack[..|stack| - 1];
    var p := stack[|stack| - 1].1;
    assert Pending(stack) == Pending(rest) + {p};
    assert Tracked(sub, rest) by {
      forall i | 0 <= i < |rest|
        ensures rest[i].1 in sub && sub[rest[i].1] == rest[i].0
      {
        assert rest[i] == stack[i];
      }
    }
    forall q | q in sub && q !in Pending(rest) && q != p
      ensures ExpandedOn(A, D, sub, q, Alphabet(A.trans))
    {
      assert q !in Pending(stack);
    }
  }

  /** Once the popped number has its arcs on every label it is off the
      worklist for good. */
  lemma ExpandingDone(A: Nfa, D: Nfa, ids: map<set<State>, State>, sub: map<State, set<State>>,
                      last: State, stack: seq<(set<State>, State)>, p: State, S: set<Symbol>)
    requires Expanding(A, D, ids, sub, last, stack, p, S) && Labels(A.trans) <= S
    ensures Building(A, D, ids, sub, last, stack)
  {
  }

  /** A symbol that is ε or has an empty successor needs no arc. */
  lemma ExpandingSkip(A: Nfa, D: Nfa, ids: map<set<State>, State>, sub: map<State, set<State>>,
                      last: State, stack: seq<(set<State>, State)>, p: State, S: set<Symbol>, a: Symbol)
    requires Expanding(A, D, ids, sub, last, stack, p, S) && p in sub
    requires a == Epsilon || Step(A.trans, sub[p], a) == {}
    ensures Expanding(A, D, ids, sub, last, stack, p, S + {a})
  {
  }

  /** `sub'` keeps every number of `sub`. */
  ghost predicate Extends(sub: map<State, set<State>>, sub': map<State, set<State>>)
  {
    forall q :: q in sub ==> q in sub' && sub'[q] == sub[q]
  }

  /** Expansion is kept when arcs and numbers are added. */
  lemma ExpandedGrow(A: Nfa, D: Nfa, D': Nfa, sub: map<State, set<State>>, sub': map<State, set<State>>,
                     q: State, S: set<Symbol>)
    requires q in sub && Extends(sub, sub') && D.trans <= D'.trans
    requires ExpandedOn(A, D, sub, q, S)
    ensures ExpandedOn(A, D', sub', q, S)
  {
    forall a | a in S && a in Alphabet(A.trans) && Step(A.trans, sub'[q], a) != {}
      ensures exists r :: r in sub' && Transition(q, a, r) in D'.trans
    {
      var r :| r in sub && Transition(q, a, r) in D.trans;
      assert r in sub' && Transition(q, a, r) in D'.trans;
    }
  }

  /** The arc of `p` on `a` to the number of its successor keeps the arcs
      sound. */
  lemma SoundAdd(A: Nfa, D: Nfa, D': Nfa, sub: map<State, set<State>>, sub': map<State, set<State>>,
                 p: State, a: Symbol, to: State)
    requires ArcsSound(A, D, sub) && Extends(sub, sub') && p in sub
    requires a != Epsilon && to in sub' && sub'[to] == Step(A.trans, sub[p], a) && sub'[to] != {}
    requires D'.trans == D.trans + {Transition(p, a, to)}
    ensures ArcsSound(A, D', sub')
  {
    StepLabel(A.trans, sub[p], a);
  }

  /** A new number entered from `p` below it keeps every number entered. */
  lemma EnteredAdd(D: Nfa, D': Nfa, sub: map<State, set<State>>, sub': map<State, set<State>>,
                   p: State, a: Symbol, to: State)
    requires Entered(D, sub) && D.trans <= D'.trans && Transition(p, a, to) in D'.trans
    requires to !in sub ==> p < to && sub'.Keys == sub.Keys + {to}
    requires to in sub ==> sub'.Keys == sub.Keys
    ensures Entered(D', sub')
  {
    forall q | q in sub' && q != 1
      ensures exists t :: t in D'.trans && t.to == q && t.from < q
    {
      if q in sub {
        var t :| t in D.trans && t.to == q && t.from < q;
        assert t in D'.trans;
      } else {
        assert Transition(p, a, to).to == q;
      }
    }
  }

  /** Marking the new target final iff its set meets the final states keeps
      the final states exact. */
  lemma FinalsAdd(A: Nfa, D: Nfa, D': Nfa, sub: map<State, set<State>>, sub': map<State, set<State>>,
                  t: Transition)
    requires D.finals == set q | q in sub && q in Targets(D.trans) && sub[q] * A.finals != {}
    requires Extends(sub, sub') && sub'.Keys <= sub.Keys + {t.to} && t.to in sub'
    requires D'.trans == D.trans + {t}
    requires D'.finals == if sub'[t.to] * A.finals != {} then D.finals + {t.to} else D.finals
    ensures D'.finals == set q | q in sub' && q in Targets(D'.trans) && sub'[q] * A.finals != {}
  {
    assert Targets(D'.trans) == Targets(D.trans) + {t.to};
  }

  /** The drawn arcs stay sound when the arc of `p` on `a` is added and its
      target is made final iff its set meets the final states. */
  lemma DrawnAdd(A: Nfa, D: Nfa, D': Nfa, sub: map<State, set<State>>, sub': map<State, set<State>>,
                 p: State, a: Symbol, to: State)
    requires Drawn(A, D, sub) && Extends(sub, sub') && p in sub
    requires a != Epsilon && to in sub' && sub'[to] == Step(A.trans, sub[p], a) && sub'[to] != {}
    requires to !in sub ==> p < to && sub'.Keys == sub.Keys + {to}
    requires to in sub ==> sub' == sub
    requires D'.trans == D.trans + {Transition(p, a, to)} && D'.starts == D.starts
    requires D'.finals == if sub'[to] * A.finals != {} then D.finals + {to} else D.finals
    ensures Drawn(A, D', sub')
  {
    SoundAdd(A, D, D', sub, sub', p, a, to);
    EnteredAdd(D, D', sub, sub', p, a, to);
    FinalsAdd(A, D, D', sub, sub', Transition(p, a, to));
  }

  /** `D` with the arc `t` drawn and its target marked final when `final`. */
  function WithArc(D: Nfa, t: Transition, final: bool): Nfa
  {
    Nfa(D.trans + {t}, D.starts, if final then D.finals + {t.to} else D.finals)
  }

  /** The arc of the popped number on a real symbol with a non-empty
      successor extends its expansion by that symbol. */
  lemma ExpandingAdd(A: Nfa, D: Nfa, D': Nfa, ids: map<set<State>, State>, sub: map<State, set<State>>,
                     last: State, stack: seq<(set<State>, State)>, ids': map<set<State>, State>,
                     sub': map<State, set<State>>, last': State, stack': seq<(set<State>, State)>,
                     p: State, S: set<Symbol>, a: Symbol, to: State)
    requires Expanding(A, D, ids, sub, last, stack, p, S)
    requires a != Epsilon && Step(A.trans, sub[p], a) != {}
    requires Registry(A, ids', sub', last') && Tracked(sub', stack') && Extends(sub, sub')
    requires to in sub' && sub'[to] == Step(A.trans, sub[p], a)
    requires to in sub ==> sub' == sub && stack' == stack
    requires to !in sub ==> last < to && Pending(stack') == Pending(stack) + {to} && sub'.Keys == sub.Keys + {to}
    requires D' == WithArc(D, Transition(p, a, to), sub'[to] * A.finals != {})
    ensures Expanding(A, D', ids', sub', last', stack', p, S + {a})
  {
    DrawnAdd(A, D, D', sub, sub', p, a, to);
    OthersGrow(A, D, D', sub, sub', stack, stack', p, to);
    ExpandedAdd(A, D, D', sub, sub', p, S, a, to);
  }

  /** The numbers off the worklist keep their arcs when an arc and possibly
      a new, queued number are added. */
  lemma OthersGrow(A: Nfa, D: Nfa, D': Nfa, sub: map<State, set<State>>, sub': map<State, set<State>>,
                   stack: seq<(set<State>, State)>, stack': seq<(set<State>, State)>, p: State, to: State)
    requires OthersExpanded(A, D, sub, stack, p) && Extends(sub, sub') && D.trans <= D'.trans
    requires to in sub ==> sub' == sub && stack' == stack
    requires to !in sub ==> Pending(stack') == Pending(stack) + {to} && sub'.Keys == sub.Keys + {to}
    ensures OthersExpanded(A, D', sub', stack', p)
  {
    forall q | q in sub' && q !in Pending(stack') && q != p
      ensures ExpandedOn(A, D', sub', q, Alphabet(A.trans))
    {
      assert q in sub && q !in Pending(stack);
      ExpandedGrow(A, D, D', sub, sub', q, Alphabet(A.trans));
    }
  }

  /** The popped number gains its arc on `a`. */
  lemma ExpandedAdd(A: Nfa, D: Nfa, D': Nfa, sub: map<State, set<State>>, sub': map<State, set<State>>,
                    p: State, S: set<Symbol>, a: Symbol, to: State)
    requires p in sub && ExpandedOn(A, D, sub, p, S) && Extends(sub, sub') && to in sub'
    requires D.trans <= D'.trans && Transition(p, a, to) in D'.trans
    ensures ExpandedOn(A, D', sub', p, S + {a})
  {
    ExpandedGrow(A, D, D', sub, sub', p, S);
  }

  /** A new numbered set shrinks the part of the powerset not yet numbered. */
  lemma MeasureDrop(U: set<State>, K: set<set<State>>, K': set<set<State>>)
    requires K < K' && forall X :: X in K' ==> X <= U
    ensures |Subsets(U) - K'| < |Subsets(U) - K|
  {
    var X :| X in K' && X !in K;
    assert X in Subsets(U) - K;
    StrictSubsetCard(Subsets(U) - K', Subsets(U) - K);
  }

  /** The measure of the worklist loop: the numbered sets grow, or else
      the worklist shrinks. */
  lemma Progress(U: set<State>, K: set<set<State>>, K': set<set<State>>, n: nat, n': nat)
    requires K <= K' && (K < K' || n' < n) && forall X :: X in K' ==> X <= U
    ensures |Subsets(U) - K'| < |Subsets(U) - K| || (K' == K && n' < n)
  {
    if K < K' {
      MeasureDrop(U, K, K');
    }
  }

  /** With the worklist empty, setting state 1 as the start and marking it
      final iff the seed meets the final states completes the subset
      automaton. */
  lemma BuildingFinish(A: Nfa, D: Nfa, D': Nfa, ids: map<set<State>, State>, sub: map<State, set<State>>,
                       last: State)
    requires Building(A, D, ids, sub, last, [])
    requires D'.trans == D.trans
    requires D'.starts == if 1 in Endpoints(D.trans) then {1} else {}
    requires D'.finals == if 1 in Endpoints(D.trans) && Seed(A) * A.finals != {} then D.finals + {1} else D.finals
    ensures IsSubsetAutomaton(A, D', sub)
  {
    BuildingDone(A, D, ids, sub, last);
    ArcsFinish(A, D, D', sub);
    FinalsFinish(A, D, D', sub);
  }

  /** With the worklist empty every number is expanded. */
  lemma BuildingDone(A: Nfa, D: Nfa, ids: map<set<State>, State>, sub: map<State, set<State>>, last: State)
    requires Building(A, D, ids, sub, last, [])
    ensures Numbering(A, sub) && Drawn(A, D, sub) && Complete(A, D, sub)
  {
    assert Pending([]) == {};
  }

  /** Changing only the start and final marks keeps the arcs sound, every
      number entered and every number expanded. */
  lemma ArcsFinish(A: Nfa, D: Nfa, D': Nfa, sub: map<State, set<State>>)
    requires ArcsSound(A, D, sub) && Entered(D, sub) && Complete(A, D, sub)
    requires D'.trans == D.trans
    ensures ArcsSound(A, D', sub) && Entered(D', sub) && Complete(A, D', sub)
  {
    forall q | q in sub
      ensures ExpandedOn(A, D', sub, q, Alphabet(A.trans))
    {
      assert ExpandedOn(A, D, sub, q, Alphabet(A.trans));
    }
  }

  /** Adding state 1 to the final states when the seed meets them turns
      the final targets into the final known states. */
  lemma FinalsFinish(A: Nfa, D: Nfa, D': Nfa, sub: map<State, set<State>>)
    requires Numbering(A, sub) && Entered(D, sub) && D'.trans == D.trans
    requires D.finals == set p | p in sub && p in Targets(D.trans) && sub[p] * A.finals != {}
    requires D'.finals == if 1 in Endpoints(D.trans) && Seed(A) * A.finals != {} then D.finals + {1} else D.finals
    ensures D'.finals == set p | p in sub && p in Endpoints(D'.trans) && sub[p] * A.finals != {}
  {
    var F := set q | q in sub && q in Endpoints(D'.trans) && sub[q] * A.finals != {};
    forall q
      ensures q in D'.finals <==> q in F
    {
      if q in sub && q != 1 {
        var t :| t in D.trans && t.to == q && t.from < q;
      }
    }
  }

  /** A chain of inclusions with one strict step is strict. */
  lemma GrowChain<T>(K0: set<T>, K1: set<T>, K2: set<T>)
    requires K0 <= K1 <= K2
    ensures K0 < K1 || K1 < K2 ==> K0 < K2
  {
    if K0 < K1 {
      var x :| x in K1 && x !in K0;
      assert x in K2;
    } else if K1 < K2 {
      var x :| x in K2 && x !in K1;
    }
  }
}
